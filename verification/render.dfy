/**
 * The per-riding part of `update_svg_fill`: project the chosen year's shares,
 * pick the winner, choose the fill, and set it on every map element whose
 * normalised `data-riding` names a stored riding. The map document is the
 * sequence of its elements, each a map of attribute names to values.
 */
module Render {
  import opened Wrappers
  import opened Names
  import opened Parties
  import opened ResultStore
  import opened Averages
  import opened Projection
  import opened Ranking
  import opened Colour

  /** The projected winner and margin for one stored row. */
  function RidingOutcome(shares: seq<real>, averages: seq<real>, targets: Targets, y: nat): Outcome
    requires |shares| == RowWidth && |averages| == PartyCount && y < YearCount
  {
    Decide(Project(YearSlice(shares, y), averages, targets))
  }

  /** The fill colour for one stored row. */
  function RidingFill(shares: seq<real>, averages: seq<real>, targets: Targets, y: nat): string
    requires |shares| == RowWidth && |averages| == PartyCount && y < YearCount
  {
    var o := RidingOutcome(shares, averages, targets, y);
    FillColor(o.winner, o.margin)
  }

  datatype Element = Element(attrs: map<string, string>)

  const DataRiding: string := "data-riding"
  const FillAttr: string := "fill"

  /** The stored row an element's `data-riding` names, after normalisation, if any. */
  function ElementRow(e: Element, store: Store): (r: Option<seq<real>>)
    ensures DataRiding !in e.attrs ==> r.None?
    ensures DataRiding in e.attrs ==>
      (r.Some? <==> exists i :: 0 <= i < |store| && store[i].name == Normalize(e.attrs[DataRiding]))
    ensures r.Some? ==> exists i :: 0 <= i < |store| && store[i] == Entry(Normalize(e.attrs[DataRiding]), r.value)
    ensures FullRows(store) && r.Some? ==> |r.value| == RowWidth
  {
    if DataRiding in e.attrs then Lookup(store, Normalize(e.attrs[DataRiding])) else None
  }

  /** A row found in a store of full rows is full. */
  lemma LookupFull(store: Store, name: string)
    requires FullRows(store) && Lookup(store, name).Some?
    ensures |Lookup(store, name).value| == RowWidth
  {
  }

  /** One pass of the element loop: set `fill` on a matched element, leave others alone. */
  function UpdateElement(e: Element, store: Store, averages: seq<real>, targets: Targets, y: nat): (r: Element)
    requires FullRows(store) && |averages| == PartyCount && y < YearCount
    ensures ElementRow(e, store).None? ==> r == e
    ensures ElementRow(e, store).Some? ==>
      && r.attrs.Keys == e.attrs.Keys + {FillAttr}
      && (forall k :: k in e.attrs && k != FillAttr ==> r.attrs[k] == e.attrs[k])
      && r.attrs[FillAttr] == RidingFill(ElementRow(e, store).value, averages, targets, y)
  {
    match ElementRow(e, store)
    case None => e
    case Some(shares) =>
      LookupFull(store, Normalize(e.attrs[DataRiding]));
      Element(e.attrs[FillAttr := RidingFill(shares, averages, targets, y)])
  }

  /**
   * The element loop of `update_svg_fill`, with the averages computed once
   * before it. `doc` holds the root's descendants in document order; the root
   * itself is not searched. A matched element gets the computed fill and keeps
   * every other attribute; an unmatched element is untouched.
   */
  method UpdateFills(doc: seq<Element>, store: Store, targets: Targets, y: nat) returns (out: seq<Element>)
    requires FullRows(store) && y < YearCount
    ensures |out| == |doc|
    ensures forall i :: 0 <= i < |doc| && ElementRow(doc[i], store).None? ==> out[i] == doc[i]
    ensures forall i :: 0 <= i < |doc| && ElementRow(doc[i], store).Some? ==>
      && |ElementRow(doc[i], store).value| == RowWidth
      && out[i].attrs == doc[i].attrs[FillAttr := RidingFill(ElementRow(doc[i], store).value, PartyAverages(store, y), targets, y)]
  {
    var averages := PartyAverages(store, y);
    out := [];
    for i := 0 to |doc|
      invariant |out| == i
      invariant forall k :: 0 <= k < i ==> out[k] == UpdateElement(doc[k], store, averages, targets, y)
    {
      out := out + [UpdateElement(doc[i], store, averages, targets, y)];
    }
    forall i | 0 <= i < |doc| && ElementRow(doc[i], store).Some?
      ensures |ElementRow(doc[i], store).value| == RowWidth
    {
      LookupFull(store, Normalize(doc[i].attrs[DataRiding]));
    }
  }

  /** With a single riding, its own share is the average for every party it has a share for. */
  lemma SingleRidingAverages(name: string, shares: seq<real>, y: nat, p: nat)
    requires |shares| == RowWidth && y < YearCount && p < PartyCount
    ensures PartyAverages([Entry(name, shares)], y)[p] == shares[y * PartyCount + p]
  {
    var x := shares[y * PartyCount + p];
    var col := Column([Entry(name, shares)], y * PartyCount + p);
    assert col == [x];
    assert col[..|col| - 1] == [];
    assert NonzeroSum(col) == NonzeroSum([]) + (if x != 0.0 then x else 0.0);
    assert NonzeroCount(col) == NonzeroCount([]) + (if x != 0.0 then 1 else 0);
  }

  /**
   * With a single riding, a party with a positive share projects exactly to
   * its target, and any other party to 0.
   */
  lemma SingleRidingHitsTargets(name: string, shares: seq<real>, targets: Targets, y: nat, p: nat)
    requires |shares| == RowWidth && y < YearCount && p < PartyCount
    ensures var projected := Project(YearSlice(shares, y), PartyAverages([Entry(name, shares)], y), targets);
      projected[p] == if shares[y * PartyCount + p] > 0.0 then TargetOf(targets, PartyList[p]) else 0.0
  {
    SingleRidingAverages(name, shares, y, p);
    var x := shares[y * PartyCount + p];
    var t := TargetOf(targets, PartyList[p]);
    assert Project(YearSlice(shares, y), PartyAverages([Entry(name, shares)], y), targets)[p] == ProjectShare(x, t, x);
    if x > 0.0 {
      SelfRatio(x, t);
    }
  }

  /** Multiplying by `t / x` undoes the division for a positive `x`. */
  lemma SelfRatio(x: real, t: real)
    requires x > 0.0
    ensures x * (t / x) == t
  {
  }

  /** The scenario's projection: each targeted party lands on its target, the rest on 0. */
  lemma ScenarioProjection(name: string, shares: seq<real>)
    requires |shares| == RowWidth
    requires shares[..PartyCount] == [0.20, 0.30, 0.10, 0.05, 0.05, 0.05, 0.05]
    ensures Project(YearSlice(shares, 0), PartyAverages([Entry(name, shares)], 0), map[LPC := 0.40, CPC := 0.30])
      == [0.40, 0.30, 0.0, 0.0, 0.0, 0.0, 0.0]
  {
    var targets := map[LPC := 0.40, CPC := 0.30];
    var projected := Project(YearSlice(shares, 0), PartyAverages([Entry(name, shares)], 0), targets);
    forall p | 0 <= p < PartyCount
      ensures projected[p] == [0.40, 0.30, 0.0, 0.0, 0.0, 0.0, 0.0][p]
    {
      assert shares[p] == shares[..PartyCount][p];
      SingleRidingHitsTargets(name, shares, targets, 0, p);
    }
  }

  /** Liberal 0.40 against Conservative 0.30 and nothing else: a Liberal win by 0.10. */
  lemma ScenarioDecision()
    ensures Decide([0.40, 0.30, 0.0, 0.0, 0.0, 0.0, 0.0]) == Outcome(LPC, 0.10)
  {
    var projected := [0.40, 0.30, 0.0, 0.0, 0.0, 0.0, 0.0];
    DecideIsFirstMaximum(projected);
    var o := Decide(projected);
    assert projected[0] == 0.40 && projected[1] == 0.30;
    assert Index(o.winner) == 0;
  }

  /**
   * The single-riding scenario: Liberal 20%, Conservative 30%, five others at
   * 10% and 5%, targets 40% and 30%. Each targeted party projects to its
   * target and the others to 0, so the Liberals win by 0.10 and the riding is
   * drawn in the full Liberal red.
   */
  lemma SingleRidingScenario(name: string, shares: seq<real>)
    requires |shares| == RowWidth
    requires shares[..PartyCount] == [0.20, 0.30, 0.10, 0.05, 0.05, 0.05, 0.05]
    ensures var averages := PartyAverages([Entry(name, shares)], 0);
      var targets := map[LPC := 0.40, CPC := 0.30];
      && RidingOutcome(shares, averages, targets, 0) == Outcome(LPC, 0.10)
      && RidingFill(shares, averages, targets, 0) == "#ff0000"
  {
    var averages := PartyAverages([Entry(name, shares)], 0);
    var targets := map[LPC := 0.40, CPC := 0.30];
    ScenarioProjection(name, shares);
    ScenarioDecision();
    assert RidingOutcome(shares, averages, targets, 0) == Outcome(LPC, 0.10);
    BaseColorTable();
    assert FillColor(LPC, 0.10) == "#ff0000";
  }
}
