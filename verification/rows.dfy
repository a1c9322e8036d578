/**
 * Reading the results table: each line is split on commas and either stored
 * under its normalised riding name or skipped, and the lines are folded into
 * the result store in file order.
 */
module Rows {
  import opened Wrappers
  import opened Text
  import opened Names
  import opened Parties
  import opened ResultStore

  /**
   * Python's `float()` on a field. Its grammar (signs, exponents, `inf`,
   * `nan`, surrounding blanks) is not modelled: any partial parser may be used.
   */
  type NumberParser = string -> Option<real>

  /** What happens to one line of the results table. */
  datatype RowOutcome =
    | Stored(name: string, shares: seq<real>)
    | TooFewFields     // fewer than the name and one year's shares
    | WrongFieldCount  // not exactly the name and all three years' shares
    | BadNumber        // some share field does not parse

  /** A row needs at least the name and one year of party shares to be considered. */
  const MinFields: nat := 1 + PartyCount

  /** `line.strip().split(',')`. */
  function Fields(line: string): (r: seq<string>)
    ensures |r| > 0
    ensures forall i :: 0 <= i < |r| ==> ',' !in r[i]
    ensures Join(r, ',') == Strip(line, Whitespace)
  {
    JoinSplit(Strip(line, Whitespace), ',');
    Split(Strip(line, Whitespace), ',')
  }

  /** `float(field.strip('%')) / 100`, or None where `float` raises. */
  function Percent(field: string, num: NumberParser): Option<real> {
    match num(Strip(field, {'%'}))
    case None => None
    case Some(x) => Some(x / 100.0)
  }

  /** The list comprehension over the share fields: every field converts or the row fails. */
  function ParseFractions(fields: seq<string>, num: NumberParser): (r: Option<seq<real>>)
    ensures r.Some? <==> forall i :: 0 <= i < |fields| ==> Percent(fields[i], num).Some?
    ensures r.Some? ==> |r.value| == |fields|
    ensures r.Some? ==> forall i :: 0 <= i < |fields| ==> Some(r.value[i]) == Percent(fields[i], num)
    decreases |fields|
  {
    if |fields| == 0 then Some([])
    else match Percent(fields[0], num)
      case None => None
      case Some(x) =>
        var tail := fields[1..];
        assert forall i :: 0 <= i < |tail| ==> tail[i] == fields[i + 1];
        match ParseFractions(tail, num)
        case None => None
        case Some(rest) => Some([x] + rest)
  }

  /** The decision on the fields of one line. */
  function Classify(parts: seq<string>, num: NumberParser): (r: RowOutcome)
    ensures r.TooFewFields? <==> |parts| < MinFields
    ensures r.Stored? <==>
      && |parts| == 1 + RowWidth
      && forall i :: 1 <= i <= RowWidth ==> Percent(parts[i], num).Some?
    ensures r.Stored? ==>
      && r.name == Normalize(parts[0])
      && |r.shares| == RowWidth
      && forall i :: 0 <= i < RowWidth ==> Some(r.shares[i]) == Percent(parts[i + 1], num)
  {
    if |parts| < MinFields then TooFewFields
    else if |parts| != 1 + RowWidth then WrongFieldCount
    else
      var values := parts[1..];
      assert forall i :: 1 <= i <= RowWidth ==> parts[i] == values[i - 1];
      match ParseFractions(values, num)
      case None => BadNumber
      case Some(v) => Stored(Normalize(parts[0]), v)
  }

  /** One iteration of the parsing loop, as a decision. */
  function ParseRow(line: string, num: NumberParser): RowOutcome
  {
    Classify(Fields(line), num)
  }

  /** True when `line` is accepted and stored under `name`. */
  predicate StoresAs(line: string, num: NumberParser, name: string) {
    ParseRow(line, num).Stored? && ParseRow(line, num).name == name
  }

  /** The effect of one line on the store. */
  function Ingest(store: Store, line: string, num: NumberParser): (r: Store)
    ensures !ParseRow(line, num).Stored? ==> r == store
    ensures ParseRow(line, num).Stored? ==>
      var row := ParseRow(line, num);
      && Lookup(r, row.name) == Some(row.shares)
      && forall other :: other != row.name ==> Lookup(r, other) == Lookup(store, other)
    ensures Valid(store) ==> Valid(r)
  {
    match ParseRow(line, num)
    case Stored(name, shares) =>
      PutValid(store, name, shares);
      Put(store, name, shares)
    case _ => store
  }

  /** A line not stored under `name` leaves what the store holds for `name`. */
  lemma IngestOtherName(store: Store, line: string, num: NumberParser, name: string)
    requires !StoresAs(line, num, name)
    ensures Lookup(Ingest(store, line, num), name) == Lookup(store, name)
  {
  }

  /** The parsing loop, over the lines in file order. */
  function IngestAll(store: Store, lines: seq<string>, num: NumberParser): (r: Store)
    ensures Valid(store) ==> Valid(r)
    decreases |lines|
  {
    if |lines| == 0 then store
    else IngestAll(Ingest(store, lines[0], num), lines[1..], num)
  }

  /** `parse_results` without the file: the store built from an empty dictionary. */
  function ParseResults(lines: seq<string>, num: NumberParser): (r: Store)
    ensures Valid(r)
  {
    IngestAll([], lines, num)
  }

  /** The fold consumes lines in order: one more line is one more step at the end. */
  lemma {:induction false} IngestAllSnoc(store: Store, lines: seq<string>, line: string, num: NumberParser)
    ensures IngestAll(store, lines + [line], num) == Ingest(IngestAll(store, lines, num), line, num)
    decreases |lines|
  {
    if |lines| > 0 {
      assert (lines + [line])[1..] == lines[1..] + [line];
      IngestAllSnoc(Ingest(store, lines[0], num), lines[1..], line, num);
    }
  }

  /**
   * Last row wins: the entry of an accepted line survives exactly when no later
   * line is accepted under the same name.
   */
  lemma {:induction false} LastRowWins(lines: seq<string>, num: NumberParser, j: nat)
    requires j < |lines| && ParseRow(lines[j], num).Stored?
    requires forall i :: j < i < |lines| ==> !StoresAs(lines[i], num, ParseRow(lines[j], num).name)
    ensures Lookup(ParseResults(lines, num), ParseRow(lines[j], num).name) == Some(ParseRow(lines[j], num).shares)
    decreases |lines|
  {
    var n := |lines| - 1;
    assert lines == lines[..n] + [lines[n]];
    IngestAllSnoc([], lines[..n], lines[n], num);
    if j < n {
      LastRowWins(lines[..n], num, j);
    }
  }

  /** Lines none of which is accepted under `name` leave what the store holds for `name`. */
  lemma {:induction false} IngestAllOtherName(store: Store, lines: seq<string>, num: NumberParser, name: string)
    requires forall i :: 0 <= i < |lines| ==> !StoresAs(lines[i], num, name)
    ensures Lookup(IngestAll(store, lines, num), name) == Lookup(store, name)
    decreases |lines|
  {
    if |lines| > 0 {
      var rest := lines[1..];
      assert forall i :: 0 <= i < |rest| ==> rest[i] == lines[i + 1];
      IngestOtherName(store, lines[0], num, name);
      IngestAllOtherName(Ingest(store, lines[0], num), rest, num, name);
    }
  }

  /** A name no line is accepted under is not in the store: skipped lines store nothing. */
  lemma NeverStoredAbsent(lines: seq<string>, num: NumberParser, name: string)
    requires forall i :: 0 <= i < |lines| ==> !StoresAs(lines[i], num, name)
    ensures Lookup(ParseResults(lines, num), name) == None
  {
    IngestAllOtherName([], lines, num, name);
  }

  /** A row of the wrong width is skipped, whatever its fields hold. */
  lemma WrongWidthSkipped(line: string, num: NumberParser)
    requires MinFields <= |Fields(line)| != 1 + RowWidth
    ensures ParseRow(line, num) == WrongFieldCount
  {
  }

  /** A full-width row with one unreadable share is skipped entirely. */
  lemma BadFieldSkipsRow(parts: seq<string>, num: NumberParser, i: nat)
    requires |parts| == 1 + RowWidth && 1 <= i <= RowWidth
    ensures Percent(parts[i], num).None? ==> Classify(parts, num) == BadNumber
  {
  }

  /** `strip('%')` turns "20%" into "20". */
  lemma StripTrailingPercent()
    ensures Strip("20%", {'%'}) == "20"
  {
    var m, b := "20", "%";
    assert "" + m + b == "20%";
    StripBetween("", m, b, {'%'});
  }

  /** `strip('%')` removes percent signs from both ends, however many. */
  lemma StripPercentBothEnds()
    ensures Strip("%%5%", {'%'}) == "5"
  {
    StripBetween("%%", "5", "%", {'%'});
  }

  /** `strip('%')` keeps a percent sign that is not at either end. */
  lemma StripKeepsInnerPercent()
    ensures Strip("1%2", {'%'}) == "1%2"
  {
    StripBetween("", "1%2", "", {'%'});
  }
}
