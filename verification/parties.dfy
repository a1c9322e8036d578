/** The fixed configuration of the map maker: tracked parties and years. */
module Parties {

  /** The seven tracked parties, in the order every table and loop uses. */
  datatype Party = LPC | CPC | NDP | GRN | BLOC | PPC | IND

  const PartyList: seq<Party> := [LPC, CPC, NDP, GRN, BLOC, PPC, IND]
  const PartyCount: nat := 7
  /** Number of elections each results row covers, most recent first. */
  const YearCount: nat := 3
  /** Vote fields per results row: one per party per year, year-major. */
  const RowWidth: nat := 21

  /** The position of a party in the party list. */
  function Index(p: Party): (i: nat)
    ensures i < PartyCount && PartyList[i] == p
  {
    match p
    case LPC => 0
    case CPC => 1
    case NDP => 2
    case GRN => 3
    case BLOC => 4
    case PPC => 5
    case IND => 6
  }

  /** The party list names each party exactly once. */
  lemma IndexInverse(i: nat)
    requires i < PartyCount
    ensures Index(PartyList[i]) == i
  {
  }

  /** The seven shares of year slice `y` of a row: fields `[7y, 7y+7)`. */
  function YearSlice(shares: seq<real>, y: nat): (r: seq<real>)
    requires y < YearCount && |shares| == RowWidth
    ensures |r| == PartyCount
    ensures forall p :: 0 <= p < PartyCount ==> r[p] == shares[y * PartyCount + p]
  {
    shares[y * PartyCount..(y + 1) * PartyCount]
  }
}
