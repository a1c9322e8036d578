/**
 * Riding names as both data sources spell them. The results table and the map
 * annotations were written independently and disagree on dash glyphs, so every
 * name is normalised before it is stored or looked up.
 */
module Names {
  import opened Text

  const EmDash: char := '\U{2014}'
  const EnDash: char := '\U{2013}'
  const MinusSign: char := '\U{2212}'
  const Hyphen: char := '-'

  /** The UTF-8 bytes of an em dash mis-read as Windows-1252: `â€”`. */
  const Mojibake: string := ['\U{e2}', '\U{20ac}', '\U{201d}']

  /** The single-character glyphs that all mean "hyphen" in a riding name. */
  const DashGlyphs: set<char> := {EmDash, EnDash, MinusSign, Hyphen}

  /** The first three replacements: each dash glyph becomes a hyphen. */
  function DashesToHyphens(name: string): (r: string)
    ensures |r| == |name|
    ensures forall i :: 0 <= i < |name| ==> r[i] == (if name[i] in DashGlyphs then Hyphen else name[i])
  {
    var a := Replace(name, [EmDash], [Hyphen]);
    var b := Replace(a, [EnDash], [Hyphen]);
    var c := Replace(b, [MinusSign], [Hyphen]);
    ReplaceCharPointwise(name, EmDash, Hyphen);
    ReplaceCharPointwise(a, EnDash, Hyphen);
    ReplaceCharPointwise(b, MinusSign, Hyphen);
    c
  }

  /**
   * The canonical form of a riding name: em dash, en dash, minus sign and the
   * mis-decoded `â€”`, replaced in that order, each become a hyphen.
   */
  function Normalize(name: string): (r: string)
    ensures EmDash !in r && EnDash !in r && MinusSign !in r
    ensures !Contains(r, Mojibake)
  {
    var c := DashesToHyphens(name);
    var r := Replace(c, Mojibake, [Hyphen]);
    ReplaceRemovesAll(c, Mojibake, Hyphen);
    assert forall x | x in r :: x in c || x == Hyphen by {
      forall x | x in r
        ensures x in c || x == Hyphen
      {
        ReplaceIntroducesOnly(c, Mojibake, [Hyphen], x);
      }
    }
    r
  }

  /** A name that is already clean is left exactly as it is. */
  lemma NormalizeKeepsClean(name: string)
    requires EmDash !in name && EnDash !in name && MinusSign !in name
    requires !Contains(name, Mojibake)
    ensures Normalize(name) == name
  {
    assert DashesToHyphens(name) == name;
  }

  /** Normalising twice is normalising once. */
  lemma NormalizeIdempotent(name: string)
    ensures Normalize(Normalize(name)) == Normalize(name)
  {
    NormalizeKeepsClean(Normalize(name));
  }

  /** Two names that differ only in which dash glyph they use normalise alike. */
  lemma NormalizeDashInsensitive(s: string, t: string)
    requires |s| == |t|
    requires forall i :: 0 <= i < |s| ==> s[i] == t[i] || (s[i] in DashGlyphs && t[i] in DashGlyphs)
    ensures Normalize(s) == Normalize(t)
  {
    assert DashesToHyphens(s) == DashesToHyphens(t);
  }

  /** The first three replacements work character by character, so they split over a concatenation. */
  lemma DashesAppend(a: string, b: string)
    ensures DashesToHyphens(a + b) == DashesToHyphens(a) + DashesToHyphens(b)
  {
    var l, x, y := DashesToHyphens(a + b), DashesToHyphens(a), DashesToHyphens(b);
    forall i | 0 <= i < |l|
      ensures l[i] == (x + y)[i]
    {
      if i >= |a| {
        assert (a + b)[i] == b[i - |a|];
      }
    }
  }

  /** The first three replacements turn a dash glyph into a hyphen and leave `â€”` alone. */
  lemma DashesAround(a: string, b: string, g: char)
    requires g in DashGlyphs
    ensures DashesToHyphens(a + Mojibake + b) == DashesToHyphens(a) + Mojibake + DashesToHyphens(b)
    ensures DashesToHyphens(a + [g] + b) == DashesToHyphens(a) + [Hyphen] + DashesToHyphens(b)
  {
    DashesAppend(a + Mojibake, b);
    DashesAppend(a, Mojibake);
    assert DashesToHyphens(Mojibake) == Mojibake;
    DashesAppend(a + [g], b);
    DashesAppend(a, [g]);
    assert DashesToHyphens([g]) == [Hyphen];
  }

  /** The last replacement turns `â€”` into a hyphen wherever it stands. */
  lemma MojibakeAsHyphen(x: string, y: string)
    ensures Replace(x + Mojibake + y, Mojibake, [Hyphen]) == Replace(x + [Hyphen] + y, Mojibake, [Hyphen])
  {
    var m, h := Mojibake + y, [Hyphen] + y;
    assert x + Mojibake + y == x + m && x + [Hyphen] + y == x + h;
    LeadBlocksStraddle(x, m, Mojibake);
    LeadBlocksStraddle(x, h, Mojibake);
    ReplaceAppend(x, m, Mojibake, [Hyphen]);
    ReplaceAppend(x, h, Mojibake, [Hyphen]);
    assert m[|Mojibake|..] == y && h[1..] == y;
    assert Replace(m, Mojibake, [Hyphen]) == [Hyphen] + Replace(y, Mojibake, [Hyphen]);
    assert Replace(h, Mojibake, [Hyphen]) == [Hyphen] + Replace(y, Mojibake, [Hyphen]);
  }

  /**
   * The mis-decoded spelling counts as a dash glyph: writing `â€”` where any
   * dash glyph stands gives the same normalised name, whatever surrounds it.
   */
  lemma NormalizeMojibakeInsensitive(a: string, b: string, g: char)
    requires g in DashGlyphs
    ensures Normalize(a + Mojibake + b) == Normalize(a + [g] + b)
  {
    DashesAround(a, b, g);
    MojibakeAsHyphen(DashesToHyphens(a), DashesToHyphens(b));
  }

  /** Without its lead character the mis-decoded dash cannot occur. */
  lemma {:induction false} NoMojibakeWithoutLead(s: string)
    requires Mojibake[0] !in s
    ensures !Contains(s, Mojibake)
    decreases |s|
  {
    if |s| > 0 {
      NoMojibakeWithoutLead(s[1..]);
    }
  }

  /** Every single-glyph spelling of "A-B" becomes the plain hyphen. */
  lemma NormalizeGlyphExamples()
    ensures Normalize(['A', EmDash, 'B']) == "A-B"
    ensures Normalize(['A', EnDash, 'B']) == "A-B"
    ensures Normalize(['A', MinusSign, 'B']) == "A-B"
  {
    NoMojibakeWithoutLead("A-B");
    NormalizeKeepsClean("A-B");
    NormalizeDashInsensitive(['A', EmDash, 'B'], "A-B");
    NormalizeDashInsensitive(['A', EnDash, 'B'], "A-B");
    NormalizeDashInsensitive(['A', MinusSign, 'B'], "A-B");
  }

  /** The mis-decoded spelling of "A-B" becomes the plain hyphen too. */
  lemma NormalizeMojibakeExample()
    ensures Normalize(['A'] + Mojibake + ['B']) == "A-B"
  {
    var m := ['A'] + Mojibake + ['B'];
    assert DashesToHyphens(m) == m;
    NoMojibakeWithoutLead("B");
    assert Replace("B", Mojibake, [Hyphen]) == "B";
    assert Mojibake <= m[1..] && m[1..][3..] == "B";
    assert Replace(m[1..], Mojibake, [Hyphen]) == "-B";
    assert !(Mojibake <= m);
  }
}
