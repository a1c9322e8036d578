/** String primitives of Python used by the map maker: `replace`, `split`, `strip`. */
module Text {

  /** True when `pat` occurs in `s` as a contiguous block. */
  predicate Contains(s: string, pat: string)
    decreases |s|
  {
    pat <= s || (|s| > 0 && Contains(s[1..], pat))
  }

  /**
   * `s.replace(pat, rep)`: every occurrence of `pat`, taken left to right
   * without overlap, is replaced by `rep`.
   */
  function Replace(s: string, pat: string, rep: string): (r: string)
    requires |pat| > 0
    ensures !Contains(s, pat) ==> r == s
    decreases |s|
  {
    if |s| == 0 then []
    else if pat <= s then rep + Replace(s[|pat|..], pat, rep)
    else [s[0]] + Replace(s[1..], pat, rep)
  }

  /** No occurrence of `pat` in `x + y` starts inside `x` and ends inside `y`. */
  predicate NoStraddle(x: string, y: string, pat: string) {
    forall k :: 0 <= k < |x| < k + |pat| ==> !(pat <= (x + y)[k..])
  }

  /** Dropping a prefix of `x` keeps the boundary free of straddling occurrences. */
  lemma NoStraddleSuffix(x: string, y: string, pat: string, d: nat)
    requires d <= |x| && NoStraddle(x, y, pat)
    ensures NoStraddle(x[d..], y, pat)
  {
    var x' := x[d..];
    forall k | 0 <= k < |x'| < k + |pat|
      ensures !(pat <= (x' + y)[k..])
    {
      assert (x' + y)[k..] == (x + y)[k + d..];
    }
  }

  /** A boundary whose next character occurs in `pat` only at its start cannot be straddled. */
  lemma LeadBlocksStraddle(x: string, y: string, pat: string)
    requires |y| > 0
    requires forall j :: 1 <= j < |pat| ==> pat[j] != y[0]
    ensures NoStraddle(x, y, pat)
  {
    forall k | 0 <= k < |x| < k + |pat|
      ensures !(pat <= (x + y)[k..])
    {
      var j := |x| - k;
      assert (x + y)[k..][j] == y[0] != pat[j];
    }
  }

  /** `replace` works on the two sides of a boundary separately when no occurrence straddles it. */
  lemma {:induction false} ReplaceAppend(x: string, y: string, pat: string, rep: string)
    requires |pat| > 0 && NoStraddle(x, y, pat)
    ensures Replace(x + y, pat, rep) == Replace(x, pat, rep) + Replace(y, pat, rep)
    decreases |x|
  {
    var s := x + y;
    if |x| == 0 {
      assert s == y;
    } else if pat <= s {
      assert |pat| <= |x| by {
        assert s[0..] == s;
      }
      assert s[..|pat|] == x[..|pat|];
      var rest := x[|pat|..];
      assert s[|pat|..] == rest + y;
      NoStraddleSuffix(x, y, pat, |pat|);
      ReplaceAppend(rest, y, pat, rep);
    } else {
      assert |pat| <= |x| ==> s[..|pat|] == x[..|pat|];
      var rest := x[1..];
      assert s[1..] == rest + y;
      NoStraddleSuffix(x, y, pat, 1);
      ReplaceAppend(rest, y, pat, rep);
    }
  }

  /** Replacing a single character acts on each position independently. */
  lemma {:induction false} ReplaceCharPointwise(s: string, c: char, d: char)
    ensures |Replace(s, [c], [d])| == |s|
    ensures forall i :: 0 <= i < |s| ==> Replace(s, [c], [d])[i] == (if s[i] == c then d else s[i])
    decreases |s|
  {
    if |s| > 0 {
      ReplaceCharPointwise(s[1..], c, d);
    }
  }

  /** Every character of the output comes from the input or from the replacement. */
  lemma {:induction false} ReplaceIntroducesOnly(s: string, pat: string, rep: string, x: char)
    requires |pat| > 0
    requires x in Replace(s, pat, rep)
    ensures x in s || x in rep
    decreases |s|
  {
    var r := Replace(s, pat, rep);
    if pat <= s {
      var rest := Replace(s[|pat|..], pat, rep);
      assert r == rep + rest;
      if x !in rep {
        assert x in rest;
        ReplaceIntroducesOnly(s[|pat|..], pat, rep, x);
        assert x in s[|pat|..];
      }
    } else {
      var rest := Replace(s[1..], pat, rep);
      assert r == [s[0]] + rest;
      if x != s[0] {
        ReplaceIntroducesOnly(s[1..], pat, rep, x);
      }
    }
  }

  /**
   * With a one-character replacement `h` that does not occur in `pat`, any
   * prefix of the output free of `h` was copied unchanged from the input.
   */
  lemma {:induction false} ReplacePrefixKept(s: string, pat: string, h: char, m: nat)
    requires |pat| > 0
    requires m <= |Replace(s, pat, [h])|
    requires forall i :: 0 <= i < m ==> Replace(s, pat, [h])[i] != h
    ensures m <= |s| && s[..m] == Replace(s, pat, [h])[..m]
    decreases |s|
  {
    if m > 0 {
      var r := Replace(s, pat, [h]);
      assert r[0] != h;
      assert r[0] == (if pat <= s then h else s[0]);
      if !(pat <= s) {
        var rest := Replace(s[1..], pat, [h]);
        assert r == [s[0]] + rest;
        forall i | 0 <= i < m - 1
          ensures rest[i] != h
        {
          assert rest[i] == r[i + 1];
        }
        ReplacePrefixKept(s[1..], pat, h, m - 1);
        assert s[..m] == [s[0]] + s[1..][..m - 1];
        assert r[..m] == [s[0]] + rest[..m - 1];
      }
    }
  }

  /** After replacing `pat` by a character it does not contain, no `pat` is left. */
  lemma {:induction false} ReplaceRemovesAll(s: string, pat: string, h: char)
    requires |pat| > 0 && h !in pat
    ensures !Contains(Replace(s, pat, [h]), pat)
    decreases |s|
  {
    var r := Replace(s, pat, [h]);
    if |s| == 0 {
    } else if pat <= s {
      var rest := Replace(s[|pat|..], pat, [h]);
      assert r == [h] + rest;
      assert r[1..] == rest;
      ReplaceRemovesAll(s[|pat|..], pat, h);
      assert r[0] == h && pat[0] != h;
    } else {
      var rest := Replace(s[1..], pat, [h]);
      assert r == [s[0]] + rest;
      assert r[1..] == rest;
      ReplaceRemovesAll(s[1..], pat, h);
      if |pat| <= |r| && forall i :: 0 <= i < |pat| ==> r[i] != h {
        ReplacePrefixKept(s, pat, h, |pat|);
        assert s[..|pat|] != pat;
      }
    }
  }

  /** `s.split(sep)`: the maximal runs between separators, empty runs kept. */
  function Split(s: string, sep: char): (r: seq<string>)
    ensures |r| > 0
    ensures forall i :: 0 <= i < |r| ==> sep !in r[i]
    decreases |s|
  {
    if |s| == 0 then [""]
    else if s[0] == sep then [""] + Split(s[1..], sep)
    else
      var rest := Split(s[1..], sep);
      [[s[0]] + rest[0]] + rest[1..]
  }

  /** `sep.join(parts)`. */
  function Join(parts: seq<string>, sep: char): string
    requires |parts| > 0
    decreases |parts|
  {
    if |parts| == 1 then parts[0] else parts[0] + [sep] + Join(parts[1..], sep)
  }

  /** The number of occurrences of `c` in `s`. */
  function Count(s: string, c: char): nat
    decreases |s|
  {
    if |s| == 0 then 0 else (if s[0] == c then 1 else 0) + Count(s[1..], c)
  }

  /** Splitting loses nothing: joining the fields back gives the line. */
  lemma {:induction false} JoinSplit(s: string, sep: char)
    ensures Join(Split(s, sep), sep) == s
    decreases |s|
  {
    if |s| > 0 {
      JoinSplit(s[1..], sep);
      var rest := Split(s[1..], sep);
      if s[0] == sep {
        assert Split(s, sep)[1..] == rest;
      } else {
        var r := Split(s, sep);
        if |rest| == 1 {
          assert r == [[s[0]] + rest[0]];
        } else {
          assert r[1..] == rest[1..];
          assert Join(rest, sep) == rest[0] + [sep] + Join(rest[1..], sep);
        }
      }
    }
  }

  /** There is one field more than there are separators. */
  lemma {:induction false} SplitCount(s: string, sep: char)
    ensures |Split(s, sep)| == Count(s, sep) + 1
    decreases |s|
  {
    if |s| > 0 {
      SplitCount(s[1..], sep);
    }
  }

  /** `s.lstrip(chars)`: drops the longest prefix made of characters of `cs`. */
  function TrimLeft(s: string, cs: set<char>): (r: string)
    ensures |r| <= |s| && r == s[|s| - |r|..]
    ensures forall k :: 0 <= k < |s| - |r| ==> s[k] in cs
    ensures |r| > 0 ==> r[0] !in cs
    decreases |s|
  {
    if |s| > 0 && s[0] in cs then TrimLeft(s[1..], cs) else s
  }

  /** `s.rstrip(chars)`: drops the longest suffix made of characters of `cs`. */
  function TrimRight(s: string, cs: set<char>): (r: string)
    ensures |r| <= |s| && r == s[..|r|]
    ensures forall k :: |r| <= k < |s| ==> s[k] in cs
    ensures |r| > 0 ==> r[|r| - 1] !in cs
    decreases |s|
  {
    if |s| > 0 && s[|s| - 1] in cs then TrimRight(s[..|s| - 1], cs) else s
  }

  /** `s.strip(chars)`: both ends trimmed. */
  function Strip(s: string, cs: set<char>): string
  {
    TrimRight(TrimLeft(s, cs), cs)
  }

  /** A leading run of stripped characters is skipped. */
  lemma {:induction false} TrimLeftSkips(a: string, rest: string, cs: set<char>)
    requires forall i :: 0 <= i < |a| ==> a[i] in cs
    ensures TrimLeft(a + rest, cs) == TrimLeft(rest, cs)
    decreases |a|
  {
    if |a| > 0 {
      assert (a + rest)[0] == a[0] && (a + rest)[1..] == a[1..] + rest;
      TrimLeftSkips(a[1..], rest, cs);
    } else {
      assert a + rest == rest;
    }
  }

  /** A trailing run of stripped characters is skipped. */
  lemma {:induction false} TrimRightSkips(rest: string, b: string, cs: set<char>)
    requires forall i :: 0 <= i < |b| ==> b[i] in cs
    ensures TrimRight(rest + b, cs) == TrimRight(rest, cs)
    decreases |b|
  {
    if |b| > 0 {
      var n := |b| - 1;
      assert (rest + b)[|rest + b| - 1] == b[n] && (rest + b)[..|rest + b| - 1] == rest + b[..n];
      TrimRightSkips(rest, b[..n], cs);
    } else {
      assert rest + b == rest;
    }
  }

  /** Stripping takes off exactly the stripped characters around a core that starts and ends with a kept one. */
  lemma StripBetween(a: string, m: string, b: string, cs: set<char>)
    requires forall i :: 0 <= i < |a| ==> a[i] in cs
    requires forall i :: 0 <= i < |b| ==> b[i] in cs
    requires |m| > 0 && m[0] !in cs && m[|m| - 1] !in cs
    ensures Strip(a + m + b, cs) == m
  {
    assert a + m + b == a + (m + b);
    TrimLeftSkips(a, m + b, cs);
    assert TrimLeft(m + b, cs) == m + b;
    TrimRightSkips(m, b, cs);
  }

  /** Stripping twice is stripping once. */
  lemma StripIdempotent(s: string, cs: set<char>)
    ensures Strip(Strip(s, cs), cs) == Strip(s, cs)
  {
    var t := Strip(s, cs);
    assert TrimLeft(t, cs) == t;
  }

  /** The characters `str.isspace()` accepts, which `str.strip()` removes by default. */
  const Whitespace: set<char> := {
    '\t', '\n', '\U{b}', '\U{c}', '\r', '\U{1c}', '\U{1d}', '\U{1e}', '\U{1f}', ' ',
    '\U{85}', '\U{a0}', '\U{1680}',
    '\U{2000}', '\U{2001}', '\U{2002}', '\U{2003}', '\U{2004}', '\U{2005}',
    '\U{2006}', '\U{2007}', '\U{2008}', '\U{2009}', '\U{200a}',
    '\U{2028}', '\U{2029}', '\U{202f}', '\U{205f}', '\U{3000}'
  }
}
