/**
 * The JavaScript string operations the OBJ reader relies on:
 * String.prototype.split with a one-character separator, the
 * `indexOf(prefix) === 0` test, and parseInt without a radix.
 */
module Text {
  import opened Wrappers

  /** The inverse of split: the parts glued together with `sep` between them. */
  function Join(parts: seq<string>, sep: char): string
    requires |parts| >= 1
  {
    if |parts| == 1 then parts[0] else parts[0] + [sep] + Join(parts[1..], sep)
  }

  /**
   * s.split(sep): the maximal pieces between separators, so the empty string
   * gives [""] and a leading, trailing or doubled separator gives an empty piece.
   */
  function Split(s: string, sep: char): (r: seq<string>)
    ensures |r| >= 1
    ensures forall k :: 0 <= k < |r| ==> sep !in r[k]
  {
    if |s| == 0 then [""]
    else if s[0] == sep then [""] + Split(s[1..], sep)
    else
      var rest := Split(s[1..], sep);
      [[s[0]] + rest[0]] + rest[1..]
  }

  /** Joining the pieces with the separator gives back the string. */
  lemma {:induction false} JoinSplit(s: string, sep: char)
    ensures Join(Split(s, sep), sep) == s
  {
    if |s| > 0 {
      JoinSplit(s[1..], sep);
      if s[0] == sep {
        assert ([""] + Split(s[1..], sep))[1..] == Split(s[1..], sep);
      } else {
        var rest := Split(s[1..], sep);
        var r := [[s[0]] + rest[0]] + rest[1..];
        if |rest| > 1 {
          assert r[1..] == rest[1..];
          assert Join(rest, sep) == rest[0] + [sep] + Join(rest[1..], sep);
        }
      }
    }
  }

  /** A piece free of the separator is split off as it is. */
  lemma {:induction false} SplitPiece(p: string, t: string, sep: char)
    requires sep !in p
    ensures Split(p, sep) == [p]
    ensures Split(p + [sep] + t, sep) == [p] + Split(t, sep)
  {
    if |p| > 0 {
      SplitPiece(p[1..], t, sep);
      assert (p + [sep] + t)[1..] == p[1..] + [sep] + t;
      assert [p[0]] + p[1..] == p;
    } else {
      assert p + [sep] + t == [sep] + t;
    }
  }

  /** Splitting undoes joining when no part holds the separator. */
  lemma {:induction false} SplitJoin(parts: seq<string>, sep: char)
    requires |parts| >= 1
    requires forall k :: 0 <= k < |parts| ==> sep !in parts[k]
    ensures Split(Join(parts, sep), sep) == parts
  {
    if |parts| == 1 {
      SplitPiece(parts[0], "", sep);
    } else {
      SplitJoin(parts[1..], sep);
      SplitPiece(parts[0], Join(parts[1..], sep), sep);
      assert [parts[0]] + parts[1..] == parts;
    }
  }

  /** s.indexOf(prefix) === 0 */
  predicate StartsWith(s: string, prefix: string) {
    |prefix| <= |s| && s[..|prefix|] == prefix
  }

  predicate IsDigit(c: char) { '0' <= c <= '9' }

  /** The longest prefix of `s` made of decimal digits. */
  function DigitPrefix(s: string): (d: string)
    ensures |d| <= |s| && d == s[..|d|]
    ensures forall k :: 0 <= k < |d| ==> IsDigit(d[k])
    ensures |d| == |s| || !IsDigit(s[|d|])
  {
    if |s| > 0 && IsDigit(s[0]) then [s[0]] + DigitPrefix(s[1..]) else ""
  }

  /** The value of a string of decimal digits, most significant first. */
  function DigitsValue(d: string): (n: nat)
    requires forall k :: 0 <= k < |d| ==> IsDigit(d[k])
  {
    if |d| == 0 then 0
    else
      assert IsDigit(d[|d| - 1]);
      DigitsValue(d[..|d| - 1]) * 10 + (d[|d| - 1] as int - '0' as int)
  }

  /**
   * parseInt(s) without a radix: an optional sign, then the maximal run of
   * decimal digits; no digits gives NaN, written None.
   */
  function ParseInt(s: string): (r: Option<int>)
    ensures r.None? <==> |DigitPrefix(if |s| > 0 && (s[0] == '-' || s[0] == '+') then s[1..] else s)| == 0
  {
    var signed := |s| > 0 && (s[0] == '-' || s[0] == '+');
    var body := if signed then s[1..] else s;
    var digits := DigitPrefix(body);
    var n: int := if |digits| == 0 then 0 else DigitsValue(digits);
    if |digits| == 0 then None
    else if signed && s[0] == '-' then Some(-n)
    else Some(n)
  }

  /** The maximal digit prefix of digits followed by a non-digit is those digits. */
  lemma {:induction false} DigitPrefixStops(d: string, t: string)
    requires forall k :: 0 <= k < |d| ==> IsDigit(d[k])
    requires |t| == 0 || !IsDigit(t[0])
    ensures DigitPrefix(d + t) == d
  {
    if |d| > 0 {
      DigitPrefixStops(d[1..], t);
      assert (d + t)[1..] == d[1..] + t;
      assert [d[0]] + d[1..] == d;
    } else {
      assert d + t == t;
    }
  }

  /** parseInt reads the leading integer and ignores whatever follows a non-digit. */
  lemma LeadingInteger(d: string, t: string)
    requires |d| > 0 && forall k :: 0 <= k < |d| ==> IsDigit(d[k])
    requires |t| == 0 || !IsDigit(t[0])
    ensures ParseInt(d + t) == Some(DigitsValue(d) as int)
    ensures ParseInt("-" + (d + t)) == Some(-(DigitsValue(d) as int))
  {
    DigitPrefixStops(d, t);
    DigitsParsed(d, d + t);
    NegatedDigitsParsed(d, d + t);
  }

  /** parseInt of a string whose maximal digit prefix is `d` */
  lemma DigitsParsed(d: string, u: string)
    requires |d| > 0 && forall k :: 0 <= k < |d| ==> IsDigit(d[k])
    requires DigitPrefix(u) == d
    ensures ParseInt(u) == Some(DigitsValue(d) as int)
  {
    assert u[0] == d[0];
  }

  /** parseInt of "-" followed by a string whose maximal digit prefix is `d` */
  lemma NegatedDigitsParsed(d: string, u: string)
    requires |d| > 0 && forall k :: 0 <= k < |d| ==> IsDigit(d[k])
    requires DigitPrefix(u) == d
    ensures ParseInt("-" + u) == Some(-(DigitsValue(d) as int))
  {
    var v := "-" + u;
    assert v[1..] == u;
  }
}
