/** What the OBJ reader promises, proved about the functions of ObjLoader. */
module ObjLoaderProperties {
  import opened Wrappers
  import opened JsNumber
  import opened Text
  import opened ObjLoader

  // ---------------------------------------------------------------------------
  // Line filtering

  /** Lines contribute in file order: what a concatenation contributes is the concatenation of the contributions. */
  lemma {:induction false} GatherConcat<T>(a: seq<string>, b: seq<string>, contribution: string -> seq<T>)
    ensures Gather(a + b, contribution) == Gather(a, contribution) + Gather(b, contribution)
  {
    if |b| == 0 {
      assert a + b == a;
    } else {
      var b' := b[..|b| - 1];
      GatherConcat(a, b', contribution);
      var ab := a + b;
      assert ab[..|ab| - 1] == a + b' && ab[|ab| - 1] == b[|b| - 1];
    }
  }

  lemma DataOfConcat(a: seq<string>, b: seq<string>, parseFloat: string -> real)
    ensures VertexData(a + b, parseFloat) == VertexData(a, parseFloat) + VertexData(b, parseFloat)
    ensures IndexData(a + b) == IndexData(a) + IndexData(b)
  {
    GatherConcat(a, b, line => LineVertices(line, parseFloat));
    GatherConcat(a, b, LineIndices);
  }

  lemma GatherOne<T>(line: string, contribution: string -> seq<T>)
    ensures Gather([line], contribution) == contribution(line)
  {
    assert [line][..0] == [];
  }

  /** A line that contributes nothing can be dropped. */
  lemma GatherSkip<T>(a: seq<string>, line: string, b: seq<string>, contribution: string -> seq<T>)
    requires contribution(line) == []
    ensures Gather(a + [line] + b, contribution) == Gather(a + b, contribution)
  {
    GatherConcat(a + [line], b, contribution);
    GatherConcat(a, [line], contribution);
    GatherConcat(a, b, contribution);
    GatherOne(line, contribution);
  }

  /** A line that starts with neither "v " nor "f " changes neither list. */
  lemma SkippedLine(a: seq<string>, line: string, b: seq<string>, parseFloat: string -> real)
    requires !IsVertexLine(line) && !IsFaceLine(line)
    ensures VertexData(a + [line] + b, parseFloat) == VertexData(a + b, parseFloat)
    ensures IndexData(a + [line] + b) == IndexData(a + b)
  {
    var vertices := l => LineVertices(l, parseFloat);
    assert vertices(line) == [];
    GatherSkip(a, line, b, vertices);
    GatherSkip(a, line, b, LineIndices);
  }

  /** A line is never both a "v " and an "f " line. */
  lemma LineKinds(line: string)
    ensures !(IsVertexLine(line) && IsFaceLine(line))
  {
    if IsVertexLine(line) {
      assert line[..2][0] == line[0] == 'v';
    }
  }

  // ---------------------------------------------------------------------------
  // Tokens

  /** The tokens of a line whose single-space-separated words are `words`. */
  lemma ArgumentsOfWords(words: seq<string>)
    requires |words| >= 1
    requires forall k :: 0 <= k < |words| ==> ' ' !in words[k]
    ensures Arguments(Join(words, ' ')) == words[1..]
  {
    SplitJoin(words, ' ');
  }

  /**
   * parseVertex yields one parseFloat value per token after the keyword, in
   * order, whatever the number of tokens; empty tokens from doubled or
   * trailing spaces included.
   */
  lemma ParseVertexOfWords(tokens: seq<string>, parseFloat: string -> real)
    requires forall k :: 0 <= k < |tokens| ==> ' ' !in tokens[k]
    ensures |ParseVertex(Join(["v"] + tokens, ' '), parseFloat)| == |tokens|
    ensures forall k :: 0 <= k < |tokens| ==> ParseVertex(Join(["v"] + tokens, ' '), parseFloat)[k] == parseFloat(tokens[k])
  {
    ArgumentsOfWords(["v"] + tokens);
    assert (["v"] + tokens)[1..] == tokens;
  }

  /** "v x y z" gives exactly [x, y, z]. */
  lemma ParseVertexXYZ(x: string, y: string, z: string, parseFloat: string -> real)
    requires ' ' !in x && ' ' !in y && ' ' !in z
    ensures ParseVertex(Join(["v", x, y, z], ' '), parseFloat) == [parseFloat(x), parseFloat(y), parseFloat(z)]
  {
    ParseVertexOfWords([x, y, z], parseFloat);
    assert ["v"] + [x, y, z] == ["v", x, y, z];
  }

  /** A token without spaces is passed to parseInt as it is. */
  lemma FaceIndexOfToken(token: string)
    requires ' ' !in token
    ensures FaceIndex(token) == match ParseInt(token) case None => None case Some(n) => Some(n - 1)
  {
    SplitPiece(token, "", ' ');
  }

  lemma NoSpaceInConcat(d: string, t: string)
    requires forall k :: 0 <= k < |d| ==> IsDigit(d[k])
    requires ' ' !in t
    ensures ' ' !in d + t
  {
    forall k | 0 <= k < |d + t| ensures (d + t)[k] != ' ' {
      if k < |d| { assert IsDigit(d[k]); } else { assert (d + t)[k] == t[k - |d|]; }
    }
  }

  /**
   * A face index is the token's leading integer minus one: "7/3/2" and "7"
   * both give 6.
   */
  lemma FaceIndexLeadingInteger(d: string, t: string)
    requires |d| > 0 && forall k :: 0 <= k < |d| ==> IsDigit(d[k])
    requires |t| == 0 || !IsDigit(t[0])
    requires ' ' !in t
    ensures FaceIndex(d + t) == Some(DigitsValue(d) - 1)
  {
    DigitPrefixStops(d, t);
    NoSpaceInConcat(d, t);
    DigitsIndex(d, d + t);
  }

  lemma DigitsIndex(d: string, token: string)
    requires |d| > 0 && forall k :: 0 <= k < |d| ==> IsDigit(d[k])
    requires ' ' !in token && DigitPrefix(token) == d
    ensures FaceIndex(token) == Some(DigitsValue(d) - 1)
  {
    DigitsParsed(d, token);
    FaceIndexOfToken(token);
  }

  lemma FaceIndexExample()
    ensures FaceIndex("7/3/2") == FaceIndex("7") == Some(6)
  {
    var d, t := "7", "/3/2";
    assert IsDigit(d[0]) && !IsDigit(t[0]) && ' ' !in t;
    assert DigitsValue(d) == 7 by {
      assert d[..0] == "";
    }
    FaceIndexLeadingInteger(d, t);
    FaceIndexLeadingInteger(d, "");
    assert d + t == "7/3/2";
    assert d + "" == "7";
  }

  /**
   * parseFace on "f t0 t1 ...": up to three tokens give one index each, in
   * token order; four or more give the two triangles of the first four, and
   * later tokens are dropped.
   */
  lemma ParseFaceOfWords(tokens: seq<string>)
    requires forall k :: 0 <= k < |tokens| ==> ' ' !in tokens[k]
    ensures |tokens| <= 3 ==>
      ParseFace(Join(["f"] + tokens, ' ')) == seq(|tokens|, k requires 0 <= k < |tokens| => FaceIndex(tokens[k]))
    ensures |tokens| >= 4 ==>
      ParseFace(Join(["f"] + tokens, ' ')) ==
        [FaceIndex(tokens[0]), FaceIndex(tokens[1]), FaceIndex(tokens[2]),
         FaceIndex(tokens[0]), FaceIndex(tokens[2]), FaceIndex(tokens[3])]
  {
    ArgumentsOfWords(["f"] + tokens);
    assert (["f"] + tokens)[1..] == tokens;
    if |tokens| >= 4 {
      FaceListOf(tokens);
    }
  }

  /** The face list of a sequence of tokens, triangulated when longer than three. */
  lemma FaceListOf(tokens: seq<string>)
    requires |tokens| >= 4
    ensures TriangulateFace(seq(|tokens|, k requires 0 <= k < |tokens| => FaceIndex(tokens[k]))) ==
      [FaceIndex(tokens[0]), FaceIndex(tokens[1]), FaceIndex(tokens[2]),
       FaceIndex(tokens[0]), FaceIndex(tokens[2]), FaceIndex(tokens[3])]
  {
  }

  /** A triangle "f a b c" keeps its winding. */
  lemma ParseFaceTriangle(a: string, b: string, c: string)
    requires ' ' !in a && ' ' !in b && ' ' !in c
    ensures ParseFace(Join(["f", a, b, c], ' ')) == [FaceIndex(a), FaceIndex(b), FaceIndex(c)]
  {
    var words := ["f", a, b, c];
    ArgumentsOfWords(words);
    assert words[1..] == [a, b, c];
    assert seq(3, k requires 0 <= k < 3 => FaceIndex(words[1..][k])) == [FaceIndex(a), FaceIndex(b), FaceIndex(c)];
  }

  // ---------------------------------------------------------------------------
  // Normalisation

  /** The affine map of a well-formed list, over reals. */
  function Scale(v: real, lo: real, hi: real): real
    requires lo < hi
  {
    (v - lo) / (hi - lo) * 2.0 - 1.0
  }

  /** JavaScript's formula on finite numbers with max > min is the real affine map. */
  lemma RescaleFinite(v: real, lo: real, hi: real)
    requires lo < hi
    ensures Rescale(Finite(v), Finite(lo), Finite(hi)) == Finite(Scale(v, lo, hi))
  {
    assert Sub(Finite(hi), Finite(lo)) == Finite(hi - lo);
    assert Div(Finite(v - lo), Finite(hi - lo)) == Finite((v - lo) / (hi - lo));
  }

  /** Each normalised scalar is Scale of the raw one, with the pooled min and max. */
  lemma NormalizeAt(raw: seq<real>, k: nat)
    requires |raw| > 0 && |raw| % 3 == 0 && SeqMin(raw) < SeqMax(raw)
    requires k < |raw|
    ensures Normalize(raw)[k] == Finite(Scale(raw[k], SeqMin(raw), SeqMax(raw)))
  {
    assert Bounds(raw) == (Finite(SeqMin(raw)), Finite(SeqMax(raw)));
    assert Normalize(raw)[k] == Rescale(Finite(raw[k]), Finite(SeqMin(raw)), Finite(SeqMax(raw)));
    RescaleFinite(raw[k], SeqMin(raw), SeqMax(raw));
  }

  lemma ScaleRange(v: real, lo: real, hi: real)
    requires lo <= v <= hi && lo < hi
    ensures -1.0 <= Scale(v, lo, hi) <= 1.0
    ensures v == lo ==> Scale(v, lo, hi) == -1.0
    ensures v == hi ==> Scale(v, lo, hi) == 1.0
  {
    var d := hi - lo;
    var t := (v - lo) / d;
    assert t * d == v - lo;
    if t > 1.0 {
      assert (t - 1.0) * d > 0.0;
    }
  }

  lemma ScaleDifference(u: real, v: real, lo: real, hi: real)
    requires lo < hi
    ensures (Scale(u, lo, hi) - Scale(v, lo, hi)) * (hi - lo) == 2.0 * (u - v)
  {
    var d := hi - lo;
    var p, q := (u - lo) / d, (v - lo) / d;
    assert p * d == u - lo;
    assert q * d == v - lo;
    assert Scale(u, lo, hi) - Scale(v, lo, hi) == (p - q) * 2.0;
    assert (p - q) * 2.0 * d == 2.0 * (p * d - q * d);
  }

  /** Two differences that scale by one positive factor keep their ratio and their signs. */
  lemma SameScale(a: real, b: real, x: real, y: real, d: real)
    requires d > 0.0 && a * d == 2.0 * x && b * d == 2.0 * y
    ensures a * y == b * x
    ensures a <= 0.0 <==> x <= 0.0
  {
    calc {
      2.0 * (a * y);
      a * (2.0 * y);
      a * (b * d);
      b * (a * d);
      b * (2.0 * x);
      2.0 * (b * x);
    }
    if a <= 0.0 { assert a * d <= 0.0; }
    if a > 0.0 { assert a * d > 0.0; }
  }

  /**
   * For a non-empty list of whole triples whose pooled maximum exceeds its
   * pooled minimum, every normalised scalar is a number in [-1, 1]; the
   * minimum becomes -1 and the maximum 1.
   */
  lemma NormalizeInUnitRange(raw: seq<real>)
    requires |raw| > 0 && |raw| % 3 == 0 && SeqMin(raw) < SeqMax(raw)
    ensures forall k :: 0 <= k < |raw| ==>
      Normalize(raw)[k].Finite? && -1.0 <= Normalize(raw)[k].value <= 1.0
    ensures forall k :: 0 <= k < |raw| && raw[k] == SeqMin(raw) ==> Normalize(raw)[k] == Finite(-1.0)
    ensures forall k :: 0 <= k < |raw| && raw[k] == SeqMax(raw) ==> Normalize(raw)[k] == Finite(1.0)
  {
    forall k | 0 <= k < |raw|
      ensures Normalize(raw)[k].Finite? && -1.0 <= Normalize(raw)[k].value <= 1.0
      ensures raw[k] == SeqMin(raw) ==> Normalize(raw)[k] == Finite(-1.0)
      ensures raw[k] == SeqMax(raw) ==> Normalize(raw)[k] == Finite(1.0)
    {
      NormalizeAt(raw, k);
      ScaleRange(raw[k], SeqMin(raw), SeqMax(raw));
    }
  }

  /** Scale is increasing, and it multiplies every difference by 2 / (hi - lo). */
  lemma ScaleOrder(u: real, v: real, lo: real, hi: real)
    requires lo < hi
    ensures u <= v <==> Scale(u, lo, hi) <= Scale(v, lo, hi)
    ensures (Scale(u, lo, hi) - Scale(v, lo, hi)) * (hi - lo) == 2.0 * (u - v)
  {
    ScaleDifference(u, v, lo, hi);
    var a := Scale(u, lo, hi) - Scale(v, lo, hi);
    SameScale(a, a, u - v, u - v, hi - lo);
  }

  /** Scale keeps the ratio of any two differences. */
  lemma ScaleKeepsRatios(u: real, v: real, w: real, x: real, lo: real, hi: real)
    requires lo < hi
    ensures (Scale(u, lo, hi) - Scale(v, lo, hi)) * (w - x) == (Scale(w, lo, hi) - Scale(x, lo, hi)) * (u - v)
  {
    ScaleDifference(u, v, lo, hi);
    ScaleDifference(w, x, lo, hi);
    SameScale(Scale(u, lo, hi) - Scale(v, lo, hi), Scale(w, lo, hi) - Scale(x, lo, hi), u - v, w - x, hi - lo);
  }

  /** Two entries that are both Scale of their raw scalars keep their order. */
  lemma ScaledPair(raw: seq<real>, out: seq<Number>, i: nat, j: nat, lo: real, hi: real)
    requires lo < hi && i < |raw| && j < |raw| && i < |out| && j < |out|
    requires out[i] == Finite(Scale(raw[i], lo, hi)) && out[j] == Finite(Scale(raw[j], lo, hi))
    ensures raw[i] <= raw[j] <==> out[i].value <= out[j].value
  {
    ScaleOrder(raw[i], raw[j], lo, hi);
  }

  /**
   * Normalisation keeps the order of any two scalars (with NormalizeAt and
   * ScaleKeepsRatios: it is one increasing affine map on all of them).
   */
  lemma NormalizeKeepsOrder(raw: seq<real>, i: nat, j: nat)
    requires |raw| > 0 && |raw| % 3 == 0 && SeqMin(raw) < SeqMax(raw)
    requires i < |raw| && j < |raw|
    ensures raw[i] <= raw[j] <==> Normalize(raw)[i].value <= Normalize(raw)[j].value
  {
    NormalizeAt(raw, i);
    NormalizeAt(raw, j);
    ScaledPair(raw, Normalize(raw), i, j, SeqMin(raw), SeqMax(raw));
  }

  /** With every scalar equal (max == min), 0 / 0 turns each of them into NaN. */
  lemma NormalizeDegenerate(raw: seq<real>)
    requires |raw| > 0 && |raw| % 3 == 0 && SeqMin(raw) == SeqMax(raw)
    ensures forall k :: 0 <= k < |raw| ==> Normalize(raw)[k].NaN?
  {
    var m := SeqMin(raw);
    forall k | 0 <= k < |raw| ensures Normalize(raw)[k].NaN? {
      assert raw[k] == m;
      assert Sub(Finite(raw[k]), Finite(m)) == Finite(0.0);
    }
  }

  /** When the length is not a multiple of three the scan reads undefined, and every scalar becomes NaN. */
  lemma NormalizeRagged(raw: seq<real>)
    requires |raw| % 3 != 0
    ensures forall k :: 0 <= k < |raw| ==> Normalize(raw)[k].NaN?
  {
  }
}
