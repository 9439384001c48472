/**
 * OBJLoader: reads the vertex ("v ") and face ("f ") lines of a Wavefront
 * OBJ text into a flat vertex list and a flat triangle index list, then
 * rescales all vertex coordinates jointly into [-1, 1].
 *
 * Numbers are JavaScript numbers (JsNumber.Number); a face index is the
 * result of parseInt minus one, where None stands for NaN.  parseFloat is a
 * parameter of the loader: this model takes it as a total map to reals.
 */
module ObjLoader {
  import opened Wrappers
  import opened JsNumber
  import opened Text

  /** A face index as JavaScript computes it: parseInt(token) - 1, None for NaN. */
  type Index = Option<int>

  /** line.indexOf('v ') === 0 */
  predicate IsVertexLine(line: string): (b: bool)
    ensures b <==> |line| >= 2 && line[0] == 'v' && line[1] == ' '
  {
    StartsWith(line, "v ")
  }

  /** line.indexOf('f ') === 0 */
  predicate IsFaceLine(line: string): (b: bool)
    ensures b <==> |line| >= 2 && line[0] == 'f' && line[1] == ' '
  {
    StartsWith(line, "f ")
  }

  /** line.split(' ') without its first element (the keyword) */
  function Arguments(line: string): seq<string> {
    Split(line, ' ')[1..]
  }

  /** OBJLoader.parseVertex: one parseFloat value per token after the keyword. */
  function ParseVertex(line: string, parseFloat: string -> real): (r: seq<real>)
    ensures |r| + 1 == |Split(line, ' ')|
    ensures forall k :: 0 <= k < |r| ==> r[k] == parseFloat(Split(line, ' ')[k + 1])
  {
    var tokens := Arguments(line);
    seq(|tokens|, k requires 0 <= k < |tokens| => parseFloat(tokens[k]))
  }

  /** The index one face token contributes: its leading integer minus one. */
  function FaceIndex(token: string): (r: Index)
    ensures r.None? <==> ParseInt(Split(token, ' ')[0]).None?
    ensures r.Some? ==> r.value + 1 == ParseInt(Split(token, ' ')[0]).value
  {
    match ParseInt(Split(token, ' ')[0])
    case None => None
    case Some(n) => Some(n - 1)
  }

  /**
   * OBJLoader.triangulateFace: the quad (f0, f1, f2, f3) as the two triangles
   * (f0, f1, f2) and (f0, f2, f3); entries after the fourth are not read.
   */
  function TriangulateFace<T>(face: seq<T>): (r: seq<T>)
    requires |face| >= 4
    ensures |r| == 6
    ensures r[..3] == face[..3]
    ensures r[3] == r[0] && r[4] == r[2] && r[5] == face[3]
    ensures TriangulateFace(face[..4]) == r
  {
    [face[0], face[1], face[2], face[0], face[2], face[3]]
  }

  /** OBJLoader.parseFace */
  function ParseFace(line: string): (r: seq<Index>)
    ensures var t := Split(line, ' ');
      |t| <= 4 ==> |r| + 1 == |t| && forall k :: 0 <= k < |r| ==> r[k] == FaceIndex(t[k + 1])
    ensures var t := Split(line, ' ');
      |t| > 4 ==> r == [FaceIndex(t[1]), FaceIndex(t[2]), FaceIndex(t[3]), FaceIndex(t[1]), FaceIndex(t[3]), FaceIndex(t[4])]
  {
    var tokens := Arguments(line);
    var list := seq(|tokens|, k requires 0 <= k < |tokens| => FaceIndex(tokens[k]));
    if |list| > 3 then TriangulateFace(list) else list
  }

  /** What one line adds to the vertex list: the values of a "v " line, nothing otherwise. */
  function LineVertices(line: string, parseFloat: string -> real): seq<real> {
    if IsVertexLine(line) then ParseVertex(line, parseFloat) else []
  }

  /** What one line adds to the index list: the indices of an "f " line, nothing otherwise. */
  function LineIndices(line: string): seq<Index> {
    if IsFaceLine(line) then ParseFace(line) else []
  }

  /** What `lines` contribute, line after line, in file order. */
  function Gather<T>(lines: seq<string>, contribution: string -> seq<T>): seq<T> {
    if |lines| == 0 then []
    else Gather(lines[..|lines| - 1], contribution) + contribution(lines[|lines| - 1])
  }

  /** The vertex values that `lines` contribute. */
  function VertexData(lines: seq<string>, parseFloat: string -> real): seq<real> {
    Gather(lines, line => LineVertices(line, parseFloat))
  }

  /** The face indices that `lines` contribute. */
  function IndexData(lines: seq<string>): seq<Index> {
    Gather(lines, LineIndices)
  }

  // ---------------------------------------------------------------------------
  // Normalisation

  /** The smallest element of a non-empty list. */
  function SeqMin(s: seq<real>): (m: real)
    requires |s| > 0
    ensures m in s
    ensures forall k :: 0 <= k < |s| ==> m <= s[k]
  {
    if |s| == 1 then s[0]
    else
      var m' := SeqMin(s[..|s| - 1]);
      if s[|s| - 1] < m' then s[|s| - 1] else m'
  }

  /** The largest element of a non-empty list. */
  function SeqMax(s: seq<real>): (m: real)
    requires |s| > 0
    ensures m in s
    ensures forall k :: 0 <= k < |s| ==> s[k] <= m
  {
    if |s| == 1 then s[0]
    else
      var m' := SeqMax(s[..|s| - 1]);
      if s[|s| - 1] > m' then s[|s| - 1] else m'
  }

  /**
   * The (min, max) pair the scan over vertex triples ends with: the start
   * values (+Infinity, -Infinity) for an empty list; NaN for both when the
   * length is not a multiple of three, since the last triple then reads
   * past the end (undefined, which Math.max and Math.min turn into NaN);
   * otherwise one minimum and one maximum pooled over x, y and z.
   */
  function Bounds(raw: seq<real>): (Number, Number) {
    if |raw| == 0 then (PosInfinity, NegInfinity)
    else if |raw| % 3 != 0 then (NaN, NaN)
    else (Finite(SeqMin(raw)), Finite(SeqMax(raw)))
  }

  /** (v - min) / (max - min) * 2 - 1, in JavaScript arithmetic */
  function Rescale(v: Number, lo: Number, hi: Number): Number {
    Sub(Mul(Div(Sub(v, lo), Sub(hi, lo)), Finite(2.0)), Finite(1.0))
  }

  /** The vertex list after normalisation: one map, built from Bounds, applied to every scalar. */
  function Normalize(raw: seq<real>): (r: seq<Number>)
    ensures |r| == |raw|
  {
    var (lo, hi) := Bounds(raw);
    seq(|raw|, k requires 0 <= k < |raw| => Rescale(Finite(raw[k]), lo, hi))
  }

  /** The list as JavaScript holds it after parsing: every value a finite number. */
  function Lift(raw: seq<real>): (r: seq<Number>)
    ensures |r| == |raw| && forall k :: 0 <= k < |raw| ==> r[k] == Finite(raw[k])
  {
    seq(|raw|, k requires 0 <= k < |raw| => Finite(raw[k]))
  }

  lemma LiftConcat(a: seq<real>, b: seq<real>)
    ensures Lift(a + b) == Lift(a) + Lift(b)
  {
    assert forall k :: 0 <= k < |a + b| ==> Lift(a + b)[k] == (Lift(a) + Lift(b))[k];
  }

  /** vertices[j] as the scan reads it: past the end it is undefined, i.e. NaN. */
  function At(vertices: seq<Number>, j: nat): Number {
    if j < |vertices| then vertices[j] else NaN
  }

  /** The reals behind a list of finite numbers. */
  function Values(vertices: seq<Number>): (raw: seq<real>)
    requires forall k :: 0 <= k < |vertices| ==> vertices[k].Finite?
    ensures Lift(raw) == vertices
  {
    seq(|vertices|, k requires 0 <= k < |vertices| => vertices[k].value)
  }

  lemma SeqMinSnoc(s: seq<real>, k: nat)
    requires 0 < k < |s|
    ensures SeqMin(s[..k + 1]) == if s[k] < SeqMin(s[..k]) then s[k] else SeqMin(s[..k])
  {
    assert s[..k + 1][..k] == s[..k];
  }

  lemma SeqMaxSnoc(s: seq<real>, k: nat)
    requires 0 < k < |s|
    ensures SeqMax(s[..k + 1]) == if s[k] > SeqMax(s[..k]) then s[k] else SeqMax(s[..k])
  {
    assert s[..k + 1][..k] == s[..k];
  }

  /** Math.min and Math.max of two finite numbers. */
  lemma MinMaxFinite(x: real, y: real)
    ensures Min(Finite(x), Finite(y)) == Finite(if y < x then y else x)
    ensures Max(Finite(x), Finite(y)) == Finite(if y > x then y else x)
  {
  }

  /** One step of the scan: three more scalars folded into the pooled minimum. */
  lemma {:induction false} MinStep(raw: seq<real>, i: nat)
    requires i % 3 == 0 && i + 3 <= |raw|
    ensures Finite(SeqMin(raw[..i + 3])) ==
      Min(Min(Min(Bounds(raw[..i]).0, Finite(raw[i])), Finite(raw[i + 1])), Finite(raw[i + 2]))
  {
    var m0 := Min(Bounds(raw[..i]).0, Finite(raw[i]));
    if i == 0 {
      assert raw[..1] == [raw[0]];
      assert m0 == Finite(raw[0]);
    } else {
      assert |raw[..i]| == i;
      MinMaxFinite(SeqMin(raw[..i]), raw[i]);
      SeqMinSnoc(raw, i);
    }
    assert m0 == Finite(SeqMin(raw[..i + 1]));
    MinMaxFinite(SeqMin(raw[..i + 1]), raw[i + 1]);
    SeqMinSnoc(raw, i + 1);
    var m1 := Min(m0, Finite(raw[i + 1]));
    assert m1 == Finite(SeqMin(raw[..i + 2]));
    MinMaxFinite(SeqMin(raw[..i + 2]), raw[i + 2]);
    SeqMinSnoc(raw, i + 2);
  }

  /** One step of the scan: three more scalars folded into the pooled maximum. */
  lemma {:induction false} MaxStep(raw: seq<real>, i: nat)
    requires i % 3 == 0 && i + 3 <= |raw|
    ensures Finite(SeqMax(raw[..i + 3])) ==
      Max(Max(Max(Bounds(raw[..i]).1, Finite(raw[i])), Finite(raw[i + 1])), Finite(raw[i + 2]))
  {
    var m0 := Max(Bounds(raw[..i]).1, Finite(raw[i]));
    if i == 0 {
      assert raw[..1] == [raw[0]];
      assert m0 == Finite(raw[0]);
    } else {
      assert |raw[..i]| == i;
      MinMaxFinite(SeqMax(raw[..i]), raw[i]);
      SeqMaxSnoc(raw, i);
    }
    assert m0 == Finite(SeqMax(raw[..i + 1]));
    MinMaxFinite(SeqMax(raw[..i + 1]), raw[i + 1]);
    SeqMaxSnoc(raw, i + 1);
    var m1 := Max(m0, Finite(raw[i + 1]));
    assert m1 == Finite(SeqMax(raw[..i + 2]));
    MinMaxFinite(SeqMax(raw[..i + 2]), raw[i + 2]);
    SeqMaxSnoc(raw, i + 2);
  }

  /** Stepping by three from a multiple of three: the next index is one too, and a length strictly inside the step is not. */
  lemma NextTriple(i: nat, n: nat)
    requires i % 3 == 0
    ensures (i + 3) % 3 == 0
    ensures i < n < i + 3 ==> n % 3 != 0
  {
  }

  /**
   * The min/max scan of OBJLoader.load: it steps through the list three
   * scalars at a time, folding x, y and z of each triple into one max and
   * one min.
   */
  method ScanBounds(vertices: seq<Number>) returns (lo: Number, hi: Number)
    requires forall k :: 0 <= k < |vertices| ==> vertices[k].Finite?
    ensures (lo, hi) == Bounds(Values(vertices))
  {
    ghost var raw := Values(vertices);
    hi, lo := NegInfinity, PosInfinity;
    var i := 0;
    while i < |vertices|
      invariant i % 3 == 0 && i < |vertices| + 3
      invariant i <= |vertices| ==> (lo, hi) == Bounds(raw[..i])
      invariant i > |vertices| ==> lo.NaN? && hi.NaN? && |raw| % 3 != 0
    {
      var x, y, z := At(vertices, i), At(vertices, i + 1), At(vertices, i + 2);
      hi := Max(Max(Max(hi, x), y), z);
      lo := Min(Min(Min(lo, x), y), z);
      if i + 3 <= |vertices| {
        assert x == Finite(raw[i]) && y == Finite(raw[i + 1]) && z == Finite(raw[i + 2]);
        MinStep(raw, i);
        MaxStep(raw, i);
        assert |raw[..i + 3]| == i + 3;
      } else {
        assert z.NaN?;
      }
      NextTriple(i, |vertices|);
      i := i + 3;
    }
    assert raw[..|raw|] == raw;
  }

  /**
   * OBJLoader.load on the file's contents: keep the "v " and "f " lines,
   * accumulate their values and indices in file order, then overwrite every
   * scalar with its rescaled value.
   */
  method Load(contents: string, parseFloat: string -> real) returns (vertices: seq<Number>, indices: seq<Index>)
    ensures vertices == Normalize(VertexData(Split(contents, '\n'), parseFloat))
    ensures indices == IndexData(Split(contents, '\n'))
  {
    var lines := Split(contents, '\n');
    vertices, indices := [], [];
    for k := 0 to |lines|
      invariant vertices == Lift(VertexData(lines[..k], parseFloat))
      invariant indices == IndexData(lines[..k])
    {
      var item := lines[k];
      assert lines[..k + 1][..k] == lines[..k];
      ghost var before := VertexData(lines[..k], parseFloat);
      assert VertexData(lines[..k + 1], parseFloat) == before + LineVertices(item, parseFloat);
      assert IndexData(lines[..k + 1]) == IndexData(lines[..k]) + LineIndices(item);
      if IsVertexLine(item) {
        LiftConcat(before, ParseVertex(item, parseFloat));
        vertices := vertices + Lift(ParseVertex(item, parseFloat));
      } else {
        assert before + LineVertices(item, parseFloat) == before;
      }
      if IsFaceLine(item) {
        indices := indices + ParseFace(item);
      } else {
        assert IndexData(lines[..k]) + LineIndices(item) == IndexData(lines[..k]);
      }
    }
    assert lines[..|lines|] == lines;
    ghost var raw := VertexData(lines, parseFloat);
    assert Values(vertices) == raw;
    var lo, hi := ScanBounds(vertices);
    for i := 0 to |vertices|
      invariant |vertices| == |raw|
      invariant forall k :: 0 <= k < i ==> vertices[k] == Rescale(Finite(raw[k]), lo, hi)
      invariant forall k :: i <= k < |vertices| ==> vertices[k] == Finite(raw[k])
    {
      vertices := vertices[i := Rescale(vertices[i], lo, hi)];
    }
    assert forall k :: 0 <= k < |raw| ==> vertices[k] == Normalize(raw)[k];
  }
}
