/**
 The rubber view: a cube drawn as six faces, each face a strip between four
 curved lines, each line three control vertices looked up through static
 index tables. Every 2000 ms the eye point and all vertices pick new random
 targets; in between they are eased from their sources to their targets.
 */
module Rubber {

  import opened Numerics
  import opened Easing

  /** Vertices per edge of a face strip. */
  const CountEdge: nat := 20

  /** Vertices per face strip. */
  const CountVertices: nat := 4 * CountEdge

  /** Bytes allocated for the strip buffer: two floats of four bytes per vertex. */
  const AllocBytes: nat := 4 * 2 * CountVertices

  /** Milliseconds between eye and vertex targets. */
  const CyclePeriod: nat := 2000

  /** Three coordinates, as the float[3] rows of the view. */
  type Vec3 = s: seq<real> | |s| == 3 witness [0.0, 0.0, 0.0]

  /** A row of `FACE_DATA`: the face colour and the four line indices, stored as floats. */
  datatype Face = Face(colour: Vec3, lines: seq<real>)

  const FaceData: seq<Face> := [
    Face([0.3, 0.5, 1.0], [0.0, 1.0, 2.0, 3.0]),
    Face([0.3, 0.5, 1.0], [10.0, 6.0, 9.0, 11.0]),
    Face([1.0, 0.5, 0.3], [4.0, 2.0, 6.0, 5.0]),
    Face([1.0, 0.5, 0.3], [7.0, 9.0, 1.0, 8.0]),
    Face([0.5, 1.0, 0.3], [12.0, 7.0, 13.0, 0.0]),
    Face([0.5, 1.0, 0.3], [3.0, 14.0, 5.0, 15.0])]

  /** `FACE_LINES`: each line as three indices into `FaceVertices`. */
  const FaceLines: seq<seq<int>> := [
    [0, 8, 2], [0, 9, 1], [2, 10, 3], [1, 11, 3], [2, 12, 6], [3, 13, 7],
    [6, 14, 7], [4, 15, 0], [5, 16, 1], [4, 17, 5], [6, 18, 4], [7, 19, 5],
    [4, 18, 6], [6, 12, 2], [1, 16, 5], [5, 19, 7]]

  /** `FACE_VERTICES`: the 8 cube corners and 12 edge midpoints. */
  const FaceVertices: seq<Vec3> := [
    [-1.0, 1.0, 1.0], [-1.0, -1.0, 1.0], [1.0, 1.0, 1.0], [1.0, -1.0, 1.0],
    [-1.0, 1.0, -1.0], [-1.0, -1.0, -1.0], [1.0, 1.0, -1.0], [1.0, -1.0, -1.0],
    [0.0, 1.0, 1.0], [-1.0, 0.0, 1.0], [1.0, 0.0, 1.0], [0.0, -1.0, 1.0],
    [1.0, 1.0, 0.0], [1.0, -1.0, 0.0], [1.0, 0.0, -1.0], [-1.0, 1.0, 0.0],
    [-1.0, -1.0, 0.0], [-1.0, 0.0, -1.0], [0.0, 1.0, -1.0], [0.0, -1.0, -1.0]]

  /** Java's `(int)` cast of a float: truncation toward zero. */
  function TruncateToInt(x: real): int
  {
    if x >= 0.0 then x.Floor else -((-x).Floor)
  }

  /** The `FACE_LINES` index of line `i` of face `f`. */
  function LineOf(f: nat, i: nat): int
    requires f < |FaceData| && i < |FaceData[f].lines|
  {
    TruncateToInt(FaceData[f].lines[i])
  }

  /**
   The tables are consistent: every face names four lines, every line index
   is a row of `FACE_LINES`, and every entry there is a row of
   `FACE_VERTICES`, so the lookups of the draw loop stay in bounds.
   */
  lemma TablesInRange()
    ensures |FaceData| == 6 && |FaceLines| == 16 && |FaceVertices| == 20
    ensures forall f, i :: 0 <= f < |FaceData| && 0 <= i < 4 ==>
              |FaceData[f].lines| == 4 && 0 <= LineOf(f, i) < |FaceLines|
    ensures forall l, j :: 0 <= l < |FaceLines| && 0 <= j < 3 ==>
              |FaceLines[l]| == 3 && 0 <= FaceLines[l][j] < |FaceVertices|
  {
    forall f, i | 0 <= f < |FaceData| && 0 <= i < 4
      ensures |FaceData[f].lines| == 4 && 0 <= LineOf(f, i) < |FaceLines|
    {
      var x := FaceData[f].lines[i];
      assert 0.0 <= x <= 15.0 && x == x.Floor as real;
    }
  }

  /**
   Corner `c` of vertex pair `i` in strip half `block`: even corners hold the
   line number (0 or 1 in the first half, 2 or 3 in the second), odd corners
   the curve parameter i / 19.
   */
  function EdgeCorner(block: nat, i: nat, c: nat): real
  {
    if c % 2 == 1 then i as real / (CountEdge - 1) as real else (2 * block + c / 2) as real
  }

  /** The four floats one iteration of a fill loop puts. */
  function Quad(block: nat, i: nat): (q: seq<real>)
    ensures |q| == 4
    ensures forall c :: 0 <= c < 4 ==> q[c] == EdgeCorner(block, i, c)
  {
    var t := i as real / (CountEdge - 1) as real;
    [(2 * block) as real, t, (2 * block + 1) as real, t]
  }

  /** What the first `k` iterations of the fill loop for strip half `block` put: position n holds corner n % 4 of pair n / 4. */
  function EdgeRun(block: nat, k: nat): (r: seq<real>)
    ensures |r| == 4 * k
  {
    seq(4 * k, n requires 0 <= n < 4 * k => EdgeCorner(block, n / 4, n % 4))
  }

  /** One more iteration of a fill loop appends the next vertex pair's four floats. */
  lemma EdgeRunGrows(block: nat, k: nat)
    ensures EdgeRun(block, k + 1) == EdgeRun(block, k) + Quad(block, k)
  {
    var r, r' := EdgeRun(block, k), EdgeRun(block, k + 1);
    forall n | 4 * k <= n < 4 * k + 4
      ensures r'[n] == Quad(block, k)[n - 4 * k]
    {
      assert n / 4 == k && n % 4 == n - 4 * k;
    }
  }

  /** The whole strip buffer the constructor fills. */
  function FaceBuffer(): (b: seq<real>)
    ensures |b| * 4 == AllocBytes
  {
    EdgeRun(0, CountEdge) + EdgeRun(1, CountEdge)
  }

  /** Position n of the buffer holds corner n % 4 of vertex pair (n % 80) / 4 of strip half n / 80. */
  lemma FaceBufferAt(n: nat)
    requires n < |FaceBuffer()|
    ensures FaceBuffer()[n] == EdgeCorner(n / (4 * CountEdge), (n % (4 * CountEdge)) / 4, n % 4)
  {
    var b := FaceBuffer();
    HalfIndex(n);
    if n < 4 * CountEdge {
      assert b[n] == EdgeRun(0, CountEdge)[n];
    } else {
      assert b[n] == EdgeRun(1, CountEdge)[n - 4 * CountEdge];
    }
  }

  /** Which strip half, vertex pair and corner a buffer position belongs to. */
  lemma HalfIndex(n: nat)
    requires n < 8 * CountEdge
    ensures n < 4 * CountEdge ==> n / (4 * CountEdge) == 0 && n % (4 * CountEdge) == n
    ensures n >= 4 * CountEdge ==> n / (4 * CountEdge) == 1 && n % (4 * CountEdge) == n - 4 * CountEdge
    ensures n >= 4 * CountEdge ==> (n - 4 * CountEdge) / 4 == n / 4 - CountEdge && (n - 4 * CountEdge) % 4 == n % 4
    ensures (n % (4 * CountEdge)) / 4 < CountEdge
    ensures (n % 4) % 2 == n % 2
  {
  }

  /** Every odd position of the buffer, a curve parameter, lies in [0, 1]. */
  lemma FaceBufferOddInUnit(n: nat)
    requires n < |FaceBuffer()| && n % 2 == 1
    ensures 0.0 <= FaceBuffer()[n] <= 1.0
  {
    FaceBufferAt(n);
    HalfIndex(n);
    var i := (n % (4 * CountEdge)) / 4;
    assert FaceBuffer()[n] == i as real / (CountEdge - 1) as real;
  }

  /**
   The constructor's buffer fill: for each of the two strip halves, twenty
   vertex pairs (line, t), (line + 1, t) with t running from 0 to 1. The
   puts fill the 640-byte allocation exactly: every position once, none
   beyond it.
   */
  method FillFaceBuffer() returns (buf: seq<real>)
    ensures |buf| * 4 == AllocBytes
    ensures buf == FaceBuffer()
    ensures forall n :: 0 <= n < |buf| && n % 2 == 1 ==> 0.0 <= buf[n] <= 1.0
  {
    buf := [];
    var i := 0;
    while i < CountEdge
      invariant 0 <= i <= CountEdge && buf == EdgeRun(0, i)
    {
      var t := i as real / (CountEdge - 1) as real;
      EdgeRunGrows(0, i);
      buf := buf + [0.0, t, 1.0, t];
      i := i + 1;
    }
    i := 0;
    while i < CountEdge
      invariant 0 <= i <= CountEdge && buf == EdgeRun(0, CountEdge) + EdgeRun(1, i)
    {
      var t := i as real / (CountEdge - 1) as real;
      EdgeRunGrows(1, i);
      buf := buf + [2.0, t, 3.0, t];
      i := i + 1;
    }
    forall n | 0 <= n < |buf| && n % 2 == 1
      ensures 0.0 <= buf[n] <= 1.0
    {
      FaceBufferOddInUnit(n);
    }
  }

  /** The animated state: eye and vertex sources and targets, and the cycle start (`mRenderTime`). */
  datatype Scene = Scene(eyeSource: Vec3, eyeTarget: Vec3, vertexSource: seq<Vec3>, vertexTarget: seq<Vec3>, start: int)

  /** Twenty vertices in each of source and target. */
  predicate Shaped(s: Scene)
  {
    |s.vertexSource| == |FaceVertices| && |s.vertexTarget| == |FaceVertices|
  }

  /** The state after construction: the eye at (0, 0, 5), every vertex at the origin. */
  const Initial: Scene :=
    Scene([0.0, 0.0, 5.0], [0.0, 0.0, 5.0], seq(20, _ => [0.0, 0.0, 0.0]), seq(20, _ => [0.0, 0.0, 0.0]), 0)

  /**
   The constructed scene has twenty vertices on each side, and until the
   first refresh the eye stays at (0, 0, 5) and every control vertex at the
   origin, whatever the frame time.
   */
  lemma InitialAtRest(time: int, f: nat, i: nat, j: nat, k: nat)
    requires f < |FaceData| && i < 4 && j < 3 && k < 3
    ensures Shaped(Initial)
    ensures Eye(Initial, time) == [0.0, 0.0, 5.0]
    ensures LineValue(f, Initial, Eased(Initial, time), i, j, k) == 0.0
  {
  }

  /** A vertex coordinate scaled by a random factor in [0.5, 1.5): `v + v * (r - 0.5)`. */
  function Jitter(v: real, r: real): (x: real)
    ensures UnitDraw(r) ==> Between(x, 0.5 * v, 1.5 * v)
    ensures v == 0.0 ==> x == 0.0
  {
    JitterIsLerp(v, r);
    assert UnitDraw(r) ==> Between(Lerp(0.5 * v, 1.5 * v, r), 0.5 * v, 1.5 * v) by {
      if UnitDraw(r) {
        LerpBetween(0.5 * v, 1.5 * v, r);
      }
    }
    v + v * (r - 0.5)
  }

  /** The jittered coordinate interpolates from half to one and a half times the coordinate. */
  lemma JitterIsLerp(v: real, r: real)
    ensures v + v * (r - 0.5) == Lerp(0.5 * v, 1.5 * v, r)
  {
    assert v * (r - 0.5) == v * r - 0.5 * v;
  }

  /** The random draws of one refresh: three for the eye, three per vertex. */
  datatype Draws = Draws(eye: Vec3, vertices: seq<Vec3>)

  predicate ValidDraws(d: Draws)
  {
    && (forall i :: 0 <= i < 3 ==> UnitDraw(d.eye[i]))
    && |d.vertices| == |FaceVertices|
    && (forall i, j :: 0 <= i < |d.vertices| && 0 <= j < 3 ==> UnitDraw(d.vertices[i][j]))
  }

  /**
   The jittered copy of the table vertices the draws give: each new target
   coordinate lies between half and one and a half times its table
   coordinate, and table zeros stay zero.
   */
  function Targets(d: Draws): (vs: seq<Vec3>)
    requires |d.vertices| == |FaceVertices|
    ensures |vs| == |FaceVertices|
    ensures forall i, j :: 0 <= i < |vs| && 0 <= j < 3 ==> vs[i][j] == Jitter(FaceVertices[i][j], d.vertices[i][j])
    ensures ValidDraws(d) ==>
              forall i, j :: 0 <= i < |vs| && 0 <= j < 3 ==> Between(vs[i][j], 0.5 * FaceVertices[i][j], 1.5 * FaceVertices[i][j])
    ensures forall i, j :: 0 <= i < |vs| && 0 <= j < 3 && FaceVertices[i][j] == 0.0 ==> vs[i][j] == 0.0
  {
    seq(|FaceVertices|, i requires 0 <= i < |FaceVertices| =>
      [Jitter(FaceVertices[i][0], d.vertices[i][0]),
       Jitter(FaceVertices[i][1], d.vertices[i][1]),
       Jitter(FaceVertices[i][2], d.vertices[i][2])])
  }

  /**
   The refresh check of each frame: once more than a period has elapsed the
   old targets become the sources, new targets are drawn and the cycle
   restarts at `time`.
   */
  function Refresh(s: Scene, time: int, d: Draws): (s': Scene)
    requires Shaped(s) && |d.vertices| == |FaceVertices|
    ensures Shaped(s')
    ensures s'.start == Restart(time, s.start, CyclePeriod)
    ensures time >= s.start ==> 0 <= time - s'.start <= CyclePeriod
    ensures time - s.start <= CyclePeriod ==> s' == s
    ensures time - s.start > CyclePeriod ==>
              && s'.eyeSource == s.eyeTarget
              && s'.vertexSource == s.vertexTarget
              && s'.vertexTarget == Targets(d)
              && (ValidDraws(d) ==> forall i :: 0 <= i < 3 ==> -5.0 <= s'.eyeTarget[i] < 5.0)
  {
    if time - s.start > CyclePeriod then
      Scene(s.eyeTarget, [d.eye[0] * 10.0 - 5.0, d.eye[1] * 10.0 - 5.0, d.eye[2] * 10.0 - 5.0],
            s.vertexTarget, Targets(d), time)
    else
      s
  }

  /** The eased fraction of the cycle at `time`. */
  function Eased(s: Scene, time: int): real
  {
    Smoothstep(Fraction(time, s.start, CyclePeriod))
  }

  /** With a clock that never runs backwards, the eased fraction after the refresh check is in [0, 1]. */
  lemma EasedInUnit(s: Scene, time: int, d: Draws)
    requires Shaped(s) && |d.vertices| == |FaceVertices|
    requires time >= s.start
    ensures 0.0 <= Fraction(time, Refresh(s, time, d).start, CyclePeriod) <= 1.0
    ensures 0.0 <= Eased(Refresh(s, time, d), time) <= 1.0
  {
    CycleFractionInUnit(time, s.start, CyclePeriod);
  }

  /** The eye point of the frame, interpolated per coordinate. */
  function Eye(s: Scene, time: int): (e: Vec3)
    ensures time == s.start ==> e == s.eyeSource
    ensures time == s.start + CyclePeriod ==> e == s.eyeTarget
  {
    var t := Eased(s, time);
    EasedEnds(s.eyeSource[0], s.eyeTarget[0], s.start, CyclePeriod);
    EasedEnds(s.eyeSource[1], s.eyeTarget[1], s.start, CyclePeriod);
    EasedEnds(s.eyeSource[2], s.eyeTarget[2], s.start, CyclePeriod);
    [Lerp(s.eyeSource[0], s.eyeTarget[0], t), Lerp(s.eyeSource[1], s.eyeTarget[1], t), Lerp(s.eyeSource[2], s.eyeTarget[2], t)]
  }

  /** Where coordinate `k` of control vertex `j` of line `i` goes in the 36-float `lines` array. */
  function Slot(i: int, j: int, k: int): int
  {
    i * 9 + j * 3 + k
  }

  /** Every position of the `lines` array is the slot of exactly one (line, vertex, coordinate) triple. */
  lemma SlotsCoverLines()
    ensures forall i, j, k :: 0 <= i < 4 && 0 <= j < 3 && 0 <= k < 3 ==> 0 <= Slot(i, j, k) < 36
    ensures forall n :: 0 <= n < 36 ==> Slot(n / 9, (n % 9) / 3, n % 3) == n
    ensures forall i, j, k, i', j', k' ::
              (0 <= i < 4 && 0 <= j < 3 && 0 <= k < 3 && 0 <= i' < 4 && 0 <= j' < 3 && 0 <= k' < 3 &&
               Slot(i, j, k) == Slot(i', j', k')) ==> i == i' && j == j' && k == k'
  {
    forall n | 0 <= n < 36
      ensures Slot(n / 9, (n % 9) / 3, n % 3) == n
    {
      var r := n % 9;
      assert n == 9 * (n / 9) + r && r == 3 * (r / 3) + r % 3;
      assert r % 3 == n % 3;
    }
    forall i, j, k, i', j', k' |
      0 <= i < 4 && 0 <= j < 3 && 0 <= k < 3 && 0 <= i' < 4 && 0 <= j' < 3 && 0 <= k' < 3 && Slot(i, j, k) == Slot(i', j', k')
      ensures i == i' && j == j' && k == k'
    {
      SlotParts(i, j, k);
      SlotParts(i', j', k');
    }
  }

  /** Dividing a slot by the strides recovers its line, vertex and coordinate. */
  lemma SlotParts(i: int, j: int, k: int)
    requires 0 <= i < 4 && 0 <= j < 3 && 0 <= k < 3
    ensures Slot(i, j, k) / 9 == i && (Slot(i, j, k) % 9) / 3 == j && Slot(i, j, k) % 3 == k
  {
    var n := Slot(i, j, k);
    assert n == 9 * i + (3 * j + k) && 0 <= 3 * j + k < 9;
    assert n % 9 == 3 * j + k;
  }

  /** Coordinate `k` of control vertex `j` of line `i` of face `f`, interpolated by `t`. */
  function LineValue(f: nat, s: Scene, t: real, i: nat, j: nat, k: nat): real
    requires f < |FaceData| && i < 4 && j < 3 && k < 3 && Shaped(s)
  {
    var v := VertexOf(f, i, j);
    Lerp(s.vertexSource[v][k], s.vertexTarget[v][k], t)
  }

  /** The control vertex `j` of line `i` of face `f`, as an index into the vertex arrays. */
  function VertexOf(f: nat, i: nat, j: nat): (v: nat)
    requires f < |FaceData| && i < 4 && j < 3
    ensures v < |FaceVertices|
  {
    TablesInRange();
    FaceLines[LineOf(f, i)][j]
  }

  /** The reference `lines` array: position n holds the coordinate its slot names. */
  function LinesOf(f: nat, s: Scene, t: real): seq<real>
    requires f < |FaceData| && Shaped(s)
  {
    seq(36, n requires 0 <= n < 36 => LineValue(f, s, t, n / 9, (n % 9) / 3, n % 3))
  }

  /**
   The `lines` array of one face: for each of its four lines, the three
   control vertices, each interpolated coordinate by coordinate.
   */
  method AssembleLines(f: nat, s: Scene, t: real) returns (lines: seq<real>)
    requires f < |FaceData| && Shaped(s)
    ensures |lines| == 36
    ensures forall n :: 0 <= n < 36 ==> lines[n] == LineValue(f, s, t, n / 9, (n % 9) / 3, n % 3)
  {
    ghost var want := LinesOf(f, s, t);
    lines := [];
    var i := 0;
    while i < 4
      invariant 0 <= i <= 4 && lines == want[..9 * i]
    {
      var j := 0;
      while j < 3
        invariant 0 <= j <= 3 && lines == want[..9 * i + 3 * j]
      {
        var v := VertexOf(f, i, j);
        var source := s.vertexSource[v];
        var target := s.vertexTarget[v];
        var k := 0;
        while k < 3
          invariant 0 <= k <= 3 && lines == want[..Slot(i, j, k)]
        {
          var value := Lerp(source[k], target[k], t);
          LinesOfAt(f, s, t, i, j, k);
          PrefixGrows(want, Slot(i, j, k));
          lines := lines + [value];
          k := k + 1;
        }
        j := j + 1;
      }
      i := i + 1;
    }
  }

  /** Extending a prefix by the next element gives the next prefix. */
  lemma PrefixGrows<T>(s: seq<T>, n: nat)
    requires n < |s|
    ensures s[..n] + [s[n]] == s[..n + 1]
  {
  }

  /** The reference array at the slot of (i, j, k) interpolates coordinate k of that control vertex. */
  lemma LinesOfAt(f: nat, s: Scene, t: real, i: nat, j: nat, k: nat)
    requires f < |FaceData| && i < 4 && j < 3 && k < 3 && Shaped(s)
    ensures 0 <= Slot(i, j, k) < 36
    ensures LinesOf(f, s, t)[Slot(i, j, k)]
              == Lerp(s.vertexSource[VertexOf(f, i, j)][k], s.vertexTarget[VertexOf(f, i, j)][k], t)
  {
    SlotParts(i, j, k);
  }

  /** At the cycle's ends the interpolated control vertices are exactly the sources, then the targets. */
  lemma LineEnds(f: nat, s: Scene, i: nat, j: nat, k: nat)
    requires f < |FaceData| && i < 4 && j < 3 && k < 3 && Shaped(s)
    ensures LineValue(f, s, 0.0, i, j, k) == s.vertexSource[VertexOf(f, i, j)][k]
    ensures LineValue(f, s, 1.0, i, j, k) == s.vertexTarget[VertexOf(f, i, j)][k]
  {
    LerpEnds(s.vertexSource[VertexOf(f, i, j)][k], s.vertexTarget[VertexOf(f, i, j)][k]);
  }

  /**
   The animation has no jump at a refresh: the frame that draws new targets
   starts from exactly the eye and vertices the previous cycle ended on.
   */
  lemma RefreshIsSeamless(s: Scene, time: int, d: Draws, f: nat, i: nat, j: nat, k: nat)
    requires Shaped(s) && |d.vertices| == |FaceVertices|
    requires time - s.start > CyclePeriod
    requires f < |FaceData| && i < 4 && j < 3 && k < 3
    ensures Eye(Refresh(s, time, d), time) == s.eyeTarget
    ensures LineValue(f, Refresh(s, time, d), Eased(Refresh(s, time, d), time), i, j, k) == s.vertexTarget[VertexOf(f, i, j)][k]
  {
    var s' := Refresh(s, time, d);
    assert Fraction(time, s'.start, CyclePeriod) == 0.0;
    SmoothstepEnds();
    LineEnds(f, s', i, j, k);
  }
}
