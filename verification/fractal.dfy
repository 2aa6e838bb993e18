/**
 The gesture engine of the fractal view: pointer samples kept in two sparse
 arrays (where each pointer went down, where it is now), a committed view
 matrix and an in-progress move matrix. A move with one pointer pans, a move
 with two pointers zooms and rotates, and lifting any pointer commits the
 move matrix into the view matrix.
 */
module Fractal {

  import opened Options
  import opened Numerics
  import opened PointerArray
  import opened Matrix3

  /** The masked touch actions the view distinguishes. */
  datatype Action =
    | PointerDown(id: int, at: Vec2)   // ACTION_DOWN and ACTION_POINTER_DOWN
    | PointerUp(id: int)               // ACTION_UP and ACTION_POINTER_UP
    | Moved(samples: seq<Entry>)       // ACTION_MOVE: the id and position of every pointer in the event
    | OtherAction                      // anything else, ACTION_CANCEL included

  /** The view's gesture state; `width` and `height` are the surface size in pixels. */
  datatype Gesture = Gesture(
    down: seq<Entry>,
    moved: seq<Entry>,
    view: Mat3,
    move: Mat3,
    width: int,
    height: int)

  /** The result of `onTouchEvent`: the new state and the returned flag, or the NullPointerException a move sample for an unknown pointer raises. */
  datatype Outcome = Handled(state: Gesture, consumed: bool) | NullPointer

  /** Both arrays hold the same ids in the same order, both matrices are affine, and the surface has a size. */
  predicate Valid(g: Gesture)
  {
    && Sorted(g.down)
    && Sorted(g.moved)
    && Ids(g.down) == Ids(g.moved)
    && Affine(g.view)
    && Affine(g.move)
    && g.width > 0
    && g.height > 0
  }

  /** The freshly constructed view on a surface of the given size. */
  function Initial(width: int, height: int): (g: Gesture)
    requires width > 0 && height > 0
    ensures Valid(g)
    ensures forall k :: !Has(g.down, k) && !Has(g.moved, k)
  {
    Gesture([], [], Identity, Identity, width, height)
  }

  /** A pointer goes down: its position is recorded as both its down and its current sample. */
  function Down(g: Gesture, id: int, at: Vec2): (g': Gesture)
    requires Valid(g)
    ensures Valid(g')
    ensures Get(g'.down, id) == Some(at) && Get(g'.moved, id) == Some(at)
    ensures forall k :: k != id ==> Get(g'.down, k) == Get(g.down, k) && Get(g'.moved, k) == Get(g.moved, k)
    ensures g'.view == g.view && g'.move == g.move
  {
    PutIds(g.down, id, at);
    PutIds(g.moved, id, at);
    g.(down := Put(g.down, id, at), moved := Put(g.moved, id, at))
  }

  /**
   A pointer goes up: it leaves both arrays, the move matrix is committed into
   the view matrix (`view := view × move`) and the move matrix is reset.
   */
  function Up(g: Gesture, id: int): (g': Gesture)
    requires Valid(g)
    ensures Valid(g')
    ensures !Has(g'.down, id) && !Has(g'.moved, id)
    ensures forall k :: k != id ==> Get(g'.down, k) == Get(g.down, k) && Get(g'.moved, k) == Get(g.moved, k)
    ensures g'.move == Identity
    ensures g'.view == Mul(g.view, g.move)
    ensures forall x, y :: Apply(g'.view, x, y) == Apply(g.view, Apply(g.move, x, y).0, Apply(g.move, x, y).1)
  {
    RemoveIds(g.down, id);
    RemoveIds(g.moved, id);
    Gesture(Remove(g.down, id), Remove(g.moved, id), Mul(g.view, g.move), Identity, g.width, g.height)
  }

  /** The commit is `view × move`; with an identity move matrix the view does not change. */
  lemma CommitIdentityKeepsView(g: Gesture, id: int)
    requires Valid(g) && g.move == Identity
    ensures Up(g, id).view == g.view
    ensures Up(g, id).view == Mul(g.view, g.move)
  {
    MulIdentityRight(g.view);
  }

  /** The position the last sample for `k` in a move event gives, if any sample names `k`. */
  function LastSample(samples: seq<Entry>, k: int): Option<Vec2>
  {
    if samples == [] then None
    else Or(LastSample(samples[1..], k), if samples[0].id == k then Some(samples[0].at) else None)
  }

  /**
   The sample loop of a move event: each sample overwrites the current
   position of its pointer. A sample for a pointer that is not down meets a
   `null` and raises, which is `None` here.
   */
  function UpdateMoves(s: seq<Entry>, samples: seq<Entry>): (r: Option<seq<Entry>>)
    requires Sorted(s)
    ensures r.Some? <==> forall i :: 0 <= i < |samples| ==> Has(s, samples[i].id)
    ensures r.Some? ==> Sorted(r.value) && Ids(r.value) == Ids(s)
    ensures r.Some? ==> forall k :: Get(r.value, k) == Or(LastSample(samples, k), Get(s, k))
    decreases |samples|
  {
    if samples == [] then Some(s)
    else if !Has(s, samples[0].id) then None
    else
      var e := samples[0];
      var s1 := Put(s, e.id, e.at);
      PutPresentKeepsIds(s, e.id, e.at);
      assert forall k :: Has(s1, k) <==> Has(s, k);
      assert forall i :: 1 <= i < |samples| ==> samples[i] == samples[1..][i - 1];
      UpdateMoves(s1, samples[1..])
  }

  /** Math.toDegrees. */
  function ToDegrees(radians: real): real
  {
    radians * 180.0 / Pi
  }

  /** The angle of (dx, dy) the view computes: `acos(dx / len)`, negated unless `dy > 0`. */
  function Angle(dx: real, dy: real, len: real, m: Math): real
  {
    var a := m.acos(Quotient(dx, len, m));
    if dy > 0.0 then a else -a
  }

  /** The rotation `preRotate(degrees, px, py)` composes with: the angle converted back to radians. */
  function Rotation(degrees: real, px: real, py: real, m: Math): Mat3
  {
    var radians := degrees * Pi / 180.0;
    RotateAbout(m.sin(radians), m.cos(radians), px, py)
  }

  /** A pointer position mapped to normalised device coordinates, y pointing up. */
  function Pivot(at: Vec2, width: int, height: int): (p: Vec2)
    requires width > 0 && height > 0
    ensures at.x == 0.0 ==> p.x == -1.0
    ensures at.x == width as real ==> p.x == 1.0
    ensures at.y == 0.0 ==> p.y == 1.0
    ensures at.y == height as real ==> p.y == -1.0
  {
    var w, h := width as real, height as real;
    assert w / w == 1.0 && h / h == 1.0;
    Vec2((at.x / w) * 2.0 - 1.0, -((at.y / h) * 2.0 - 1.0))
  }

  /** One-finger pan: the move matrix translates by the finger's travel in device units, y inverted. */
  function Pan(down: Vec2, moved: Vec2, width: int, height: int): (r: Mat3)
    requires width > 0 && height > 0
    ensures Affine(r)
    ensures moved == down ==> r == Identity
    ensures forall x, y :: Apply(r, x, y) == (x + (down.x - moved.x) * 2.0 / width as real, y + (moved.y - down.y) * 2.0 / height as real)
  {
    var dx := (down.x - moved.x) * 2.0 / width as real;
    var dy := (moved.y - down.y) * 2.0 / height as real;
    assert forall x, y :: Apply(Translate(dx, dy), x, y) == (x + dx, y + dy) by {
      forall x, y
        ensures Apply(Translate(dx, dy), x, y) == (x + dx, y + dy)
      {
        TranslateMoves(dx, dy, x, y);
      }
    }
    TranslateMoves(0.0, 0.0, 0.0, 0.0);
    Translate(dx, dy)
  }

  /**
   The zoom factor of a two-finger gesture: the ratio of the fingers'
   original to current distance, not finite when the current pair coincides.
   */
  function ZoomFactor(down1: Vec2, down2: Vec2, move1: Vec2, move2: Vec2, m: Math): (z: real)
    ensures Length(move1.x - move2.x, move1.y - move2.y, m) != 0.0 ==>
              z * Length(move1.x - move2.x, move1.y - move2.y, m) == Length(down1.x - down2.x, down1.y - down2.y, m)
    ensures Length(move1.x - move2.x, move1.y - move2.y, m) == 0.0 ==> z == m.nonFinite
    ensures move1 == down1 && move2 == down2 && Length(move1.x - move2.x, move1.y - move2.y, m) != 0.0 ==> z == 1.0
  {
    Quotient(Length(down1.x - down2.x, down1.y - down2.y, m), Length(move1.x - move2.x, move1.y - move2.y, m), m)
  }

  /** The rotation of a two-finger gesture: the current angle of the finger pair minus its original angle. */
  function TurnAngle(down1: Vec2, down2: Vec2, move1: Vec2, move2: Vec2, m: Math): (a: real)
    ensures move1 == down1 && move2 == down2 ==> a == 0.0
  {
    var dx1 := down1.x - down2.x;
    var dy1 := down1.y - down2.y;
    var dx2 := move1.x - move2.x;
    var dy2 := move1.y - move2.y;
    Angle(dx2, dy2, Length(dx2, dy2, m), m) - Angle(dx1, dy1, Length(dx1, dy1, m), m)
  }

  /**
   Two-finger zoom and rotate: `setScale(z, z)` followed by
   `preRotate(degrees, px, -py)` about the first finger's current position.
   The matrix acts on the pivot as the zoom alone does: the rotation leaves it in place.
   */
  function ZoomRotate(down1: Vec2, down2: Vec2, move1: Vec2, move2: Vec2, width: int, height: int, m: Math): (r: Mat3)
    requires width > 0 && height > 0
    ensures Affine(r)
    ensures Length(move1.x - move2.x, move1.y - move2.y, m) != 0.0 ==>
              var p := Pivot(move1, width, height);
              Apply(r, p.x, p.y) == Apply(Scale(ZoomFactor(down1, down2, move1, move2, m)), p.x, p.y)
  {
    var z := ZoomFactor(down1, down2, move1, move2, m);
    var p := Pivot(move1, width, height);
    var radians := ToDegrees(TurnAngle(down1, down2, move1, move2, m)) * Pi / 180.0;
    var rot := Rotation(ToDegrees(TurnAngle(down1, down2, move1, move2, m)), p.x, p.y, m);
    assert rot == RotateAbout(m.sin(radians), m.cos(radians), p.x, p.y);
    ScaledRotationMovesPivot(z, m.sin(radians), m.cos(radians), p.x, p.y);
    Mul(Scale(z), rot)
  }

  /** Both arrays have as many entries as they have ids. */
  lemma SizesAgree(g: Gesture)
    requires Valid(g)
    ensures |g.down| == |g.moved|
  {
    assert |g.down| == |Ids(g.down)| == |Ids(g.moved)| == |g.moved|;
  }

  /**
   The move matrix recomputed from the samples by pointer count: one pointer
   pans, two pointers zoom and rotate, any other count keeps the matrix.
   */
  function Derive(g: Gesture, m: Math): (r: Mat3)
    requires Valid(g)
    ensures |g.down| == 1 ==> |g.moved| == 1 && r == Pan(g.down[0].at, g.moved[0].at, g.width, g.height)
    ensures |g.down| == 2 ==> |g.moved| == 2 && r == ZoomRotate(g.down[0].at, g.down[1].at, g.moved[0].at, g.moved[1].at, g.width, g.height, m)
    ensures |g.down| != 1 && |g.down| != 2 ==> r == g.move
  {
    SizesAgree(g);
    if |g.down| == 1 then
      Pan(g.down[0].at, g.moved[0].at, g.width, g.height)
    else if |g.down| == 2 then
      ZoomRotate(g.down[0].at, g.down[1].at, g.moved[0].at, g.moved[1].at, g.width, g.height, m)
    else
      g.move
  }

  /**
   A move event: update the current samples, then recompute the move matrix.
   The down samples and the view matrix are untouched.
   */
  function Move(g: Gesture, samples: seq<Entry>, m: Math): (r: Outcome)
    requires Valid(g)
    ensures r.NullPointer? <==> exists i :: 0 <= i < |samples| && !Has(g.moved, samples[i].id)
    ensures r.Handled? ==> Valid(r.state) && r.consumed
    ensures r.Handled? ==> r.state.down == g.down && r.state.view == g.view
    ensures r.Handled? ==> forall k :: Get(r.state.moved, k) == Or(LastSample(samples, k), Get(g.moved, k))
    ensures r.Handled? ==> r.state.move == Derive(g.(moved := r.state.moved), m)
    ensures r.Handled? && |g.down| != 1 && |g.down| != 2 ==> r.state.move == g.move
  {
    match UpdateMoves(g.moved, samples)
    case None => NullPointer
    case Some(moved) =>
      var g1 := g.(moved := moved);
      Handled(g1.(move := Derive(g1, m)), true)
  }

  /** `onTouchEvent`: dispatch on the masked action. */
  function OnTouchEvent(g: Gesture, a: Action, m: Math): (r: Outcome)
    requires Valid(g)
    ensures r.NullPointer? <==> a.Moved? && exists i :: 0 <= i < |a.samples| && !Has(g.moved, a.samples[i].id)
    ensures r.Handled? ==> Valid(r.state)
    ensures r.Handled? ==> (r.consumed <==> !a.OtherAction?)
    ensures r.Handled? && !a.PointerUp? ==> r.state.view == g.view
    ensures a.OtherAction? ==> r == Handled(g, false)
  {
    match a
    case PointerDown(id, at) => Handled(Down(g, id, at), true)
    case PointerUp(id) => Handled(Up(g, id), true)
    case Moved(samples) => Move(g, samples, m)
    case OtherAction => Handled(g, false)
  }

  /** A pointer that has not moved leaves the one-finger move matrix at the identity. */
  lemma OnePointerAtRest(g: Gesture, m: Math)
    requires Valid(g) && |g.down| == 1 && g.moved == g.down
    ensures Derive(g, m) == Identity
  {
  }

  /** Two pointers that have not moved, with the usual values of sine and cosine at 0, leave the move matrix at the identity. */
  lemma TwoPointersAtRest(g: Gesture, m: Math)
    requires Valid(g) && |g.down| == 2 && g.moved == g.down
    requires Length(g.down[0].at.x - g.down[1].at.x, g.down[0].at.y - g.down[1].at.y, m) != 0.0
    requires m.sin(0.0) == 0.0 && m.cos(0.0) == 1.0
    ensures Derive(g, m) == Identity
  {
    var d1, d2 := g.down[0].at, g.down[1].at;
    var a := TurnAngle(d1, d2, d1, d2, m);
    assert a == 0.0;
    assert ToDegrees(a) * Pi / 180.0 == 0.0;
    var p := Pivot(d1, g.width, g.height);
    assert Rotation(ToDegrees(a), p.x, p.y, m) == RotateAbout(0.0, 1.0, p.x, p.y);
    RotateAboutFixesPivot(0.0, 1.0, p.x, p.y);
    ScaleStretches(1.0, 0.0, 0.0);
    MulIdentityLeft(Identity);
  }

  /**
   With two pointers down, the pivot of the rotation is the current position
   of the pointer with the lowest id: the move matrix acts on that point, in
   device coordinates, as the zoom alone does.
   */
  lemma PivotIsLowestId(g: Gesture, m: Math)
    requires Valid(g) && |g.down| == 2
    ensures forall k :: Has(g.moved, k) ==> g.moved[0].id <= k
    ensures Length(g.moved[0].at.x - g.moved[1].at.x, g.moved[0].at.y - g.moved[1].at.y, m) != 0.0 ==>
              var p := Pivot(g.moved[0].at, g.width, g.height);
              Apply(Derive(g, m), p.x, p.y)
                == Apply(Scale(ZoomFactor(g.down[0].at, g.down[1].at, g.moved[0].at, g.moved[1].at, m)), p.x, p.y)
  {
    LowestFirst(g.moved);
    SizesAgree(g);
    assert Derive(g, m) == ZoomRotate(g.down[0].at, g.down[1].at, g.moved[0].at, g.moved[1].at, g.width, g.height, m);
  }

  /** The worked one-finger example: a drag of half the width to the left pans one unit to the right. */
  lemma HalfWidthDragPansOneUnit(w: int, h: int)
    requires w > 0 && h > 0
    ensures Pan(Vec2(100.0, 100.0), Vec2(100.0 - w as real / 2.0, 100.0), w, h) == Translate(1.0, 0.0)
  {
    var half := w as real / 2.0;
    assert (100.0 - (100.0 - half)) * 2.0 == w as real;
    assert w as real / w as real == 1.0;
    assert (100.0 - 100.0) * 2.0 / h as real == 0.0;
  }
}
