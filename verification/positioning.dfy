/** `best_fit_scale_and_rotation`: the largest uniform scale at which an
    object's bounding box fits a target box, trying the object as it is and
    turned a quarter about Z (which swaps its X and Y extents). Arithmetic is
    over exact reals. */
module Positioning {
  import opened Wrappers

  datatype Dims = Dims(x: real, y: real, z: real)

  /** The two orientations tried. The source returns the angle as a float
      (`0.0` or `math.pi / 2`); here it is the number of quarter turns. */
  datatype Orientation = NoRotation | RotatedZ90

  function QuarterTurns(o: Orientation): (n: nat)
    ensures n <= 1
    ensures n == 0 <==> o == NoRotation
  {
    if o == NoRotation then 0 else 1
  }

  /** The label returned with the angle. */
  function Label(o: Orientation): (s: string)
    ensures o == NoRotation <==> s == "no rotation"
  {
    if o == NoRotation then "no rotation" else "rotated 90° about Z"
  }

  /** The object's extents along the box's axes in an orientation. */
  function Turned(d: Dims, o: Orientation): (t: Dims)
    ensures o == NoRotation ==> t == d
    ensures o == RotatedZ90 ==> t == Dims(d.y, d.x, d.z)
  {
    if o == NoRotation then d else Dims(d.y, d.x, d.z)
  }

  predicate Positive(d: Dims) {
    d.x > 0.0 && d.y > 0.0 && d.z > 0.0
  }

  /** No extent is zero: every ratio can be computed. */
  predicate NonZero(d: Dims) {
    d.x != 0.0 && d.y != 0.0 && d.z != 0.0
  }

  /** `min(a, b, c)`. */
  function Min3(a: real, b: real, c: real): (m: real)
    ensures m <= a && m <= b && m <= c
    ensures m == a || m == b || m == c
  {
    if a <= b && a <= c then a else if b <= c then b else c
  }

  /** The scale an orientation allows: the smallest box-to-object ratio. */
  function ScaleFor(obj: Dims, box: Dims, o: Orientation): real
    requires NonZero(obj)
  {
    var t := Turned(obj, o);
    Min3(box.x / t.x, box.y / t.y, box.z / t.z)
  }

  /** The object scaled by `s` in orientation `o` lies within the box. */
  predicate Fits(obj: Dims, box: Dims, o: Orientation, s: real) {
    var t := Turned(obj, o);
    s * t.x <= box.x && s * t.y <= box.y && s * t.z <= box.z
  }

  /** `s * a <= b` exactly when `s <= b / a`, for a positive `a`. */
  lemma ScaledBelow(s: real, a: real, b: real)
    requires a > 0.0
    ensures s * a <= b <==> s <= b / a
  {
    assert (b / a) * a == b;
    if s <= b / a {
      assert s * a <= (b / a) * a;
    } else {
      assert s * a > (b / a) * a;
    }
  }

  /** With positive extents, an orientation fits at exactly the scales up to
      the one it allows. */
  lemma FitsIff(obj: Dims, box: Dims, o: Orientation, s: real)
    requires Positive(obj)
    ensures Fits(obj, box, o, s) <==> s <= ScaleFor(obj, box, o)
  {
    var t := Turned(obj, o);
    ScaledBelow(s, t.x, box.x);
    ScaledBelow(s, t.y, box.y);
    ScaledBelow(s, t.z, box.z);
  }

  /** What the function returns, with the angle as a quarter-turn count. */
  datatype Placement = Placement(scale: real, orientation: Orientation, description: string)

  datatype PositioningError = ZeroDivision

  /** `best_fit_scale_and_rotation(obj_dims, box_dims)`. A zero extent of the
      object raises `ZeroDivisionError`. The turned case wins only when it
      allows a strictly larger scale. */
  function BestFitScaleAndRotation(obj: Dims, box: Dims): (r: Result<Placement, PositioningError>)
    ensures !NonZero(obj) <==> r == Err(ZeroDivision)
    ensures r.Ok? ==> r.value.description == Label(r.value.orientation)
    ensures r.Ok? ==> r.value.scale == ScaleFor(obj, box, r.value.orientation)
    ensures r.Ok? ==> (r.value.orientation == RotatedZ90
                       <==> ScaleFor(obj, box, RotatedZ90) > ScaleFor(obj, box, NoRotation))
    ensures r.Ok? ==> r.value.scale >= ScaleFor(obj, box, NoRotation) && r.value.scale >= ScaleFor(obj, box, RotatedZ90)
  {
    if !NonZero(obj) then Err(ZeroDivision)
    else
      var sA := Min3(box.x / obj.x, box.y / obj.y, box.z / obj.z);
      var sB := Min3(box.x / obj.y, box.y / obj.x, box.z / obj.z);
      if sB > sA then Ok(Placement(sB, RotatedZ90, Label(RotatedZ90)))
      else Ok(Placement(sA, NoRotation, Label(NoRotation)))
  }

  /** The chosen placement fits, it is tight (the scale equals one of the
      chosen orientation's per-axis ratios), and no orientation fits at any
      larger scale. */
  lemma BestFitIsOptimal(obj: Dims, box: Dims)
    requires Positive(obj)
    ensures var p := BestFitScaleAndRotation(obj, box).value;
      var t := Turned(obj, p.orientation);
      && Fits(obj, box, p.orientation, p.scale)
      && (p.scale == box.x / t.x || p.scale == box.y / t.y || p.scale == box.z / t.z)
      && forall o: Orientation, s: real :: Fits(obj, box, o, s) ==> s <= p.scale
  {
    var p := BestFitScaleAndRotation(obj, box).value;
    FitsIff(obj, box, p.orientation, p.scale);
    forall o: Orientation, s: real | Fits(obj, box, o, s)
      ensures s <= p.scale
    {
      FitsIff(obj, box, o, s);
    }
  }

  /** An object as wide as it is deep is never turned: both orientations
      allow the same scale. */
  lemma SquareNeverRotated(obj: Dims, box: Dims)
    requires NonZero(obj) && obj.x == obj.y
    ensures BestFitScaleAndRotation(obj, box).value.orientation == NoRotation
  {
    assert ScaleFor(obj, box, RotatedZ90) == ScaleFor(obj, box, NoRotation);
  }
}
