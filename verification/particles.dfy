/**
 * The particle system of the visualisation: one particle per comment,
 * placed on a sphere whose radius grows with the number of comments, sized
 * by toxicity, and animated in on every frame before rendering (growing
 * towards the target sizes) and out after rendering once the exit has been
 * requested (shrinking to nothing).
 *
 * Numbers are reals (the Float32 buffers' rounding is not modelled); the
 * window size and the sphere placement are parameters; the delayed
 * `finishedLoading` timer is an external event method.
 */
module ParticleSystem {
  import opened Wrappers

  /** One comment record: its type (`DELETION` or another) and its toxicity score. */
  datatype Datum = Datum(kind: string, toxicity: real)

  /** A point in space, as returned by the sphere placement. */
  datatype Point = Point(x: real, y: real, z: real)

  /** The number of comments from which the sphere has its full configured size. */
  const FullRadiusCount: nat := 280

  /** The smallest size weight. */
  const MinSizeWeight: real := 1.45

  /** The particle colour of a deletion (pink) and of any other comment (red). */
  const DeletionColour: seq<real> := [0.988, 0.91, 0.92]
  const CommentColour: seq<real> := [0.937, 0.0, 0.184]

  /** The rotation added by every entry frame while spinning. */
  const RotationStep: real := 0.0002

  // ---------------------------------------------------------------------
  // Radius and size weight

  /** `getRadius`: the configured scale beyond 280 comments, else scaled from half to full size. */
  function RadiusFor(configScale: real, num: nat): real {
    if num > FullRadiusCount then configScale
    else configScale * ((num as real / 280.0) / 2.0 + 0.5)
  }

  /** The radius lies between half and all of a non-negative configured scale, and is all of it from 280 comments on. */
  lemma RadiusBounds(configScale: real, num: nat)
    requires configScale >= 0.0
    ensures configScale / 2.0 <= RadiusFor(configScale, num) <= configScale
    ensures num >= FullRadiusCount ==> RadiusFor(configScale, num) == configScale
  {
    if num <= FullRadiusCount {
      var f := (num as real / 280.0) / 2.0 + 0.5;
      assert 0.5 <= f <= 1.0;
      assert configScale * 0.5 <= configScale * f by {
        MulMonotone(configScale, 0.5, f);
      }
      assert configScale * f <= configScale * 1.0 by {
        MulMonotone(configScale, f, 1.0);
      }
    }
  }

  /** More comments never give a smaller sphere. */
  lemma RadiusMonotone(configScale: real, a: nat, b: nat)
    requires configScale >= 0.0 && a <= b
    ensures RadiusFor(configScale, a) <= RadiusFor(configScale, b)
  {
    if b > FullRadiusCount {
      RadiusBounds(configScale, a);
    } else {
      MulMonotone(configScale, (a as real / 280.0) / 2.0 + 0.5, (b as real / 280.0) / 2.0 + 0.5);
    }
  }

  /** Scaling by a non-negative factor keeps the order. */
  lemma MulMonotone(c: real, x: real, y: real)
    requires c >= 0.0 && x <= y
    ensures c * x <= c * y
  {
  }

  /** `getSizeWeight`: the smaller window side over 300, at least 1.45, and 20% more under 90 comments. */
  function SizeWeight(width: real, height: real, num: nat): (weight: real)
    ensures weight >= MinSizeWeight
    ensures weight >= (if width > height then height else width) / 300.0
  {
    var base := (if width > height then height else width) / 300.0;
    var clamped := if base < MinSizeWeight then MinSizeWeight else base;
    if num < 90 then clamped * 1.2 else clamped
  }

  /** A system of fewer than 90 comments has particles exactly 1.2 times as large as one of 90 or more. */
  lemma SmallSystemsLarger(width: real, height: real, small: nat, large: nat)
    requires small < 90 <= large
    ensures SizeWeight(width, height, small) == 1.2 * SizeWeight(width, height, large)
  {
  }

  // ---------------------------------------------------------------------
  // Target sizes and colours

  /** The size a particle grows to: the size weight for a deletion, else `(toxicity - 0.75) * weight * 20`. */
  function TargetSize(d: Datum, weight: real): real {
    if d.kind == "DELETION" then weight else (d.toxicity - 0.75) * weight * 20.0
  }

  /** With a positive weight, a comment's target is negative exactly below toxicity 0.75, and a deletion's is positive. */
  lemma TargetSizeSign(d: Datum, weight: real)
    requires weight > 0.0
    ensures d.kind == "DELETION" ==> TargetSize(d, weight) > 0.0
    ensures d.kind != "DELETION" ==> (TargetSize(d, weight) < 0.0 <==> d.toxicity < 0.75)
  {
    if d.kind != "DELETION" {
      var t := d.toxicity - 0.75;
      if t < 0.0 {
        assert t * (weight * 20.0) < 0.0;
      } else {
        assert t * (weight * 20.0) >= 0.0;
      }
      assert TargetSize(d, weight) == t * (weight * 20.0);
    }
  }

  /** The RGB colour of a particle. */
  function Colour(d: Datum): (c: seq<real>)
    ensures |c| == 3
  {
    if d.kind == "DELETION" then DeletionColour else CommentColour
  }

  /** Coordinate `axis` (0, 1, 2) of a point. */
  function Coordinate(p: Point, axis: nat): real
    requires axis < 3
  {
    if axis == 0 then p.x else if axis == 1 then p.y else p.z
  }

  /** The entries `3i`, `3i+1`, `3i+2` belong to particle `i`. */
  lemma WithinTriple(i: nat, k: nat)
    requires 3 * i <= k < 3 * i + 3
    ensures k / 3 == i && k % 3 == k - 3 * i
  {
  }

  /** The entries `4i` to `4i+3` belong to particle `i`. */
  lemma WithinQuad(i: nat, k: nat)
    requires 4 * i <= k < 4 * i + 4
    ensures k / 4 == i && k % 4 == k - 4 * i
  {
  }

  /** Entry `k` of the RGBA colour buffer: the colour of particle `k / 4`, alpha 1. */
  function ColourEntry(datas: seq<Datum>, k: nat): real
    requires k < 4 * |datas|
  {
    if k % 4 == 3 then 1.0 else Colour(datas[k / 4])[k % 4]
  }

  // ---------------------------------------------------------------------
  // Animation steps

  /** The entry delay of particle `i` of `l`: later particles wait longer, the last ones all alike. */
  function EntryDelay(l: nat, i: nat): real {
    if l < 100 then
      if i as int > l as int - 10 then (l as int - 10) as real else i as real * 1.1
    else
      if i as int > l as int - 100 then (l as int - 100) as real else i as real
  }

  /** The exit weight of particle `i` of `l`. */
  function ExitWeight(l: nat, i: nat): real {
    if l < 100 then
      if i as int > l as int - 10 then (l as int - 10) as real else i as real * 1.2
    else
      if i as int > l as int - 100 then (l as int - 100) as real else i as real
  }

  /** The amount particle `i` grows by per entry frame. */
  function EntryStep(l: nat, i: nat): real
    requires l > 0
  {
    1.0 - EntryDelay(l, i) / (l as real) + 0.1
  }

  /** The amount particle `i` shrinks by per exit frame. */
  function ExitStep(l: nat, i: nat): real
    requires l > 0
  {
    1.0 - ExitWeight(l, i) / (l as real) + 0.1
  }

  /** A quotient by a positive divisor stays below `c` when the dividend is below `c` times the divisor. */
  lemma DivBelow(a: real, b: real, c: real)
    requires b > 0.0 && a < c * b
    ensures a / b < c
  {
  }

  /** Every particle grows on every entry frame: its step is positive. */
  lemma EntryStepPositive(l: nat, i: nat)
    requires i < l
    ensures EntryStep(l, i) > 0.0
  {
    var L := l as real;
    var d := EntryDelay(l, i);
    if l < 100 {
      if i as int <= l as int - 10 {
        assert d == i as real * 1.1 <= (L - 10.0) * 1.1;
      }
    }
    assert d < 1.1 * L;
    DivBelow(d, L, 1.1);
  }

  /** Every particle shrinks on every exit frame: its step is positive (the 1.2 factor stays safe below 120 comments). */
  lemma ExitStepPositive(l: nat, i: nat)
    requires i < l
    ensures ExitStep(l, i) > 0.0
  {
    var L := l as real;
    var w := ExitWeight(l, i);
    if l < 100 {
      if i as int <= l as int - 10 {
        assert w == i as real * 1.2 <= (L - 10.0) * 1.2;
        assert (L - 10.0) * 1.2 < 1.1 * L;
      }
    }
    assert w < 1.1 * L;
    DivBelow(w, L, 1.1);
  }

  /** One entry frame of one particle: grow by the step unless that would pass the target, else snap to it. */
  function EntryScale(s: real, target: real, step: real): (r: real)
    ensures r <= target
    ensures r == target || r == s + step
    ensures step > 0.0 && s <= target ==> s <= r
  {
    if s < target - step then s + step else target
  }

  /** One exit frame of one particle: shrink by the step unless that would pass zero, else snap to zero. */
  function ExitScale(s: real, step: real): (r: real)
    ensures r >= 0.0
    ensures r == 0.0 || r == s - step
    ensures step > 0.0 && s >= 0.0 ==> r <= s
  {
    if s > step then s - step else 0.0
  }

  /** The first `i` particles' coordinates are in place in the position buffer. */
  ghost predicate PositionsUpTo(pos: seq<real>, n: nat, radius: real, sphere: (nat, real, nat) -> Point, i: nat) {
    3 * i <= |pos| && forall k :: 0 <= k < 3 * i ==> pos[k] == Coordinate(sphere(n, radius, k / 3), k % 3)
  }

  /** The first `i` particles' colours are in place in the colour buffer. */
  ghost predicate ColoursUpTo(col: seq<real>, datas: seq<Datum>, i: nat) {
    4 * i <= |col| && i <= |datas| && forall k :: 0 <= k < 4 * i ==> col[k] == ColourEntry(datas, k)
  }

  /** Writing particle `i`'s coordinates extends `PositionsUpTo` by one particle. */
  lemma PositionsStep(pos: seq<real>, n: nat, radius: real, sphere: (nat, real, nat) -> Point, i: nat)
    requires PositionsUpTo(pos, n, radius, sphere, i) && 3 * i + 3 <= |pos|
    ensures var p := sphere(n, radius, i);
      PositionsUpTo(pos[3 * i := p.x][3 * i + 1 := p.y][3 * i + 2 := p.z], n, radius, sphere, i + 1)
  {
    forall k | 3 * i <= k < 3 * i + 3 ensures k / 3 == i && k % 3 == k - 3 * i {
      WithinTriple(i, k);
    }
  }

  /** Writing particle `i`'s colour and alpha extends `ColoursUpTo` by one particle. */
  lemma ColoursStep(col: seq<real>, datas: seq<Datum>, i: nat)
    requires ColoursUpTo(col, datas, i) && i < |datas| && 4 * i + 4 <= |col|
    ensures var c := Colour(datas[i]);
      ColoursUpTo(col[4 * i := c[0]][4 * i + 1 := c[1]][4 * i + 2 := c[2]][4 * i + 3 := 1.0], datas, i + 1)
  {
    forall k | 4 * i <= k < 4 * i + 4 ensures k / 4 == i && k % 4 == k - 4 * i {
      WithinQuad(i, k);
    }
  }

  /**
   * The `forEach` of `initGeometry`: fresh buffers of 3N, 4N, N and N entries; every particle at its sphere
   * position, at scale 0.001, with its colour at alpha 1 and its target size.
   */
  method FillBuffers(datas: seq<Datum>, weight: real, radius: real, sphere: (nat, real, nat) -> Point)
    returns (pos: array<real>, col: array<real>, sc: array<real>, fin: array<real>)
    ensures fresh(pos) && fresh(col) && fresh(sc) && fresh(fin)
    ensures sc != fin && sc != pos && sc != col
    ensures pos.Length == 3 * |datas| && col.Length == 4 * |datas| && sc.Length == |datas| && fin.Length == |datas|
    ensures forall k :: 0 <= k < pos.Length ==> pos[k] == Coordinate(sphere(|datas|, radius, k / 3), k % 3)
    ensures forall k :: 0 <= k < col.Length ==> col[k] == ColourEntry(datas, k)
    ensures forall i :: 0 <= i < sc.Length ==> sc[i] == 0.001
    ensures forall i :: 0 <= i < fin.Length ==> fin[i] == TargetSize(datas[i], weight)
  {
    var n := |datas|;
    pos := new real[3 * n](_ => 0.0);
    col := new real[4 * n](_ => 0.0);
    sc := new real[n](_ => 0.0);
    fin := new real[n](_ => 0.0);
    var i := 0;
    while i < n
      invariant 0 <= i <= n
      invariant PositionsUpTo(pos[..], n, radius, sphere, i)
      invariant ColoursUpTo(col[..], datas, i)
      invariant forall j :: 0 <= j < i ==> sc[j] == 0.001
      invariant forall j :: 0 <= j < i ==> fin[j] == TargetSize(datas[j], weight)
    {
      WriteParticle(datas, weight, radius, sphere, pos, col, sc, fin, i);
      i := i + 1;
    }
    forall k | 0 <= k < pos.Length ensures pos[k] == Coordinate(sphere(|datas|, radius, k / 3), k % 3) {
      assert pos[..][k] == pos[k];
    }
    forall k | 0 <= k < col.Length ensures col[k] == ColourEntry(datas, k) {
      assert col[..][k] == col[k];
    }
  }

  /** One step of the `forEach`: particle `i`'s position, scale, target size and colour are written. */
  method WriteParticle(datas: seq<Datum>, weight: real, radius: real, sphere: (nat, real, nat) -> Point,
                       pos: array<real>, col: array<real>, sc: array<real>, fin: array<real>, i: nat)
    requires pos.Length == 3 * |datas| && col.Length == 4 * |datas| && sc.Length == |datas| && fin.Length == |datas|
    requires i < |datas|
    requires pos != col && pos != sc && pos != fin && col != sc && col != fin && sc != fin
    requires PositionsUpTo(pos[..], |datas|, radius, sphere, i)
    requires ColoursUpTo(col[..], datas, i)
    requires forall j :: 0 <= j < i ==> sc[j] == 0.001
    requires forall j :: 0 <= j < i ==> fin[j] == TargetSize(datas[j], weight)
    modifies pos, col, sc, fin
    ensures PositionsUpTo(pos[..], |datas|, radius, sphere, i + 1)
    ensures ColoursUpTo(col[..], datas, i + 1)
    ensures forall j :: 0 <= j < i + 1 ==> sc[j] == 0.001
    ensures forall j :: 0 <= j < i + 1 ==> fin[j] == TargetSize(datas[j], weight)
  {
    var n := |datas|;
    var p := sphere(n, radius, i);
    PositionsStep(pos[..], n, radius, sphere, i);
    ColoursStep(col[..], datas, i);
    pos[3 * i], pos[3 * i + 1], pos[3 * i + 2] := p.x, p.y, p.z;
    sc[i] := 0.001;
    var c := Colour(datas[i]);
    fin[i] := TargetSize(datas[i], weight);
    col[4 * i], col[4 * i + 1], col[4 * i + 2], col[4 * i + 3] := c[0], c[1], c[2], 1.0;
  }

  // ---------------------------------------------------------------------
  // The particle system

  class Particles {
    /** The comments shown, one particle each (`_datas`). */
    const datas: seq<Datum>
    /** The configured sphere size (`_scale`). */
    const configScale: real
    var spin: bool
    var exit: bool
    var finishedLoading: bool
    var radius: real
    /** The rotation of the points object about the vertical axis. */
    var rotationY: real
    var positions: array<real>
    var colors: array<real>
    var scale: array<real>
    var finalSizes: array<real>

    /** The buffers hold 3, 4, 1 and 1 entries per particle; the scale buffer is its own array. */
    ghost predicate Valid()
      reads this
    {
      && positions.Length == 3 * |datas|
      && colors.Length == 4 * |datas|
      && scale.Length == |datas|
      && finalSizes.Length == |datas|
      && scale != finalSizes && scale != positions && scale != colors
    }

    /** The constructor: spinning, not exiting, not loaded, then `init` fills the buffers. */
    constructor (datas: seq<Datum>, configScale: real, width: real, height: real,
                 sphere: (nat, real, nat) -> Point)
      ensures Valid()
      ensures this.datas == datas && this.configScale == configScale
      ensures spin && !exit && !finishedLoading && rotationY == 0.0
      ensures radius == RadiusFor(configScale, |datas|)
      ensures forall k :: 0 <= k < positions.Length ==> positions[k] == Coordinate(sphere(|datas|, radius, k / 3), k % 3)
      ensures forall k :: 0 <= k < colors.Length ==> colors[k] == ColourEntry(datas, k)
      ensures forall i :: 0 <= i < scale.Length ==> scale[i] == 0.001
      ensures forall i :: 0 <= i < finalSizes.Length ==> finalSizes[i] == TargetSize(datas[i], SizeWeight(width, height, |datas|))
    {
      this.datas := datas;
      this.configScale := configScale;
      spin, exit, finishedLoading := true, false, false;
      radius, rotationY := 0.0, 0.0;
      positions, colors, scale, finalSizes := new real[0], new real[0], new real[0], new real[0];
      new;
      InitGeometry(width, height, sphere);
    }

    /** `getRadius`: computes the radius for `num` comments and stores it. */
    method GetRadius(num: nat) returns (r: real)
      modifies this
      ensures r == radius == RadiusFor(configScale, num)
      ensures spin == old(spin) && exit == old(exit) && finishedLoading == old(finishedLoading)
      ensures rotationY == old(rotationY)
      ensures positions == old(positions) && colors == old(colors) && scale == old(scale) && finalSizes == old(finalSizes)
    {
      radius := RadiusFor(configScale, num);
      r := radius;
    }

    /**
     * `initGeometry`: fresh buffers of 3N, 4N, N and N entries; every particle at its sphere position,
     * at scale 0.001, with its colour at alpha 1 and its target size.
     */
    method InitGeometry(width: real, height: real, sphere: (nat, real, nat) -> Point)
      modifies this
      ensures Valid()
      ensures fresh(positions) && fresh(colors) && fresh(scale) && fresh(finalSizes)
      ensures spin == old(spin) && exit == old(exit) && finishedLoading == old(finishedLoading)
      ensures rotationY == old(rotationY)
      ensures radius == RadiusFor(configScale, |datas|)
      ensures forall k :: 0 <= k < positions.Length ==> positions[k] == Coordinate(sphere(|datas|, radius, k / 3), k % 3)
      ensures forall k :: 0 <= k < colors.Length ==> colors[k] == ColourEntry(datas, k)
      ensures forall i :: 0 <= i < scale.Length ==> scale[i] == 0.001
      ensures forall i :: 0 <= i < finalSizes.Length ==> finalSizes[i] == TargetSize(datas[i], SizeWeight(width, height, |datas|))
    {
      var n := |datas|;
      var weight := SizeWeight(width, height, n);
      var r := GetRadius(n);
      var pos, col, sc, fin := FillBuffers(datas, weight, r, sphere);
      positions, colors, scale, finalSizes := pos, col, sc, fin;
    }

    /**
     * The entry callback, run before every render: nothing unless spinning; then a small rotation, and,
     * unless exiting or loaded, every particle grows towards its target. The returned delay is the
     * `finishedLoading` timer scheduled at the last particle.
     */
    method EntryFrame() returns (timer: Option<real>)
      requires Valid()
      modifies this, scale
      ensures Valid()
      ensures spin == old(spin) && exit == old(exit) && finishedLoading == old(finishedLoading)
      ensures radius == old(radius)
      ensures positions == old(positions) && colors == old(colors) && scale == old(scale) && finalSizes == old(finalSizes)
      ensures !spin ==> rotationY == old(rotationY)
      ensures spin ==> rotationY == old(rotationY) + RotationStep
      ensures !spin || exit || finishedLoading ==> scale[..] == old(scale[..]) && timer.None?
      ensures spin && !exit && !finishedLoading ==>
        && (forall i :: 0 <= i < |datas| ==> scale[i] == EntryScale(old(scale[i]), finalSizes[i], EntryStep(|datas|, i)))
        && (forall i :: 0 <= i < |datas| ==> scale[i] <= finalSizes[i])
        && (forall i :: 0 <= i < |datas| && old(scale[i]) <= finalSizes[i] ==> old(scale[i]) <= scale[i])
        && (|datas| == 0 ==> timer.None?)
        && (|datas| > 0 ==> timer == Some(var d := EntryDelay(|datas|, |datas| - 1); if d < 800.0 then 800.0 else d))
    {
      timer := None;
      if !spin {
        return;
      }
      rotationY := rotationY + RotationStep;
      if exit || finishedLoading {
        return;
      }
      var l := |datas|;
      var i := 0;
      while i < l
        modifies scale
        invariant 0 <= i <= l
        invariant forall j :: 0 <= j < i ==> scale[j] == EntryScale(old(scale[j]), finalSizes[j], EntryStep(l, j))
        invariant forall j :: i <= j < l ==> scale[j] == old(scale[j])
        invariant forall j :: 0 <= j < i && old(scale[j]) <= finalSizes[j] ==> old(scale[j]) <= scale[j]
        invariant i == 0 ==> timer.None?
        invariant i > 0 ==> timer == if i == l then Some(var d := EntryDelay(l, l - 1); if d < 800.0 then 800.0 else d) else None
      {
        var delay := EntryDelay(l, i);
        var step := 1.0 - delay / (l as real) + 0.1;
        EntryStepPositive(l, i);
        if scale[i] < finalSizes[i] - step {
          scale[i] := scale[i] + step;
        } else {
          scale[i] := finalSizes[i];
        }
        if i == l - 1 {
          timer := Some(if delay < 800.0 then 800.0 else delay);
        }
        i := i + 1;
      }
    }

    /** The `finishedLoading` timer firing. */
    method FinishLoading()
      modifies this
      ensures finishedLoading
      ensures spin == old(spin) && exit == old(exit) && radius == old(radius) && rotationY == old(rotationY)
      ensures positions == old(positions) && colors == old(colors) && scale == old(scale) && finalSizes == old(finalSizes)
    {
      finishedLoading := true;
    }

    /**
     * The exit callback, run after every render: nothing until the exit is requested; then loading is
     * marked unfinished and every particle shrinks towards zero, never below it.
     */
    method ExitFrame()
      requires Valid()
      modifies this, scale
      ensures Valid()
      ensures spin == old(spin) && exit == old(exit) && radius == old(radius) && rotationY == old(rotationY)
      ensures positions == old(positions) && colors == old(colors) && scale == old(scale) && finalSizes == old(finalSizes)
      ensures !exit ==> finishedLoading == old(finishedLoading) && scale[..] == old(scale[..])
      ensures exit ==>
        && !finishedLoading
        && (forall i :: 0 <= i < |datas| ==> scale[i] == ExitScale(old(scale[i]), ExitStep(|datas|, i)))
        && (forall i :: 0 <= i < |datas| ==> scale[i] >= 0.0)
        && (forall i :: 0 <= i < |datas| && old(scale[i]) >= 0.0 ==> scale[i] <= old(scale[i]))
    {
      if !exit {
        return;
      }
      finishedLoading := false;
      var l := |datas|;
      var i := 0;
      while i < l
        modifies scale
        invariant 0 <= i <= l
        invariant forall j :: 0 <= j < i ==> scale[j] == ExitScale(old(scale[j]), ExitStep(l, j))
        invariant forall j :: i <= j < l ==> scale[j] == old(scale[j])
        invariant forall j :: 0 <= j < i && old(scale[j]) >= 0.0 ==> scale[j] <= old(scale[j])
      {
        var weight := ExitWeight(l, i);
        var step := 1.0 - weight / (l as real) + 0.1;
        ExitStepPositive(l, i);
        if scale[i] > step {
          scale[i] := scale[i] - step;
        } else {
          scale[i] := 0.0;
        }
        i := i + 1;
      }
    }

    /** `animateExit`: requests the exit and changes nothing else, so a second call changes nothing. */
    method AnimateExit()
      modifies this
      ensures exit
      ensures spin == old(spin) && finishedLoading == old(finishedLoading)
      ensures radius == old(radius) && rotationY == old(rotationY)
      ensures positions == old(positions) && colors == old(colors) && scale == old(scale) && finalSizes == old(finalSizes)
    {
      exit := true;
    }
  }
}
