/** Where pixels go when an image is flipped and turned (src/common/imageio.c): the index map of
    dt_imageio_write_pos and the pointer walk of dt_imageio_flip_buffers. */
module Orientation {
  import opened Arithmetic

  /** The bits 1, 2 and 4 of an orientation. */
  datatype Orientation = Orientation(one: bool, two: bool, four: bool)

  function FromInt(o: nat): Orientation {
    Orientation(o % 2 == 1, o / 2 % 2 == 1, o / 4 % 2 == 1)
  }

  /** dt_imageio_write_pos */
  function WritePos(i: int, j: int, wd: int, ht: int, fwd: int, fht: int, o: Orientation): int {
    var w, ii, jj, fw, fh := if o.four then ht else wd, if o.four then j else i, if o.four then i else j,
                             if o.four then fht else fwd, if o.four then fwd else fht;
    var ii := if o.two then fw - ii - 1 else ii;
    var jj := if o.one then fh - jj - 1 else jj;
    jj * w + ii
  }

  predicate InImage(i: int, j: int, wd: nat, ht: nat) {
    0 <= i < wd && 0 <= j < ht
  }

  /** The pixel that dt_imageio_write_pos puts at p, in an image of full size. */
  function Pixel(p: nat, wd: nat, ht: nat, o: Orientation): (int, int)
    requires wd > 0 && ht > 0
  {
    var w := if o.four then ht else wd;
    var ii, jj := p % w, p / w;
    var ii := if o.two then w - ii - 1 else ii;
    var jj := if o.one then (if o.four then wd else ht) - jj - 1 else jj;
    if o.four then (jj, ii) else (ii, jj)
  }

  lemma Swapped(wd: nat, ht: nat)
    ensures wd * ht == ht * wd
  {}

  /** Every pixel has a place in the output, and every place a pixel: dt_imageio_write_pos is a bijection, for
      all eight orientations. */
  lemma WritePosIsBijection(i: int, j: int, p: nat, wd: nat, ht: nat, o: Orientation)
    ensures InImage(i, j, wd, ht) ==>
              && 0 <= WritePos(i, j, wd, ht, wd, ht, o) < wd * ht
              && Pixel(WritePos(i, j, wd, ht, wd, ht, o), wd, ht, o) == (i, j)
    ensures p < wd * ht ==>
              wd > 0 && ht > 0 && var (x, y) := Pixel(p, wd, ht, o);
              InImage(x, y, wd, ht) && WritePos(x, y, wd, ht, wd, ht, o) == p
  {
    if InImage(i, j, wd, ht) { PosHasPixel(i, j, wd, ht, o); }
    if p < wd * ht { PixelHasPos(p, wd, ht, o); }
  }

  lemma PosHasPixel(i: int, j: int, wd: nat, ht: nat, o: Orientation)
    requires InImage(i, j, wd, ht)
    ensures 0 <= WritePos(i, j, wd, ht, wd, ht, o) < wd * ht
    ensures Pixel(WritePos(i, j, wd, ht, wd, ht, o), wd, ht, o) == (i, j)
  {
    var w, h := if o.four then ht else wd, if o.four then wd else ht;
    var ii, jj := if o.four then j else i, if o.four then i else j;
    var u, v := if o.two then w - ii - 1 else ii, if o.one then h - jj - 1 else jj;
    assert WritePos(i, j, wd, ht, wd, ht, o) == v * w + u;
    PlaceAndBack(u, v, w, h);
    Swapped(wd, ht);
  }

  lemma PlaceAndBack(u: nat, v: nat, w: nat, h: nat)
    requires u < w && v < h
    ensures 0 <= v * w + u < w * h && (v * w + u) % w == u && (v * w + u) / w == v
  {
    Swapped(w, v);
    Inside(u, v, w, h);
    DivUnique(u + w * v, w, v, u);
  }

  lemma PixelHasPos(p: nat, wd: nat, ht: nat, o: Orientation)
    requires p < wd * ht
    ensures wd > 0 && ht > 0 && var (x, y) := Pixel(p, wd, ht, o);
            InImage(x, y, wd, ht) && WritePos(x, y, wd, ht, wd, ht, o) == p
  {
    var w, h := if o.four then ht else wd, if o.four then wd else ht;
    Swapped(wd, ht);
    var u, v := PlaceSplits(p, w, h);
    var (x, y) := Pixel(p, wd, ht, o);
    assert (x, y) == var ii, jj := if o.two then w - u - 1 else u, if o.one then h - v - 1 else v;
                     if o.four then (jj, ii) else (ii, jj);
    assert WritePos(x, y, wd, ht, wd, ht, o) == v * w + u;
  }

  lemma PlaceSplits(p: nat, w: nat, h: nat) returns (u: nat, v: nat)
    requires p < w * h
    ensures w > 0 && h > 0 && u == p % w && v == p / w && u < w && v < h && p == v * w + u
  {
    assert w == 0 || h == 0 ==> w * h == 0;
    u, v := p % w, p / w;
    assert p == w * v + u;
    Swapped(w, v);
    if v >= h { MulMonotone(w, h, v); }
  }

  // ---------------------------------------------------------------------------------------------
  // The pointer walk
  // ---------------------------------------------------------------------------------------------

  /** Where the walk of dt_imageio_flip_buffers is at pixel (i, j): the start of the row and the two strides. */
  function WalkPos(i: int, j: int, wd: int, ht: int, fwd: int, fht: int, o: Orientation): int {
    var s := StridesOf(wd, ht, fwd, fht, o);
    Abs(s.sj) * s.jj + Abs(s.si) * s.ii + s.sj * j + s.si * i
  }

  datatype Strides = Strides(ii: int, jj: int, si: int, sj: int)

  function StridesOf(wd: int, ht: int, fwd: int, fht: int, o: Orientation): Strides {
    var si, sj := if o.four then ht else 1, if o.four then 1 else wd;
    var jj, sj := if o.two then fht - 0 - 1 else 0, if o.two then -sj else sj;
    var ii, si := if o.one then fwd - 0 - 1 else 0, if o.one then -si else si;
    Strides(ii, jj, si, sj)
  }

  function Abs(x: int): int {
    if x < 0 then -x else x
  }

  function Exchanged(o: Orientation): Orientation {
    o.(one := o.two, two := o.one)
  }

  /** The walk is dt_imageio_write_pos, with the bits 1 and 2 exchanged unless bit 4 is set. */
  lemma WalkIsWritePos(i: int, j: int, wd: nat, ht: nat, o: Orientation)
    requires InImage(i, j, wd, ht)
    ensures WalkPos(i, j, wd, ht, wd, ht, o) == WritePos(i, j, wd, ht, wd, ht, if o.four then o else Exchanged(o))
  {
    Reversed(wd, ht, j);
    Reversed(ht, wd, i);
    Swapped(wd, j);
    Swapped(ht, i);
  }

  lemma Reversed(w: int, n: int, k: int)
    ensures w * (n - 0 - 1) + -w * k == (n - k - 1) * w
    ensures w * 0 + w * k == k * w
  {}

  /** So the two functions agree on a whole image exactly when bit 4 is set, or the bits 1 and 2 are equal, or
      there is at most one pixel. */
  lemma WalkAgrees(wd: nat, ht: nat, o: Orientation)
    ensures (forall i, j :: InImage(i, j, wd, ht) ==>
               WalkPos(i, j, wd, ht, wd, ht, o) == WritePos(i, j, wd, ht, wd, ht, o))
       <==> (o.four || o.one == o.two || wd == 0 || ht == 0 || (wd == 1 && ht == 1))
  {
    if o.four || o.one == o.two || wd == 0 || ht == 0 || (wd == 1 && ht == 1) {
      forall i, j | InImage(i, j, wd, ht)
        ensures WalkPos(i, j, wd, ht, wd, ht, o) == WritePos(i, j, wd, ht, wd, ht, o)
      {
        WalkIsWritePos(i, j, wd, ht, o);
      }
    } else {
      // the first pixel of the image ends up in two different corners
      WalkIsWritePos(0, 0, wd, ht, o);
      Corners(wd, ht);
      assert InImage(0, 0, wd, ht);
    }
  }

  lemma Corners(wd: nat, ht: nat)
    requires wd > 0 && ht > 0 && (wd > 1 || ht > 1)
    ensures (ht - 0 - 1) * wd + 0 != 0 * wd + (wd - 0 - 1)
    ensures wd == 1 || ht == 1 || (ht - 0 - 1) * wd + 0 != 0 * wd + (wd - 0 - 1)
  {
    if ht > 1 { MulMonotone(wd, 1, ht - 1); }
  }

  /** Where the walk of dt_imageio_flip_buffers puts pixel (i, j) of an image, by the number of the orientation: 1
      mirrors the columns, 2 the rows, 4 turns rows into columns. */
  function PlaceFor(orientation: nat, i: int, j: int, wd: int, ht: int): int {
    match orientation
    case 0 => j * wd + i
    case 1 => j * wd + (wd - 1 - i)
    case 2 => (ht - 1 - j) * wd + i
    case 3 => (ht - 1 - j) * wd + (wd - 1 - i)
    case 4 => i * ht + j
    case 5 => (wd - 1 - i) * ht + j
    case 6 => i * ht + (ht - 1 - j)
    case _ => (wd - 1 - i) * ht + (ht - 1 - j)
  }

  /** dt_imageio_write_pos, by number: where the walk puts the pixel with 1 and 2 exchanged, below 4. */
  lemma WritePosFor(orientation: nat, i: int, j: int, wd: nat, ht: nat)
    requires orientation < 8
    ensures WritePos(i, j, wd, ht, wd, ht, FromInt(orientation))
         == PlaceFor(match orientation { case 1 => 2 case 2 => 1 case o => o }, i, j, wd, ht)
  {}

  lemma WalkFor(orientation: nat, i: int, j: int, wd: nat, ht: nat)
    requires orientation < 8 && InImage(i, j, wd, ht)
    ensures WalkPos(i, j, wd, ht, wd, ht, FromInt(orientation)) == PlaceFor(orientation, i, j, wd, ht)
  {
    hide WalkPos, WritePos, PlaceFor;
    WalkIsWritePos(i, j, wd, ht, FromInt(orientation));
    WritePosFor(match orientation { case 1 => 2 case 2 => 1 case o => o }, i, j, wd, ht);
  }

  // ---------------------------------------------------------------------------------------------
  // The walk through the buffers
  // ---------------------------------------------------------------------------------------------

  /** An image of wd by ht pixels, the size fwd by fht that the walk starts from, the distance of the rows of the
      input, and the orientation. */
  datatype Flip = Flip(wd: nat, ht: nat, fwd: int, fht: int, stride: nat, o: Orientation) {
    function Target(i: int, j: int): int {
      WalkPos(i, j, wd, ht, fwd, fht, o)
    }

    function Origin(i: int, j: int): int {
      stride * j + i
    }

    /** Every pixel is in the input, and has a place in the output. */
    ghost predicate Fits(outputs: nat, inputs: nat) {
      forall i, j :: InImage(i, j, wd, ht) ==> FitsAt(outputs, inputs, i, j)
    }

    predicate FitsAt(outputs: nat, inputs: nat, i: int, j: int) {
      0 <= Target(i, j) < outputs && 0 <= Origin(i, j) < inputs
    }

    /** The rows before j, and row j up to i, are in place, and nothing else has changed since `was`. */
    ghost predicate Done<T>(out: seq<T>, was: seq<T>, input: seq<T>, j: int, i: int) {
      && |out| == |was|
      && (forall x, y :: InImage(x, y, wd, ht) && (y < j || (y == j && x < i)) ==> Lands(out, input, x, y))
      && (forall p :: 0 <= p < |out| && out[p] != was[p] ==> Reached(p))
    }

    ghost predicate Lands<T>(out: seq<T>, input: seq<T>, i: int, j: int) {
      0 <= Target(i, j) < |out| && 0 <= Origin(i, j) < |input| && out[Target(i, j)] == input[Origin(i, j)]
    }

    /** Some pixel goes to place p. */
    ghost predicate Reached(p: int) {
      exists i, j :: InImage(i, j, wd, ht) && Target(i, j) == p
    }
  }

  /** A walk from another size starts elsewhere. */
  lemma WalkShifts(i: int, j: int, wd: nat, ht: nat, fwd: int, fht: int, o: Orientation)
    ensures var s := StridesOf(wd, ht, wd, ht, o);
            WalkPos(i, j, wd, ht, fwd, fht, o) == WalkPos(i, j, wd, ht, wd, ht, o)
              + (if o.two then Abs(s.sj) * (fht - ht) else 0) + (if o.one then Abs(s.si) * (fwd - wd) else 0)
  {
    var s := StridesOf(wd, ht, wd, ht, o);
    MulDistributes(Abs(s.sj), fht - ht, ht - 1);
    MulDistributes(Abs(s.si), fwd - wd, wd - 1);
  }

  /** A walk from the image's own size stays inside an output of just that size. */
  lemma FullSizeFits(f: Flip, outputs: nat, inputs: nat)
    requires f.fwd == f.wd <= f.stride && f.fht == f.ht && f.wd * f.ht <= outputs && f.ht * f.stride <= inputs
    ensures f.Fits(outputs, inputs)
  {
    hide WalkPos, WritePos, Pixel;
    forall i, j | InImage(i, j, f.wd, f.ht) ensures f.FitsAt(outputs, inputs, i, j) {
      WalkIsWritePos(i, j, f.wd, f.ht, f.o);
      PosHasPixel(i, j, f.wd, f.ht, if f.o.four then f.o else Exchanged(f.o));
      Inside(i, j, f.stride, f.ht);
      Swapped(f.ht, f.stride);
    }
  }

  /** No place is written twice. */
  lemma WalkIsInjective(f: Flip, i: int, j: int, x: int, y: int)
    requires InImage(i, j, f.wd, f.ht) && InImage(x, y, f.wd, f.ht) && (i != x || j != y)
    ensures f.Target(i, j) != f.Target(x, y)
  {
    hide WalkPos, WritePos, Pixel, StridesOf;
    var o' := if f.o.four then f.o else Exchanged(f.o);
    WalkShifts(i, j, f.wd, f.ht, f.fwd, f.fht, f.o);
    WalkShifts(x, y, f.wd, f.ht, f.fwd, f.fht, f.o);
    WalkIsWritePos(i, j, f.wd, f.ht, f.o);
    WalkIsWritePos(x, y, f.wd, f.ht, f.o);
    PosHasPixel(i, j, f.wd, f.ht, o');
    PosHasPixel(x, y, f.wd, f.ht, o');
  }

  lemma FlipsOne<T>(f: Flip, out: seq<T>, out': seq<T>, was: seq<T>, input: seq<T>, i: int, j: int)
    requires InImage(i, j, f.wd, f.ht) && f.Done(out, was, input, j, i) && f.FitsAt(|out|, |input|, i, j)
    requires out' == out[f.Target(i, j) := input[f.Origin(i, j)]]
    ensures f.Done(out', was, input, j, i + 1)
  {
    hide WalkPos;
    forall x, y | InImage(x, y, f.wd, f.ht) && (y < j || (y == j && x < i + 1)) ensures f.Lands(out', input, x, y) {
      if x != i || y != j {
        assert f.Lands(out, input, x, y);
        WalkIsInjective(f, i, j, x, y);
      }
    }
    assert f.Reached(f.Target(i, j));
  }

  lemma RowEnds<T>(f: Flip, out: seq<T>, was: seq<T>, input: seq<T>, j: int)
    requires f.Done(out, was, input, j, f.wd)
    ensures f.Done(out, was, input, j + 1, 0)
  {
    hide WalkPos, Flip.Lands, Flip.Reached;
  }

  lemma NothingFlipped<T>(f: Flip, out: seq<T>, input: seq<T>)
    ensures f.Done(out, out, input, 0, 0)
  {}

  lemma AllFlipped<T>(f: Flip, out: seq<T>, was: seq<T>, input: seq<T>)
    requires f.Done(out, was, input, f.ht, 0)
    ensures forall i, j :: InImage(i, j, f.wd, f.ht) ==> f.Lands(out, input, i, j)
    ensures |out| == |was| && forall p :: 0 <= p < |out| && !f.Reached(p) ==> out[p] == was[p]
  {
    hide WalkPos, Flip.Lands, Flip.Reached;
  }

  lemma WalkStarts(f: Flip, j: int)
    ensures var s := StridesOf(f.wd, f.ht, f.fwd, f.fht, f.o);
            Abs(s.sj) * s.jj + Abs(s.si) * s.ii + s.sj * j == f.Target(0, j)
  {}

  lemma WalkSteps(f: Flip, i: int, j: int)
    ensures f.Target(i + 1, j) == f.Target(i, j) + StridesOf(f.wd, f.ht, f.fwd, f.fht, f.o).si
  {
    MulDistributes(StridesOf(f.wd, f.ht, f.fwd, f.fht, f.o).si, i, 1);
  }

  /** Pixel (i, j) of the input is where the number of the orientation says. */
  ghost predicate ShowsAt<T>(out: seq<T>, input: seq<T>, orientation: nat, i: int, j: int, wd: nat, ht: nat,
                             stride: nat)
  {
    var p, q := PlaceFor(orientation, i, j, wd, ht), stride * j + i;
    0 <= p < |out| && 0 <= q < |input| && out[p] == input[q]
  }

  lemma LandsFor<T>(f: Flip, out: seq<T>, input: seq<T>, orientation: nat, i: int, j: int)
    requires orientation < 8 && f.o == FromInt(orientation) && f.fwd == f.wd && f.fht == f.ht
    requires InImage(i, j, f.wd, f.ht) && f.Lands(out, input, i, j)
    ensures ShowsAt(out, input, orientation, i, j, f.wd, f.ht, f.stride)
  {
    hide WalkPos, PlaceFor;
    WalkFor(orientation, i, j, f.wd, f.ht);
  }

  /** dt_imageio_flip_buffers, with the bpp bytes of a pixel as one element; rows of the input are `stride`
      elements apart.  Every pixel lands where the walk says, none is overwritten later, and nothing else is. */
  method FlipBuffers<T>(out: array<T>, input: array<T>, wd: nat, ht: nat, fwd: int, fht: int, stride: nat,
          orientation: nat)
    requires out != input && orientation < 8
    requires Flip(wd, ht, fwd, fht, stride, FromInt(orientation)).Fits(out.Length, input.Length)
    modifies out
    ensures var f := Flip(wd, ht, fwd, fht, stride, FromInt(orientation));
            && (forall i, j :: InImage(i, j, wd, ht) ==> f.Lands(out[..], input[..], i, j))
            && (forall p :: 0 <= p < out.Length && !f.Reached(p) ==> out[p] == old(out[p]))
    ensures fwd == wd && fht == ht ==>
              forall i, j :: InImage(i, j, wd, ht) ==> ShowsAt(out[..], input[..], orientation, i, j, wd, ht, stride)
  {
    hide WalkPos, Flip.Done, Flip.Lands, StridesOf, Flip.Reached;
    ghost var f, was := Flip(wd, ht, fwd, fht, stride, FromInt(orientation)), out[..];
    NothingFlipped(f, out[..], input[..]);
    if orientation == 0 {
      for j := 0 to ht
        invariant f.Done(out[..], was, input[..], j, 0)
      {
        CopyRow(out, input, f, was, j, wd, stride);
      }
    } else {
      var s := StridesOf(wd, ht, fwd, fht, FromInt(orientation));
      for j := 0 to ht
        invariant f.Done(out[..], was, input[..], j, 0)
      {
        var out2 := Abs(s.sj) * s.jj + Abs(s.si) * s.ii + s.sj * j;
        WalkStarts(f, j);
        WalkRow(out, input, f, was, j, wd, stride * j, out2, s.si);
      }
    }
    AllFlipped(f, out[..], was, input[..]);
    if fwd == wd && fht == ht {
      forall i, j | InImage(i, j, wd, ht)
        ensures ShowsAt(out[..], input[..], orientation, i, j, wd, ht, stride)
      {
        LandsFor(f, out[..], input[..], orientation, i, j);
      }
    }
  }

  /** memcpy of one row: orientation 0. */
  method CopyRow<T>(out: array<T>, input: array<T>, ghost f: Flip, ghost was: seq<T>, j: nat, wd: nat, stride: nat)
    requires out != input && j < f.ht && wd == f.wd && stride == f.stride && f.o == FromInt(0)
    requires f.Fits(out.Length, input.Length) && f.Done(out[..], was, input[..], j, 0)
    modifies out
    ensures f.Done(out[..], was, input[..], j + 1, 0)
  {
    WalkStarts(f, j);
    WalkRow(out, input, f, was, j, wd, stride * j, j * wd, 1);
  }

  /** The inner loop: a pointer runs through the output with the step si. */
  method WalkRow<T>(out: array<T>, input: array<T>, ghost f: Flip, ghost was: seq<T>, j: nat, wd: nat, from: int,
          start: int, si: int)
    requires out != input && j < f.ht && wd == f.wd && from == f.Origin(0, j)
    requires start == f.Target(0, j) && si == StridesOf(f.wd, f.ht, f.fwd, f.fht, f.o).si
    requires f.Fits(out.Length, input.Length) && f.Done(out[..], was, input[..], j, 0)
    modifies out
    ensures f.Done(out[..], was, input[..], j + 1, 0)
  {
    hide WalkPos, Flip.Done, StridesOf;
    var out2, in2 := start, from;
    for i := 0 to wd
      invariant in2 == f.Origin(i, j) && out2 == f.Target(i, j)
      invariant f.Done(out[..], was, input[..], j, i)
    {
      assert f.FitsAt(out.Length, input.Length, i, j);
      ghost var before := out[..];
      out[out2] := input[in2];
      FlipsOne(f, before, out[..], was, input[..], i, j);
      in2 := in2 + 1;
      out2 := out2 + si;
      WalkSteps(f, i, j);
    }
    RowEnds(f, out[..], was, input[..], j);
  }
}
