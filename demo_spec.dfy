/**
 * The demo screen of Core/Src/lvgl_demo.c on values: the page-content provider that
 * feeds the cyclic pager, and the scrolling icon carousel (six icons 220 pixels apart on
 * a ring 1320 pixels round, dragged by the touch point and snapped on release). One function
 * per callback takes the carousel record before the call to the record after it; the
 * class in carousel.dfy is proved to follow them. The LVGL objects are reduced to what
 * the callbacks set on them: each icon's x, its object size and its image zoom. Started
 * animations and deleted ones are recorded as calls.
 */
module DemoSpec {
  import opened Wrappers
  import CInt
  import Log

  /* ---------------------------------------------------------------- page provider */

  /** The page texts the provider draws from. */
  const Items: seq<string> := ["页面 A", "页面 B", "页面 C", "页面 D", "页面 E"]

  /**
   * The circular index of `provide_item`: C's `index % n`, moved up by `n` when negative;
   * nothing is drawn when there are no items.
   */
  function ItemIndex(index: int, n: int): (i: Option<int>)
    ensures i.None? <==> n <= 0
    ensures i.Some? ==> 0 <= i.value < n && (index - i.value) % n == 0
  {
    if n <= 0 then None
    else
      var r := CInt.CRem(index, n);
      var q := CInt.CDiv(index, n);
      assert index - r == n * q;
      CInt.MultipleMod(q, n);
      if r < 0 then
        assert index - (r + n) == n * (q - 1);
        CInt.MultipleMod(q - 1, n);
        Some(r + n)
      else Some(r)
  }

  /** The label `provide_item` creates on a page for logical index `index` (`"%s\nidx=%d"`). */
  function ItemLabel(index: int): (s: Option<string>)
    ensures s.Some?
  {
    match ItemIndex(index, |Items|)
    case None => None
    case Some(i) => Some(Items[i] + "\nidx=" + Log.Decimal(index))
  }

  /** The circular index is the only item index congruent to the page index. */
  lemma ItemIndexUnique(index: int, n: int, j: int)
    requires 0 <= j < n && (index - j) % n == 0
    ensures ItemIndex(index, n) == Some(j)
  {
    var i := ItemIndex(index, n).value;
    ResidueUnique(index, n, i);
    ResidueUnique(index, n, j);
  }

  /** An index in [0, n) congruent to `a` is `a`'s remainder. */
  lemma ResidueUnique(a: int, n: int, i: int)
    requires 0 <= i < n && (a - i) % n == 0
    ensures a % n == i
  {
    var k := (a - i) / n;
    var q := a / n;
    assert a - i == n * k;
    assert a == n * q + a % n;
    assert a % n - i == n * (k - q);
    SmallMultiple(n, k - q);
  }

  /** The only multiple of `n` strictly between `-n` and `n` is 0. */
  lemma SmallMultiple(n: int, e: int)
    requires n > 0 && -n < n * e < n
    ensures e == 0
  {
    if e >= 1 {
      CInt.MulMono(1, e, n);
    }
  }

  /** Moving `n` pages either way shows the same item. */
  lemma ItemIndexPeriodic(index: int, n: int)
    requires n > 0
    ensures ItemIndex(index + n, n) == ItemIndex(index, n)
    ensures ItemIndex(index - n, n) == ItemIndex(index, n)
  {
    var i := ItemIndex(index, n).value;
    var k := (index - i) / n;
    assert index - i == n * k;
    assert index + n - i == n * (k + 1);
    CInt.MultipleMod(k + 1, n);
    ItemIndexUnique(index + n, n, i);
    assert index - n - i == n * (k - 1);
    CInt.MultipleMod(k - 1, n);
    ItemIndexUnique(index - n, n, i);
  }

  /* ---------------------------------------------------------------- carousel geometry */

  const IconCount: int := 6
  const IconDistance: int := 220
  const IconSizeSmall: int := 120
  const IconSizeBig: int := 200
  /** `(icon_count / 2) * icon_distance`: the ring runs from -660 to 660. */
  const Half: int := (IconCount / 2) * IconDistance
  /** `icon_count * icon_distance`: one turn of the ring. */
  const Period: int := IconCount * IconDistance
  /** The zoom of an LVGL image nobody has scaled (`LV_IMG_ZOOM_NONE`). */
  const ZoomNone: int := 256

  /** `a` and `b` are the same place on the ring. */
  predicate SameOnRing(a: int, b: int)
  {
    (a - b) % Period == 0
  }

  /**
   * What the wrap loops of `pressing_cb`, `released_cb` and `set_x_cb` leave of `x`:
   * the point of the ring in [-660, 660] at the same place. Both ends are the same
   * place; -660 is reached from below and 660 from above.
   */
  function Wrapped(x: int): (v: int)
    ensures -Half <= v <= Half
    ensures SameOnRing(v, x)
    ensures -Half <= x <= Half ==> v == x
    ensures v == Half ==> x >= Half
    ensures v == -Half ==> x <= -Half
  {
    var r := (x + Half) % Period - Half;
    if r == -Half && x >= Half then Half else r
  }

  /** Any point of [-660, 660] at the place of `x`, on the side the loops reach, is `Wrapped(x)`. */
  lemma WrappedUnique(x: int, v: int)
    requires -Half <= v <= Half && SameOnRing(v, x)
    requires v == Half ==> x >= Half
    requires v == -Half ==> x <= -Half
    ensures v == Wrapped(x)
  {
    var w := Wrapped(x);
    var kv := (v - x) / Period;
    var kw := (w - x) / Period;
    assert v - x == Period * kv;
    assert w - x == Period * kw;
    assert w - v == Period * (kw - kv);
    assert -Period < Period * (kw - kv) < Period;
    SmallMultiple(Period, kw - kv);
  }

  /** A whole turn of the ring changes nothing the loops compute, in either direction. */
  lemma WrappedTurn(x: int)
    ensures x < -Half ==> Wrapped(x + Period) == Wrapped(x)
    ensures x > Half ==> Wrapped(x - Period) == Wrapped(x)
  {
    if x < -Half {
      ShiftedWrap(x, 1);
    }
    if x > Half {
      ShiftedWrap(x, -1);
    }
  }

  /** One turn on from `x` (`e` = 1) or back (`e` = -1), towards the wrapped place. */
  lemma ShiftedWrap(x: int, e: int)
    requires (e == 1 && x < -Half) || (e == -1 && x > Half)
    ensures Wrapped(x + e * Period) == Wrapped(x)
  {
    var v := Wrapped(x);
    var y := x + e * Period;
    var k := (v - x) / Period;
    assert v - x == Period * k;
    assert v - y == Period * (k - e);
    CInt.MultipleMod(k - e, Period);
    WrappedUnique(y, v);
  }

  /** The ring is six icon distances round, so a wrap keeps the place on the 220-pixel grid. */
  lemma WrappedKeepsGrid(x: int)
    ensures (Wrapped(x) - x) % IconDistance == 0
  {
    var k := (Wrapped(x) - x) / Period;
    assert Wrapped(x) - x == Period * k;
    assert Wrapped(x) - x == IconDistance * (6 * k);
  }

  /* ---------------------------------------------------------------- icon sizes */

  /**
   * The size between the two extremes for a distance `v` from the centre below 220:
   * from 200 at the centre down towards 120, truncated as the conversion to `lv_coord_t` does.
   */
  function InterpSize(v: int): int
    requires 0 <= v <= IconDistance
  {
    IconSizeSmall + (IconDistance - v) * (IconSizeBig - IconSizeSmall) / IconDistance
  }

  /** The size `pressing_cb` gives an icon at `x`. */
  function PressSize(x: int): int
  {
    if x >= IconDistance || x <= -IconDistance then IconSizeSmall else InterpSize(CInt.Abs(x))
  }

  /** The size `set_x_cb` gives an icon at `v`. */
  function SetXSize(v: int): int
  {
    if v == 0 then IconSizeBig
    else if v >= IconDistance || v <= -IconDistance then IconSizeSmall
    else InterpSize(CInt.Abs(v))
  }

  /**
   * Sizes stay between the small and the big one; the big size is given exactly at the
   * centre and the small one from a full icon distance out; the two callbacks agree.
   */
  lemma SizeProperties(x: int)
    ensures IconSizeSmall <= SetXSize(x) <= IconSizeBig
    ensures SetXSize(x) == IconSizeBig <==> x == 0
    ensures CInt.Abs(x) >= IconDistance ==> SetXSize(x) == IconSizeSmall
    ensures PressSize(x) == SetXSize(x)
  {
    if 0 < CInt.Abs(x) < IconDistance {
      var v := CInt.Abs(x);
      var p := (IconDistance - v) * (IconSizeBig - IconSizeSmall);
      assert 0 <= p < IconDistance * (IconSizeBig - IconSizeSmall);
      CInt.DivBelow(p, IconDistance, IconSizeBig - IconSizeSmall);
    }
  }

  /** An icon never grows as it moves away from the centre. */
  lemma SizeMonotone(a: int, b: int)
    requires 0 <= a <= b <= IconDistance
    ensures InterpSize(b) <= InterpSize(a)
  {
    CInt.MulMono(IconDistance - b, IconDistance - a, IconSizeBig - IconSizeSmall);
    DivMono((IconDistance - b) * (IconSizeBig - IconSizeSmall),
            (IconDistance - a) * (IconSizeBig - IconSizeSmall), IconDistance);
  }

  lemma DivMono(a: nat, b: nat, t: nat)
    requires a <= b && t > 0
    ensures a / t <= b / t
  {
    CInt.QuotientBounds(a, t);
    CInt.QuotientBounds(b, t);
    if a / t > b / t {
      CInt.MulMono(b / t + 1, a / t, t);
    }
  }

  /* ---------------------------------------------------------------- image zoom */

  /** The clamp of `icon_set_size`: a zoom of 0 becomes 1, anything above 16 bits becomes 0xFFFF. */
  function Clamp(z: int): (r: int)
    ensures 0 <= z ==> 1 <= r <= 0xFFFF
    ensures 1 <= z <= 0xFFFF ==> r == z
  {
    if z == 0 then 1 else if z > 0xFFFF then 0xFFFF else z
  }

  /**
   * The image zoom `icon_set_size` sets for an object of `w` by `h` holding an image of
   * `iw` by `ih`: the smaller of the two 256-based ratios in `uint32_t` arithmetic,
   * clamped to [1, 0xFFFF]; none when the image has no positive size.
   */
  function Zoom(w: int, h: int, iw: int, ih: int): (z: Option<int>)
    ensures z.None? <==> iw <= 0 || ih <= 0
    ensures z.Some? ==> 1 <= z.value <= 0xFFFF
  {
    if iw <= 0 || ih <= 0 then None
    else
      var zw := ZoomRatio(w, iw);
      var zh := ZoomRatio(h, ih);
      Some(Clamp(if zw < zh then zw else zh))
  }

  /** One direction's ratio, `(uint32_t)(size * 256) / image size`. */
  function ZoomRatio(size: int, isize: int): nat
    requires isize > 0
  {
    CInt.Wrap32(CInt.Wrap32(size) * 256) / isize
  }

  /**
   * Without overflow the zoom is the largest one at which the scaled image still fits
   * inside the object in both directions (unless the clamp cuts in).
   */
  lemma ZoomFits(w: nat, h: nat, iw: nat, ih: nat)
    requires 0 < iw && 0 < ih && w * 256 < CInt.U32 && h * 256 < CInt.U32
    ensures var m := CInt.Min(w * 256 / iw, h * 256 / ih);
      && Zoom(w, h, iw, ih) == Some(Clamp(m))
      && m * iw <= w * 256 && m * ih <= h * 256
      && ((m + 1) * iw > w * 256 || (m + 1) * ih > h * 256)
  {
    ZoomUnwrapped(w, h, iw, ih);
    MinFits(w * 256, h * 256, iw, ih);
  }

  lemma ZoomUnwrapped(w: nat, h: nat, iw: nat, ih: nat)
    requires 0 < iw && 0 < ih && w * 256 < CInt.U32 && h * 256 < CInt.U32
    ensures Zoom(w, h, iw, ih) == Some(Clamp(CInt.Min(w * 256 / iw, h * 256 / ih)))
  {
    assert w <= w * 256 && h <= h * 256;
    assert CInt.Wrap32(w) == w && CInt.Wrap32(h) == h;
    assert CInt.Wrap32(w * 256) == w * 256 && CInt.Wrap32(h * 256) == h * 256;
  }

  /** The smaller of two quotients fits both dividends, and one more does not fit one of them. */
  lemma MinFits(a: nat, b: nat, s: nat, t: nat)
    requires 0 < s && 0 < t
    ensures var m := CInt.Min(a / s, b / t);
      && m * s <= a && m * t <= b
      && ((m + 1) * s > a || (m + 1) * t > b)
  {
    var p, q := a / s, b / t;
    CInt.QuotientBounds(a, s);
    CInt.QuotientBounds(b, t);
    if p <= q {
      CInt.MulMono(p, q, t);
    } else {
      CInt.MulMono(q, p, s);
    }
  }

  /* ---------------------------------------------------------------- carousel state */

  /** One icon: its x on the ring, its object size and its image's zoom. */
  datatype Icon = Icon(x: int, w: int, h: int, zoom: int)

  /** The animation calls the callbacks make, in order. */
  datatype Call =
    | AnimDel(icon: nat)
    | AnimStart(icon: nat, time: int, start: int, end: int)

  /**
   * The statics of the carousel: the icons, the touch flag, the x of the last pointer
   * sample, the last drag step, and the size of the image every icon shows.
   */
  datatype Carousel = Carousel(
    icons: seq<Icon>,
    touched: bool,
    p1x: int,
    tOffsetX: int,
    imgW: int,
    imgH: int,
    calls: seq<Call>)

  predicate Valid(c: Carousel)
  {
    |c.icons| == IconCount
  }

  /** `icon_set_size`: the object takes the size, and the image the zoom if it has a size. */
  function Resize(ic: Icon, w: int, h: int, iw: int, ih: int): Icon
  {
    match Zoom(w, h, iw, ih)
    case None => ic.(w := w, h := h)
    case Some(z) => ic.(w := w, h := h, zoom := z)
  }

  /** The x `scrollicon` gives icon `i`. */
  function InitialX(i: int): int
  {
    (i - IconCount / 2) * IconDistance
  }

  /** The size `scrollicon` gives icon `i`: the middle icon is big. */
  function InitialSize(i: int): int
  {
    if i == IconCount / 2 then IconSizeBig else IconSizeSmall
  }

  function InitialIcon(i: int, iw: int, ih: int): Icon
  {
    Resize(Icon(InitialX(i), 0, 0, ZoomNone), InitialSize(i), InitialSize(i), iw, ih)
  }

  /** `scrollicon`: the icons are zeroed and laid out; the touch state is not reset. */
  function ScrollIcon(c: Carousel): (t: Carousel)
    ensures Valid(t)
  {
    c.(icons := seq(IconCount, i => InitialIcon(i, c.imgW, c.imgH)))
  }

  /** The animation deletions of the first press, one per icon. */
  function DelCalls(n: nat): (s: seq<Call>)
    ensures |s| == n && forall i :: 0 <= i < n ==> s[i] == AnimDel(i)
  {
    if n == 0 then [] else DelCalls(n - 1) + [AnimDel(n - 1)]
  }

  /** A dragged icon: moved by `d`, wrapped, and sized for its new place. */
  function DragIcon(ic: Icon, d: int, iw: int, ih: int): Icon
  {
    var x := Wrapped(ic.x + d);
    Resize(ic.(x := x), PressSize(x), PressSize(x), iw, ih)
  }

  /**
   * `pressing_cb` with the touch point at `px`: the first sample of a touch deletes the
   * running animations and records the point; each later one moves every icon by the
   * touch point's step.
   */
  function Press(c: Carousel, px: int): (t: Carousel)
    requires Valid(c)
    ensures Valid(t)
  {
    if !c.touched then
      c.(p1x := px, touched := true, calls := c.calls + DelCalls(IconCount))
    else
      var d := px - c.p1x;
      c.(tOffsetX := d, p1x := px,
         icons := seq(IconCount, i requires 0 <= i < IconCount => DragIcon(c.icons[i], d, c.imgW, c.imgH)))
  }

  /** The snap correction for an icon at positive `x`: to the nearer multiple of 220, down on a tie. */
  function OffsetFor(x: int): int
  {
    var r := CInt.CRem(x, IconDistance);
    if r > IconDistance / 2 then IconDistance - r else CInt.CRem(-x, IconDistance)
  }

  /** The offset `released_cb` computes: from the first icon right of the centre, or 0. */
  function SnapOffset(icons: seq<Icon>): int
  {
    if icons == [] then 0
    else if icons[0].x > 0 then OffsetFor(icons[0].x)
    else SnapOffset(icons[1..])
  }

  /** `(t_offset_x > 0 ? 300 + t_offset_x * 5 : 300 - t_offset_x * 5)`, passed as `uint32_t`. */
  function Duration(t: int): int
  {
    CInt.Wrap32(if t > 0 then 300 + t * 5 else 300 - t * 5)
  }

  /** How far `released_cb` moves every icon: the snap plus a flick of 220 per 20 pixels of the last step. */
  function ReleaseShift(c: Carousel): int
  {
    SnapOffset(c.icons) + CInt.CDiv(c.tOffsetX, 20) * IconDistance
  }

  /** The animation started for icon `i` on release. */
  function ReleaseAnim(c: Carousel, i: nat): Call
    requires i < |c.icons|
  {
    AnimStart(i, Duration(c.tOffsetX), c.icons[i].x, c.icons[i].x + ReleaseShift(c))
  }

  /**
   * `released_cb`: the touch ends, each icon is animated from its x to its target, and
   * its x is set to the wrapped target at once; sizes are left to the animation.
   */
  function Release(c: Carousel): (t: Carousel)
    requires Valid(c)
    ensures Valid(t)
  {
    var s := ReleaseShift(c);
    c.(touched := false,
       icons := seq(IconCount, i requires 0 <= i < IconCount => c.icons[i].(x := Wrapped(c.icons[i].x + s))),
       calls := c.calls + seq(IconCount, i requires 0 <= i < IconCount => ReleaseAnim(c, i)))
  }

  /** `set_x_cb` for icon `i` with value `v`: the wrapped value becomes the icon's x and sets its size. */
  function SetX(c: Carousel, i: nat, v: int): (t: Carousel)
    requires Valid(c) && i < IconCount
    ensures Valid(t)
  {
    var x := Wrapped(v);
    c.(icons := c.icons[i := Resize(c.icons[i].(x := x), SetXSize(x), SetXSize(x), c.imgW, c.imgH)])
  }

  /* ---------------------------------------------------------------- carousel properties */

  /** The icons sit 220 apart round the ring, in index order. */
  predicate Ring(icons: seq<Icon>)
    requires |icons| > 0
  {
    forall i :: 0 <= i < |icons| ==> SameOnRing(icons[i].x, icons[0].x + IconDistance * i)
  }

  /** Moving every icon by the same amount round the ring keeps the ring. */
  lemma RingShift(a: seq<Icon>, b: seq<Icon>, d: int)
    requires |a| == |b| > 0 && Ring(a)
    requires forall i :: 0 <= i < |a| ==> SameOnRing(b[i].x, a[i].x + d)
    ensures Ring(b)
  {
    forall i | 0 <= i < |b|
      ensures SameOnRing(b[i].x, b[0].x + IconDistance * i)
    {
      var k0 := (b[0].x - (a[0].x + d)) / Period;
      var ki := (b[i].x - (a[i].x + d)) / Period;
      var ka := (a[i].x - (a[0].x + IconDistance * i)) / Period;
      assert b[0].x - (a[0].x + d) == Period * k0;
      assert b[i].x - (a[i].x + d) == Period * ki;
      assert a[i].x - (a[0].x + IconDistance * i) == Period * ka;
      assert b[i].x - (b[0].x + IconDistance * i) == Period * (ki + ka - k0);
    }
  }

  /** `scrollicon` lays the icons out from -660 to 440, the middle one big, all on the ring. */
  lemma ScrollIconLayout(c: Carousel)
    ensures var t := ScrollIcon(c);
      && (forall i :: 0 <= i < IconCount ==> t.icons[i].x == (i - 3) * 220)
      && (forall i :: 0 <= i < IconCount ==> (t.icons[i].w == IconSizeBig <==> i == 3))
      && Ring(t.icons)
      && t.touched == c.touched && t.calls == c.calls
  {
  }

  /** The first sample of a touch moves nothing: it records the point and deletes the animations. */
  lemma FirstPressRecords(c: Carousel, px: int)
    requires Valid(c) && !c.touched
    ensures var t := Press(c, px);
      t.icons == c.icons && t.touched && t.p1x == px && t.tOffsetX == c.tOffsetX &&
      t.calls == c.calls + DelCalls(IconCount)
  {
  }

  /** A dragged icon keeps its place in the order: only its x, its size and its zoom change. */
  lemma DragIconFacts(ic: Icon, d: int, iw: int, ih: int)
    ensures var r := DragIcon(ic, d, iw, ih);
      r.x == Wrapped(ic.x + d) && r.w == PressSize(r.x) && r.h == r.w
  {
  }

  /**
   * Each later sample moves every icon by the same step round the ring, the touch point's
   * move since the last sample, and keeps the ring.
   */
  lemma DragMovesAll(c: Carousel, px: int)
    requires Valid(c) && c.touched
    ensures var t := Press(c, px);
      && t.p1x == px && t.tOffsetX == px - c.p1x && t.touched && t.calls == c.calls
      && (forall i :: 0 <= i < IconCount ==>
            -Half <= t.icons[i].x <= Half && SameOnRing(t.icons[i].x, c.icons[i].x + (px - c.p1x)) &&
            t.icons[i].w == PressSize(t.icons[i].x))
      && (Ring(c.icons) ==> Ring(t.icons))
  {
    var t := Press(c, px);
    var d := px - c.p1x;
    DragShifts(c, px);
    forall i | 0 <= i < IconCount
      ensures -Half <= t.icons[i].x <= Half && t.icons[i].w == PressSize(t.icons[i].x)
    {
      assert t.icons[i] == DragIcon(c.icons[i], d, c.imgW, c.imgH);
      DragIconFacts(c.icons[i], d, c.imgW, c.imgH);
    }
    if Ring(c.icons) {
      RingShift(c.icons, t.icons, d);
    }
  }

  /** The part of DragMovesAll the step sum needs: the touch point and the places round the ring. */
  lemma DragShifts(c: Carousel, px: int)
    requires Valid(c) && c.touched
    ensures var t := Press(c, px);
      && t.p1x == px && t.touched && |t.icons| == |c.icons|
      && forall i :: 0 <= i < IconCount ==> SameOnRing(t.icons[i].x, c.icons[i].x + (px - c.p1x))
  {
    var t := Press(c, px);
    var d := px - c.p1x;
    forall i | 0 <= i < IconCount
      ensures SameOnRing(t.icons[i].x, c.icons[i].x + d)
    {
      assert t.icons[i] == DragIcon(c.icons[i], d, c.imgW, c.imgH);
      DragIconFacts(c.icons[i], d, c.imgW, c.imgH);
    }
  }

  /**
   * Two samples in a row move the icons by the whole pointer move since the one before
   * them: the steps add up.
   */
  lemma DragSteps(c: Carousel, a: int, b: int)
    requires Valid(c) && c.touched
    ensures var t := Press(Press(c, a), b);
      forall i :: 0 <= i < IconCount ==> SameOnRing(t.icons[i].x, c.icons[i].x + (b - c.p1x))
  {
    var m := Press(c, a);
    var t := Press(m, b);
    DragShifts(c, a);
    DragShifts(m, b);
    StepsAddAll(c.icons, m.icons, t.icons, a - c.p1x, b - a);
  }

  /** Two moves of every icon round the ring add up. */
  lemma StepsAddAll(xs: seq<Icon>, ys: seq<Icon>, zs: seq<Icon>, d: int, e: int)
    requires |xs| == |ys| == |zs|
    requires forall i :: 0 <= i < |xs| ==> SameOnRing(ys[i].x, xs[i].x + d)
    requires forall i :: 0 <= i < |xs| ==> SameOnRing(zs[i].x, ys[i].x + e)
    ensures forall i :: 0 <= i < |xs| ==> SameOnRing(zs[i].x, xs[i].x + (d + e))
  {
    forall i | 0 <= i < |xs|
      ensures SameOnRing(zs[i].x, xs[i].x + (d + e))
    {
      StepsAdd(xs[i].x, ys[i].x, zs[i].x, d, e);
    }
  }

  /** Two moves round the ring add up. */
  lemma StepsAdd(x: int, y: int, z: int, d: int, e: int)
    requires SameOnRing(y, x + d) && SameOnRing(z, y + e)
    ensures SameOnRing(z, x + (d + e))
  {
    var k1 := (y - (x + d)) / Period;
    var k2 := (z - (y + e)) / Period;
    assert y - (x + d) == Period * k1;
    assert z - (y + e) == Period * k2;
    assert z - (x + (d + e)) == Period * (k1 + k2);
  }

  /**
   * The snap correction puts a positive x on the 220-pixel grid, moving it by at most
   * half an icon distance.
   */
  lemma OffsetSnaps(x: int)
    requires x > 0
    ensures (x + OffsetFor(x)) % IconDistance == 0
    ensures -IconDistance / 2 <= OffsetFor(x) < IconDistance / 2
  {
    assert CInt.CRem(x, IconDistance) == x % IconDistance;
    CInt.CDivSpec(-x, IconDistance);
    assert CInt.CRem(-x, IconDistance) == -(x % IconDistance);
  }

  /** The release offset comes from the first icon right of the centre, and is 0 when there is none. */
  lemma {:induction false} SnapOffsetFirstPositive(icons: seq<Icon>)
    ensures (forall i :: 0 <= i < |icons| ==> icons[i].x <= 0) ==> SnapOffset(icons) == 0
    ensures forall j :: 0 <= j < |icons| && icons[j].x > 0 && (forall i :: 0 <= i < j ==> icons[i].x <= 0) ==>
      SnapOffset(icons) == OffsetFor(icons[j].x)
  {
    if icons != [] {
      SnapOffsetFirstPositive(icons[1..]);
      forall j | 0 <= j < |icons| && icons[j].x > 0 && (forall i :: 0 <= i < j ==> icons[i].x <= 0)
        ensures SnapOffset(icons) == OffsetFor(icons[j].x)
      {
        if j > 0 {
          assert icons[0].x <= 0;
          assert icons[1..][j - 1] == icons[j];
          assert forall i :: 0 <= i < j - 1 ==> icons[1..][i] == icons[i + 1];
        }
      }
    }
  }

  /**
   * Release keeps the ring and ends the touch: every icon moves round the ring by the
   * same amount and keeps its size and zoom.
   */
  lemma ReleaseMovesAll(c: Carousel)
    requires Valid(c)
    ensures var t := Release(c);
      && !t.touched && t.p1x == c.p1x && t.tOffsetX == c.tOffsetX
      && (forall i :: 0 <= i < IconCount ==>
            t.icons[i].x == Wrapped(c.icons[i].x + ReleaseShift(c)) &&
            t.icons[i].w == c.icons[i].w && t.icons[i].zoom == c.icons[i].zoom)
      && (Ring(c.icons) ==> Ring(t.icons))
  {
    var t := Release(c);
    if Ring(c.icons) {
      RingShift(c.icons, t.icons, ReleaseShift(c));
    }
  }

  /**
   * Release starts one animation per icon, in icon order after the calls made before,
   * from the icon's x to its unwrapped target, all with the same duration.
   */
  lemma ReleaseAnimates(c: Carousel)
    requires Valid(c)
    ensures var t := Release(c);
      && |t.calls| == |c.calls| + IconCount && t.calls[..|c.calls|] == c.calls
      && forall i :: 0 <= i < IconCount ==>
           t.calls[|c.calls| + i] == AnimStart(i, Duration(c.tOffsetX), c.icons[i].x, c.icons[i].x + ReleaseShift(c))
  {
    var t := Release(c);
    assert t.calls[..|c.calls|] == c.calls;
  }

  /**
   * Each release animation ends at the x release already stored: the last step of the
   * animation, through `set_x_cb`, writes back the same x.
   */
  lemma ReleaseEndsInPlace(c: Carousel)
    requires Valid(c)
    ensures var t := Release(c);
      forall i :: 0 <= i < IconCount ==>
        SetX(t, i, c.icons[i].x + ReleaseShift(c)).icons[i].x == t.icons[i].x
  {
    var t := Release(c);
    forall i | 0 <= i < IconCount
      ensures SetX(t, i, c.icons[i].x + ReleaseShift(c)).icons[i].x == t.icons[i].x
    {
      SetXWritesBack(t, i, c.icons[i].x + ReleaseShift(c));
    }
  }

  /** `set_x_cb` stores the wrapped value as the icon's x. */
  lemma SetXWritesBack(c: Carousel, i: nat, v: int)
    requires Valid(c) && i < IconCount
    ensures SetX(c, i, v).icons[i].x == Wrapped(v)
  {
  }

  /**
   * With the icons on the ring and one of them right of the centre, a release leaves
   * every icon on the 220-pixel grid, whatever the last drag step was.
   */
  lemma ReleaseSnapsToGrid(c: Carousel, j: nat)
    requires Valid(c) && Ring(c.icons)
    requires j < IconCount && c.icons[j].x > 0 && forall i :: 0 <= i < j ==> c.icons[i].x <= 0
    ensures forall i :: 0 <= i < IconCount ==> Release(c).icons[i].x % IconDistance == 0
  {
    var t := Release(c);
    var s := ReleaseShift(c);
    var g := ShiftToGrid(c, j);
    forall i | 0 <= i < IconCount
      ensures t.icons[i].x % IconDistance == 0
    {
      assert t.icons[i].x == Wrapped(c.icons[i].x + s);
      OnGrid(c.icons[i].x, c.icons[j].x, c.icons[0].x, i, j, s, g);
    }
  }

  /** The release shift puts the first icon right of the centre on the grid. */
  lemma ShiftToGrid(c: Carousel, j: nat) returns (g: int)
    requires Valid(c)
    requires j < IconCount && c.icons[j].x > 0 && forall i :: 0 <= i < j ==> c.icons[i].x <= 0
    ensures c.icons[j].x + ReleaseShift(c) == IconDistance * g
  {
    SnapOffsetFirstPositive(c.icons);
    OffsetSnaps(c.icons[j].x);
    var off := OffsetFor(c.icons[j].x);
    var f := CInt.CDiv(c.tOffsetX, 20);
    var h := (c.icons[j].x + off) / IconDistance;
    assert c.icons[j].x + off == IconDistance * h;
    g := h + f;
  }

  /** Two icons on the ring: when a shift puts one on the grid, it puts the other there too. */
  lemma OnGrid(xi: int, xj: int, x0: int, i: int, j: int, s: int, g: int)
    requires SameOnRing(xi, x0 + IconDistance * i) && SameOnRing(xj, x0 + IconDistance * j)
    requires xj + s == IconDistance * g
    ensures Wrapped(xi + s) % IconDistance == 0
  {
    var ki := (xi - (x0 + IconDistance * i)) / Period;
    var kj := (xj - (x0 + IconDistance * j)) / Period;
    assert xi - (x0 + IconDistance * i) == Period * ki;
    assert xj - (x0 + IconDistance * j) == Period * kj;
    var y := xi + s;
    assert y == IconDistance * (g + (i - j) + 6 * (ki - kj));
    WrappedKeepsGrid(y);
    var e := (Wrapped(y) - y) / IconDistance;
    assert Wrapped(y) - y == IconDistance * e;
    assert Wrapped(y) == IconDistance * (e + g + (i - j) + 6 * (ki - kj));
  }

  /** The duration grows with the last step's size either way: 300 ms plus 5 ms per pixel. */
  lemma DurationOfStep(t: int)
    requires -0x1000_0000 < t < 0x1000_0000
    ensures Duration(t) == 300 + 5 * CInt.Abs(t)
  {
  }

  /** The flick truncates toward zero: a last step under 20 pixels either way adds nothing. */
  lemma FlickTruncates(t: int)
    ensures -20 < t < 20 ==> CInt.CDiv(t, 20) == 0
    ensures CInt.CDiv(-t, 20) == -CInt.CDiv(t, 20)
  {
  }
}
