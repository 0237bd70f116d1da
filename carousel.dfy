/**
 * The scrolling icon carousel of Core/Src/lvgl_demo.c as an object: the static icon
 * array (updated in place), the touch flag, the last pointer sample and the last drag
 * step, with the LVGL calls the callbacks make recorded in `calls`. Each callback is
 * proved to follow its function in DemoSpec.
 */
module IconScroller {
  import opened Wrappers
  import opened DemoSpec
  import CInt

  class Scroller {
    const icons: array<Icon>
    /** The size of `_avatar_alpha_96x96`, the image every icon shows. */
    const imgW: int
    const imgH: int
    var touched: bool
    var p1x: int
    var tOffsetX: int
    var calls: seq<Call>

    ghost function State(): Carousel
      reads this, icons
    {
      Carousel(icons[..], touched, p1x, tOffsetX, imgW, imgH, calls)
    }

    ghost predicate Valid()
      reads this
    {
      icons.Length == IconCount
    }

    /** The zero-initialised statics, for an icon image of `iw` by `ih`. */
    constructor (iw: int, ih: int)
      ensures Valid() && fresh(icons)
      ensures State() == Carousel(seq(IconCount, _ => Icon(0, 0, 0, 0)), false, 0, 0, iw, ih, [])
    {
      icons := new Icon[IconCount](_ => Icon(0, 0, 0, 0));
      imgW, imgH := iw, ih;
      touched, p1x, tOffsetX, calls := false, 0, 0, [];
    }

    /** The two wrap loops every callback runs on an x. */
    static method WrapX(x: int) returns (v: int)
      ensures v == Wrapped(x)
    {
      v := x;
      while v < -Half
        invariant Wrapped(v) == Wrapped(x)
        decreases -v
      {
        WrappedTurn(v);
        v := v + Period;
      }
      while v > Half
        invariant -Half <= v && Wrapped(v) == Wrapped(x)
        decreases v
      {
        WrappedTurn(v);
        v := v - Period;
      }
    }

    /** `icon_set_size` on icon `i`: the object size, then the image zoom when the image has a size. */
    method IconSetSize(i: nat, w: int, h: int)
      requires Valid() && i < IconCount
      modifies icons
      ensures icons[..] == old(icons[..])[i := Resize(old(icons[i]), w, h, imgW, imgH)]
    {
      var ic := icons[i].(w := w, h := h);
      if imgW > 0 && imgH > 0 {
        var zoomW := CInt.Wrap32(CInt.Wrap32(w) * 256) / imgW;
        var zoomH := CInt.Wrap32(CInt.Wrap32(h) * 256) / imgH;
        var zoom := if zoomW < zoomH then zoomW else zoomH;
        if zoom == 0 {
          zoom := 1;
        }
        if zoom > 0xFFFF {
          zoom := 0xFFFF;
        }
        ic := ic.(zoom := zoom);
      }
      icons[i] := ic;
    }

    /** `scrollicon`: every icon placed at its x, the middle one big and the others small. */
    method ScrollIcon()
      requires Valid()
      modifies icons
      ensures State() == DemoSpec.ScrollIcon(old(State()))
    {
      var i := 0;
      while i < IconCount
        invariant 0 <= i <= IconCount
        invariant forall j :: 0 <= j < i ==> icons[j] == InitialIcon(j, imgW, imgH)
      {
        // the zeroed entry with a fresh, unscaled image
        icons[i] := Icon(InitialX(i), 0, 0, ZoomNone);
        if i == IconCount / 2 {
          IconSetSize(i, IconSizeBig, IconSizeBig);
        } else {
          IconSetSize(i, IconSizeSmall, IconSizeSmall);
        }
        i := i + 1;
      }
      assert icons[..] == DemoSpec.ScrollIcon(old(State())).icons;
    }

    /** `pressing_cb` with the touch point at `px`. */
    method Pressing(px: int)
      requires Valid()
      modifies this, icons
      ensures State() == Press(old(State()), px)
    {
      if !touched {
        DeleteAnims();
        p1x := px;
        touched := true;
        return;
      }
      tOffsetX := px - p1x;
      p1x := px;
      DragAll(tOffsetX);
    }

    /** The `lv_anim_del` loop of the first press. */
    method DeleteAnims()
      modifies this
      ensures calls == old(calls) + DelCalls(IconCount)
      ensures touched == old(touched) && p1x == old(p1x) && tOffsetX == old(tOffsetX)
    {
      var i := 0;
      while i < IconCount
        invariant 0 <= i <= IconCount
        invariant calls == old(calls) + DelCalls(i)
        invariant touched == old(touched) && p1x == old(p1x) && tOffsetX == old(tOffsetX)
      {
        calls := calls + [AnimDel(i)];
        i := i + 1;
      }
    }

    /** The loop of a later press: every icon moved by `d`, wrapped and resized. */
    method DragAll(d: int)
      requires Valid()
      modifies icons
      ensures icons[..] == seq(IconCount, j requires 0 <= j < IconCount => DragIcon(old(icons[j]), d, imgW, imgH))
    {
      var i := 0;
      while i < IconCount
        invariant 0 <= i <= IconCount
        invariant forall j :: 0 <= j < i ==> icons[j] == DragIcon(old(icons[j]), d, imgW, imgH)
        invariant forall j :: i <= j < IconCount ==> icons[j] == old(icons[j])
      {
        DragOne(i, d);
        i := i + 1;
      }
    }

    /** One pass of that loop, on icon `i`. */
    method DragOne(i: nat, d: int)
      requires Valid() && i < IconCount
      modifies icons
      ensures icons[..] == old(icons[..])[i := DragIcon(old(icons[i]), d, imgW, imgH)]
    {
      var x := WrapX(icons[i].x + d);
      icons[i] := icons[i].(x := x);
      if x >= IconDistance || x <= -IconDistance {
        IconSetSize(i, IconSizeSmall, IconSizeSmall);
      } else {
        var v := if x >= 0 then x else -x;
        var s := InterpSize(v);
        IconSetSize(i, s, s);
      }
    }

    /** The first loop of `released_cb`: the snap offset from the first icon right of the centre. */
    method FindOffset() returns (offsetX: int)
      requires Valid()
      ensures offsetX == SnapOffset(icons[..])
    {
      offsetX := 0;
      var i := 0;
      while i < IconCount
        invariant 0 <= i <= IconCount
        invariant SnapOffset(icons[i..]) == SnapOffset(icons[..])
        invariant offsetX == 0
      {
        assert icons[i..][1..] == icons[i + 1..];
        if icons[i].x > 0 {
          if CInt.CRem(icons[i].x, IconDistance) > IconDistance / 2 {
            offsetX := IconDistance - CInt.CRem(icons[i].x, IconDistance);
          } else {
            offsetX := CInt.CRem(-icons[i].x, IconDistance);
          }
          return;
        }
        i := i + 1;
      }
    }

    /** `released_cb`: end the touch, animate every icon to its target and store the wrapped target. */
    method Released()
      requires Valid()
      modifies this, icons
      ensures State() == Release(old(State()))
    {
      ghost var c0 := State();
      touched := false;
      var offsetX := FindOffset();
      var shift := offsetX + CInt.CDiv(tOffsetX, 20) * IconDistance;
      var time := CInt.Wrap32(if tOffsetX > 0 then 300 + tOffsetX * 5 else 300 - tOffsetX * 5);
      assert shift == ReleaseShift(c0) && time == Duration(c0.tOffsetX);
      AnimateAll(c0.icons, shift, time);
      assert icons[..] == Release(c0).icons;
    }

    /**
     * The second loop of `released_cb` over the icons `before`: one animation per icon,
     * and the icon's x set to its wrapped target.
     */
    method AnimateAll(ghost before: seq<Icon>, shift: int, time: int)
      requires Valid() && icons[..] == before
      modifies this, icons
      ensures icons[..] == seq(IconCount, j requires 0 <= j < IconCount => before[j].(x := Wrapped(before[j].x + shift)))
      ensures calls == old(calls) + seq(IconCount, j requires 0 <= j < IconCount =>
                AnimStart(j, time, before[j].x, before[j].x + shift))
      ensures touched == old(touched) && p1x == old(p1x) && tOffsetX == old(tOffsetX)
    {
      var i := 0;
      while i < IconCount
        invariant 0 <= i <= IconCount
        invariant forall j :: 0 <= j < i ==> icons[j] == before[j].(x := Wrapped(before[j].x + shift))
        invariant forall j :: i <= j < IconCount ==> icons[j] == before[j]
        invariant calls == old(calls) + seq(i, j requires 0 <= j < i => AnimStart(j, time, before[j].x, before[j].x + shift))
        invariant touched == old(touched) && p1x == old(p1x) && tOffsetX == old(tOffsetX)
      {
        calls := calls + [AnimStart(i, time, icons[i].x, icons[i].x + shift)];
        var x := WrapX(icons[i].x + shift);
        icons[i] := icons[i].(x := x);
        i := i + 1;
      }
    }

    /** `set_x_cb` as an animation calls it on icon `i` with value `v`. */
    method SetXCb(i: nat, v: int)
      requires Valid() && i < IconCount
      modifies icons
      ensures State() == SetX(old(State()), i, v)
    {
      var x := WrapX(v);
      icons[i] := icons[i].(x := x);
      if x == 0 {
        IconSetSize(i, IconSizeBig, IconSizeBig);
        return;
      }
      if x >= IconDistance || x <= -IconDistance {
        IconSetSize(i, IconSizeSmall, IconSizeSmall);
        return;
      }
      var a := if x < 0 then -x else x;
      var s := InterpSize(a);
      IconSetSize(i, s, s);
    }
  }
}
