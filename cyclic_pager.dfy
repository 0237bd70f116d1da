/**
 * The cyclic pager of Core/Src/cyclic_pager.c as an object whose methods update its
 * fields in place, in the order the C code does. Each method is proved to take the
 * pager from `old(State())` to the state its PagerSpec counterpart computes, and the
 * public ones to keep the structural invariant.
 *
 * The LVGL animation engine is replaced by an explicit completion event,
 * `AnimComplete`, at which the animations started by a jump or a rollback land at their
 * end values and the ready callback runs.
 */
module CyclicPager {
  import opened Wrappers
  import opened PagerSpec
  import PagerProperties
  import CInt

  class Pager {
    const width: int
    const height: int
    var animTime: nat
    var snapRatio: nat
    var hasProvider: bool
    var currIndex: int
    var prev: Slot
    var curr: Slot
    var next: Slot
    var animRunning: bool
    var pendingDir: int
    var dragActive: bool
    var dragStartX: int
    var dragAccumDx: int
    /** Every call made to the content provider, as (page id, index). */
    ghost var fills: seq<FillCall>

    ghost function State(): PagerState
      reads this
    {
      PagerState(width, height, animTime, snapRatio, hasProvider, currIndex, prev, curr, next,
                 animRunning, pendingDir, dragActive, dragStartX, dragAccumDx, fills)
    }

    ghost predicate Valid()
      reads this
    {
      WellFormed(State())
    }

    /** `cyclic_pager_create`: three blank pages, defaults, canonical layout. */
    constructor (w: int, h: int)
      ensures State() == Create(w, h) && Valid()
    {
      width, height := w, h;
      animTime := AnimTimeDefault;
      snapRatio := SnapRatioDefault;
      hasProvider, currIndex := false, 0;
      animRunning, pendingDir := false, 0;
      dragActive, dragStartX, dragAccumDx := false, 0, 0;
      fills := [];
      prev := Slot(0, 0, None);
      curr := Slot(1, 0, None);
      next := Slot(2, 0, None);
      new;
      AlignPagesInPlace();
    }

    /** `fill_page` on the page currently playing role `r`. */
    method FillPageInPlace(r: Role, index: int)
      modifies this
      ensures State() == FillPage(old(State()), r, index)
    {
      match r {
        case Prev =>
          fills := fills + [FillCall(prev.id, index)];
          prev := prev.(bound := Content(hasProvider, index));
        case Curr =>
          fills := fills + [FillCall(curr.id, index)];
          curr := curr.(bound := Content(hasProvider, index));
        case Next =>
          fills := fills + [FillCall(next.id, index)];
          next := next.(bound := Content(hasProvider, index));
      }
    }

    /** `lv_obj_set_x` on the page currently playing role `r`. */
    method SetXInPlace(r: Role, x: int)
      modifies this
      ensures State() == SetX(old(State()), r, x)
    {
      match r {
        case Prev => prev := prev.(x := x);
        case Curr => curr := curr.(x := x);
        case Next => next := next.(x := x);
      }
    }

    /** `align_pages`. */
    method AlignPagesInPlace()
      modifies this
      ensures State() == AlignPages(old(State()))
    {
      SetXInPlace(Role.Curr, 0);
      SetXInPlace(Role.Prev, -width);
      SetXInPlace(Role.Next, width);
    }

    /** `anim_ready_cb`: swap the slot pointers once, refill the vacated slot, realign. */
    method AnimReadyInPlace()
      modifies this
      ensures State() == AnimReady(old(State()))
    {
      RotateInPlace();
      AlignPagesInPlace();
      animRunning := false;
      pendingDir := 0;
    }

    /** The slot-pointer swap of `anim_ready_cb`, in the pending direction. */
    method RotateInPlace()
      modifies this
      ensures State() == Rotated(old(State()))
    {
      if pendingDir > 0 {
        RotateToNext();
      } else if pendingDir < 0 {
        RotateToPrev();
      }
    }

    /** The commit of a forward jump: next becomes curr, the old curr is refilled as next. */
    method RotateToNext()
      modifies this
      ensures State() == FillPage(old(State()).(curr := old(next), next := old(curr)), Role.Next, old(currIndex) + 1)
    {
      var oldCurr := curr;
      curr := next;
      next := oldCurr;
      FillPageInPlace(Role.Next, currIndex + 1);
    }

    /** The commit of a backward jump: prev becomes curr, the old curr is refilled as prev. */
    method RotateToPrev()
      modifies this
      ensures State() == FillPage(old(State()).(curr := old(prev), prev := old(curr)), Role.Prev, old(currIndex) - 1)
    {
      var oldCurr := curr;
      curr := prev;
      prev := oldCurr;
      FillPageInPlace(Role.Prev, currIndex - 1);
    }

    /** `do_jump`: requested directions are +1 (next) and -1 (prev) only. */
    method DoJumpInPlace(dir: int)
      requires dir == 1 || dir == -1
      modifies this
      ensures State() == DoJump(old(State()), dir)
    {
      if animRunning {
        return;
      }
      JumpPlaceInPlace(dir);
      if dir > 0 {
        FillPageInPlace(Role.Prev, currIndex - 1);
      } else {
        FillPageInPlace(Role.Next, currIndex + 1);
      }
    }

    /** The first steps of `do_jump`, before the prefill. */
    method JumpPlaceInPlace(dir: int)
      modifies this
      ensures State() == JumpPlaced(old(State()), dir)
    {
      animRunning := true;
      pendingDir := dir;
      ghost var busy := State();
      if dir > 0 {
        SetXInPlace(Role.Next, width);
      } else {
        SetXInPlace(Role.Prev, -width);
      }
      SetXInPlace(Role.Curr, 0);
      ghost var placed := State();
      assert placed == SetX(SetX(busy, if dir > 0 then Role.Next else Role.Prev, if dir > 0 then width else -width), Role.Curr, 0);
      currIndex := currIndex + (if dir > 0 then 1 else -1);
    }

    /** `drag_update_positions`. */
    method DragUpdatePositionsInPlace(dx: int)
      modifies this
      ensures State() == DragUpdatePositions(old(State()), dx)
    {
      SetXInPlace(Role.Curr, dx);
      SetXInPlace(Role.Prev, -width + dx);
      SetXInPlace(Role.Next, width + dx);
    }

    /** `drag_start`: no busy guard in the source. */
    method DragStartInPlace(px: int)
      modifies this
      ensures State() == DragStart(old(State()), px)
    {
      dragActive := true;
      dragStartX := px;
      dragAccumDx := 0;
      AlignPagesInPlace();
    }

    /** `drag_continue`. */
    method DragContinueInPlace(px: int)
      modifies this
      ensures State() == DragContinue(old(State()), px)
    {
      if !dragActive || animRunning {
        return;
      }
      var dx := px - dragStartX;
      dragAccumDx := dx;
      if dx > width {
        dx := width;
      }
      if dx < -width {
        dx := -width;
      }
      DragUpdatePositionsInPlace(dx);
    }

    /** `drag_release`: the rollback branch returns after `drag_active` is already cleared. */
    method DragReleaseInPlace()
      modifies this
      ensures State() == DragRelease(old(State()))
    {
      if !dragActive {
        return;
      }
      dragActive := false;
      var threshold := CInt.CDiv(width * snapRatio, 100);
      var dx := dragAccumDx;
      if dx <= -threshold {
        DoJumpInPlace(1);
      } else if dx >= threshold {
        DoJumpInPlace(-1);
      } else {
        if animRunning {
          return;
        }
        animRunning := true;
        pendingDir := 0;
      }
    }

    /** `container_input_cb`. */
    method HandleInputEvent(e: InputEvent)
      requires Valid()
      modifies this
      ensures State() == HandleInput(old(State()), e) && Valid()
    {
      PagerProperties.InputPreservesInvariants(State(), e);
      match e {
        case Pressed(px) => DragStartInPlace(px);
        case Pressing(px) => DragContinueInPlace(px);
        case Released => DragReleaseInPlace();
        case Gesture(d) =>
          if d == DirLeft {
            DoJumpInPlace(1);
          } else if d == DirRight {
            DoJumpInPlace(-1);
          }
        case OtherEvent =>
      }
    }

    /**
     * The completion of the running animation (LVGL calls the ready callback only for
     * an animation it started): the animated slots reach their end values, then
     * `anim_ready_cb` runs.
     */
    method AnimComplete()
      requires Valid() && animRunning
      modifies this
      ensures State() == PagerSpec.AnimComplete(old(State())) && Valid()
      ensures !animRunning && pendingDir == 0 && Aligned(State())
    {
      PagerProperties.AnimCompleteWellFormed(State());
      LandInPlace();
      AnimReadyInPlace();
    }

    /** The running animations reaching their end values. */
    method LandInPlace()
      modifies this
      ensures State() == Land(old(State()))
    {
      if pendingDir > 0 {
        SetXInPlace(Role.Next, 0);
        SetXInPlace(Role.Curr, -width);
      } else if pendingDir < 0 {
        SetXInPlace(Role.Prev, 0);
        SetXInPlace(Role.Curr, width);
      } else {
        AlignPagesInPlace();
      }
    }

    /** `cyclic_pager_set_provider`. */
    method SetProvider(provider: bool, init: int)
      requires Valid()
      modifies this
      ensures State() == PagerSpec.SetProvider(old(State()), provider, init) && Valid()
      ensures old(pendingDir) == 0 ==> Bindings(State())
    {
      PagerProperties.StepPreservesInvariants(State(), PagerProperties.SetProviderOp(provider, init));
      if pendingDir == 0 {
        PagerProperties.SetProviderEstablishesBindings(State(), provider, init);
      }
      BindAndFill(provider, init);
    }

    /** The body of `cyclic_pager_set_provider`: bind, set the index, fill curr, prev, next. */
    method BindAndFill(provider: bool, init: int)
      modifies this
      ensures State() == PagerSpec.SetProvider(old(State()), provider, init)
    {
      hasProvider := provider;
      currIndex := init;
      ghost var bound := State();
      FillPageInPlace(Role.Curr, init);
      FillPageInPlace(Role.Prev, init - 1);
      FillPageInPlace(Role.Next, init + 1);
      assert State() == FillPage(FillPage(FillPage(bound, Role.Curr, init), Role.Prev, init - 1), Role.Next, init + 1);
    }

    /** `cyclic_pager_next`. */
    method Next()
      requires Valid()
      modifies this
      ensures State() == NextPage(old(State())) && Valid()
      ensures old(animRunning) ==> State() == old(State())
      ensures !old(animRunning) ==> animRunning && pendingDir == 1 && currIndex == old(currIndex) + 1
    {
      PagerProperties.DoJumpWellFormed(State(), 1);
      DoJumpInPlace(1);
    }

    /** `cyclic_pager_prev`. */
    method Prev()
      requires Valid()
      modifies this
      ensures State() == PrevPage(old(State())) && Valid()
      ensures old(animRunning) ==> State() == old(State())
      ensures !old(animRunning) ==> animRunning && pendingDir == -1 && currIndex == old(currIndex) - 1
    {
      PagerProperties.DoJumpWellFormed(State(), -1);
      DoJumpInPlace(-1);
    }

    /** `cyclic_pager_refresh`: only curr is refilled; no flag or index changes. */
    method Refresh()
      requires Valid()
      modifies this
      ensures State() == PagerSpec.Refresh(old(State())) && Valid()
      ensures currIndex == old(currIndex) && animRunning == old(animRunning) && pendingDir == old(pendingDir)
      ensures prev == old(prev) && next == old(next) && curr.bound == Content(hasProvider, currIndex)
    {
      FillPageInPlace(Role.Curr, currIndex);
    }
  }
}
