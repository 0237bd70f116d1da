/**
 * What the cyclic pager promises across operations, proved about the state-machine
 * functions of PagerSpec: the structural and content invariants, the index algebra of
 * accepted jumps, the equivalence of a committed drag with a direct jump, rollback, and
 * the worked scenarios of the design.
 */
module PagerProperties {
  import opened Wrappers
  import opened PagerSpec

  /** Every externally triggered step of the pager. */
  datatype Op =
    | Input(e: InputEvent)
    | Complete
    | SetProviderOp(provider: bool, init: int)
    | NextOp
    | PrevOp
    | RefreshOp

  /** The completion event only exists while an animation runs. */
  predicate Enabled(st: PagerState, op: Op)
  {
    op.Complete? ==> st.animRunning
  }

  function Apply(st: PagerState, op: Op): PagerState
  {
    match op
    case Input(e) => HandleInput(st, e)
    case Complete => AnimComplete(st)
    case SetProviderOp(p, i) => SetProvider(st, p, i)
    case NextOp => NextPage(st)
    case PrevOp => PrevPage(st)
    case RefreshOp => Refresh(st)
  }

  lemma DoJumpWellFormed(st: PagerState, dir: int)
    requires DirOk(st) && SlotsArePermutation(st) && (st.animRunning ==> WellFormed(st))
    requires dir == 1 || dir == -1
    ensures WellFormed(DoJump(st, dir))
    ensures Bindings(st) ==> Bindings(DoJump(st, dir))
  {
    if !st.animRunning {
      assert st.pendingDir == 0;
    }
  }

  lemma AnimCompleteWellFormed(st: PagerState)
    requires WellFormed(st)
    ensures WellFormed(AnimComplete(st))
    ensures Bindings(st) ==> Bindings(AnimComplete(st))
  {
    var l := Land(st);
    assert {l.prev.id, l.curr.id, l.next.id} == {st.prev.id, st.curr.id, st.next.id};
    var t := AnimReady(l);
    if st.pendingDir > 0 {
      assert {t.prev.id, t.curr.id, t.next.id} == {st.prev.id, st.next.id, st.curr.id};
    } else if st.pendingDir < 0 {
      assert {t.prev.id, t.curr.id, t.next.id} == {st.curr.id, st.prev.id, st.next.id};
    } else {
      assert {t.prev.id, t.curr.id, t.next.id} == {st.prev.id, st.curr.id, st.next.id};
    }
  }

  lemma InputPreservesInvariants(st: PagerState, e: InputEvent)
    requires WellFormed(st)
    ensures WellFormed(HandleInput(st, e))
    ensures Bindings(st) ==> Bindings(HandleInput(st, e))
  {
    match e
    case Pressed(px) =>
      var t := DragStart(st, px);
      assert {t.prev.id, t.curr.id, t.next.id} == {st.prev.id, st.curr.id, st.next.id};
    case Pressing(px) =>
      var t := DragContinue(st, px);
      assert {t.prev.id, t.curr.id, t.next.id} == {st.prev.id, st.curr.id, st.next.id};
    case Released =>
      if st.dragActive {
        ReleasePreservesInvariants(st);
      }
    case Gesture(d) =>
      DoJumpWellFormed(st, 1);
      DoJumpWellFormed(st, -1);
    case OtherEvent =>
  }

  lemma ReleasePreservesInvariants(st: PagerState)
    requires WellFormed(st) && st.dragActive
    ensures WellFormed(DragRelease(st))
    ensures Bindings(st) ==> Bindings(DragRelease(st))
  {
    var r := st.(dragActive := false);
    var th := Threshold(st);
    if r.dragAccumDx <= -th {
      DoJumpWellFormed(r, 1);
    } else if r.dragAccumDx >= th {
      DoJumpWellFormed(r, -1);
    } else if !st.animRunning {
      assert st.pendingDir == 0;
    }
  }

  /**
   * Every step keeps the structural invariant; every step but one keeps the content
   * invariant, the exception being `set_provider` while a commit is still pending
   * (see SetProviderDuringCommit).
   */
  lemma StepPreservesInvariants(st: PagerState, op: Op)
    requires WellFormed(st) && Enabled(st, op)
    ensures WellFormed(Apply(st, op))
    ensures Bindings(st) && !(op.SetProviderOp? && st.pendingDir != 0) ==> Bindings(Apply(st, op))
  {
    match op
    case Input(e) => InputPreservesInvariants(st, e);
    case Complete => AnimCompleteWellFormed(st);
    case SetProviderOp(p, i) => SetProviderWellFormed(st, p, i);
    case NextOp => DoJumpWellFormed(st, 1);
    case PrevOp => DoJumpWellFormed(st, -1);
    case RefreshOp => RefreshWellFormed(st);
  }

  lemma SetProviderWellFormed(st: PagerState, provider: bool, init: int)
    requires WellFormed(st)
    ensures WellFormed(SetProvider(st, provider, init))
    ensures st.pendingDir == 0 ==> Bindings(SetProvider(st, provider, init))
  {
    var t := SetProvider(st, provider, init);
    assert {t.prev.id, t.curr.id, t.next.id} == {st.prev.id, st.curr.id, st.next.id};
  }

  lemma RefreshWellFormed(st: PagerState)
    requires WellFormed(st)
    ensures WellFormed(Refresh(st))
    ensures Bindings(st) ==> Bindings(Refresh(st))
  {
  }

  /** The content invariant in the idle or rolling-back case: the three neighbours of currIndex. */
  predicate Showing(st: PagerState)
  {
    st.prev.bound == Content(st.hasProvider, st.currIndex - 1) &&
    st.curr.bound == Content(st.hasProvider, st.currIndex) &&
    st.next.bound == Content(st.hasProvider, st.currIndex + 1)
  }

  /**
   * `set_provider` establishes the content invariant from any state with no pending
   * commit, in particular right after `create`.
   */
  lemma SetProviderEstablishesBindings(st: PagerState, provider: bool, init: int)
    requires WellFormed(st) && st.pendingDir == 0
    ensures Bindings(SetProvider(st, provider, init)) && Showing(SetProvider(st, provider, init))
    ensures WellFormed(SetProvider(st, provider, init))
  {
    StepPreservesInvariants(st, SetProviderOp(provider, init));
  }

  /**
   * As written, `set_provider` during a commit animation is not safe: the completion
   * still rotates in the pending direction, so curr ends up showing `init + 1`.
   */
  lemma SetProviderDuringCommit(st: PagerState, init: int)
    requires st.pendingDir > 0
    ensures var t := AnimComplete(SetProvider(st, true, init));
            t.currIndex == init && t.curr.bound == Some(init + 1) && !Bindings(t)
  {
    var q := SetProvider(st, true, init);
    var l := Land(q);
    assert l.pendingDir == q.pendingDir && l.currIndex == init && l.next.bound == Some(init + 1);
    var t := AnimReady(l);
    assert t.curr.bound == Some(init + 1) && t.currIndex == init && t.pendingDir == 0;
  }

  datatype Jump = Fwd | Back

  function DirOf(j: Jump): int
  {
    if j == Fwd then 1 else -1
  }

  function Count(js: seq<Jump>, j: Jump): nat
  {
    if js == [] then 0 else (if js[0] == j then 1 else 0) + Count(js[1..], j)
  }

  /** A sequence of `next`/`prev` calls, each issued when idle and awaited to completion. */
  function RunJumps(st: PagerState, js: seq<Jump>): PagerState
    decreases |js|
  {
    if js == [] then st
    else RunJumps(AnimComplete(DoJump(st, DirOf(js[0]))), js[1..])
  }

  /**
   * Index algebra: starting with no animation running, every jump is accepted and the
   * final index is `init + #next - #prev`; the pager ends idle-aligned and, if it showed
   * the neighbours of its index before, it shows the neighbours of the new index after.
   */
  lemma {:induction false} IndexAlgebra(st: PagerState, js: seq<Jump>)
    requires WellFormed(st) && !st.animRunning
    ensures var t := RunJumps(st, js);
      t.currIndex == st.currIndex + Count(js, Fwd) - Count(js, Back) &&
      WellFormed(t) && !t.animRunning && t.dragActive == st.dragActive &&
      t.hasProvider == st.hasProvider &&
      (js != [] ==> Aligned(t)) &&
      (Bindings(st) ==> Bindings(t) && Showing(t))
    decreases |js|
  {
    if js != [] {
      var d := DirOf(js[0]);
      var mid := AnimComplete(DoJump(st, d));
      JumpRound(st, d);
      IndexAlgebra(mid, js[1..]);
      assert RunJumps(st, js) == RunJumps(mid, js[1..]);
      assert Count(js, Fwd) - Count(js, Back) == d + Count(js[1..], Fwd) - Count(js[1..], Back);
      if js[1..] == [] {
        assert RunJumps(mid, js[1..]) == mid;
      }
    }
  }

  /** One accepted jump awaited to completion: the index moves by one and the invariants hold. */
  lemma JumpRound(st: PagerState, d: int)
    requires WellFormed(st) && !st.animRunning && (d == 1 || d == -1)
    ensures var mid := AnimComplete(DoJump(st, d));
      && mid.currIndex == st.currIndex + d && WellFormed(mid) && !mid.animRunning && Aligned(mid)
      && mid.dragActive == st.dragActive && mid.hasProvider == st.hasProvider
      && (Bindings(st) ==> Bindings(mid) && Showing(mid))
  {
    DoJumpWellFormed(st, d);
    AnimCompleteWellFormed(DoJump(st, d));
  }

  /**
   * A drag released at or beyond `-threshold` ends, after completion, with the same
   * index, slots (identity, position, content) and fill calls as calling `next` directly.
   */
  lemma DragCommitMatchesNext(st: PagerState)
    requires WellFormed(st) && st.dragActive && !st.animRunning
    requires st.dragAccumDx <= -Threshold(st)
    ensures var viaDrag := AnimComplete(DragRelease(st));
            var direct := AnimComplete(NextPage(st));
            viaDrag.currIndex == direct.currIndex == st.currIndex + 1 &&
            viaDrag.prev == direct.prev && viaDrag.curr == direct.curr && viaDrag.next == direct.next &&
            viaDrag.fills == direct.fills && Idle(viaDrag)
  {
    JumpIgnoresDrag(st, 1);
    CompleteIgnoresDrag(DoJump(st, 1));
  }

  /** The mirror case: a drag released at or beyond `+threshold` matches `prev`. */
  lemma DragCommitMatchesPrev(st: PagerState)
    requires WellFormed(st) && st.dragActive && !st.animRunning
    requires -Threshold(st) < st.dragAccumDx && st.dragAccumDx >= Threshold(st)
    ensures var viaDrag := AnimComplete(DragRelease(st));
            var direct := AnimComplete(PrevPage(st));
            viaDrag.currIndex == direct.currIndex == st.currIndex - 1 &&
            viaDrag.prev == direct.prev && viaDrag.curr == direct.curr && viaDrag.next == direct.next &&
            viaDrag.fills == direct.fills && Idle(viaDrag)
  {
    JumpIgnoresDrag(st, -1);
    CompleteIgnoresDrag(DoJump(st, -1));
  }

  /** A jump neither reads nor writes the drag flag. */
  lemma JumpIgnoresDrag(st: PagerState, dir: int)
    requires dir == 1 || dir == -1
    ensures DoJump(st.(dragActive := false), dir) == DoJump(st, dir).(dragActive := false)
  {
  }

  /** Neither does the completion of an animation. */
  lemma CompleteIgnoresDrag(st: PagerState)
    ensures AnimComplete(st.(dragActive := false)) == AnimComplete(st).(dragActive := false)
  {
    var l := Land(st);
    LandIgnoresDrag(st);
    RotatedIgnoresDrag(l);
    AlignIgnoresDrag(Rotated(l));
  }

  lemma LandIgnoresDrag(st: PagerState)
    ensures Land(st.(dragActive := false)) == Land(st).(dragActive := false)
  {
  }

  lemma RotatedIgnoresDrag(st: PagerState)
    ensures Rotated(st.(dragActive := false)) == Rotated(st).(dragActive := false)
  {
    if st.pendingDir > 0 {
      FillIgnoresDrag(st.(curr := st.next, next := st.curr), Next, st.currIndex + 1);
    } else if st.pendingDir < 0 {
      FillIgnoresDrag(st.(curr := st.prev, prev := st.curr), Prev, st.currIndex - 1);
    }
  }

  lemma FillIgnoresDrag(st: PagerState, r: Role, index: int)
    ensures FillPage(st.(dragActive := false), r, index) == FillPage(st, r, index).(dragActive := false)
  {
  }

  lemma AlignIgnoresDrag(st: PagerState)
    ensures AlignPages(st.(dragActive := false)) == AlignPages(st).(dragActive := false)
  {
  }

  /**
   * Rollback: a drag released short of the threshold ends, after completion, with all
   * three slots back at their canonical positions, the same pages in the same roles
   * with the same content, the index unchanged and no provider call.
   */
  lemma RollbackRestores(st: PagerState)
    requires WellFormed(st) && st.dragActive && !st.animRunning
    requires -Threshold(st) < st.dragAccumDx < Threshold(st)
    ensures var t := AnimComplete(DragRelease(st));
            Idle(t) && Aligned(t) && t.currIndex == st.currIndex && t.fills == st.fills &&
            t.prev.(x := 0) == st.prev.(x := 0) && t.curr.(x := 0) == st.curr.(x := 0) &&
            t.next.(x := 0) == st.next.(x := 0)
  {
    assert st.pendingDir == 0;
  }

  /** While an animation runs, jumps, swipes and drag moves have no effect at all. */
  lemma BusyRejects(st: PagerState, px: int)
    requires st.animRunning
    ensures NextPage(st) == st && PrevPage(st) == st && DragContinue(st, px) == st
    ensures HandleInput(st, Gesture(DirLeft)) == st && HandleInput(st, Gesture(DirRight)) == st
    ensures HandleInput(st, Pressing(px)) == st
  {
  }

  /**
   * As written, a press is not rejected while busy: `drag_start` still arms a drag and
   * realigns the slots under a running commit animation.
   */
  lemma PressWhileBusyIsNotRejected()
    ensures var st := NextPage(SetProvider(Create(300, 100), true, 0));
            st.animRunning && HandleInput(st, Pressed(0)) != st && HandleInput(st, Pressed(0)).dragActive
  {
  }

  /** The drive of a drag: press at `startX`, move to `endX`, release, let the animation finish. */
  function DragGesture(st: PagerState, startX: int, endX: int): PagerState
  {
    AnimComplete(DragRelease(DragContinue(DragStart(st, startX), endX)))
  }

  /**
   * Scenario A: width 300 and the default 50% snap give threshold 150; a drag of -200
   * commits forward and the new curr shows the old index + 1.
   */
  lemma ScenarioCommit(st: PagerState)
    requires WellFormed(st) && Bindings(st) && Idle(st) && st.hasProvider
    requires st.width == 300 && st.snapRatio == 50
    ensures Threshold(st) == 150
    ensures var t := DragGesture(st, 250, 50);
            t.currIndex == st.currIndex + 1 && t.curr.bound == Some(st.currIndex + 1) && Idle(t) && Aligned(t)
  {
    var s1 := DragStart(st, 250);
    var s2 := DragContinue(s1, 50);
    assert s2.dragAccumDx == -200;
    assert Threshold(s2) == 150;
    DragCommitMatchesNext(s2);
    assert st.pendingDir == 0;
  }

  /** Scenario B: the same pager dragged by only -100 rolls back with the index unchanged. */
  lemma ScenarioRollback(st: PagerState)
    requires WellFormed(st) && Bindings(st) && Idle(st)
    requires st.width == 300 && st.snapRatio == 50
    ensures var t := DragGesture(st, 250, 150);
            t.currIndex == st.currIndex && Idle(t) && Aligned(t) &&
            t.curr.bound == st.curr.bound && t.prev.bound == st.prev.bound && t.next.bound == st.next.bound &&
            t.fills == st.fills
  {
    var s1 := DragStart(st, 250);
    var s2 := DragContinue(s1, 150);
    assert s2.dragAccumDx == -100;
    assert Threshold(s2) == 150;
    RollbackRestores(s2);
  }
}
