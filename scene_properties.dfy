/** What the scene manager's API calls, as modelled in SceneSpec, promise in sequence. */
module SceneProperties {
  import opened Wrappers
  import opened SceneSpec

  /**
   * Initialisation with a GUI context registers exactly the four predefined scenes under
   * their names, with no current or previous scene, no transition and no callback run;
   * without one it fails and changes nothing.
   */
  lemma InitRegistersPredefined(st: Manager, ui: nat)
    requires Valid(st)
    ensures ui == 0 ==> Init(st, ui) == Outcome(st, false)
    ensures ui != 0 ==>
      var o := Init(st, ui);
      && o.ok && o.st.ui == ui
      && o.st.current == SceneNone && o.st.previous == SceneNone
      && !o.st.transition && o.st.calls == st.calls
      && (forall i :: 0 <= i < SceneMax ==>
            (o.st.scenes[i].hasLoad <==> SceneMain <= i <= SceneCustom1) && !o.st.scenes[i].isLoaded)
      && o.st.scenes[SceneMain].name == Some("Main Scene")
      && o.st.scenes[SceneLoading].name == Some("Loading Scene")
      && o.st.scenes[SceneSettings].name == Some("Settings Scene")
      && o.st.scenes[SceneCustom1].name == Some("Custom Scene 1")
      && o.st.scenes[SceneNone].name == None && o.st.scenes[SceneCustom2].name == None
  {
    if ui != 0 {
      var z := Zero().(ui := ui, calls := st.calls);
      var s1 := Register(z, SceneMain, Some("Main Scene"), true, true).st;
      var s2 := Register(s1, SceneLoading, Some("Loading Scene"), true, true).st;
      var s3 := Register(s2, SceneSettings, Some("Settings Scene"), true, true).st;
      var s4 := Register(s3, SceneCustom1, Some("Custom Scene 1"), true, true).st;
      assert Init(st, ui).st == s4;
      assert s4.scenes == z.scenes[SceneMain := SceneDesc(SceneMain, Some("Main Scene"), true, true, false, None)]
                                   [SceneLoading := SceneDesc(SceneLoading, Some("Loading Scene"), true, true, false, None)]
                                   [SceneSettings := SceneDesc(SceneSettings, Some("Settings Scene"), true, true, false, None)]
                                   [SceneCustom1 := SceneDesc(SceneCustom1, Some("Custom Scene 1"), true, true, false, None)];
    }
  }

  /** The guards of a load, in both directions: a refused load fails and changes nothing. */
  lemma LoadGuards(st: Manager, id: nat, anim: SceneAnim, time: nat, act: Screen)
    requires Valid(st)
    ensures Load(st, id, anim, time, act).ok <==> CanLoad(st, id)
    ensures !CanLoad(st, id) ==> Load(st, id, anim, time, act).st == st
  {
  }

  /** The calls a load makes before its own callback: the unload callback of the current scene, if due. */
  function UnloadCalls(st: Manager): seq<Call>
    requires Valid(st)
  {
    var s := st.scenes[st.current];
    if st.current != SceneNone && s.isLoaded && s.hasUnload then [UnloadCb(st.current)] else []
  }

  /** The calls a load makes after its own callback: a refresh and the animation, if any. */
  function AnimCalls(anim: SceneAnim, time: nat, act: Screen): seq<Call>
  {
    if time > 0 && anim != AnimNone then
      [RefreshNow] + match AnimTable(anim, act.width, act.height)
                     case None => []
                     case Some(a) => [AnimStart(act.handle, a, time)]
    else []
  }

  /**
   * A successful load: the scene becomes current and the old current one previous; the
   * scene is loaded on the active screen; the old current scene is unloaded (when it has
   * an unload callback and is not the scene itself); the callbacks run in the order
   * unload, load, refresh, animation; the transition stays open exactly when an
   * animation was started; no other descriptor changes.
   */
  lemma LoadEffect(st: Manager, id: nat, anim: SceneAnim, time: nat, act: Screen)
    requires Valid(st) && CanLoad(st, id)
    ensures var t := Load(st, id, anim, time, act).st;
      && t.current == id && t.previous == st.current && t.ui == st.ui
      && t.scenes[id] == st.scenes[id].(isLoaded := true, screen := Some(act.handle))
      && (st.current != id && UnloadCalls(st) != [] ==>
            t.scenes[st.current] == st.scenes[st.current].(isLoaded := false, screen := None))
      && (forall i :: 0 <= i < SceneMax && i != id && i != st.current ==> t.scenes[i] == st.scenes[i])
      && t.calls == st.calls + UnloadCalls(st) + [LoadCb(id)] + AnimCalls(anim, time, act)
      && (t.transition <==> time > 0 && AnimTable(anim, act.width, act.height).Some?)
  {
    UnloadedEffect(st);
    var loaded := Loaded(Unloaded(st), id, act);
    AnimatedEffect(loaded, anim, time, act);
  }

  /** The first stage of a load: the flag raised and the current scene unloaded, if it has a callback. */
  lemma UnloadedEffect(st: Manager)
    requires Valid(st)
    ensures var u := Unloaded(st);
      && u.current == st.current && u.previous == st.previous && u.ui == st.ui && u.transition
      && u.calls == st.calls + UnloadCalls(st)
      && (UnloadCalls(st) != [] ==> u.scenes[st.current] == st.scenes[st.current].(isLoaded := false, screen := None))
      && (forall i :: 0 <= i < SceneMax && i != st.current ==> u.scenes[i] == st.scenes[i])
  {
  }

  /** The last stage: a refresh and the animation, the transition kept open only for a known animation. */
  lemma AnimatedEffect(st: Manager, anim: SceneAnim, time: nat, act: Screen)
    ensures var a := Animated(st, anim, time, act);
      && a.(transition := st.transition, calls := st.calls) == st
      && a.calls == st.calls + AnimCalls(anim, time, act)
      && (a.transition <==> st.transition && time > 0 && AnimTable(anim, act.width, act.height).Some?)
  {
    if time > 0 && anim != AnimNone {
      var refreshed := st.(calls := st.calls + [RefreshNow]);
      var t := ApplyAnimation(refreshed, act, anim, time);
      match AnimTable(anim, act.width, act.height)
      case None =>
        assert t.calls == refreshed.calls;
      case Some(a) =>
        assert t.calls == refreshed.calls + [AnimStart(act.handle, a, time)];
    }
  }

  /** Unloading twice in a row runs the unload callback at most once. */
  lemma UnloadIdempotent(st: Manager)
    requires Valid(st)
    ensures UnloadCurrent(UnloadCurrent(st).st) == UnloadCurrent(st)
  {
  }

  /** While an animated transition runs, every load and every back is refused. */
  lemma TransitionBlocksLoads(st: Manager, id: nat, anim: SceneAnim, time: nat, act: Screen,
                              id2: nat, anim2: SceneAnim, time2: nat, act2: Screen)
    requires Valid(st) && CanLoad(st, id)
    requires time > 0 && AnimTable(anim, act.width, act.height).Some?
    ensures var t := Load(st, id, anim, time, act).st;
      && Load(t, id2, anim2, time2, act2) == Outcome(t, false)
      && Back(t, anim2, time2, act2) == Outcome(t, false)
      && (CanLoad(AnimReady(t), id2) <==> id2 < SceneMax && t.scenes[id2].hasLoad)
  {
    LoadEffect(st, id, anim, time, act);
  }

  /**
   * Back toggles between the last two scenes: from scene a with previous scene b, both
   * registered and neither NONE, back leads to b with previous a, and back again to a
   * with previous b; a transition that ends (no animation, or its ready callback)
   * separates the two.
   */
  lemma BackToggles(st: Manager, anim: SceneAnim, time: nat, act: Screen, anim2: SceneAnim, time2: nat, act2: Screen)
    requires Valid(st) && !st.transition
    requires st.current != SceneNone && st.previous != SceneNone
    requires st.scenes[st.current].hasLoad && st.scenes[st.previous].hasLoad
    ensures var o1 := Back(st, anim, time, act);
      && o1.ok && o1.st.current == st.previous && o1.st.previous == st.current
      && var o2 := Back(AnimReady(o1.st), anim2, time2, act2);
      o2.ok && o2.st.current == st.current && o2.st.previous == st.previous
  {
    LoadEffect(st, st.previous, anim, time, act);
    var t := AnimReady(Back(st, anim, time, act).st);
    LoadEffect(t, t.previous, anim2, time2, act2);
  }

  /** Back refuses when nothing was shown before. */
  lemma BackWithoutHistory(st: Manager, anim: SceneAnim, time: nat, act: Screen)
    requires Valid(st) && st.previous == SceneNone
    ensures Back(st, anim, time, act) == Outcome(st, false)
  {
  }

  /**
   * Reloading the current scene unloads it and loads it again, and makes it its own
   * previous scene, so that back then reloads it once more.
   */
  lemma ReloadCurrent(st: Manager, anim: SceneAnim, time: nat, act: Screen)
    requires Valid(st) && CanLoad(st, st.current) && st.current != SceneNone
    requires st.scenes[st.current].isLoaded && st.scenes[st.current].hasUnload
    ensures var t := Load(st, st.current, anim, time, act).st;
      && t.current == st.current && t.previous == st.current
      && t.calls[|st.calls|..|st.calls| + 2] == [UnloadCb(st.current), LoadCb(st.current)]
  {
    LoadEffect(st, st.current, anim, time, act);
  }
}
