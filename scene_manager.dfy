/**
 * The global scene manager of Core/Src/scene_manager.c as an object: its scalar fields
 * and its fixed table of `SceneMax` descriptors are updated in place, in the order the C
 * code does. Each API method is proved to return, and to leave the manager in, what its
 * SceneSpec counterpart computes from the manager before the call.
 */
module SceneManager {
  import opened Wrappers
  import opened SceneSpec

  class Manager {
    var ui: nat
    var current: nat
    var previous: nat
    const scenes: array<SceneDesc>
    var transition: bool
    /** The callbacks, refreshes and animations the manager has started, in order. */
    var calls: seq<Call>

    ghost function State(): SceneSpec.Manager
      reads this, scenes
    {
      SceneSpec.Manager(ui, current, previous, scenes[..], transition, calls)
    }

    ghost predicate Valid()
      reads this, scenes
    {
      SceneSpec.Valid(State())
    }

    /** The zero-initialised global `g_scene_manager`. */
    constructor ()
      ensures State() == Zero() && Valid() && fresh(scenes)
    {
      ui, current, previous, transition, calls := 0, SceneNone, SceneNone, false, [];
      scenes := new SceneDesc[SceneMax](_ => Blank);
      new;
      assert scenes[..] == Zero().scenes;
    }

    /** `scene_manager_register`. */
    method Register(id: nat, name: Option<string>, hasLoad: bool, hasUnload: bool) returns (ok: bool)
      requires Valid()
      modifies scenes
      ensures Valid() && Outcome(State(), ok) == SceneSpec.Register(old(State()), id, name, hasLoad, hasUnload)
    {
      if id >= SceneMax || !hasLoad {
        return false;
      }
      scenes[id] := SceneDesc(id, name, hasLoad, hasUnload, false, None);
      return true;
    }

    /** `scene_manager_init`. */
    method Init(context: nat) returns (ok: bool)
      requires Valid()
      modifies this, scenes
      ensures Valid() && Outcome(State(), ok) == SceneSpec.Init(old(State()), context)
    {
      if context == 0 {
        return false;
      }
      ui, current, previous, transition := 0, SceneNone, SceneNone, false;
      var i := 0;
      while i < SceneMax
        invariant 0 <= i <= SceneMax
        invariant forall j :: 0 <= j < i ==> scenes[j] == Blank
        invariant calls == old(calls)
      {
        scenes[i] := Blank;
        i := i + 1;
      }
      assert scenes[..] == Zero().scenes;
      ui := context;
      current := SceneNone;
      previous := SceneNone;
      transition := false;
      ghost var z := State();
      assert z == Zero().(ui := context, calls := old(calls));
      var _ := Register(SceneMain, Some("Main Scene"), true, true);
      ghost var s1 := State();
      assert s1 == SceneSpec.Register(z, SceneMain, Some("Main Scene"), true, true).st;
      var _ := Register(SceneLoading, Some("Loading Scene"), true, true);
      ghost var s2 := State();
      assert s2 == SceneSpec.Register(s1, SceneLoading, Some("Loading Scene"), true, true).st;
      var _ := Register(SceneSettings, Some("Settings Scene"), true, true);
      ghost var s3 := State();
      assert s3 == SceneSpec.Register(s2, SceneSettings, Some("Settings Scene"), true, true).st;
      var _ := Register(SceneCustom1, Some("Custom Scene 1"), true, true);
      return true;
    }

    /** `scene_manager_unload_current`. */
    method UnloadCurrent() returns (ok: bool)
      requires Valid()
      modifies this, scenes
      ensures Valid() && Outcome(State(), ok) == SceneSpec.UnloadCurrent(old(State()))
    {
      if current == SceneNone {
        return false;
      }
      var s := scenes[current];
      if s.isLoaded && s.hasUnload {
        calls := calls + [UnloadCb(current)];
        scenes[current] := s.(isLoaded := false, screen := None);
      }
      return true;
    }

    /** `apply_scene_animation` on the screen `scr`. */
    method ApplyAnimation(scr: Screen, anim: SceneAnim, time: nat)
      modifies this
      ensures State() == SceneSpec.ApplyAnimation(old(State()), scr, anim, time)
    {
      if time == 0 || anim == AnimNone {
        transition := false;
        return;
      }
      var a := AnimTable(anim, scr.width, scr.height);
      if a.None? {
        transition := false;
        return;
      }
      calls := calls + [AnimStart(scr.handle, a.value, time)];
    }

    /** `scene_manager_load`; `act` is the screen LVGL reports as active after the load callback. */
    method Load(id: nat, anim: SceneAnim, time: nat, act: Screen) returns (ok: bool)
      requires Valid()
      modifies this, scenes
      ensures Valid() && Outcome(State(), ok) == SceneSpec.Load(old(State()), id, anim, time, act)
    {
      if id >= SceneMax || transition {
        return false;
      }
      if !scenes[id].hasLoad {
        return false;
      }
      BeginLoad();
      RunLoadCb(id, act);
      Animate(act, anim, time);
      previous := current;
      current := id;
      return true;
    }

    /** The transition flag raised, then the current scene unloaded. */
    method BeginLoad()
      requires Valid()
      modifies this, scenes
      ensures Valid() && State() == Unloaded(old(State()))
    {
      transition := true;
      if current != SceneNone {
        var _ := UnloadCurrent();
      }
    }

    /** The load callback of scene `id`, which leaves `act` active. */
    method RunLoadCb(id: nat, act: Screen)
      requires Valid() && id < SceneMax
      modifies this, scenes
      ensures Valid() && State() == Loaded(old(State()), id, act)
    {
      calls := calls + [LoadCb(id)];
      scenes[id] := scenes[id].(isLoaded := true, screen := Some(act.handle));
    }

    /** The refresh and the transition animation, or the transition closed at once. */
    method Animate(act: Screen, anim: SceneAnim, time: nat)
      requires Valid()
      modifies this
      ensures Valid() && State() == Animated(old(State()), anim, time, act)
    {
      if time > 0 && anim != AnimNone {
        calls := calls + [RefreshNow];
        ApplyAnimation(act, anim, time);
      } else {
        transition := false;
      }
    }

    /** `scene_manager_back`. */
    method Back(anim: SceneAnim, time: nat, act: Screen) returns (ok: bool)
      requires Valid()
      modifies this, scenes
      ensures Valid() && Outcome(State(), ok) == SceneSpec.Back(old(State()), anim, time, act)
    {
      if previous == SceneNone {
        return false;
      }
      ok := Load(previous, anim, time, act);
    }

    /** `scene_anim_ready_cb`. */
    method AnimReady()
      modifies this
      ensures State() == SceneSpec.AnimReady(old(State()))
    {
      transition := false;
    }

    /** `scene_manager_get_current_scene`. */
    method GetCurrentScene() returns (id: nat)
      requires Valid()
      ensures id == current && id < SceneMax
    {
      return current;
    }

    /** `scene_manager_get_scene_name`. */
    method GetSceneName(id: nat) returns (name: Option<string>)
      requires Valid()
      ensures name == SceneName(State(), id)
      ensures id >= SceneMax ==> name == Some("Unknown")
    {
      if id >= SceneMax {
        return Some("Unknown");
      }
      return scenes[id].name;
    }

    /** `scene_manager_is_transitioning`. */
    method IsTransitioning() returns (busy: bool)
      ensures busy == transition
    {
      return transition;
    }
  }
}
