/** Screen navigation: which screen a tab click shows, and which screens
    and tabs are highlighted afterwards (app.js, selectScreen and the
    click handler of the tab buttons). */
module Navigation {

  /** The screens a locked session may not open. */
  const LockedScreens: seq<string> := ["teach-full", "practice", "tests", "adaptive"]

  const Paywall: string := "paywall"

  /** The screen a click on a tab with target `target` selects. */
  function ShownScreen(unlocked: bool, target: string): string {
    if !unlocked && target in LockedScreens then Paywall else target
  }

  /** The gating rule: a locked session asking for locked content gets the
      paywall and never sees a locked screen; in every other case the target
      itself is shown. */
  lemma GatingRule(unlocked: bool, target: string)
    ensures !unlocked && target in LockedScreens ==> ShownScreen(unlocked, target) == Paywall
    ensures unlocked || target !in LockedScreens ==> ShownScreen(unlocked, target) == target
    ensures !unlocked ==> ShownScreen(unlocked, target) !in LockedScreens
  {
    assert Paywall != LockedScreens[0] && Paywall != LockedScreens[1];
    assert Paywall != LockedScreens[2] && Paywall != LockedScreens[3];
  }

  /** Unlocking changes what a click shows for exactly the locked targets. */
  lemma UnlockChangesExactlyLocked(target: string)
    ensures ShownScreen(false, target) != ShownScreen(true, target) <==> target in LockedScreens
  {
    if target in LockedScreens {
      GatingRule(false, target);
    }
  }

  /** The active flags selectScreen leaves on a list of elements identified
      by `keys`, in document order: set exactly where the key is the selected id. */
  function Marked(keys: seq<string>, screenId: string): seq<bool> {
    if keys == [] then []
    else Marked(keys[..|keys| - 1], screenId) + [keys[|keys| - 1] == screenId]
  }

  /** An element is active exactly when its key is the selected id. */
  lemma {:induction false} MarkedAt(keys: seq<string>, screenId: string)
    ensures |Marked(keys, screenId)| == |keys|
    ensures forall i :: 0 <= i < |keys| ==> (Marked(keys, screenId)[i] <==> keys[i] == screenId)
  {
    if keys != [] {
      MarkedAt(keys[..|keys| - 1], screenId);
    }
  }

  function CountTrue(flags: seq<bool>): nat {
    if flags == [] then 0 else CountTrue(flags[..|flags| - 1]) + (if flags[|flags| - 1] then 1 else 0)
  }

  predicate Distinct(keys: seq<string>) {
    forall i, j :: 0 <= i < j < |keys| ==> keys[i] != keys[j]
  }

  /** With distinct element ids, selecting an id that exists activates
      exactly one screen, and an unknown id activates none. */
  lemma {:induction false} ActiveCount(keys: seq<string>, screenId: string)
    requires Distinct(keys)
    ensures CountTrue(Marked(keys, screenId)) == if screenId in keys then 1 else 0
  {
    if keys != [] {
      var prefix := keys[..|keys| - 1];
      assert Distinct(prefix);
      ActiveCount(prefix, screenId);
      var flags := Marked(keys, screenId);
      MarkedAt(prefix, screenId);
      assert flags[..|flags| - 1] == Marked(prefix, screenId);
      assert keys == prefix + [keys[|keys| - 1]];
      if keys[|keys| - 1] == screenId {
        assert screenId !in prefix;
      }
    }
  }

  /** The `forEach` loop that toggles the `active` class. */
  method MarkActive(keys: seq<string>, screenId: string) returns (active: seq<bool>)
    ensures active == Marked(keys, screenId)
  {
    active := [];
    var i := 0;
    while i < |keys|
      invariant 0 <= i <= |keys|
      invariant active == Marked(keys[..i], screenId)
    {
      assert keys[..i + 1][..i] == keys[..i];
      active := active + [keys[i] == screenId];
      i := i + 1;
    }
    assert keys[..i] == keys;
  }

  /** `selectScreen(screenId)`: the active flags of the screens (by element
      id) and of the step tabs (by their `data-screen-target`). */
  method SelectScreen(screenIds: seq<string>, tabTargets: seq<string>, screenId: string)
    returns (screens: seq<bool>, tabs: seq<bool>)
    ensures |screens| == |screenIds| && |tabs| == |tabTargets|
    ensures forall i :: 0 <= i < |screenIds| ==> (screens[i] <==> screenIds[i] == screenId)
    ensures forall i :: 0 <= i < |tabTargets| ==> (tabs[i] <==> tabTargets[i] == screenId)
  {
    screens := MarkActive(screenIds, screenId);
    tabs := MarkActive(tabTargets, screenId);
    MarkedAt(screenIds, screenId);
    MarkedAt(tabTargets, screenId);
  }
}
