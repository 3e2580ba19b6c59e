/** The editor's save indicator and its debounced auto-save, on a logical
    clock in milliseconds. Every document change re-runs the save effect,
    whose cleanup first cancels the pending timer; an edit the user makes
    also marks the document unsaved, so the effect shows "Saving..." and
    arms a fresh 2000 ms timer. When a timer is due, one save is sent. */
module Autosave {
  import opened Common

  datatype SaveStatus = AllSaved | Unsaved | Saving | SaveFailed {
    /** The text shown next to the toolbar. */
    function Label(): string {
      match this
      case AllSaved => "All changes saved"
      case Unsaved => "Unsaved changes"
      case Saving => "Saving..."
      case SaveFailed => "Save failed"
    }
  }

  /** Quiet time after the last edit before a save is sent. */
  const Delay: nat := 2000

  /** The indicator, the clock, the deadline of the pending timer (if any)
      and the number of saves sent so far. */
  datatype SaveState = SaveState(status: SaveStatus, now: nat, timer: Option<nat>, saves: nat)

  /** The component mounts showing "All changes saved" with nothing pending. */
  const Initial := SaveState(AllSaved, 0, None, 0)

  /** What holds between events as written: "Unsaved changes" never
      persists (the effect turns it into "Saving..." on the same change),
      and a timer is pending only while the indicator reads "Saving..." and
      is due within `Delay`. */
  predicate Coherent(s: SaveState) {
    && s.status != Unsaved
    && (s.timer.Some? ==> s.status == Saving && s.now <= s.timer.value <= s.now + Delay)
  }

  /** What the save indicator is meant to keep: besides `Coherent`, it reads
      "Saving..." only while a save is actually pending. */
  predicate Steady(s: SaveState) {
    Coherent(s) && (s.status == Saving ==> s.timer.Some?)
  }

  /** The effect run after each document change: the cleanup clears the old
      timer; then, if the indicator reads "Unsaved changes", it switches to
      "Saving..." and arms a timer due `Delay` from now. */
  function DocEffect(s: SaveState): (r: SaveState)
    ensures r.now == s.now && r.saves == s.saves
    ensures r.timer.Some? <==> s.status == Unsaved
    ensures r.timer.Some? ==> r.timer.value == s.now + Delay && r.status == Saving
    ensures r.timer.None? ==> r.status == s.status
  {
    if s.status == Unsaved then s.(status := Saving, timer := Some(s.now + Delay))
    else s.(timer := None)
  }

  /** A change the user makes: `onUpdate` marks the document unsaved, then
      the effect runs. */
  function Edit(s: SaveState): (r: SaveState)
    ensures Steady(r)
    ensures r.status == Saving && r.timer == Some(s.now + Delay)
    ensures r.now == s.now && r.saves == s.saves
  {
    DocEffect(s.(status := Unsaved))
  }

  /** The placeholder insertion carries `preventUpdate`, so `onUpdate` does
      not run, but the document still changes and the effect still runs. */
  function SilentEditAsWritten(s: SaveState): (r: SaveState)
    ensures s.status != Unsaved ==> r.timer.None? && r.status == s.status
  {
    DocEffect(s)
  }

  /** A change that should leave the save schedule alone: a pending timer is
      kept, and otherwise the effect runs as usual. */
  function SilentEdit(s: SaveState): (r: SaveState)
    ensures Steady(s) ==> r == s
    ensures s.timer.Some? ==> r.timer == s.timer
  {
    if s.timer.Some? then s else DocEffect(s)
  }

  /** `dt` milliseconds pass. A timer due by then fires: one save is sent and
      the indicator shows its outcome (`ok`: the server accepted it). */
  function Tick(s: SaveState, dt: nat, ok: bool): (r: SaveState)
    ensures r.now == s.now + dt
    ensures (s.timer.Some? && s.timer.value <= s.now + dt) ==>
              r.saves == s.saves + 1 && r.timer.None? && r.status == (if ok then AllSaved else SaveFailed)
    ensures !(s.timer.Some? && s.timer.value <= s.now + dt) ==>
              r.saves == s.saves && r.timer == s.timer && r.status == s.status
  {
    match s.timer
    case Some(due) =>
      if due <= s.now + dt then
        SaveState(if ok then AllSaved else SaveFailed, s.now + dt, None, s.saves + 1)
      else s.(now := s.now + dt)
    case None => s.(now := s.now + dt)
  }

  datatype Event = UserEdit | PlaceholderEdit | Wait(dt: nat, ok: bool)

  /** One event as the component handles it. */
  function Step(s: SaveState, e: Event): SaveState {
    match e
    case UserEdit => Edit(s)
    case PlaceholderEdit => SilentEditAsWritten(s)
    case Wait(dt, ok) => Tick(s, dt, ok)
  }

  function Run(s: SaveState, events: seq<Event>): SaveState
    decreases |events|
  {
    if events == [] then s else Run(Step(s, events[0]), events[1..])
  }

  /** One event with the corrected placeholder change. */
  function StepCorrected(s: SaveState, e: Event): SaveState {
    if e.PlaceholderEdit? then SilentEdit(s) else Step(s, e)
  }

  function RunCorrected(s: SaveState, events: seq<Event>): SaveState
    decreases |events|
  {
    if events == [] then s else RunCorrected(StepCorrected(s, events[0]), events[1..])
  }

  /** As written, every event keeps the indicator coherent. */
  lemma StepKeepsCoherent(s: SaveState, e: Event)
    requires Coherent(s)
    ensures Coherent(Step(s, e))
  {
  }

  lemma {:induction false} RunKeepsCoherent(s: SaveState, events: seq<Event>)
    requires Coherent(s)
    ensures Coherent(Run(s, events))
    decreases |events|
  {
    if events != [] {
      StepKeepsCoherent(s, events[0]);
      RunKeepsCoherent(Step(s, events[0]), events[1..]);
    }
  }

  /** With the corrected placeholder change, every event keeps the indicator
      steady. */
  lemma StepCorrectedKeepsSteady(s: SaveState, e: Event)
    requires Steady(s)
    ensures Steady(StepCorrected(s, e))
  {
  }

  lemma {:induction false} RunCorrectedKeepsSteady(s: SaveState, events: seq<Event>)
    requires Steady(s)
    ensures Steady(RunCorrected(s, events))
    decreases |events|
  {
    if events != [] {
      StepCorrectedKeepsSteady(s, events[0]);
      RunCorrectedKeepsSteady(StepCorrected(s, events[0]), events[1..]);
    }
  }

  /** The two placeholder changes differ only when a save is pending: from a
      steady state with nothing pending, every event has the same effect. */
  lemma StepsAgreeWithoutPendingSave(s: SaveState, e: Event)
    requires Steady(s) && s.timer.None?
    ensures Step(s, e) == StepCorrected(s, e)
  {
  }

  /** The saves sent never decrease and the clock only moves forward. */
  lemma {:induction false} RunIsMonotone(s: SaveState, events: seq<Event>)
    ensures Run(s, events).saves >= s.saves && Run(s, events).now >= s.now
    decreases |events|
  {
    if events != [] {
      RunIsMonotone(Step(s, events[0]), events[1..]);
    }
  }

  lemma {:induction false} RunAppend(s: SaveState, a: seq<Event>, b: seq<Event>)
    ensures Run(s, a + b) == Run(Run(s, a), b)
    decreases |a|
  {
    if a == [] {
      assert a + b == b;
    } else {
      assert (a + b)[0] == a[0] && (a + b)[1..] == a[1..] + b;
      RunAppend(Step(s, a[0]), a[1..], b);
    }
  }

  /** A burst of edits separated by the given pauses. */
  function Burst(gaps: seq<nat>): (events: seq<Event>)
    ensures |events| == 2 * |gaps| + 1
  {
    if gaps == [] then [UserEdit] else [UserEdit, Wait(gaps[0], true)] + Burst(gaps[1..])
  }

  /** While every pause is shorter than `Delay`, each edit cancels the timer
      of the one before: nothing is saved, and a timer is pending for
      `Delay` after the last edit. */
  lemma {:induction false} BurstDefersSave(s: SaveState, gaps: seq<nat>)
    requires forall k :: 0 <= k < |gaps| ==> gaps[k] < Delay
    ensures Run(s, Burst(gaps)).saves == s.saves
    ensures Run(s, Burst(gaps)).status == Saving
    ensures Run(s, Burst(gaps)).timer == Some(Run(s, Burst(gaps)).now + Delay)
    decreases |gaps|
  {
    if gaps != [] {
      var t := Tick(Edit(s), gaps[0], true);
      assert Run(s, Burst(gaps)) == Run(t, Burst(gaps[1..])) by {
        var ev := [UserEdit, Wait(gaps[0], true)] + Burst(gaps[1..]);
        assert ev[1..][1..] == Burst(gaps[1..]);
      }
      BurstDefersSave(t, gaps[1..]);
    }
  }

  /** A burst of edits with pauses shorter than `Delay`, followed by `Delay`
      of quiet, sends exactly one save, whose outcome the indicator shows. */
  lemma BurstSavesOnce(s: SaveState, gaps: seq<nat>, ok: bool)
    requires forall k :: 0 <= k < |gaps| ==> gaps[k] < Delay
    ensures Run(s, Burst(gaps) + [Wait(Delay, ok)]).saves == s.saves + 1
    ensures Run(s, Burst(gaps) + [Wait(Delay, ok)]).status == (if ok then AllSaved else SaveFailed)
  {
    RunAppend(s, Burst(gaps), [Wait(Delay, ok)]);
    BurstDefersSave(s, gaps);
  }

  /** Edits each followed by a pause of at least `Delay`. */
  function Spaced(gaps: seq<nat>): (events: seq<Event>)
    ensures |events| == 2 * |gaps|
  {
    if gaps == [] then [] else [UserEdit, Wait(gaps[0], true)] + Spaced(gaps[1..])
  }

  /** Edits far enough apart are saved one by one. */
  lemma {:induction false} SpacedEditsSaveEach(s: SaveState, gaps: seq<nat>)
    requires forall k :: 0 <= k < |gaps| ==> gaps[k] >= Delay
    ensures Run(s, Spaced(gaps)).saves == s.saves + |gaps|
    decreases |gaps|
  {
    if gaps != [] {
      var t := Tick(Edit(s), gaps[0], true);
      assert Run(s, Spaced(gaps)) == Run(t, Spaced(gaps[1..])) by {
        var ev := [UserEdit, Wait(gaps[0], true)] + Spaced(gaps[1..]);
        assert ev[1..][1..] == Spaced(gaps[1..]);
      }
      SpacedEditsSaveEach(t, gaps[1..]);
    }
  }

  /** As written, inserting the placeholder within `Delay` of an edit cancels
      the pending save while the indicator keeps reading "Saving...": no save
      is sent however long one waits, and the indicator is no longer steady. */
  lemma PlaceholderCancelsPendingSave(s: SaveState, wait: nat, ok: bool)
    ensures !Steady(Run(s, [UserEdit, PlaceholderEdit]))
    ensures Run(s, [UserEdit, PlaceholderEdit, Wait(wait, ok)]).saves == s.saves
    ensures Run(s, [UserEdit, PlaceholderEdit, Wait(wait, ok)]).status == Saving
  {
    var ev := [UserEdit, PlaceholderEdit, Wait(wait, ok)];
    var s1 := Edit(s);
    var s2 := SilentEditAsWritten(s1);
    assert Run(s, [UserEdit, PlaceholderEdit]) == Run(s1, [PlaceholderEdit]) == Run(s2, []);
    assert Run(s, ev) == Run(s1, ev[1..]);
    assert Run(s1, ev[1..]) == Run(s2, ev[2..]);
    assert Run(s2, ev[2..]) == Run(Tick(s2, wait, ok), []);
  }

  /** With the pending timer kept, the edit made before the placeholder is
      still saved once `Delay` has passed. */
  lemma PlaceholderKeepsPendingSave(s: SaveState, ok: bool)
    ensures RunCorrected(s, [UserEdit, PlaceholderEdit, Wait(Delay, ok)]).saves == s.saves + 1
    ensures RunCorrected(s, [UserEdit, PlaceholderEdit, Wait(Delay, ok)]).status == (if ok then AllSaved else SaveFailed)
  {
    var ev := [UserEdit, PlaceholderEdit, Wait(Delay, ok)];
    var s1 := Edit(s);
    var s2 := SilentEdit(s1);
    assert RunCorrected(s, ev) == RunCorrected(s1, ev[1..]);
    assert RunCorrected(s1, ev[1..]) == RunCorrected(s2, ev[2..]);
    assert RunCorrected(s2, ev[2..]) == RunCorrected(Tick(s2, Delay, ok), []);
  }
}
