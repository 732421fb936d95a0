/**
 * Move timers. A session keeps one optional `setTimeout` handle per player;
 * the runtime keeps the set of handles that are still armed. Durations are
 * not modelled: a timer is armed until it is cleared or fires.
 */
module Timers {
  import opened Wrappers

  datatype TimerTable = TimerTable(handles: seq<Option<nat>>, armed: set<nat>, next: nat)

  /** One handle per player, all issued before `next`, no two alike; only held handles are armed. */
  predicate Valid(t: TimerTable)
  {
    |t.handles| == 2
    && (forall i :: 0 <= i < 2 && t.handles[i].Some? ==> t.handles[i].value < t.next)
    && (t.handles[0].Some? && t.handles[1].Some? ==> t.handles[0].value != t.handles[1].value)
    && (forall h :: h in t.armed ==> t.handles[0] == Some(h) || t.handles[1] == Some(h))
  }

  /** No timer yet: `Array(players.length).fill(null)`. */
  function Initial(): (t: TimerTable)
    ensures Valid(t) && t.armed == {}
  {
    TimerTable([None, None], {}, 0)
  }

  /** Player i's timer is set and has neither fired nor been cleared. */
  predicate IsArmed(t: TimerTable, i: nat)
    requires i < |t.handles|
  {
    t.handles[i].Some? && t.handles[i].value in t.armed
  }

  /** `if (timeouts[i] !== null) clearTimeout(timeouts[i])`: the handle stays, disarmed. */
  function Cancel(t: TimerTable, i: nat): TimerTable
    requires i < |t.handles|
  {
    if t.handles[i].Some? then t.(armed := t.armed - {t.handles[i].value}) else t
  }

  /** The timer part of `waitForMove(i)`: clear the old handle, then arm a fresh one. */
  function Rearm(t: TimerTable, i: nat): TimerTable
    requires i < |t.handles|
  {
    var c := Cancel(t, i);
    c.(handles := c.handles[i := Some(c.next)], armed := c.armed + {c.next}, next := c.next + 1)
  }

  /** `timeouts.forEach(clearTimeout)` from index k on. */
  function CancelFrom(t: TimerTable, k: nat): TimerTable
    decreases |t.handles| - k
  {
    if k >= |t.handles| then t else CancelFrom(Cancel(t, k), k + 1)
  }

  /** A timer that fires is no longer armed. */
  function Fire(t: TimerTable, i: nat): TimerTable
    requires i < |t.handles| && t.handles[i].Some?
  {
    t.(armed := t.armed - {t.handles[i].value})
  }

  // ---------------------------------------------------------------------

  /** Clearing player i's timer disarms it and leaves the other player's timer as it was. */
  lemma CancelOnly(t: TimerTable, i: nat)
    requires Valid(t) && i < 2
    ensures var c := Cancel(t, i);
      Valid(c) && c.handles == t.handles && !IsArmed(c, i)
      && (IsArmed(c, 1 - i) <==> IsArmed(t, 1 - i))
  {
  }

  /** Re-arming player i clears its previous handle, arms a fresh one, and leaves the other player's timer alone. */
  lemma RearmOnly(t: TimerTable, i: nat)
    requires Valid(t) && i < 2
    ensures var r := Rearm(t, i);
      Valid(r) && IsArmed(r, i) && r.handles[1 - i] == t.handles[1 - i]
      && (IsArmed(r, 1 - i) <==> IsArmed(t, 1 - i))
      && (t.handles[i].Some? ==> t.handles[i].value !in r.armed)
      && r.handles[i].value !in t.armed
  {
    CancelOnly(t, i);
  }

  /** `complete`'s loop leaves no timer armed. */
  lemma {:induction false} CancelFromDisarms(t: TimerTable, k: nat)
    requires Valid(t) && k <= 2
    requires forall i :: 0 <= i < k ==> !IsArmed(t, i)
    ensures Valid(CancelFrom(t, k)) && CancelFrom(t, k).armed == {}
    decreases 2 - k
  {
    if k < 2 {
      CancelOnly(t, k);
      CancelFromDisarms(Cancel(t, k), k + 1);
    } else {
      assert !IsArmed(t, 0) && !IsArmed(t, 1);
    }
  }
}
