/** The one-slot `leads_to` automaton against its specification
    (src/simloom/_monitors.py:113-118, 146-156). */
module Responses {
  import opened Wrappers
  import opened Clock
  import opened Monitors

  /** One look at the slot: a response empties it, and an unanswered trigger fills it if it is empty. */
  function Slot(within: Time, before: Option<Time>, look: Look): Option<Time> {
    match look
    case Boundary(time, trigger, response) =>
      if before.Some? then (if response then None else before)
      else if trigger && !response then Some(time + within)
      else None
    case Recheck(_, response) => if response then None else before
  }

  /** The slot after a history of looks. */
  function ArmedBy(within: Time, seen: seq<Look>): Option<Time> {
    if seen == [] then None else
    Slot(within, ArmedBy(within, seen[..|seen| - 1]), seen[|seen| - 1])
  }

  lemma LookArms(within: Time, seen: seq<Look>, look: Look)
    ensures ArmedBy(within, seen + [look]) == Slot(within, ArmedBy(within, seen), look)
  {
    assert (seen + [look])[..|seen|] == seen;
  }

  ghost predicate Triggered(seen: seq<Look>, i: nat) {
    i < |seen| && seen[i].Boundary? && seen[i].trigger
  }

  /** The trigger at `i` has had no response at any look since, its own included. */
  ghost predicate Owed(seen: seq<Look>, i: nat) {
    Triggered(seen, i) && forall j | i <= j < |seen| :: !seen[j].response
  }

  /** It had one no later than `within` after it. */
  ghost predicate AnsweredInTime(within: Time, seen: seq<Look>, i: nat) {
    Triggered(seen, i) && exists j :: i <= j < |seen| && seen[j].response && seen[j].time <= seen[i].time + within
  }

  ghost predicate FirstOwed(seen: seq<Look>, i: nat) {
    Owed(seen, i) && forall k: nat | k < i :: !Owed(seen, k)
  }

  /** The slot is armed exactly when some trigger is owed a response, and then with the deadline of
      the first such trigger: one slot is enough for all of them. */
  lemma {:induction false} SlotIsExact(within: Time, seen: seq<Look>)
    ensures match ArmedBy(within, seen)
            case None => forall i: nat :: !Owed(seen, i)
            case Some(d) => exists i: nat :: FirstOwed(seen, i) && d == seen[i].time + within
  {
    if seen == [] {
    } else {
      var last := |seen| - 1;
      var before := seen[..last];
      SlotIsExact(within, before);
      forall i: nat | i < last ensures Owed(seen, i) <==> Owed(before, i) && !seen[last].response {
        assert forall j | 0 <= j < last :: before[j] == seen[j];
      }
      if ArmedBy(within, before).Some? && ArmedBy(within, seen).Some? {
        var i: nat :| FirstOwed(before, i) && ArmedBy(within, before).value == before[i].time + within;
        assert FirstOwed(seen, i);
      } else if ArmedBy(within, seen).Some? {
        assert FirstOwed(seen, last);
      }
    }
  }

  ghost predicate Ordered(seen: seq<Look>) {
    forall i, j | 0 <= i < j < |seen| :: seen[i].time <= seen[j].time
  }

  /** No look came after the deadline the slot was armed with. */
  ghost predicate Timely(within: Time, seen: seq<Look>) {
    forall n | 0 <= n < |seen| :: OnTime(ArmedBy(within, seen[..n]), seen[n].time)
  }

  ghost predicate OnTime(armed: Option<Time>, now: Time) {
    armed.Some? ==> now <= armed.value
  }

  lemma {:induction false} OwedMeansNotOverdue(within: Time, seen: seq<Look>, now: Time, i: nat)
    requires Ordered(seen) && OnTime(ArmedBy(within, seen), now) && Owed(seen, i)
    ensures now <= seen[i].time + within
  {
    SlotIsExact(within, seen);
    var first: nat :| FirstOwed(seen, first) && ArmedBy(within, seen).value == seen[first].time + within;
    assert first <= i;
  }

  /** The first response after a trigger came in time. */
  lemma {:induction false} ResponsesAreInTime(within: Time, seen: seq<Look>, i: nat, j: nat)
    requires within > 0.0 && Ordered(seen) && Timely(within, seen)
    requires Triggered(seen, i) && i <= j < |seen| && seen[j].response
    ensures AnsweredInTime(within, seen, i)
    decreases j
  {
    if k :| i <= k < j && seen[k].response {
      ResponsesAreInTime(within, seen, i, k);
    } else if i < j {
      assert Ordered(seen[..j]);
      assert Owed(seen[..j], i);
      OwedMeansNotOverdue(within, seen[..j], seen[j].time, i);
    }
  }

  /** Bounded response: as long as no look is overdue, every trigger was answered within the bound, or
      its bound has not run out yet. */
  lemma BoundedResponse(within: Time, seen: seq<Look>, now: Time, i: nat)
    requires within > 0.0 && Ordered(seen) && Timely(within, seen) && OnTime(ArmedBy(within, seen), now)
    requires Triggered(seen, i)
    ensures AnsweredInTime(within, seen, i) || (Owed(seen, i) && now <= seen[i].time + within)
  {
    if Owed(seen, i) {
      OwedMeansNotOverdue(within, seen, now, i);
    } else {
      var j :| i <= j < |seen| && seen[j].response;
      ResponsesAreInTime(within, seen, i, j);
    }
  }

  /** A slot that runs out at `now` names a real failure: a trigger exactly `within` ago with no
      response at any look since; and every such failure is reported by a slot running out. */
  lemma ViolationIsReal(within: Time, seen: seq<Look>, now: Time)
    requires Ordered(seen) && OnTime(ArmedBy(within, seen), now)
    ensures ArmedBy(within, seen) == Some(now) <==>
      exists i: nat :: Owed(seen, i) && seen[i].time + within == now
  {
    SlotIsExact(within, seen);
    if i: nat :| Owed(seen, i) && seen[i].time + within == now {
      var first: nat :| FirstOwed(seen, first) && ArmedBy(within, seen).value == seen[first].time + within;
      assert first <= i;
    }
  }
}
