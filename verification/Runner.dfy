/** The worker's job runner: polls run concurrently, never more than there are slots. */
module Runner {
  import opened Options

  /** One critical section: a call to poll for free slots, or the end of one poll with its outcome. */
  datatype Event = Poll | Ended(error: Option<string>)

  datatype Tally = Tally(active: int, lastError: Option<string>, started: nat, ended: nat)

  function Next(slots: int, t: Tally, event: Event): Tally {
    match event
    case Poll =>
      if t.lastError.Some? || slots - t.active <= 0 then t
      else t.(active := slots, started := t.started + (slots - t.active))
    case Ended(error) =>
      t.(active := t.active - 1, ended := t.ended + 1, lastError := if t.lastError.Some? then t.lastError else error)
  }

  function After(slots: int, events: seq<Event>): Tally {
    if events == [] then Tally(0, None, 0, 0) else
      Next(slots, After(slots, events[..|events| - 1]), events[|events| - 1])
  }

  /** Only polls that were started end. */
  predicate CanHappen(slots: int, events: seq<Event>) {
    forall k :: 0 <= k < |events| && events[k].Ended? ==>
      After(slots, events[..k]).ended < After(slots, events[..k]).started
  }

  function FirstError(events: seq<Event>): Option<string> {
    if events == [] then None
    else if events[0].Ended? && events[0].error.Some? then events[0].error
    else FirstError(events[1..])
  }

  /** In every interleaving the counter is the number of polls in flight and stays within the slots. */
  lemma {:induction false} ActiveCountsPolls(slots: int, events: seq<Event>)
    requires slots > 0 && CanHappen(slots, events)
    ensures
      var t := After(slots, events);
      t.active == t.started - t.ended && 0 <= t.active <= slots
  {
    if events != [] {
      var front := events[..|events| - 1];
      assert forall k :: 0 <= k < |front| ==> front[..k] == events[..k];
      ActiveCountsPolls(slots, front);
    }
  }

  /** The first error of the run is the one kept. */
  lemma {:induction false} FirstErrorIsKept(slots: int, events: seq<Event>)
    ensures After(slots, events).lastError == FirstError(events)
  {
    if events != [] {
      var front, last := events[..|events| - 1], events[|events| - 1];
      FirstErrorIsKept(slots, front);
      assert events == front + [last];
      FirstErrorAppends(front, last);
    }
  }

  lemma {:induction false} FirstErrorAppends(front: seq<Event>, last: Event)
    ensures FirstError(front + [last]) ==
      if FirstError(front).Some? then FirstError(front) else if last.Ended? then last.error else None
  {
    if front == [] {
      assert FirstError([last]) == if last.Ended? && last.error.Some? then last.error else FirstError([]);
    } else {
      assert (front + [last])[1..] == front[1..] + [last];
      FirstErrorAppends(front[1..], last);
    }
  }

  /** Once a poll has failed no poll is started, whatever happens next. */
  lemma {:induction false} ErrorStopsPolling(slots: int, events: seq<Event>, more: seq<Event>)
    requires FirstError(events).Some?
    ensures After(slots, events + more).started == After(slots, events).started
  {
    if more == [] {
      assert events + more == events;
    } else {
      var front := more[..|more| - 1];
      assert (events + more)[..|events + more| - 1] == events + front;
      ErrorStopsPolling(slots, events, front);
      FirstErrorIsKept(slots, events + front);
      FirstErrorStays(events, front);
    }
  }

  lemma {:induction false} FirstErrorStays(events: seq<Event>, more: seq<Event>)
    requires FirstError(events).Some?
    ensures FirstError(events + more) == FirstError(events)
  {
    assert (events + more)[1..] == events[1..] + more;
    if !(events[0].Ended? && events[0].error.Some?) {
      FirstErrorStays(events[1..], more);
    }
  }

  class WorkerJobRunner {
    const slots: int
    var active: int
    var lastErr: Option<string>
    ghost var history: seq<Event>

    ghost predicate Valid()
      reads this
    {
      && slots > 0 && CanHappen(slots, history)
      && active == After(slots, history).active && lastErr == After(slots, history).lastError
    }

    constructor (slots: int)
      ensures Valid() && history == [] && this.slots == if slots <= 0 then 1 else slots
    {
      this.slots := if slots <= 0 then 1 else slots;
      active, lastErr, history := 0, None, [];
    }

    /** Reserves every free slot and returns how many polls to start; an earlier error is returned instead. */
    method PollAvailable() returns (available: int, error: Option<string>)
      requires Valid()
      modifies this
      ensures Valid() && history == old(history) + [Poll]
      ensures error == FirstError(old(history))
      ensures available == After(slots, history).started - After(slots, old(history)).started
      ensures error.None? ==> active == slots
    {
      FirstErrorIsKept(slots, history);
      ActiveCountsPolls(slots, history);
      Extends(slots, history, Poll);
      available, error := 0, lastErr;
      if lastErr.None? && slots - active > 0 {
        available := slots - active;
        active := active + available;
      }
      history := history + [Poll];
    }

    /** The end of one poll. */
    method PollEnded(error: Option<string>)
      requires Valid() && After(slots, history).ended < After(slots, history).started
      modifies this
      ensures Valid() && history == old(history) + [Ended(error)]
      ensures active == old(active) - 1
    {
      Extends(slots, history, Ended(error));
      active := active - 1;
      if error.Some? && lastErr.None? {
        lastErr := error;
      }
      history := history + [Ended(error)];
    }
  }

  lemma Extends(slots: int, events: seq<Event>, event: Event)
    requires CanHappen(slots, events)
    requires event.Ended? ==> After(slots, events).ended < After(slots, events).started
    ensures After(slots, events + [event]) == Next(slots, After(slots, events), event)
    ensures CanHappen(slots, events + [event])
  {
    var longer := events + [event];
    assert longer[..|events|] == events;
    assert forall k :: 0 <= k < |events| ==> longer[..k] == events[..k];
  }
}
