/**
 * The request gateway and result correlator of server.py. Two process-wide
 * dictionaries are shared between the request handler `predict_image` and
 * the background loop `fetch_results_from_queue`: RESULTS maps a filename
 * to its result string and WAIT_EVENTS maps a filename to the event its
 * request waits on.
 *
 * The state is the datatype `State`; each step of the two code paths is a
 * function from the old state to the new one, and the class `Registry`
 * carries the same state in fields updated in place by methods that follow
 * those functions. The background thread and the 30-second wait are not
 * modelled as concurrency: a run is any interleaving of the steps, and a
 * timeout is a resumption whose event has not been set.
 */
module Gateway {
  import opened Options
  import opened Queues
  import Strings

  /** An `asyncio.Event` object, identified by creation order. */
  type EventId = nat

  /**
   * `filename, classification = result.split(':')`: the unpacking succeeds
   * exactly when the body holds one colon; otherwise it raises.
   */
  function Parse(body: string): (r: Option<(string, string)>)
    ensures r.Some? <==> Strings.Count(body, ':') == 1
    ensures r.Some? ==> r.value.0 + ":" + r.value.1 == body && ':' !in r.value.0 && ':' !in r.value.1
  {
    var parts := Strings.Split(body, ':');
    if |parts| == 2 then
      assert Strings.Join(parts, ':') == parts[0] + [':'] + parts[1];
      Some((parts[0], parts[1]))
    else None
  }

  /** A body formatted as `filename:classification` from colon-free parts parses back to those parts. */
  lemma ParseFormatted(filename: string, classification: string)
    requires ':' !in filename && ':' !in classification
    ensures Parse(filename + ":" + classification) == Some((filename, classification))
  {
    assert Strings.Join([filename, classification], ':') == filename + ":" + classification;
    Strings.SplitJoin([filename, classification], ':');
  }

  datatype State = State(
    results: map<string, string>,   // RESULTS
    waiting: map<string, EventId>,  // WAIT_EVENTS
    signalled: set<EventId>,        // the events on which `set()` has been called
    deleted: seq<string>,           // receipt handles deleted from the response queue, in order
    nextEvent: EventId)             // the event the next request will create

  /** Every registered or signalled event has already been created. */
  ghost predicate WellFormed(s: State)
  {
    (forall f :: f in s.waiting ==> s.waiting[f] < s.nextEvent) &&
    (forall e :: e in s.signalled ==> e < s.nextEvent)
  }

  function Initial(): State
  {
    State(map[], map[], {}, [], 0)
  }

  /** Lines 108-109: create a fresh event and register it under the filename, replacing any earlier one. */
  function Registered(s: State, filename: string): (r: (State, EventId))
    ensures r.1 == s.nextEvent && r.0.nextEvent == r.1 + 1
    ensures filename in r.0.waiting && r.0.waiting[filename] == r.1
    ensures forall g :: g != filename ==> (g in r.0.waiting <==> g in s.waiting)
    ensures forall g :: g != filename && g in s.waiting ==> r.0.waiting[g] == s.waiting[g]
    ensures r.0.results == s.results && r.0.signalled == s.signalled && r.0.deleted == s.deleted
  {
    (s.(waiting := s.waiting[filename := s.nextEvent], nextEvent := s.nextEvent + 1), s.nextEvent)
  }

  /**
   * Lines 70-83 for one message: parse, store, signal the registered waiter
   * if any, delete the message. The boolean says whether the loop goes on
   * to the next message; a parse failure or a failed delete raises and ends
   * the batch.
   */
  function Delivered(s: State, m: Message, deleteOk: bool): (r: (State, bool))
    ensures Parse(m.body).None? ==> r == (s, false)
    ensures r.1 <==> Parse(m.body).Some? && deleteOk
    ensures r.0.deleted == if r.1 then s.deleted + [m.receipt] else s.deleted
    ensures r.0.waiting == s.waiting && r.0.nextEvent == s.nextEvent && s.signalled <= r.0.signalled
  {
    match Parse(m.body)
    case None => (s, false)
    case Some((filename, classification)) =>
      var stored := s.(results := s.results[filename := filename + ":" + classification],
                       signalled := if filename in s.waiting then s.signalled + {s.waiting[filename]} else s.signalled);
      if deleteOk then (stored.(deleted := stored.deleted + [m.receipt]), true) else (stored, false)
  }

  /** Lines 69-86: the messages of one receive call, in order, until one raises; `undeletable` holds the receipts whose delete fails. */
  function AfterBatch(s: State, msgs: seq<Message>, undeletable: set<string>): (after: State)
    ensures after.waiting == s.waiting && after.nextEvent == s.nextEvent && s.signalled <= after.signalled
    ensures s.deleted <= after.deleted && |after.deleted| <= |s.deleted| + |msgs|
    ensures forall i :: |s.deleted| <= i < |after.deleted| ==> after.deleted[i] !in undeletable
    decreases |msgs|
  {
    if msgs == [] then s
    else
      var (next, goOn) := Delivered(s, msgs[0], msgs[0].receipt !in undeletable);
      if goOn then AfterBatch(next, msgs[1..], undeletable) else next
  }

  /**
   * Lines 112-114 once the wait is over: a request whose event was set pops
   * its result; one whose event was not set has timed out, and one whose
   * result has gone raises a KeyError. Both failures are None.
   */
  function Completed(s: State, filename: string, ev: EventId): (r: (State, Option<string>))
    ensures r.1.Some? <==> ev in s.signalled && filename in s.results
    ensures r.1.Some? ==> r.1.value == s.results[filename] && r.0.results == s.results - {filename}
    ensures r.1.None? ==> r.0 == s
    ensures r.0.waiting == s.waiting && r.0.signalled == s.signalled && r.0.deleted == s.deleted
  {
    if ev in s.signalled && filename in s.results then
      (s.(results := s.results - {filename}), Some(s.results[filename]))
    else (s, None)
  }

  /** Lines 122-125: pop both entries for the filename, with a default. */
  function CleanedUp(s: State, filename: string): (after: State)
    ensures filename !in after.waiting && filename !in after.results
    ensures forall g :: g != filename && g in s.waiting ==> g in after.waiting && after.waiting[g] == s.waiting[g]
    ensures forall g :: g != filename && g in s.results ==> g in after.results && after.results[g] == s.results[g]
    ensures after.waiting.Keys <= s.waiting.Keys && after.results.Keys <= s.results.Keys
    ensures after.signalled == s.signalled && after.deleted == s.deleted && after.nextEvent == s.nextEvent
  {
    s.(waiting := s.waiting - {filename}, results := s.results - {filename})
  }

  /** Lines 111-125: the wait ends, then the finally block runs. */
  function Resumed(s: State, filename: string, ev: EventId): (r: (State, Option<string>))
    ensures r.1.Some? <==> ev in s.signalled && filename in s.results
    ensures r.1.Some? ==> r.1.value == s.results[filename]
    ensures filename !in r.0.waiting && filename !in r.0.results
  {
    var (after, r) := Completed(s, filename, ev);
    (CleanedUp(after, filename), r)
  }

  /** Lines 95-109: upload and enqueue, each of which may raise into the finally block, then register. */
  function Submitted(s: State, filename: string, uploadOk: bool, sendOk: bool): (r: (State, Option<EventId>))
    ensures r.1.Some? <==> uploadOk && sendOk
    ensures r.1.Some? ==> r.1.value == s.nextEvent && filename in r.0.waiting && r.0.waiting[filename] == r.1.value
    ensures r.1.None? ==> filename !in r.0.waiting && filename !in r.0.results
  {
    if uploadOk && sendOk then
      var (after, ev) := Registered(s, filename);
      (after, Some(ev))
    else (CleanedUp(s, filename), None)
  }

  /** Every single step keeps the state well formed. */
  lemma StepsKeepWellFormed(s: State, filename: string, ev: EventId, m: Message, deleteOk: bool, uploadOk: bool, sendOk: bool)
    requires WellFormed(s)
    ensures WellFormed(Registered(s, filename).0)
    ensures WellFormed(Delivered(s, m, deleteOk).0)
    ensures WellFormed(Completed(s, filename, ev).0)
    ensures WellFormed(CleanedUp(s, filename))
    ensures WellFormed(Resumed(s, filename, ev).0)
    ensures WellFormed(Submitted(s, filename, uploadOk, sendOk).0)
  {
  }

  lemma {:induction false} BatchKeepsWellFormed(s: State, msgs: seq<Message>, undeletable: set<string>)
    requires WellFormed(s)
    ensures WellFormed(AfterBatch(s, msgs, undeletable))
    decreases |msgs|
  {
    if msgs != [] {
      var (next, goOn) := Delivered(s, msgs[0], msgs[0].receipt !in undeletable);
      StepsKeepWellFormed(s, "", 0, msgs[0], msgs[0].receipt !in undeletable, true, true);
      if goOn {
        BatchKeepsWellFormed(next, msgs[1..], undeletable);
      }
    }
  }

  /**
   * A well-formed body is stored as the body itself; the waiter is signalled
   * exactly when the filename is registered, and otherwise the result is
   * kept as an orphan; the message is deleted only after that, and only when
   * the delete succeeds.
   */
  lemma DeliverWellFormedBody(s: State, m: Message, deleteOk: bool, filename: string, classification: string)
    requires Parse(m.body) == Some((filename, classification))
    ensures var (after, goOn) := Delivered(s, m, deleteOk);
      after.results == s.results[filename := m.body] &&
      after.waiting == s.waiting &&
      after.nextEvent == s.nextEvent &&
      (filename in s.waiting ==> after.signalled == s.signalled + {s.waiting[filename]}) &&
      (filename !in s.waiting ==> after.signalled == s.signalled) &&
      after.deleted == (if deleteOk then s.deleted + [m.receipt] else s.deleted) &&
      goOn == deleteOk
  {
  }

  /** A body without exactly one colon raises before anything is stored, signalled or deleted, and ends the batch. */
  lemma DeliverMalformedBody(s: State, m: Message, deleteOk: bool)
    requires Strings.Count(m.body, ':') != 1
    ensures Delivered(s, m, deleteOk) == (s, false)
  {
  }

  /** A malformed message ends its batch: the messages after it are not processed. */
  lemma {:induction false} BatchStopsAtMalformed(s: State, msgs: seq<Message>, undeletable: set<string>, k: nat)
    requires k < |msgs| && Strings.Count(msgs[k].body, ':') != 1
    ensures AfterBatch(s, msgs, undeletable) == AfterBatch(s, msgs[..k], undeletable)
    decreases k
  {
    if k == 0 {
      DeliverMalformedBody(s, msgs[0], msgs[0].receipt !in undeletable);
    } else {
      var (next, goOn) := Delivered(s, msgs[0], msgs[0].receipt !in undeletable);
      assert msgs[..k][0] == msgs[0] && msgs[..k][1..] == msgs[1..][..k - 1];
      if goOn {
        BatchStopsAtMalformed(next, msgs[1..], undeletable, k - 1);
      }
    }
  }

  /**
   * Delivering the same body again straight after the first delivery, before
   * any request resumes, changes neither map nor the signalled events.
   */
  lemma DuplicateDeliveryIsIdempotent(s: State, m: Message, again: Message, ok1: bool, ok2: bool)
    requires again.body == m.body
    ensures var once := Delivered(s, m, ok1).0;
      var twice := Delivered(once, again, ok2).0;
      twice.results == once.results && twice.waiting == once.waiting && twice.signalled == once.signalled
  {
  }

  /**
   * A redelivery that comes after the request has finished: the first delete
   * fails, so the message returns once its visibility timeout lapses; by then
   * the request has popped its result and cleaned up, and the redelivered
   * body is stored again with no waiter, an orphan that nothing removes
   * until a later request for the same filename cleans up.
   */
  lemma LateRedeliveryLeavesOrphan(s: State, filename: string, classification: string, receipt: string)
    requires WellFormed(s)
    requires ':' !in filename && ':' !in classification
    ensures var m := Message(receipt, filename + ":" + classification);
      var (registered, ev) := Registered(s, filename);
      var (delivered, goOn) := Delivered(registered, m, false);
      var (finished, r) := Resumed(delivered, filename, ev);
      var redelivered := Delivered(finished, m, true).0;
      !goOn && delivered.deleted == s.deleted &&
      r == Some(m.body) &&
      filename !in finished.results &&
      filename in redelivered.results && redelivered.results[filename] == m.body &&
      filename !in redelivered.waiting
  {
    ParseFormatted(filename, classification);
  }

  /** The finally block leaves no entry for the filename, touches no other entry, and running it twice is the same as once. */
  lemma CleanupIsIdempotent(s: State, filename: string)
    ensures var after := CleanedUp(s, filename);
      filename !in after.waiting && filename !in after.results &&
      (forall g :: g != filename ==> (g in after.waiting <==> g in s.waiting) && (g in after.results <==> g in s.results)) &&
      CleanedUp(after, filename) == after
  {
  }

  /** On every exit path, success, timeout or error, no entry for the filename remains. */
  lemma EveryExitPathCleansUp(s: State, filename: string, ev: EventId, uploadOk: bool, sendOk: bool)
    ensures var (after, r) := Resumed(s, filename, ev);
      filename !in after.waiting && filename !in after.results
    ensures !(uploadOk && sendOk) ==>
      var (after, ev') := Submitted(s, filename, uploadOk, sendOk);
      ev' == None && filename !in after.waiting && filename !in after.results
  {
  }

  /**
   * The end-to-end path: a request registers, the matching result arrives,
   * and the request returns exactly that result and leaves no entry behind.
   */
  lemma DeliveryWakesWaiter(s: State, filename: string, classification: string, receipt: string)
    requires WellFormed(s)
    requires ':' !in filename && ':' !in classification
    ensures var (registered, ev) := Registered(s, filename);
      var delivered := Delivered(registered, Message(receipt, filename + ":" + classification), true).0;
      var (after, r) := Resumed(delivered, filename, ev);
      ev in delivered.signalled &&
      r == Some(filename + ":" + classification) &&
      filename !in after.waiting && filename !in after.results
  {
    ParseFormatted(filename, classification);
  }

  /**
   * The race: a result that arrives before its request registers does not
   * signal the waiter registered afterwards, so that request times out and
   * its cleanup discards the stored result.
   */
  lemma EarlyResultIsMissed(s: State, filename: string, classification: string, receipt: string)
    requires WellFormed(s)
    requires ':' !in filename && ':' !in classification
    ensures var delivered := Delivered(s, Message(receipt, filename + ":" + classification), true).0;
      var (registered, ev) := Registered(delivered, filename);
      var (after, r) := Resumed(registered, filename, ev);
      filename in registered.results &&
      ev !in registered.signalled &&
      r == None &&
      filename !in after.results
  {
    ParseFormatted(filename, classification);
    StepsKeepWellFormed(s, filename, 0, Message(receipt, filename + ":" + classification), true, true, true);
  }

  /**
   * Two requests for the same filename: the second registration replaces the
   * first handle, so the result wakes only the second request; the first
   * never sees its event set and fails once it resumes.
   */
  lemma SecondRegistrationOverwrites(s: State, filename: string, classification: string, receipt: string)
    requires WellFormed(s)
    requires ':' !in filename && ':' !in classification
    ensures var (first, ev1) := Registered(s, filename);
      var (second, ev2) := Registered(first, filename);
      var delivered := Delivered(second, Message(receipt, filename + ":" + classification), true).0;
      var (afterSecond, r2) := Resumed(delivered, filename, ev2);
      var (afterFirst, r1) := Resumed(afterSecond, filename, ev1);
      second.waiting[filename] == ev2 != ev1 &&
      ev2 in delivered.signalled && ev1 !in delivered.signalled &&
      r2 == Some(filename + ":" + classification) &&
      r1 == None
  {
    ParseFormatted(filename, classification);
  }

  /** A request that times out leaves both maps as they were apart from its filename, so repeated timeouts do not grow them. */
  lemma TimeoutLeavesNoResidue(s: State, filename: string)
    requires WellFormed(s)
    ensures var (registered, ev) := Registered(s, filename);
      var (after, r) := Resumed(registered, filename, ev);
      r == None &&
      after.waiting == s.waiting - {filename} &&
      after.results == s.results - {filename}
  {
  }

  /** The two shared dictionaries and what the queue and the events have seen, updated in place. */
  class Registry {
    var results: map<string, string>
    var waiting: map<string, EventId>
    var signalled: set<EventId>
    var deleted: seq<string>
    var nextEvent: EventId

    function Snapshot(): State
      reads this
    {
      State(results, waiting, signalled, deleted, nextEvent)
    }

    ghost predicate Valid()
      reads this
    {
      WellFormed(Snapshot())
    }

    constructor ()
      ensures Valid() && Snapshot() == Initial()
    {
      results, waiting, signalled, deleted, nextEvent := map[], map[], {}, [], 0;
    }

    /** `WAIT_EVENTS[filename] = asyncio.Event()`. */
    method Register(filename: string) returns (ev: EventId)
      requires Valid()
      modifies this
      ensures Valid()
      ensures (Snapshot(), ev) == Registered(old(Snapshot()), filename)
    {
      ev := nextEvent;
      waiting := waiting[filename := ev];
      nextEvent := nextEvent + 1;
    }

    /** One iteration of the `for msg in messages` loop; `goOn` is false when it raises. */
    method Deliver(m: Message, deleteOk: bool) returns (goOn: bool)
      requires Valid()
      modifies this
      ensures Valid()
      ensures (Snapshot(), goOn) == Delivered(old(Snapshot()), m, deleteOk)
    {
      StepsKeepWellFormed(Snapshot(), "", 0, m, deleteOk, true, true);
      var parsed := Parse(m.body);
      if parsed.None? {
        return false;
      }
      var (filename, classification) := parsed.value;
      results := results[filename := filename + ":" + classification];
      if filename in waiting {
        signalled := signalled + {waiting[filename]};
      }
      if !deleteOk {
        return false;
      }
      deleted := deleted + [m.receipt];
      goOn := true;
    }

    /** One pass of `fetch_results_from_queue` over the messages of a receive call. */
    method ProcessBatch(msgs: seq<Message>, undeletable: set<string>)
      requires Valid()
      modifies this
      ensures Valid()
      ensures Snapshot() == AfterBatch(old(Snapshot()), msgs, undeletable)
    {
      var i := 0;
      while i < |msgs|
        invariant 0 <= i <= |msgs|
        invariant Valid()
        invariant AfterBatch(Snapshot(), msgs[i..], undeletable) == AfterBatch(old(Snapshot()), msgs, undeletable)
      {
        var goOn := Deliver(msgs[i], msgs[i].receipt !in undeletable);
        if !goOn {
          return;
        }
        assert msgs[i..][1..] == msgs[i + 1..];
        i := i + 1;
      }
    }

    /** `RESULTS.pop(filename)` once the wait ends, or the failure of a timeout or a missing result. */
    method CompleteOrTimeout(filename: string, ev: EventId) returns (r: Option<string>)
      requires Valid()
      modifies this
      ensures Valid()
      ensures (Snapshot(), r) == Completed(old(Snapshot()), filename, ev)
    {
      if ev in signalled && filename in results {
        r := Some(results[filename]);
        results := results - {filename};
      } else {
        r := None;
      }
    }

    /** The finally block: `WAIT_EVENTS.pop(filename, None)` and `RESULTS.pop(filename, None)`. */
    method Cleanup(filename: string)
      requires Valid()
      modifies this
      ensures Valid()
      ensures Snapshot() == CleanedUp(old(Snapshot()), filename)
      ensures filename !in waiting && filename !in results
    {
      waiting := waiting - {filename};
      results := results - {filename};
    }

    /** Lines 111-125: the end of a request, on the success path and on the failure path alike. */
    method Finish(filename: string, ev: EventId) returns (r: Option<string>)
      requires Valid()
      modifies this
      ensures Valid()
      ensures (Snapshot(), r) == Resumed(old(Snapshot()), filename, ev)
      ensures filename !in waiting && filename !in results
    {
      r := CompleteOrTimeout(filename, ev);
      Cleanup(filename);
    }

    /** Lines 95-109: the start of a request, which registers only when upload and enqueue succeed. */
    method Submit(filename: string, uploadOk: bool, sendOk: bool) returns (ev: Option<EventId>)
      requires Valid()
      modifies this
      ensures Valid()
      ensures (Snapshot(), ev) == Submitted(old(Snapshot()), filename, uploadOk, sendOk)
    {
      if uploadOk && sendOk {
        var e := Register(filename);
        ev := Some(e);
      } else {
        Cleanup(filename);
        ev := None;
      }
    }
  }
}
