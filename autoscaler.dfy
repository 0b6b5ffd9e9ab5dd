/**
 * The autoscaler of controller.py. Each control cycle reads the request
 * queue's depth, computes how many workers are needed, lists the active
 * (pending or running) worker instances and then either launches the missing
 * workers or terminates the surplus ones.
 *
 * The decision itself is the pure function `Decide`; the class `Fleet` is an
 * abstract view of the EC2 fleet on which `ManageScaling` carries a decision
 * out, one provider call at a time.
 */
module Autoscaler {
  import opened Options

  type InstanceId = nat

  /** The largest fleet the autoscaler asks for. */
  const MAX_INSTANCES: nat := 15

  /** `get_queue_length`: a failed attribute read counts as an empty queue. */
  function QueueLength(read: Option<nat>): (depth: nat)
    ensures read.Some? ==> depth == read.value
    ensures read.None? ==> depth == 0
  {
    match read
    case Some(count) => count
    case None => 0
  }

  /** `get_active_instances`: a failed listing counts as no instances. */
  function ActiveInstances(listing: Option<seq<InstanceId>>): (instances: seq<InstanceId>)
    ensures listing.Some? ==> instances == listing.value
    ensures listing.None? ==> instances == []
  {
    match listing
    case Some(instances) => instances
    case None => []
  }

  /** The number of workers a queue of `depth` messages calls for. */
  function WorkersNeeded(depth: nat): (target: nat)
    ensures target <= MAX_INSTANCES
    ensures depth <= MAX_INSTANCES ==> target == depth
    ensures depth >= MAX_INSTANCES ==> target == MAX_INSTANCES
  {
    var needed := if MAX_INSTANCES < depth then MAX_INSTANCES else depth;
    if depth == 0 then 0 else needed
  }

  /** What one cycle decides to do about the fleet. */
  datatype Decision =
    | ScaleUp(current: nat, newWorkers: nat)   // launch numbers current + 1 to current + newWorkers
    | ScaleDown(surplus: seq<InstanceId>)      // terminate these listed instances
    | Steady

  /**
   * The decision of `manage_scaling` for a queue depth and the listed active
   * instances: scale up to the target from the listed count, or terminate
   * everything listed after the first `target` instances.
   */
  function Decide(depth: nat, active: seq<InstanceId>): (d: Decision)
    ensures d.ScaleUp? <==> |active| < WorkersNeeded(depth)
    ensures d.ScaleDown? <==> |active| > WorkersNeeded(depth)
    ensures d.ScaleUp? ==> d.current == |active| && d.current + d.newWorkers == WorkersNeeded(depth)
    ensures d.ScaleDown? ==>
      |d.surplus| == |active| - WorkersNeeded(depth) &&
      active == active[..WorkersNeeded(depth)] + d.surplus
  {
    var needed := WorkersNeeded(depth);
    if |active| < needed then
      ScaleUp(|active|, needed - |active|)
    else if |active| > needed then
      assert active == active[..needed] + active[needed..];
      ScaleDown(active[needed..])
    else
      Steady
  }

  ghost predicate Distinct(s: seq<InstanceId>)
  {
    forall i, j :: 0 <= i < j < |s| ==> s[i] != s[j]
  }

  /** The instances of `active` that are not among `ids`, in listing order. */
  function Without(active: seq<InstanceId>, ids: seq<InstanceId>): (rest: seq<InstanceId>)
    ensures forall x :: x in rest <==> x in active && x !in ids
    ensures Distinct(active) ==> Distinct(rest)
    decreases |active|
  {
    if active == [] then []
    else if active[0] in ids then Without(active[1..], ids)
    else [active[0]] + Without(active[1..], ids)
  }

  /** Removing no ids removes nothing. */
  lemma {:induction false} WithoutNothing(active: seq<InstanceId>, ids: seq<InstanceId>)
    requires ids == []
    ensures Without(active, ids) == active
    decreases |active|
  {
    if active != [] {
      WithoutNothing(active[1..], ids);
    }
  }

  lemma {:induction false} WithoutCovered(active: seq<InstanceId>, ids: seq<InstanceId>)
    requires forall i :: 0 <= i < |active| ==> active[i] in ids
    ensures Without(active, ids) == []
    decreases |active|
  {
    if active != [] {
      WithoutCovered(active[1..], ids);
    }
  }

  /** Removing a suffix of a list without repetitions leaves the prefix. */
  lemma {:induction false} WithoutSuffix(kept: seq<InstanceId>, dropped: seq<InstanceId>)
    requires Distinct(kept + dropped)
    ensures Without(kept + dropped, dropped) == kept
    decreases |kept|
  {
    var whole := kept + dropped;
    if kept == [] {
      assert whole == dropped;
      WithoutCovered(dropped, dropped);
    } else {
      assert whole[0] == kept[0];
      assert whole[1..] == kept[1..] + dropped;
      forall j | 0 <= j < |dropped|
        ensures kept[0] != dropped[j]
      {
        assert whole[0] != whole[|kept| + j];
      }
      assert whole[0] !in dropped;
      assert Distinct(kept[1..] + dropped) by {
        forall i, j | 0 <= i < j < |whole[1..]|
          ensures whole[1..][i] != whole[1..][j]
        {
          assert whole[1..][i] == whole[i + 1] && whole[1..][j] == whole[j + 1];
        }
      }
      WithoutSuffix(kept[1..], dropped);
      assert [kept[0]] + kept[1..] == kept;
    }
  }

  /** A command sent to the EC2 provider. */
  datatype Command = Launch(number: nat) | Terminate(ids: seq<InstanceId>)

  /** The `launch_instance` calls of a scale-up from `current` by `count` workers, in order. */
  function LaunchCommands(current: nat, count: nat): seq<Command>
    decreases count
  {
    if count == 0 then [] else LaunchCommands(current, count - 1) + [Launch(current + count)]
  }

  /** A scale-up from `current` launches `count` workers numbered `current + 1` onwards, in order. */
  lemma {:induction false} LaunchCommandsNumbered(current: nat, count: nat)
    ensures |LaunchCommands(current, count)| == count
    ensures forall i :: 0 <= i < count ==> LaunchCommands(current, count)[i] == Launch(current + i + 1)
    decreases count
  {
    if count > 0 {
      LaunchCommandsNumbered(current, count - 1);
    }
  }

  /**
   * The ids the provider hands out when the launches numbered `current + 1`
   * to `current + count` are attempted in order and those in `failed` fail:
   * each success takes the next fresh id, starting at `next`.
   */
  function Spawned(current: nat, count: nat, failed: set<nat>, next: nat): (ids: seq<InstanceId>)
    ensures |ids| <= count
    decreases count
  {
    if count == 0 then []
    else
      var prev := Spawned(current, count - 1, failed, next);
      if current + count in failed then prev else prev + [next + |prev|]
  }

  /** The spawned ids are the consecutive fresh ids from `next`, one per launch that does not fail. */
  lemma {:induction false} SpawnedFresh(current: nat, count: nat, failed: set<nat>, next: nat)
    ensures forall i :: 0 <= i < |Spawned(current, count, failed, next)| ==> Spawned(current, count, failed, next)[i] == next + i
    ensures (forall k :: current < k <= current + count ==> k !in failed) ==> |Spawned(current, count, failed, next)| == count
    decreases count
  {
    if count > 0 {
      SpawnedFresh(current, count - 1, failed, next);
    }
  }

  /** The commands one cycle sends for a decision. */
  function Commands(d: Decision): seq<Command>
  {
    match d
    case ScaleUp(current, newWorkers) => LaunchCommands(current, newWorkers)
    case ScaleDown(surplus) => [Terminate(surplus)]
    case Steady => []
  }

  /** The active instances after a decision is carried out on `active`. */
  function AfterCycle(active: seq<InstanceId>, d: Decision, next: nat, failed: set<nat>, terminateOk: bool): seq<InstanceId>
  {
    match d
    case ScaleUp(current, newWorkers) => active + Spawned(current, newWorkers, failed, next)
    case ScaleDown(surplus) => if terminateOk then Without(active, surplus) else active
    case Steady => active
  }

  /**
   * What one cycle sends: below the target, one launch per missing worker
   * numbered on from the listed count; above it, one termination of every
   * instance listed after the first `target`; at the target, nothing.
   */
  lemma CycleCommands(depth: nat, active: seq<InstanceId>)
    ensures var needed := WorkersNeeded(depth);
      var sent := Commands(Decide(depth, active));
      (|active| < needed ==>
        |sent| == needed - |active| &&
        forall i :: 0 <= i < |sent| ==> sent[i] == Launch(|active| + i + 1)) &&
      (|active| > needed ==> sent == [Terminate(active[needed..])]) &&
      (|active| == needed ==> sent == [])
  {
    var needed := WorkersNeeded(depth);
    if |active| < needed {
      LaunchCommandsNumbered(|active|, needed - |active|);
    }
  }

  /**
   * Carried out without failures on a listing that matches the fleet, one
   * cycle leaves exactly the target number of active instances, never more
   * than MAX_INSTANCES, and keeps the first `target` listed instances when
   * it scales down.
   */
  lemma CycleReachesTarget(depth: nat, active: seq<InstanceId>, next: nat)
    requires Distinct(active)
    ensures var after := AfterCycle(active, Decide(depth, active), next, {}, true);
      |after| == WorkersNeeded(depth) <= MAX_INSTANCES &&
      (|active| >= WorkersNeeded(depth) ==> after == active[..WorkersNeeded(depth)])
  {
    var needed := WorkersNeeded(depth);
    var d := Decide(depth, active);
    if |active| < needed {
      SpawnedFresh(|active|, needed - |active|, {}, next);
    } else if |active| > needed {
      WithoutSuffix(active[..needed], d.surplus);
    } else {
      assert active[..needed] == active;
    }
  }

  /** A fleet that one failure-free cycle has converged is left alone by the next cycle at the same depth. */
  lemma CycleIsIdempotent(depth: nat, active: seq<InstanceId>, next: nat)
    requires Distinct(active)
    ensures Decide(depth, AfterCycle(active, Decide(depth, active), next, {}, true)) == Steady
  {
    CycleReachesTarget(depth, active, next);
  }

  /** A failed depth read makes the cycle terminate every listed instance and launch none. */
  lemma FailedDepthReadScalesDown(active: seq<InstanceId>, next: nat, failed: set<nat>)
    ensures Decide(QueueLength(None), active) == if active == [] then Steady else ScaleDown(active)
    ensures AfterCycle(active, Decide(QueueLength(None), active), next, failed, true) == []
  {
    assert active[0..] == active;
    if active != [] {
      WithoutCovered(active, active);
    }
  }

  /**
   * A failed listing makes the cycle launch the whole target on top of the
   * instances that are really active, so the fleet can exceed MAX_INSTANCES
   * until a later cycle lists it.
   */
  lemma FailedListingOvershoots(depth: nat, active: seq<InstanceId>, next: nat)
    ensures var d := Decide(depth, ActiveInstances(None));
      !d.ScaleDown? &&
      |AfterCycle(active, d, next, {}, true)| == |active| + WorkersNeeded(depth)
  {
    SpawnedFresh(0, WorkersNeeded(depth), {}, next);
  }

  /**
   * The part of the EC2 fleet the autoscaler sees: the active workers in
   * listing order, the next id the provider will hand out, and every command
   * sent so far.
   */
  class Fleet {
    var active: seq<InstanceId>
    var nextId: nat
    var issued: seq<Command>

    ghost predicate Valid()
      reads this
    {
      Distinct(active) && forall i :: 0 <= i < |active| ==> active[i] < nextId
    }

    constructor ()
      ensures Valid()
      ensures active == [] && issued == []
    {
      active := [];
      nextId := 0;
      issued := [];
    }

    /** `launch_instance`: the create call is always sent; when it succeeds a fresh instance becomes active. */
    method LaunchInstance(number: nat, ok: bool)
      requires Valid()
      modifies this
      ensures Valid()
      ensures issued == old(issued) + [Launch(number)]
      ensures active == if ok then old(active) + [old(nextId)] else old(active)
      ensures nextId == if ok then old(nextId) + 1 else old(nextId)
    {
      issued := issued + [Launch(number)];
      if ok {
        active := active + [nextId];
        nextId := nextId + 1;
      }
    }

    /** `terminate_instances`: nothing is sent for an empty list; otherwise one command, which may fail. */
    method TerminateInstances(ids: seq<InstanceId>, ok: bool)
      requires Valid()
      modifies this
      ensures Valid()
      ensures ids == [] ==> issued == old(issued) && active == old(active)
      ensures ids != [] ==> issued == old(issued) + [Terminate(ids)]
      ensures active == if ok then Without(old(active), ids) else old(active)
      ensures nextId == old(nextId)
    {
      if ids == [] {
        WithoutNothing(active, ids);
        return;
      }
      issued := issued + [Terminate(ids)];
      if ok {
        var rest := Without(active, ids);
        forall i | 0 <= i < |rest|
          ensures rest[i] < nextId
        {
          assert rest[i] in active;
        }
        active := rest;
      }
    }

    /** The scale-up loop of `manage_scaling`: launches numbered `current + 1` to `current + newWorkers`, in order. */
    method LaunchWorkers(current: nat, newWorkers: nat, failed: set<nat>)
      requires Valid()
      modifies this
      ensures Valid()
      ensures issued == old(issued) + LaunchCommands(current, newWorkers)
      ensures active == old(active) + Spawned(current, newWorkers, failed, old(nextId))
      ensures nextId == old(nextId) + |Spawned(current, newWorkers, failed, old(nextId))|
    {
      var i := 0;
      while i < newWorkers
        invariant 0 <= i <= newWorkers
        invariant Valid()
        invariant issued == old(issued) + LaunchCommands(current, i)
        invariant active == old(active) + Spawned(current, i, failed, old(nextId))
        invariant nextId == old(nextId) + |Spawned(current, i, failed, old(nextId))|
      {
        var number := current + i + 1;
        ghost var sent := LaunchCommands(current, i);
        ghost var spawned := Spawned(current, i, failed, old(nextId));
        assert old(issued) + sent + [Launch(number)] == old(issued) + (sent + [Launch(number)]);
        assert old(active) + spawned + [nextId] == old(active) + (spawned + [nextId]);
        LaunchInstance(number, number !in failed);
        i := i + 1;
      }
    }

    /**
     * One cycle of `manage_scaling`. The outcomes of the provider calls are
     * inputs: the depth read (None when it fails), whether the listing
     * succeeds, which launch numbers fail, and whether termination succeeds.
     */
    method ManageScaling(depthRead: Option<nat>, listingOk: bool, failedLaunches: set<nat>, terminateOk: bool)
      returns (d: Decision)
      requires Valid()
      modifies this
      ensures Valid()
      ensures d == Decide(QueueLength(depthRead), if listingOk then old(active) else [])
      ensures issued == old(issued) + Commands(d)
      ensures active == AfterCycle(old(active), d, old(nextId), failedLaunches, terminateOk)
      ensures nextId == old(nextId) + if d.ScaleUp? then |Spawned(d.current, d.newWorkers, failedLaunches, old(nextId))| else 0
    {
      var depth := QueueLength(depthRead);
      var needed := WorkersNeeded(depth);
      var current := ActiveInstances(if listingOk then Some(active) else None);
      d := Decide(depth, current);
      var count := |current|;
      if count < needed {
        LaunchWorkers(count, needed - count, failedLaunches);
      } else if count > needed {
        TerminateInstances(current[needed..], terminateOk);
      }
    }
  }
}
