/** The job assigner of a behaviour-generation node: it hands the schedules
    of a schedule set to schedulers, reusing schedulers that already drive
    the same actuator or sensor and creating new ones when it runs short. */
module JobAssignment {
  import opened Wrappers

  /** A schedule names the direct actuator and sensor it needs, if any. */
  datatype Schedule = Schedule(actuatorName: Option<string>, sensorName: Option<string>)

  /** `JobAssigner.SchedulerInfo`: a scheduler (an opaque identity), the
      schedule it holds and whether it may take a new one. */
  datatype SchedulerInfo = SchedulerInfo(scheduler: nat, schedule: Schedule, isAvailable: bool)

  /** A schedule set guarded by a predicate expression. */
  datatype ConditionalScheduleSet<P> = ConditionalScheduleSet(predicateExpression: P, scheduleSet: seq<Schedule>)

  datatype AssignError =
    | NoScheduleAlternative    // get(0) of an empty list of alternatives
    | NoValidSchedule          // no conditional schedule set holds
    | ConcurrentModification   // pass two's iterator used after the list grew

  /** A direct schedule names an actuator or a sensor. */
  predicate IsDirect(s: Schedule) {
    s.actuatorName.Some? || s.sensorName.Some?
  }

  /** The pass-one test: the same non-null actuator name, or the same
      non-null sensor name. */
  predicate SameDevice(s: Schedule, previous: Schedule) {
    || (s.actuatorName.Some? && s.actuatorName == previous.actuatorName)
    || (s.sensorName.Some? && s.sensorName == previous.sensorName)
  }

  /** The number of entries that are not available. */
  function Busy(e: seq<SchedulerInfo>): nat {
    if e == [] then 0 else Busy(e[..|e| - 1]) + (if e[|e| - 1].isAvailable then 0 else 1)
  }

  lemma {:induction false} BusyUpdate(e: seq<SchedulerInfo>, i: nat, x: SchedulerInfo)
    requires i < |e|
    ensures Busy(e[i := x]) == Busy(e) - (if e[i].isAvailable then 0 else 1) + (if x.isAvailable then 0 else 1)
  {
    var n := |e|;
    if i < n - 1 {
      assert e[i := x][..n - 1] == e[..n - 1][i := x];
      BusyUpdate(e[..n - 1], i, x);
    } else {
      assert e[i := x][..n - 1] == e[..n - 1];
    }
  }

  lemma {:induction false} BusyAppend(e: seq<SchedulerInfo>, x: SchedulerInfo)
    ensures Busy(e + [x]) == Busy(e) + (if x.isAvailable then 0 else 1)
  {
    assert (e + [x])[..|e|] == e;
  }

  lemma {:induction false} NoneBusy(e: seq<SchedulerInfo>)
    requires forall i :: 0 <= i < |e| ==> e[i].isAvailable
    ensures Busy(e) == 0
  {
    if e != [] {
      NoneBusy(e[..|e| - 1]);
    }
  }

  // ---------------------------------------------------------------------
  // The two passes, as functions of the scheduler list
  // ---------------------------------------------------------------------

  /** Every entry marked available, nothing else changed. */
  function MarkAvailable(e: seq<SchedulerInfo>): (r: seq<SchedulerInfo>)
    ensures |r| == |e|
    ensures forall i :: 0 <= i < |e| ==> r[i] == e[i].(isAvailable := true)
  {
    seq(|e|, i requires 0 <= i < |e| => e[i].(isAvailable := true))
  }

  /** The first available entry at or after `i` matching the schedule's
      device, or `|e|`. */
  function FirstMatch(e: seq<SchedulerInfo>, s: Schedule, i: nat): (k: nat)
    requires i <= |e|
    ensures i <= k <= |e|
    ensures k < |e| ==> e[k].isAvailable && SameDevice(s, e[k].schedule)
    ensures forall m :: i <= m < k ==> !(e[m].isAvailable && SameDevice(s, e[m].schedule))
    decreases |e| - i
  {
    if i == |e| || (e[i].isAvailable && SameDevice(s, e[i].schedule)) then i
    else FirstMatch(e, s, i + 1)
  }

  datatype PassOneState = PassOneState(entries: seq<SchedulerInfo>, deferred: seq<Schedule>, unmatched: seq<Schedule>)

  /** Pass one over a prefix of the schedule set: schedules without devices
      are deferred, direct ones take the first matching available entry or
      are set aside as unmatched. */
  function PassOne(e: seq<SchedulerInfo>, ss: seq<Schedule>): PassOneState {
    if ss == [] then PassOneState(e, [], [])
    else
      var p := PassOne(e, ss[..|ss| - 1]);
      PassOneStep(p, ss[|ss| - 1])
  }

  function PassOneStep(p: PassOneState, s: Schedule): PassOneState {
    if !IsDirect(s) then p.(deferred := p.deferred + [s])
    else
      var k := FirstMatch(p.entries, s, 0);
      if k < |p.entries| then p.(entries := p.entries[k := SchedulerInfo(p.entries[k].scheduler, s, false)])
      else p.(unmatched := p.unmatched + [s])
  }

  /** One new busy entry per schedule, with consecutive new schedulers. */
  function CreateAll(e: seq<SchedulerInfo>, next: nat, u: seq<Schedule>): (r: seq<SchedulerInfo>)
    ensures |r| == |e| + |u|
    ensures r[..|e|] == e
    ensures forall k :: 0 <= k < |u| ==> r[|e| + k] == SchedulerInfo(next + k, u[k], false)
    ensures forall i :: |e| <= i < |r| ==> !r[i].isAvailable
  {
    if u == [] then e
    else CreateAll(e, next, u[..|u| - 1]) + [SchedulerInfo(next + |u| - 1, u[|u| - 1], false)]
  }

  /** The first available entry at or after `c`, or `|e|`. */
  function NextAvailable(e: seq<SchedulerInfo>, c: nat): (k: nat)
    ensures k <= |e|
    ensures k < |e| ==> c <= k && e[k].isAvailable
    ensures forall m :: c <= m < k ==> !e[m].isAvailable
    decreases |e| - c
  {
    if c >= |e| then |e|
    else if e[c].isAvailable then c
    else NextAvailable(e, c + 1)
  }

  /** The number of available entries at or after `c`. */
  function AvailableFrom(e: seq<SchedulerInfo>, c: nat): nat
    decreases |e| - c
  {
    if c >= |e| then 0 else (if e[c].isAvailable then 1 else 0) + AvailableFrom(e, c + 1)
  }

  /** Pass two's state: the list, the shared iterator's cursor, whether the
      list grew under the iterator, the next scheduler identity and whether
      the iterator has thrown. */
  datatype Progress = Progress(entries: seq<SchedulerInfo>, position: nat, stale: bool, next: nat, failed: bool)

  /** Pass two over a prefix of the deferred schedules. */
  function PassTwo(p: Progress, d: seq<Schedule>): Progress {
    if d == [] then p else PassTwoStep(PassTwo(p, d[..|d| - 1]), d[|d| - 1])
  }

  /** One deferred schedule: the iterator moves on to the next available
      entry and takes it; when it runs off the end a scheduler is created,
      after which the next use of the iterator throws. */
  function PassTwoStep(p: Progress, s: Schedule): Progress {
    if p.failed then p
    else if p.stale then p.(failed := true)
    else
      var c := NextAvailable(p.entries, p.position);
      if c < |p.entries| then
        p.(entries := p.entries[c := SchedulerInfo(p.entries[c].scheduler, s, false)], position := c + 1)
      else
        p.(entries := p.entries + [SchedulerInfo(p.next, s, false)], position := c, stale := true, next := p.next + 1)
  }

  /** The whole of `assignSchedulesToSchedulers` on a scheduler list whose
      next new scheduler gets identity `next`. */
  function Assign(e: seq<SchedulerInfo>, next: nat, ss: seq<Schedule>): Progress {
    var one := PassOne(MarkAvailable(e), ss);
    var created := CreateAll(one.entries, next, one.unmatched);
    PassTwo(Progress(created, 0, false, next + |one.unmatched|, false), one.deferred)
  }

  /** The assignment, given the outcome of pass one. */
  lemma AssignFromPasses(e: seq<SchedulerInfo>, next: nat, ss: seq<Schedule>, one: PassOneState)
    requires one == PassOne(MarkAvailable(e), ss)
    ensures Assign(e, next, ss) ==
            PassTwo(Progress(CreateAll(one.entries, next, one.unmatched), 0, false, next + |one.unmatched|, false), one.deferred)
  {
  }

  // ---------------------------------------------------------------------
  // What the assignment guarantees
  // ---------------------------------------------------------------------

  lemma {:induction false} PassOneBusy(e: seq<SchedulerInfo>, ss: seq<Schedule>)
    ensures var p := PassOne(e, ss);
            && |p.entries| == |e|
            && Busy(p.entries) + |p.deferred| + |p.unmatched| == Busy(e) + |ss|
  {
    if ss != [] {
      var p := PassOne(e, ss[..|ss| - 1]);
      PassOneBusy(e, ss[..|ss| - 1]);
      var s := ss[|ss| - 1];
      if IsDirect(s) {
        var k := FirstMatch(p.entries, s, 0);
        if k < |p.entries| {
          BusyUpdate(p.entries, k, SchedulerInfo(p.entries[k].scheduler, s, false));
        }
      }
    }
  }

  lemma {:induction false} PassOneKeeps(e: seq<SchedulerInfo>, ss: seq<Schedule>)
    ensures var p := PassOne(e, ss);
            && |p.entries| == |e|
            && (forall i :: 0 <= i < |e| ==> p.entries[i].scheduler == e[i].scheduler)
            && (forall i :: 0 <= i < |e| && p.entries[i].isAvailable ==> p.entries[i] == e[i])
  {
    if ss != [] {
      PassOneKeeps(e, ss[..|ss| - 1]);
    }
  }

  lemma {:induction false} CreateAllBusy(e: seq<SchedulerInfo>, next: nat, u: seq<Schedule>)
    ensures Busy(CreateAll(e, next, u)) == Busy(e) + |u|
  {
    if u != [] {
      CreateAllBusy(e, next, u[..|u| - 1]);
      BusyAppend(CreateAll(e, next, u[..|u| - 1]), SchedulerInfo(next + |u| - 1, u[|u| - 1], false));
    }
  }

  lemma {:induction false} PassTwoBusy(p: Progress, d: seq<Schedule>)
    requires !p.failed
    ensures !PassTwo(p, d).failed ==> Busy(PassTwo(p, d).entries) == Busy(p.entries) + |d|
  {
    if d != [] {
      var q0 := PassTwo(p, d[..|d| - 1]);
      PassTwoBusy(p, d[..|d| - 1]);
      var s := d[|d| - 1];
      if !q0.failed && !q0.stale {
        var c := NextAvailable(q0.entries, q0.position);
        if c < |q0.entries| {
          BusyUpdate(q0.entries, c, SchedulerInfo(q0.entries[c].scheduler, s, false));
        } else {
          BusyAppend(q0.entries, SchedulerInfo(q0.next, s, false));
        }
      }
    }
  }

  lemma {:induction false} PassTwoKeeps(p: Progress, d: seq<Schedule>)
    ensures var q := PassTwo(p, d);
            && |q.entries| >= |p.entries|
            && (forall i :: 0 <= i < |p.entries| ==> q.entries[i].scheduler == p.entries[i].scheduler)
            && (forall i :: 0 <= i < |q.entries| && q.entries[i].isAvailable ==> i < |p.entries| && q.entries[i] == p.entries[i])
  {
    if d != [] {
      PassTwoKeeps(p, d[..|d| - 1]);
    }
  }

  /** After an assignment that completes, exactly as many schedulers are
      busy as there are schedules. Nothing is released. */
  lemma AssignCountsSchedules(e: seq<SchedulerInfo>, next: nat, ss: seq<Schedule>)
    ensures !Assign(e, next, ss).failed ==> Busy(Assign(e, next, ss).entries) == |ss|
  {
    var one := PassOne(MarkAvailable(e), ss);
    var start := Progress(CreateAll(one.entries, next, one.unmatched), 0, false, next + |one.unmatched|, false);
    AssignFromPasses(e, next, ss, one);
    assert Busy(one.entries) + |one.deferred| + |one.unmatched| == |ss| by {
      NoneBusy(MarkAvailable(e));
      PassOneBusy(MarkAvailable(e), ss);
    }
    assert Busy(start.entries) == Busy(one.entries) + |one.unmatched| by {
      CreateAllBusy(one.entries, next, one.unmatched);
    }
    PassTwoBusy(start, one.deferred);
  }

  /** No entry is removed, and every entry keeps its scheduler. */
  lemma AssignKeepsSchedulers(e: seq<SchedulerInfo>, next: nat, ss: seq<Schedule>)
    ensures |Assign(e, next, ss).entries| >= |e|
    ensures forall i :: 0 <= i < |e| ==> Assign(e, next, ss).entries[i].scheduler == e[i].scheduler
  {
    var one := PassOne(MarkAvailable(e), ss);
    var start := Progress(CreateAll(one.entries, next, one.unmatched), 0, false, next + |one.unmatched|, false);
    AssignFromPasses(e, next, ss, one);
    assert |one.entries| == |e| && forall i :: 0 <= i < |e| ==> one.entries[i].scheduler == e[i].scheduler by {
      PassOneKeeps(MarkAvailable(e), ss);
    }
    assert forall i :: 0 <= i < |e| ==> start.entries[i] == one.entries[i] by {
      forall i | 0 <= i < |e| {
        CreateAllKeeps(one.entries, next, one.unmatched, i);
      }
    }
    PassTwoKeeps(start, one.deferred);
  }

  /** An entry still available afterwards is an old entry that holds the
      schedule it held before. */
  lemma AssignLeavesIdleEntries(e: seq<SchedulerInfo>, next: nat, ss: seq<Schedule>)
    ensures forall i :: 0 <= i < |Assign(e, next, ss).entries| && Assign(e, next, ss).entries[i].isAvailable ==>
              i < |e| && Assign(e, next, ss).entries[i].schedule == e[i].schedule
  {
    var one := PassOne(MarkAvailable(e), ss);
    var start := Progress(CreateAll(one.entries, next, one.unmatched), 0, false, next + |one.unmatched|, false);
    AssignFromPasses(e, next, ss, one);
    assert |one.entries| == |e| && forall i :: 0 <= i < |e| && one.entries[i].isAvailable ==> one.entries[i].schedule == e[i].schedule by {
      PassOneKeeps(MarkAvailable(e), ss);
    }
    assert forall i :: 0 <= i < |start.entries| && start.entries[i].isAvailable ==> i < |e| && start.entries[i] == one.entries[i] by {
      forall i | 0 <= i < |e| {
        CreateAllKeeps(one.entries, next, one.unmatched, i);
      }
    }
    PassTwoKeeps(start, one.deferred);
  }

  lemma CreateAllKeeps(e: seq<SchedulerInfo>, next: nat, u: seq<Schedule>, i: nat)
    requires i < |e|
    ensures CreateAll(e, next, u)[i] == e[i]
  {
    assert CreateAll(e, next, u)[..|e|][i] == e[i];
  }

  lemma {:induction false} NextAvailableCounts(e: seq<SchedulerInfo>, c: nat)
    ensures AvailableFrom(e, c) > 0 <==> NextAvailable(e, c) < |e|
    ensures NextAvailable(e, c) < |e| ==> AvailableFrom(e, NextAvailable(e, c) + 1) == AvailableFrom(e, c) - 1
    decreases |e| - c
  {
    if c < |e| && !e[c].isAvailable {
      NextAvailableCounts(e, c + 1);
    }
  }

  lemma {:induction false} AvailableFromBeyond(e: seq<SchedulerInfo>, n: nat, x: SchedulerInfo, c: nat)
    requires n < |e| && n < c
    ensures AvailableFrom(e[n := x], c) == AvailableFrom(e, c)
    decreases |e| - c
  {
    if c < |e| {
      AvailableFromBeyond(e, n, x, c + 1);
    }
  }

  /** Pass two throws exactly when at least two more schedules are deferred
      than there are available entries ahead of the iterator: the schedule
      after the first created scheduler finds the list changed. */
  lemma {:induction false} PassTwoFails(p: Progress, d: seq<Schedule>)
    requires !p.failed && !p.stale
    ensures var q := PassTwo(p, d);
            var a := AvailableFrom(p.entries, p.position);
            && (|d| <= a ==> !q.failed && !q.stale && AvailableFrom(q.entries, q.position) == a - |d|)
            && (|d| == a + 1 ==> !q.failed && q.stale)
            && (|d| >= a + 2 ==> q.failed)
  {
    if d != [] {
      var q0 := PassTwo(p, d[..|d| - 1]);
      PassTwoFails(p, d[..|d| - 1]);
      var s := d[|d| - 1];
      if !q0.failed && !q0.stale {
        var c := NextAvailable(q0.entries, q0.position);
        NextAvailableCounts(q0.entries, q0.position);
        if c < |q0.entries| {
          AvailableFromBeyond(q0.entries, c, SchedulerInfo(q0.entries[c].scheduler, s, false), c + 1);
        }
      }
    }
  }

  // ---------------------------------------------------------------------
  // Resource and schedule-set queries
  // ---------------------------------------------------------------------

  /** The resources of every scheduler, in list order, repeats included. */
  function AllResources<R>(e: seq<SchedulerInfo>, resourcesOf: nat -> seq<R>): seq<R> {
    if e == [] then [] else AllResources(e[..|e| - 1], resourcesOf) + resourcesOf(e[|e| - 1].scheduler)
  }

  lemma {:induction false} AllResourcesHold<R>(e: seq<SchedulerInfo>, resourcesOf: nat -> seq<R>, x: R)
    ensures x in AllResources(e, resourcesOf) <==> exists i :: 0 <= i < |e| && x in resourcesOf(e[i].scheduler)
  {
    if e != [] {
      var n := |e| - 1;
      AllResourcesHold(e[..n], resourcesOf, x);
      if x in resourcesOf(e[n].scheduler) {
        assert 0 <= n < |e| && x in resourcesOf(e[n].scheduler);
      }
      if exists i :: 0 <= i < |e| && x in resourcesOf(e[i].scheduler) {
        var i :| 0 <= i < |e| && x in resourcesOf(e[i].scheduler);
        if i < n {
          assert e[..n][i] == e[i];
        }
      }
    }
  }

  /** The first occurrence of each element, in order of first occurrence. */
  function Dedup<R(==,!new)>(s: seq<R>): (r: seq<R>)
    ensures NoDuplicates(r)
    ensures forall x :: x in r <==> x in s
  {
    if s == [] then []
    else
      var p := Dedup(s[..|s| - 1]);
      assert forall x :: x in s <==> x in s[..|s| - 1] || x == s[|s| - 1];
      if s[|s| - 1] in p then p else p + [s[|s| - 1]]
  }

  /** Without repeats there is nothing to drop. */
  lemma {:induction false} DedupOfDistinct<R(!new)>(s: seq<R>)
    requires NoDuplicates(s)
    ensures Dedup(s) == s
  {
    if s != [] {
      DedupOfDistinct(s[..|s| - 1]);
    }
  }

  /** `determineBestScheduleSet`: the first alternative. */
  function DetermineBestScheduleSet<P>(alternatives: seq<seq<ConditionalScheduleSet<P>>>): (r: Result<seq<ConditionalScheduleSet<P>>, AssignError>)
    ensures r.Ok? <==> |alternatives| > 0
    ensures r.Ok? ==> r.value == alternatives[0]
  {
    if alternatives == [] then Err(NoScheduleAlternative) else Ok(alternatives[0])
  }

  /** `determineScheduleSet`: the schedule set of the first conditional set
      whose predicate holds in the current state, which `holds` stands for. */
  method DetermineScheduleSet<P>(sets: seq<ConditionalScheduleSet<P>>, holds: P -> bool)
    returns (r: Result<seq<Schedule>, AssignError>)
    ensures r.Err? <==> forall i :: 0 <= i < |sets| ==> !holds(sets[i].predicateExpression)
    ensures r.Err? ==> r.error == NoValidSchedule
    ensures r.Ok? ==> exists i :: && 0 <= i < |sets| && holds(sets[i].predicateExpression)
                                  && r.value == sets[i].scheduleSet
                                  && forall j :: 0 <= j < i ==> !holds(sets[j].predicateExpression)
  {
    var i := 0;
    while i < |sets|
      invariant 0 <= i <= |sets|
      invariant forall j :: 0 <= j < i ==> !holds(sets[j].predicateExpression)
    {
      if holds(sets[i].predicateExpression) {
        return Ok(sets[i].scheduleSet);
      }
      i := i + 1;
    }
    r := Err(NoValidSchedule);
  }

  // ---------------------------------------------------------------------
  // The job assigner
  // ---------------------------------------------------------------------

  class JobAssigner {
    /** `schedulerInfos`. */
    var schedulerInfos: seq<SchedulerInfo>
    /** The identity the next `new Scheduler` gets. */
    var nextScheduler: nat

    constructor (infos: seq<SchedulerInfo>, next: nat)
      ensures schedulerInfos == infos && nextScheduler == next
    {
      schedulerInfos := infos;
      nextScheduler := next;
    }

    /** `getResources`: every scheduler's resources, each kept once, in
        order of first occurrence. */
    method GetResources<R(==,!new)>(resourcesOf: nat -> seq<R>) returns (resources: seq<R>)
      ensures resources == Dedup(AllResources(schedulerInfos, resourcesOf))
      ensures NoDuplicates(resources)
      ensures forall x :: x in resources <==> x in AllResources(schedulerInfos, resourcesOf)
    {
      resources := [];
      var i := 0;
      while i < |schedulerInfos|
        invariant 0 <= i <= |schedulerInfos|
        invariant resources == Dedup(AllResources(schedulerInfos[..i], resourcesOf))
      {
        var rs := resourcesOf(schedulerInfos[i].scheduler);
        ghost var before := AllResources(schedulerInfos[..i], resourcesOf);
        var j := 0;
        assert before + rs[..0] == before;
        while j < |rs|
          invariant 0 <= j <= |rs|
          invariant resources == Dedup(before + rs[..j])
        {
          assert (before + rs[..j + 1])[..|before + rs[..j]|] == before + rs[..j];
          if rs[j] !in resources {
            resources := resources + [rs[j]];
          }
          assert before + rs[..j + 1] == (before + rs[..j]) + [rs[j]];
          j := j + 1;
        }
        assert schedulerInfos[..i + 1][..i] == schedulerInfos[..i];
        assert rs[..j] == rs;
        i := i + 1;
      }
      assert schedulerInfos[..i] == schedulerInfos;
    }

    /** `createScheduler`: append a busy entry holding the schedule, with a
        new scheduler. */
    method CreateScheduler(s: Schedule)
      modifies this
      ensures schedulerInfos == old(schedulerInfos) + [SchedulerInfo(old(nextScheduler), s, false)]
      ensures nextScheduler == old(nextScheduler) + 1
    {
      schedulerInfos := schedulerInfos + [SchedulerInfo(nextScheduler, s, false)];
      nextScheduler := nextScheduler + 1;
    }

    /** `assignSchedulesToSchedulers`: mark every entry available, match
        direct schedules in pass one, create schedulers for the unmatched
        ones, then hand the deferred schedules to the available entries in
        pass two. It fails where the Java iterator throws. */
    method AssignSchedulesToSchedulers(scheduleSet: seq<Schedule>) returns (r: Outcome<AssignError>)
      modifies this
      ensures var q := Assign(old(schedulerInfos), old(nextScheduler), scheduleSet);
              && schedulerInfos == q.entries && nextScheduler == q.next
              && (r == Pass <==> !q.failed)
              && (r != Pass ==> r == Fail(ConcurrentModification))
    {
      ghost var e0, n0 := schedulerInfos, nextScheduler;
      MarkAllAvailable();
      var deferred, unmatched := AssignDirectSchedules(scheduleSet);
      ghost var one := PassOne(MarkAvailable(e0), scheduleSet);
      assert one == PassOneState(schedulerInfos, deferred, unmatched);
      CreateSchedulers(unmatched);
      ghost var start := Progress(schedulerInfos, 0, false, nextScheduler, false);
      assert start == Progress(CreateAll(one.entries, n0, one.unmatched), 0, false, n0 + |one.unmatched|, false);
      r := AssignDeferredSchedules(deferred);
      AssignFromPasses(e0, n0, scheduleSet, one);
    }

    /** The loop over the unmatched direct schedules. */
    method CreateSchedulers(unmatched: seq<Schedule>)
      modifies this
      ensures schedulerInfos == CreateAll(old(schedulerInfos), old(nextScheduler), unmatched)
      ensures nextScheduler == old(nextScheduler) + |unmatched|
    {
      var u := 0;
      while u < |unmatched|
        invariant 0 <= u <= |unmatched|
        invariant schedulerInfos == CreateAll(old(schedulerInfos), old(nextScheduler), unmatched[..u])
        invariant nextScheduler == old(nextScheduler) + u
      {
        CreateScheduler(unmatched[u]);
        assert unmatched[..u + 1][..u] == unmatched[..u];
        u := u + 1;
      }
      assert unmatched[..u] == unmatched;
    }

    /** The opening loop: every entry becomes available. */
    method MarkAllAvailable()
      modifies this`schedulerInfos
      ensures schedulerInfos == MarkAvailable(old(schedulerInfos))
    {
      var i := 0;
      while i < |schedulerInfos|
        invariant 0 <= i <= |schedulerInfos| == |old(schedulerInfos)|
        invariant forall k :: 0 <= k < i ==> schedulerInfos[k] == old(schedulerInfos)[k].(isAvailable := true)
        invariant forall k :: i <= k < |schedulerInfos| ==> schedulerInfos[k] == old(schedulerInfos)[k]
      {
        schedulerInfos := schedulerInfos[i := schedulerInfos[i].(isAvailable := true)];
        i := i + 1;
      }
    }

    /** Pass one. */
    method AssignDirectSchedules(scheduleSet: seq<Schedule>) returns (deferred: seq<Schedule>, unmatched: seq<Schedule>)
      modifies this`schedulerInfos
      ensures PassOne(old(schedulerInfos), scheduleSet) == PassOneState(schedulerInfos, deferred, unmatched)
    {
      deferred, unmatched := [], [];
      var k := 0;
      while k < |scheduleSet|
        invariant 0 <= k <= |scheduleSet|
        invariant PassOne(old(schedulerInfos), scheduleSet[..k]) == PassOneState(schedulerInfos, deferred, unmatched)
      {
        var schedule := scheduleSet[k];
        assert scheduleSet[..k + 1][..k] == scheduleSet[..k];
        if !IsDirect(schedule) {
          deferred := deferred + [schedule];
        } else {
          var j := 0;
          while j < |schedulerInfos| && !(schedulerInfos[j].isAvailable && SameDevice(schedule, schedulerInfos[j].schedule))
            invariant 0 <= j <= |schedulerInfos|
            invariant FirstMatch(schedulerInfos, schedule, 0) == FirstMatch(schedulerInfos, schedule, j)
          {
            j := j + 1;
          }
          if j < |schedulerInfos| {
            schedulerInfos := schedulerInfos[j := SchedulerInfo(schedulerInfos[j].scheduler, schedule, false)];
          } else {
            unmatched := unmatched + [schedule];
          }
        }
        k := k + 1;
      }
      assert scheduleSet[..k] == scheduleSet;
    }

    /** Pass two, with the one iterator over the entries that all deferred
        schedules share. */
    method AssignDeferredSchedules(deferred: seq<Schedule>) returns (r: Outcome<AssignError>)
      modifies this
      ensures var q := PassTwo(Progress(old(schedulerInfos), 0, false, old(nextScheduler), false), deferred);
              && schedulerInfos == q.entries && nextScheduler == q.next
              && (r == Pass <==> !q.failed)
              && (r != Pass ==> r == Fail(ConcurrentModification))
    {
      ghost var start := Progress(schedulerInfos, 0, false, nextScheduler, false);
      var position := 0;
      var stale := false;
      var d := 0;
      while d < |deferred|
        invariant 0 <= d <= |deferred|
        invariant PassTwo(start, deferred[..d]) == Progress(schedulerInfos, position, stale, nextScheduler, false)
      {
        var schedule := deferred[d];
        ghost var prev := Progress(schedulerInfos, position, stale, nextScheduler, false);
        assert deferred[..d + 1][..d] == deferred[..d];
        assert PassTwo(start, deferred[..d + 1]) == PassTwoStep(prev, schedule);
        if stale {
          PassTwoFailedStays(start, deferred, d + 1);
          return Fail(ConcurrentModification);
        }
        var taken;
        position, taken := TakeNextAvailable(position, schedule);
        if !taken {
          CreateScheduler(schedule);
          stale := true;
        }
        d := d + 1;
      }
      assert deferred[..d] == deferred;
      r := Pass;
    }

    /** The shared iterator moves on to the first available entry at or
        after `from` and gives it the schedule; `taken` is false when the
        iterator ran off the end of the list. */
    method TakeNextAvailable(from: nat, schedule: Schedule) returns (position: nat, taken: bool)
      requires from <= |schedulerInfos|
      modifies this`schedulerInfos
      ensures taken <==> NextAvailable(old(schedulerInfos), from) < |old(schedulerInfos)|
      ensures taken ==> position == NextAvailable(old(schedulerInfos), from) + 1 &&
                        schedulerInfos == old(schedulerInfos)[NextAvailable(old(schedulerInfos), from) :=
                          SchedulerInfo(old(schedulerInfos)[NextAvailable(old(schedulerInfos), from)].scheduler, schedule, false)]
      ensures !taken ==> position == |old(schedulerInfos)| && schedulerInfos == old(schedulerInfos)
    {
      ghost var c := NextAvailable(schedulerInfos, from);
      position, taken := from, false;
      while position < |schedulerInfos| && !taken
        invariant !taken ==> schedulerInfos == old(schedulerInfos) && from <= position <= c
        invariant taken ==> position == c + 1 && c < |old(schedulerInfos)| &&
                            schedulerInfos == old(schedulerInfos)[c := SchedulerInfo(old(schedulerInfos)[c].scheduler, schedule, false)]
        decreases |schedulerInfos| - position
      {
        var info := schedulerInfos[position];
        if info.isAvailable {
          schedulerInfos := schedulerInfos[position := SchedulerInfo(info.scheduler, schedule, false)];
          taken := true;
        }
        position := position + 1;
      }
    }
  }

  /** Once pass two has thrown, the rest of the deferred schedules change
      nothing. */
  lemma {:induction false} PassTwoFailedStays(p: Progress, d: seq<Schedule>, k: nat)
    requires k <= |d| && PassTwo(p, d[..k]).failed
    ensures PassTwo(p, d) == PassTwo(p, d[..k])
    decreases |d| - k
  {
    if k < |d| {
      assert d[..k + 1][..k] == d[..k];
      PassTwoFailedStays(p, d, k + 1);
    } else {
      assert d[..k] == d;
    }
  }
}
