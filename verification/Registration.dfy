/** Registering system services as a transaction: if a step fails, what was changed is put back. */
module Registration {
  import opened Wrappers

  type Label = string
  type text = seq<byte>

  /** A service as the system knows it: its property list, and whether it is loaded and disabled. */
  datatype Service = Service(plist: Option<text>, loaded: bool, disabled: bool)

  const UNKNOWN := Service(None, false, false)

  type Services = map<Label, Service>

  function At(services: Services, id: Label): Service {
    if id in services then services[id] else UNKNOWN
  }

  /** Nothing but `id` differs. */
  ghost predicate Only(before: Services, after: Services, id: Label) {
    forall l :: l != id ==> At(after, l) == At(before, l)
  }

  /**
   * How a call ends. A call that fails may have taken effect all the same, and the failure may be
   * an interruption of the program, which is not handled like an error.
   */
  datatype Outcome = Done | Failed(effect: bool, interrupt: bool)

  datatype Stop = Error | Interrupt

  datatype Configuration = Configuration(id: Label, plist: text)

  /** What a service was like before the transaction, and what it is to become. */
  datatype Snapshot = Snapshot(config: Configuration, was: Service)

  ghost predicate DistinctLabels(configs: seq<Configuration>) {
    forall i, j :: 0 <= i < j < |configs| ==> configs[i].id != configs[j].id
  }

  /** What the services to be registered are like. */
  function Snapshots(configs: seq<Configuration>, services: Services): (r: seq<Snapshot>)
    ensures |r| == |configs|
    ensures forall i :: 0 <= i < |r| ==> r[i] == Snapshot(configs[i], At(services, configs[i].id))
  {
    seq(|configs|, i requires 0 <= i < |configs| => Snapshot(configs[i], At(services, configs[i].id)))
  }

  /** Every call from `from` up to `to` succeeded. */
  ghost predicate AllDone(oracle: nat -> Outcome, from: nat, to: nat) {
    forall n :: from <= n < to ==> oracle(n).Done?
  }

  /** The calls went well up to the last one, which failed. */
  ghost predicate StoppedBy(oracle: nat -> Outcome, from: nat, to: nat) {
    from < to && AllDone(oracle, from, to - 1) && oracle(to - 1).Failed?
  }

  /** The exception of a failed call. */
  function Reason(outcome: Outcome): Stop {
    if outcome.Failed? && outcome.interrupt then Interrupt else Error
  }

  /** One of the calls was interrupted. */
  ghost predicate WasInterrupted(oracle: nat -> Outcome, from: nat, to: nat) {
    exists n :: from <= n < to && oracle(n).Failed? && oracle(n).interrupt
  }

  /** Snapshots of different services, none of them loaded without a property list. */
  ghost predicate Sound(snapshots: seq<Snapshot>) {
    && (forall i, j :: 0 <= i < j < |snapshots| ==> snapshots[i].config.id != snapshots[j].config.id)
    && (forall i :: 0 <= i < |snapshots| && snapshots[i].was.loaded ==> snapshots[i].was.plist.Some?)
  }

  /** One service's rollback: its calls, from `from` up to `to`, and whether it was restored. */
  datatype Attempt = Attempt(id: Label, restored: bool, from: nat, to: nat)

  class System {
    var services: Services
    var calls: nat
    const oracle: nat -> Outcome
    /** Whether an existing property list is one that registration may replace. */
    const managed: (Label, text) -> bool

    constructor (services: Services, oracle: nat -> Outcome, managed: (Label, text) -> bool)
      ensures this.services == services && calls == 0 && this.oracle == oracle && this.managed == managed
    {
      this.services, calls, this.oracle, this.managed := services, 0, oracle, managed;
    }

    function Get(id: Label): Service
      reads this
    {
      At(services, id)
    }

    /** A run of calls ended in `r`: it stops at the first call that fails. */
    ghost predicate Ended(r: Result<(), Stop>, from: nat, to: nat) {
      && from < to && AllDone(oracle, from, to - 1)
      && r == if oracle(to - 1).Done? then Ok(()) else Err(Reason(oracle(to - 1)))
    }

    /** One call to the system, which is to leave a service as `after`. */
    method Call(id: Label, after: Service) returns (r: Result<(), Stop>)
      modifies this
      ensures calls == old(calls) + 1 && Ended(r, old(calls), calls)
      ensures Only(old(services), services, id)
      ensures Get(id) == after || (r.Err? && Get(id) == old(Get(id)))
    {
      var outcome := oracle(calls);
      calls := calls + 1;
      if outcome.Done? || outcome.effect { services := services[id := after]; }
      match outcome
      case Done => r := Ok(());
      case Failed(_, _) => r := Err(Reason(outcome));
    }

    /** Ask for the service to go. It is still there when the call returns, unless the call fails after its effect. */
    method BootOut(id: Label) returns (r: Result<(), Stop>)
      modifies this
      ensures calls == old(calls) + 1 && Ended(r, old(calls), calls)
      ensures Only(old(services), services, id)
      ensures Get(id) == old(Get(id)) || (r.Err? && Get(id) == old(Get(id)).(loaded := false))
    {
      var outcome := oracle(calls);
      calls := calls + 1;
      match outcome
      case Done => r := Ok(());
      case Failed(effect, _) =>
        if effect { services := services[id := Get(id).(loaded := false)]; }
        r := Err(Reason(outcome));
    }

    /** Ask whether the service is loaded; if it is, remove it and wait until it is gone. */
    method Unload(id: Label) returns (r: Result<(), Stop>)
      modifies this
      ensures Ended(r, old(calls), calls) && Only(old(services), services, id)
      ensures r.Ok? ==> Get(id) == old(Get(id)).(loaded := false)
      ensures r.Err? ==> Get(id) == old(Get(id)) || Get(id) == old(Get(id)).(loaded := false)
    {
      var service := Get(id);
      r := Call(id, service);
      if r.Err? || !service.loaded { return; }
      r := BootOut(id);
      if r.Err? { return; }
      r := Call(id, service.(loaded := false));
    }

    /** The system loads a property list that exists, for a service that is not loaded. */
    method Bootstrap(id: Label) returns (r: Result<(), Stop>)
      requires Get(id).plist.Some? && !Get(id).loaded
      modifies this
      ensures calls == old(calls) + 1 && Ended(r, old(calls), calls)
      ensures Only(old(services), services, id)
      ensures Get(id) == old(Get(id)).(loaded := true) || (r.Err? && Get(id) == old(Get(id)))
    {
      r := Call(id, Get(id).(loaded := true));
    }

    /** Disable or enable the service, and then load it if it is to be loaded. */
    method Activate(id: Label, disabled: bool, load: bool) returns (r: Result<(), Stop>)
      requires load ==> Get(id).plist.Some? && !Get(id).loaded
      modifies this
      ensures Ended(r, old(calls), calls) && Only(old(services), services, id)
      ensures r.Ok? ==> Get(id) == old(Get(id)).(disabled := disabled, loaded := load || old(Get(id)).loaded)
    {
      r := Call(id, Get(id).(disabled := disabled));
      if r.Err? || !load { return; }
      r := Bootstrap(id);
    }

    /** The forward steps of one service. */
    method Install(config: Configuration) returns (r: Result<(), Stop>)
      modifies this
      ensures Ended(r, old(calls), calls) && Only(old(services), services, config.id)
      ensures r.Ok? ==> Get(config.id) == Service(Some(config.plist), true, false)
    {
      r := Unload(config.id);
      if r.Err? { return; }
      r := Call(config.id, Get(config.id).(plist := Some(config.plist)));
      if r.Err? { return; }
      r := Activate(config.id, false, true);
    }

    /** The rollback steps of one service. */
    method Restore(snapshot: Snapshot) returns (r: Result<(), Stop>)
      requires snapshot.was.loaded ==> snapshot.was.plist.Some?
      modifies this
      ensures Ended(r, old(calls), calls) && Only(old(services), services, snapshot.config.id)
      ensures r.Ok? ==> Get(snapshot.config.id) == snapshot.was
    {
      var id, was := snapshot.config.id, snapshot.was;
      r := Unload(id);
      if r.Err? { return; }
      if was.plist.Some? || Get(id).plist.Some? {
        r := Call(id, Get(id).(plist := was.plist));
        if r.Err? { return; }
      }
      r := Activate(id, was.disabled, was.loaded);
    }

    /** Registration may replace what is there: a service it manages, or one that is not loaded. */
    predicate Replaceable(config: Configuration)
      reads this
    {
      var was := Get(config.id);
      && (was.plist.Some? ==> managed(config.id, was.plist.value))
      && (was.loaded ==> was.plist.Some?)
    }

    /** Look at one service; what the transaction must not touch makes it stop before it changes anything. */
    method Inspect(config: Configuration) returns (r: Result<Snapshot, Stop>)
      modifies this`calls
      ensures calls > old(calls)
      ensures r.Ok? ==>
        r.value == Snapshot(config, Get(config.id)) && Replaceable(config) && AllDone(oracle, old(calls), calls)
      ensures r.Err? ==> !Replaceable(config) || !AllDone(oracle, old(calls), calls)
    {
      var was := At(services, config.id);
      var read := oracle(calls);
      calls := calls + 1;
      if read.Failed? { return Err(Reason(read)); }
      if was.plist.Some? && !managed(config.id, was.plist.value) { return Err(Error); }
      var asked := oracle(calls);
      calls := calls + 1;
      if asked.Failed? { return Err(Reason(asked)); }
      if was.loaded && was.plist.None? { return Err(Error); }
      r := Ok(Snapshot(config, was));
    }

    /** Nothing is changed before every service has been looked at. */
    method InspectAll(configs: seq<Configuration>) returns (r: Result<seq<Snapshot>, Stop>)
      modifies this`calls
      ensures calls >= old(calls)
      ensures r.Ok? ==> r.value == Snapshots(configs, services) && AllDone(oracle, old(calls), calls)
      ensures r.Ok? ==> forall i :: 0 <= i < |configs| ==> Replaceable(configs[i])
      ensures r.Err? ==> !AllDone(oracle, old(calls), calls) || exists i :: 0 <= i < |configs| && !Replaceable(configs[i])
    {
      var trusted := oracle(calls);
      calls := calls + 1;
      if trusted.Failed? { return Err(Reason(trusted)); }
      var snapshots := [];
      var i := 0;
      while i < |configs|
        invariant 0 <= i <= |configs| && calls >= old(calls) && AllDone(oracle, old(calls), calls)
        invariant snapshots == Snapshots(configs, services)[..i]
        invariant forall j :: 0 <= j < i ==> Replaceable(configs[j])
      {
        var seen := Inspect(configs[i]);
        if seen.Err? { return Err(seen.error); }
        snapshots := snapshots + [seen.value];
        i := i + 1;
      }
      r := Ok(snapshots);
    }

    /** Restore the next service and report it, unless the program is interrupted. */
    method RestoreNext(changed: seq<Snapshot>, report: seq<Attempt>, ghost before: Services, ghost start: nat)
      returns (interrupted: bool, after: seq<Attempt>)
      requires Sound(changed) && |report| < |changed|
      requires Rolling(oracle, before, services, changed, report, start, calls)
      modifies this
      ensures Rolling(oracle, before, services, changed, after, start, calls) || interrupted
      ensures calls >= old(calls)
      ensures interrupted ==>
        && after == report && WasInterrupted(oracle, old(calls), calls)
        && RolledUpTo(oracle, before, services, changed, |changed| - 1 - |report|, report, start, calls)
      ensures !interrupted ==> |after| == |report| + 1
    {
      var snapshot := changed[|changed| - 1 - |report|];
      var from := calls;
      ghost var now := services;
      var r := Restore(snapshot);
      UntouchedBut(before, now, services, changed, |changed| - 1 - |report|);
      if r == Err(Interrupt) {
        ToldStays(oracle, now, services, changed, report);
        return true, report;
      }
      var attempt := Attempt(snapshot.config.id, r.Ok?, from, calls);
      ConsecutiveMore(report, start, attempt);
      ToldMore(oracle, now, services, changed, report, attempt);
      return false, report + [attempt];
    }

    /**
     * Roll back in reverse order. The report covers every changed service, unless the program is
     * interrupted meanwhile; services reported as not restored need the administrator's attention.
     */
    method RollBack(changed: seq<Snapshot>) returns (report: seq<Attempt>)
      requires Sound(changed)
      modifies this
      ensures RolledUpTo(oracle, old(services), services, changed, 0, report, old(calls), calls)
      ensures |report| < |changed| ==> WasInterrupted(oracle, old(calls), calls)
    {
      report := [];
      while |report| < |changed|
        invariant |report| <= |changed| && calls >= old(calls)
        invariant Rolling(oracle, old(services), services, changed, report, old(calls), calls)
        decreases |changed| - |report|
      {
        var interrupted;
        interrupted, report := RestoreNext(changed, report, old(services), old(calls));
        if interrupted {
          UntouchedFrom(old(services), services, changed, |changed| - 1 - |report|);
          return;
        }
      }
    }

    /** The forward phase: `changed` services were begun, all but the last of them completely. */
    method InstallAll(snapshots: seq<Snapshot>) returns (r: Result<(), Stop>, changed: nat)
      requires Sound(snapshots)
      modifies this
      ensures calls >= old(calls) && changed <= |snapshots|
      ensures Untouched(old(services), services, snapshots[..changed], 0)
      ensures r.Ok? ==> changed == |snapshots|
      ensures Ended(r, old(calls), calls) || (r.Ok? && calls == old(calls))
      ensures r.Ok? ==> forall i :: 0 <= i < |snapshots| ==>
        Get(snapshots[i].config.id) == Service(Some(snapshots[i].config.plist), true, false)
    {
      changed := 0;
      while changed < |snapshots|
        invariant 0 <= changed <= |snapshots| && calls >= old(calls) && AllDone(oracle, old(calls), calls)
        invariant Untouched(old(services), services, snapshots[..changed], 0)
        invariant forall i :: 0 <= i < changed ==>
          Get(snapshots[i].config.id) == Service(Some(snapshots[i].config.plist), true, false)
      {
        var config := snapshots[changed].config;
        ghost var before := services;
        assert forall i :: 0 <= i < changed ==> snapshots[i].config.id != config.id;
        r := Install(config);
        UntouchedMore(old(services), before, services, snapshots, changed);
        changed := changed + 1;
        if r.Err? { return; }
      }
      r := Ok(());
    }

    /** Install all, and roll back what was begun if that fails. `start` is where the rollback's calls begin. */
    method Transact(snapshots: seq<Snapshot>)
      returns (r: Result<(), Stop>, changed: nat, report: seq<Attempt>, ghost start: nat)
      requires Sound(snapshots)
      requires forall i :: 0 <= i < |snapshots| ==> snapshots[i].was == Get(snapshots[i].config.id)
      modifies this
      ensures changed <= |snapshots| && old(calls) <= start <= calls
      ensures Untouched(old(services), services, snapshots[..changed], 0)
      ensures r.Ok? ==> forall i :: 0 <= i < |snapshots| ==>
        Get(snapshots[i].config.id) == Service(Some(snapshots[i].config.plist), true, false)
      ensures r.Ok? ==> AllDone(oracle, old(calls), calls)
      ensures r.Err? ==> StoppedBy(oracle, old(calls), start)
      ensures r.Err? && |report| == changed ==> r.error == Reason(oracle(start - 1))
      ensures r.Err? ==> Consecutive(report, start) && End(report, start) <= calls
      ensures r.Err? ==> Told(oracle, services, snapshots[..changed], report)
      ensures r.Err? && |report| < changed ==> r.error == Interrupt && WasInterrupted(oracle, start, calls)
      ensures r.Err? && AllDone(oracle, start, calls) ==> Same(old(services), services)
    {
      r, changed := InstallAll(snapshots);
      start, report := calls, [];
      if r.Ok? { return; }
      ghost var before := services;
      var begun := snapshots[..changed];
      report := RollBack(begun);
      UntouchedTwice(old(services), before, services, begun);
      if |report| < changed {
        r := Err(Interrupt);
      } else if AllDone(oracle, start, calls) {
        WhollyRestored(oracle, begun, report, start, calls, old(services), services);
      }
    }

    /**
     * The whole transaction. When it fails, `report` says for each of the `changed` services, the
     * last one first, whether its rollback succeeded; `start` is where the rollback's calls begin.
     */
    method Register(configs: seq<Configuration>)
      returns (r: Result<(), Stop>, changed: nat, report: seq<Attempt>, ghost start: nat)
      requires DistinctLabels(configs)
      modifies this
      ensures changed <= |configs| && old(calls) <= start <= calls
      ensures r.Ok? ==> forall i :: 0 <= i < |configs| ==>
        Get(configs[i].id) == Service(Some(configs[i].plist), true, false)
      ensures Untouched(old(services), services, Snapshots(configs, old(services))[..changed], 0)
      ensures r.Ok? ==> AllDone(oracle, old(calls), calls)
      ensures r.Err? && changed > 0 ==> StoppedBy(oracle, old(calls), start)
      ensures r.Err? && changed > 0 && |report| == changed ==> r.error == Reason(oracle(start - 1))
      ensures r.Err? ==> Consecutive(report, start) && End(report, start) <= calls
      ensures r.Err? ==> Told(oracle, services, Snapshots(configs, old(services))[..changed], report)
      ensures r.Err? && |report| < changed ==> r.error == Interrupt && WasInterrupted(oracle, start, calls)
      ensures r.Err? && AllDone(oracle, start, calls) ==> Same(old(services), services)
      ensures r.Ok? ==> forall i :: 0 <= i < |configs| ==> old(Replaceable(configs[i]))
      ensures r.Err? ==>
        !AllDone(oracle, old(calls), start) || exists i :: 0 <= i < |configs| && !old(Replaceable(configs[i]))
    {
      var seen := InspectAll(configs);
      if seen.Err? { return Err(seen.error), 0, [], calls; }
      r, changed, report, start := Transact(seen.value);
    }
  }

  /** One of the snapshots from `n` on is of service `l`. */
  ghost predicate Among(changed: seq<Snapshot>, n: nat, l: Label) {
    exists i :: n <= i < |changed| && changed[i].config.id == l
  }

  /** Only services of the snapshots from `n` on differ. */
  ghost predicate Untouched(before: Services, after: Services, changed: seq<Snapshot>, n: nat) {
    forall l :: !Among(changed, n, l) ==> At(after, l) == At(before, l)
  }

  lemma {:induction false} UntouchedBut(start: Services, before: Services, after: Services, changed: seq<Snapshot>, n: nat)
    requires n < |changed|
    requires Untouched(start, before, changed, n + 1) && Only(before, after, changed[n].config.id)
    ensures Untouched(start, after, changed, n)
  {
    forall l | !Among(changed, n, l) ensures At(after, l) == At(start, l) {
      assert l != changed[n].config.id && !Among(changed, n + 1, l);
    }
  }

  lemma {:induction false} UntouchedMore(start: Services, before: Services, after: Services, all: seq<Snapshot>, n: nat)
    requires n < |all|
    requires Untouched(start, before, all[..n], 0) && Only(before, after, all[n].config.id)
    ensures Untouched(start, after, all[..n + 1], 0)
  {
    forall l | !Among(all[..n + 1], 0, l) ensures At(after, l) == At(start, l) {
      assert all[..n + 1][n] == all[n];
      forall i | 0 <= i < n ensures all[..n][i].config.id != l { assert all[..n + 1][i] == all[..n][i]; }
    }
  }

  lemma {:induction false} UntouchedTwice(start: Services, before: Services, after: Services, changed: seq<Snapshot>)
    requires Untouched(start, before, changed, 0) && Untouched(before, after, changed, 0)
    ensures Untouched(start, after, changed, 0)
  {
  }

  lemma {:induction false} UntouchedFrom(before: Services, after: Services, changed: seq<Snapshot>, n: nat)
    requires Untouched(before, after, changed, n)
    ensures Untouched(before, after, changed, 0)
  {
    forall l | !Among(changed, 0, l) ensures At(after, l) == At(before, l) { assert !Among(changed, n, l); }
  }

  ghost predicate Same(before: Services, after: Services) { forall l :: At(after, l) == At(before, l) }

  // ----- Reports

  /** An attempt restored its service exactly when all of its own calls succeeded. */
  ghost predicate Tells(oracle: nat -> Outcome, services: Services, attempt: Attempt, snapshot: Snapshot) {
    && attempt.id == snapshot.config.id
    && (attempt.restored <==> AllDone(oracle, attempt.from, attempt.to))
    && (attempt.restored ==> At(services, attempt.id) == snapshot.was)
  }

  /** A report tells the truth about the services it covers, the last changed first. */
  ghost predicate Told(oracle: nat -> Outcome, services: Services, changed: seq<Snapshot>, report: seq<Attempt>) {
    |report| <= |changed|
    && forall k :: 0 <= k < |report| ==> Tells(oracle, services, report[k], changed[|changed| - 1 - k])
  }

  /** A rollback has come to the services from `n` on: the report is true and in order, the others are untouched. */
  ghost predicate RolledUpTo(oracle: nat -> Outcome, before: Services, now: Services, changed: seq<Snapshot>, n: nat,
                             report: seq<Attempt>, start: nat, calls: nat)
  {
    && Told(oracle, now, changed, report)
    && Consecutive(report, start) && start <= End(report, start) <= calls
    && Untouched(before, now, changed, n)
  }

  /** Between two services, the rollback has come as far as its report. */
  ghost predicate Rolling(oracle: nat -> Outcome, before: Services, now: Services, changed: seq<Snapshot>,
                          report: seq<Attempt>, start: nat, calls: nat)
  {
    && |report| <= |changed| && End(report, start) == calls
    && RolledUpTo(oracle, before, now, changed, |changed| - |report|, report, start, calls)
  }

  /** What happens to a service not yet covered leaves the report true. */
  lemma {:induction false} ToldStays(oracle: nat -> Outcome, before: Services, after: Services, changed: seq<Snapshot>,
                                     report: seq<Attempt>)
    requires Sound(changed) && Told(oracle, before, changed, report) && |report| < |changed|
    requires Only(before, after, changed[|changed| - 1 - |report|].config.id)
    ensures Told(oracle, after, changed, report)
  {
    forall k | 0 <= k < |report| ensures Tells(oracle, after, report[k], changed[|changed| - 1 - k]) {
      assert Tells(oracle, before, report[k], changed[|changed| - 1 - k]);
    }
  }

  lemma {:induction false} ToldMore(oracle: nat -> Outcome, before: Services, after: Services, changed: seq<Snapshot>,
                                    report: seq<Attempt>, attempt: Attempt)
    requires Sound(changed) && Told(oracle, before, changed, report) && |report| < |changed|
    requires Only(before, after, changed[|changed| - 1 - |report|].config.id)
    requires Tells(oracle, after, attempt, changed[|changed| - 1 - |report|])
    ensures Told(oracle, after, changed, report + [attempt])
  {
    ToldStays(oracle, before, after, changed, report);
  }

  /** Where the calls of a report end. */
  function End(report: seq<Attempt>, start: nat): nat {
    if report == [] then start else report[|report| - 1].to
  }

  /** Each attempt makes its calls right after those of the attempt before. */
  ghost predicate Consecutive(report: seq<Attempt>, start: nat)
    decreases |report|
  {
    report == [] ||
    var n := |report| - 1;
    Consecutive(report[..n], start) && End(report[..n], start) == report[n].from < report[n].to
  }

  lemma {:induction false} ConsecutiveMore(report: seq<Attempt>, start: nat, attempt: Attempt)
    requires Consecutive(report, start) && End(report, start) == attempt.from < attempt.to
    ensures Consecutive(report + [attempt], start) && End(report + [attempt], start) == attempt.to
  {
    assert (report + [attempt])[..|report|] == report;
  }

  lemma {:induction false} Within(report: seq<Attempt>, start: nat, k: nat)
    requires k < |report| && Consecutive(report, start)
    ensures start <= report[k].from <= report[k].to <= End(report, start)
    decreases |report|
  {
    var n := |report| - 1;
    if n > 0 { Within(report[..n], start, if k < n then k else 0); }
  }

  /** With no failure during the rollback, everything is as it was. */
  lemma {:induction false} WhollyRestored(oracle: nat -> Outcome, begun: seq<Snapshot>, report: seq<Attempt>, start: nat,
                                          end: nat, before: Services, after: Services)
    requires |report| == |begun| && Consecutive(report, start) && End(report, start) <= end
    requires AllDone(oracle, start, end) && Told(oracle, after, begun, report)
    requires forall i :: 0 <= i < |begun| ==> begun[i].was == At(before, begun[i].config.id)
    requires Untouched(before, after, begun, 0)
    ensures Same(before, after)
  {
    forall l ensures At(after, l) == At(before, l) {
      if Among(begun, 0, l) {
        var i :| 0 <= i < |begun| && begun[i].config.id == l;
        var k := |begun| - 1 - i;
        assert Tells(oracle, after, report[k], begun[|begun| - 1 - k]);
        Within(report, start, k);
      }
    }
  }
}
