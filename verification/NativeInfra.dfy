/** Lease-guarded lifecycle of the native services
    (`NativeInfra` in `scripts/native_infra.py`).

    Every method runs against an environment that may act between any two of
    its steps. `signals` records who received each request to stop, `journal`
    the order of starts and stops. */
module NativeInfra {
  import opened Processes

  datatype Service = Postgres | OpenSearch | Minio | Otel

  const SERVICE_ORDER: seq<Service> := [Postgres, OpenSearch, Minio, Otel]

  datatype Lease = Lease(
    pid: nat, start: nat, uid: nat, exe: string, digest: string, dataDir: string, config: string, ports: seq<nat>)

  function Holder(lease: Lease): Incarnation {
    Incarnation(lease.pid, lease.start)
  }

  /** Refused: a NativeInfraError. Vanished: the process left /proc between two
      reads, an OSError that `_lease_is_running` does not catch. */
  datatype Check = Valid(lease: Lease) | Refused | Vanished

  datatype Outcome = Done | Raised

  /** What cleaning can remove: everything; nothing of the run directory, because
      the data tree is in the way; or the run directory but for these leases. */
  datatype Removal = Everything | DataStuck | LeasesLeft(left: set<Service>)

  datatype Op = OpUp | OpDown(clean: bool) | OpStart(service: Service) | OpStop(service: Service)

  datatype Event =
    | Begin(service: Service)
    | Started(service: Service)
    | StopTried(service: Service, outcome: Outcome)

  predicate Contains(s: string, part: string) {
    part <= s || (s != "" && Contains(s[1..], part))
  }

  predicate StandsAt(s: string, part: string, k: nat) {
    k + |part| <= |s| && s[k..k + |part|] == part
  }

  lemma StandsAtStart(s: string, part: string)
    ensures StandsAt(s, part, 0) <==> part <= s
  {
    if |part| <= |s| {
      assert s[0..0 + |part|] == s[..|part|];
      assert s == s[..|part|] + s[|part|..];
    }
  }

  lemma {:induction false} ContainsExactly(s: string, part: string)
    ensures Contains(s, part) <==> exists k: nat :: StandsAt(s, part, k)
  {
    StandsAtStart(s, part);
    if part <= s {
      assert StandsAt(s, part, 0);
    } else if s != "" {
      ContainsExactly(s[1..], part);
      forall k: nat
        ensures StandsAt(s[1..], part, k) <==> StandsAt(s, part, k + 1)
      {
        if k + 1 + |part| <= |s| {
          assert s[1..][k..k + |part|] == s[k + 1..k + 1 + |part|];
        }
      }
      if k: nat :| k > 0 && StandsAt(s, part, k) {
        assert StandsAt(s[1..], part, k - 1) by {
          assert StandsAt(s, part, (k - 1) + 1);
        }
      }
    }
  }

  /** The command line identifies the service. */
  predicate CommandFits(service: Service, lease: Lease, cmd: seq<string>) {
    match service
    case Postgres => lease.dataDir in cmd
    case Minio => lease.dataDir in cmd
    case OpenSearch => exists i :: 0 <= i < |cmd| && Contains(cmd[i], "opensearch")
    case Otel => lease.config in cmd
  }

  /** The services whose start completed, in order. */
  function StartedIn(journal: seq<Event>): seq<Service> {
    if journal == [] then []
    else
      var last := journal[|journal| - 1];
      StartedIn(journal[..|journal| - 1]) + (if last.Started? then [last.service] else [])
  }

  /** The services that somebody tried to stop, in order. */
  function TriedIn(journal: seq<Event>): seq<Service> {
    if journal == [] then []
    else
      var last := journal[|journal| - 1];
      TriedIn(journal[..|journal| - 1]) + (if last.StopTried? then [last.service] else [])
  }

  lemma JournalStep(journal: seq<Event>, e: Event)
    ensures StartedIn(journal + [e]) == StartedIn(journal) + (if e.Started? then [e.service] else [])
    ensures TriedIn(journal + [e]) == TriedIn(journal) + (if e.StopTried? then [e.service] else [])
  {
    assert (journal + [e])[..|journal|] == journal;
  }

  /** A start of the service began and did not complete. */
  predicate Pending(journal: seq<Event>, service: Service) {
    Begin(service) in journal && Started(service) !in journal
  }

  predicate AnyPending(journal: seq<Event>) {
    exists s: Service :: Pending(journal, s)
  }

  /** The events of completed starts only. */
  ghost predicate Rounds(journal: seq<Event>, started: seq<Service>) {
    && StartedIn(journal) == started && TriedIn(journal) == []
    && (forall s :: s in started <==> Started(s) in journal)
    && (forall s :: !Pending(journal, s))
  }

  lemma RoundsMean(journal: seq<Event>, started: seq<Service>)
    requires Rounds(journal, started)
    ensures StartedIn(journal) == started && TriedIn(journal) == [] && forall s :: !Pending(journal, s)
  {
  }

  lemma RoundsEmpty()
    ensures Rounds([], [])
  {
  }

  lemma RoundsGrow(journal: seq<Event>, started: seq<Service>, service: Service)
    requires Rounds(journal, started)
    ensures Rounds(journal + [Begin(service), Started(service)], started + [service])
  {
    var round := journal + [Begin(service), Started(service)];
    JournalStep(journal, Begin(service));
    JournalStep(journal + [Begin(service)], Started(service));
    assert round == journal + [Begin(service)] + [Started(service)];
    assert round[|journal| + 1] == Started(service);
    assert started + [] == started;
    forall s
      ensures s in started + [service] <==> Started(s) in round
      ensures !Pending(round, s)
    {
      assert !Pending(journal, s);
    }
  }

  /** What the journal says once a start was begun and failed. */
  lemma RoundsBreak(journal: seq<Event>, started: seq<Service>, service: Service)
    requires Rounds(journal, started) && service !in started
    ensures var broken := journal + [Begin(service)];
      && StartedIn(broken) == started && TriedIn(broken) == []
      && (forall s :: Pending(broken, s) <==> s == service) && AnyPending(broken)
  {
    var broken := journal + [Begin(service)];
    JournalStep(journal, Begin(service));
    assert broken[|journal|] == Begin(service);
    forall s
      ensures Pending(broken, s) <==> s == service
    {
      assert !Pending(journal, s);
    }
    assert Pending(broken, service);
  }

  lemma NoJournal()
    ensures StartedIn([]) == [] && TriedIn([]) == []
  {
  }

  lemma {:induction false} JournalConcat(a: seq<Event>, b: seq<Event>)
    ensures StartedIn(a + b) == StartedIn(a) + StartedIn(b)
    ensures TriedIn(a + b) == TriedIn(a) + TriedIn(b)
  {
    hide StartedIn, TriedIn;
    if b == [] {
      NoJournal();
      assert a + b == a;
    } else {
      var front, last := b[..|b| - 1], b[|b| - 1];
      JournalConcat(a, front);
      assert b == front + [last] && a + b == (a + front) + [last];
      JournalStep(front, last);
      JournalStep(a + front, last);
    }
  }

  lemma PendingBeforeTries(a: seq<Event>, tries: seq<Event>)
    requires forall i :: 0 <= i < |tries| ==> tries[i].StopTried?
    ensures forall s :: Pending(a + tries, s) <==> Pending(a, s)
  {
    forall s
      ensures Begin(s) in a + tries <==> Begin(s) in a
      ensures Started(s) in a + tries <==> Started(s) in a
    {
      assert Begin(s) !in tries && Started(s) !in tries;
    }
  }

  function Reverse<T>(s: seq<T>): seq<T> {
    if s == [] then [] else Reverse(s[1..]) + [s[0]]
  }

  /** The file name of the executable is `java`. */
  predicate IsJava(exe: string) {
    exe == "java" || (|exe| >= 5 && exe[|exe| - 5..] == "/java")
  }

  class Manager {
    const uid: nat
    const ports: map<Service, seq<nat>>
    const integration: bool          // profile == "integration"
    const digestOf: string -> string // content digest of an executable
    const ownedDir: string -> bool   // the path lies under the data root and is ours
    const dataDirOf: Service -> string
    const configOf: Service -> string
    const calm: bool                 // assumption: no leased process dies unless it was signalled
    const smooth: bool               // assumption: setup, free ports, new processes and probes are granted

    var world: World
    var leases: map<Service, Lease>
    var signals: seq<Signal>
    var journal: seq<Event>
    ghost var everLeased: set<Incarnation>
    ghost var abandoned: set<Incarnation> // lost their lease other than by being stopped
    ghost var spawned: seq<Incarnation>   // the processes that starts have created

    function Holders(): set<Incarnation>
      reads this`leases
    {
      set s | s in leases :: Holder(leases[s])
    }

    function Targets(): set<Incarnation>
      reads this`signals
    {
      set i | 0 <= i < |signals| :: signals[i].target
    }

    /** Leases name past incarnations; only leased incarnations were ever
        signalled; and an incarnation loses its lease by dying, unless it was
        abandoned. */
    ghost predicate Inv()
      reads this`world, this`leases, this`signals, this`everLeased, this`abandoned
    {
      && WorldOk(world)
      && ports.Keys == {Postgres, OpenSearch, Minio, Otel}
      && Holders() <= everLeased
      && Targets() <= everLeased
      && (forall i :: i in everLeased ==> i.start <= world.clock)
      && (forall i :: i in everLeased ==> i in Holders() || i in abandoned || !Live(world, i))
    }

    predicate Matches(service: Service, lease: Lease, p: Proc) {
      && lease.uid == uid && p.owner == uid
      && p.exe == lease.exe && digestOf(p.exe) == lease.digest
      && ownedDir(lease.dataDir)
      && CommandFits(service, lease, p.cmd)
      && service in ports && lease.ports == ports[service]
    }

    /** The lease validates against a process table that stands still. */
    predicate ValidLease(w: World, service: Service, lease: Lease) {
      Live(w, Holder(lease)) && Matches(service, lease, w.procs[lease.pid])
    }

    /** What a lease has to show: the process that holds its PID was started when it
        says, runs for us from an unchanged executable, and its command line names
        the data directory, the configuration, or OpenSearch. */
    lemma ValidMeans(w: World, service: Service, lease: Lease)
      ensures ValidLease(w, service, lease) <==>
        && lease.pid in w.procs
        && var p := w.procs[lease.pid];
        && !p.zombie && p.start == lease.start && p.owner == uid == lease.uid
        && p.exe == lease.exe && digestOf(p.exe) == lease.digest && ownedDir(lease.dataDir)
        && (service == Postgres || service == Minio ==> lease.dataDir in p.cmd)
        && (service == Otel ==> lease.config in p.cmd)
        && (service == OpenSearch ==> exists i: nat, k: nat :: i < |p.cmd| && StandsAt(p.cmd[i], "opensearch", k))
        && service in ports && lease.ports == ports[service]
    {
      if lease.pid in w.procs && service == OpenSearch {
        var cmd := w.procs[lease.pid].cmd;
        forall i: nat | i < |cmd|
          ensures Contains(cmd[i], "opensearch") <==> exists k: nat :: StandsAt(cmd[i], "opensearch", k)
        {
          ContainsExactly(cmd[i], "opensearch");
        }
      }
    }

    predicate ValidUnder(w: World, service: Service, held: map<Service, Lease>) {
      service in held && ValidLease(w, service, held[service])
    }

    predicate ValidIn(w: World, service: Service)
      reads this`leases
    {
      ValidUnder(w, service, leases)
    }

    predicate ValidNow(service: Service)
      reads this`world, this`leases
    {
      ValidIn(world, service)
    }

    /** Who must survive an environment step. */
    function Safe(): set<Incarnation>
      reads this`leases, this`signals
    {
      if calm then Holders() - Targets() else {}
    }

    constructor (uid: nat, ports: map<Service, seq<nat>>, integration: bool, digestOf: string -> string,
                 ownedDir: string -> bool, dataDirOf: Service -> string, configOf: Service -> string, calm: bool, smooth: bool,
                 world: World, leases: map<Service, Lease>)
      requires WorldOk(world) && ports.Keys == {Postgres, OpenSearch, Minio, Otel}
      requires forall s :: s in leases ==> leases[s].start <= world.clock
      ensures Inv() && this.world == world && this.leases == leases && signals == [] && journal == [] && abandoned == {}
      ensures this.uid == uid && this.integration == integration && this.calm == calm && this.digestOf == digestOf
    {
      this.uid, this.ports, this.integration := uid, ports, integration;
      this.digestOf, this.ownedDir, this.dataDirOf, this.configOf := digestOf, ownedDir, dataDirOf, configOf;
      this.calm, this.smooth := calm, smooth;
      this.world, this.leases, this.signals, this.journal := world, leases, [], [];
      this.spawned := [];
      this.everLeased, this.abandoned := (set s | s in leases :: Holder(leases[s])), {};
    }

    /** The environment acts. */
    method Env(pinned: set<nat>)
      requires Inv()
      modifies this`world
      ensures Inv()
      ensures EnvStep(old(world), world, pinned, Holders(), Safe())
    {
      assert EnvStep(world, world, pinned, Holders(), Safe()) && WorldOk(world);
      var next :| EnvStep(world, next, pinned, Holders(), Safe()) && WorldOk(next);
      assert EnvStep(world, next, pinned, Holders(), Safe());
      forall i | i in everLeased && !Live(world, i)
        ensures !Live(next, i)
      {
        DeadStaysDead(world, next, i, pinned, Holders(), Safe());
      }
      world := next;
    }

    /** What the environment may do to the holder of one lease. */
    lemma HolderAcross(service: Service, a: World, b: World, pinned: set<nat>)
      requires service in leases && leases[service].start <= a.clock
      requires EnvStep(a, b, pinned, Holders(), Safe())
      ensures a.clock <= b.clock
      ensures var pid, start := leases[service].pid, leases[service].start;
        && (pid in b.procs && b.procs[pid].start == start ==>
              && pid in a.procs
              && b.procs[pid] == a.procs[pid].(zombie := b.procs[pid].zombie)
              && (a.procs[pid].zombie ==> b.procs[pid].zombie))
        && (pid in pinned && pid in b.procs ==> pid in a.procs && b.procs[pid].start == a.procs[pid].start)
        && (Holder(leases[service]) in Safe() && Live(a, Holder(leases[service])) ==> Live(b, Holder(leases[service])))
    {
      var lease := leases[service];
      assert Holder(lease) in Holders();
      if lease.pid in b.procs {
        assert Persists(a, b, lease.pid, Holders()) || a.clock < b.procs[lease.pid].start;
      }
    }

    /** An invalid lease stays invalid; a valid one stays valid as long as its
        holder lives. */
    lemma ValidityAcross(service: Service, a: World, b: World)
      requires service in leases ==> leases[service].start <= a.clock
      requires EnvStep(a, b, {}, Holders(), Safe())
      ensures ValidIn(b, service) ==> ValidIn(a, service)
      ensures ValidIn(a, service) && Holder(leases[service]) in Safe() ==> ValidIn(b, service)
    {
      if service in leases {
        HolderAcross(service, a, b, {});
      }
    }

    lemma LeaseInPast(service: Service)
      requires Inv() && service in leases
      ensures leases[service].start <= world.clock && ports.Keys == {Postgres, OpenSearch, Minio, Otel}
    {
      assert Holder(leases[service]) in Holders();
    }

    /** `is_process_alive`: signal 0 refused for want of permission counts as alive. */
    predicate IsProcessAlive(pid: nat)
      reads this`world
    {
      AliveIn(world, pid)
    }

    predicate AliveIn(w: World, pid: nat) {
      pid in w.procs && (w.procs[pid].owner != uid || !w.procs[pid].zombie)
    }

    /** `/proc/PID/exe`, which names no file once the process is gone. */
    function ReadExe(pid: nat): string
      reads this`world
    {
      if pid in world.procs && !world.procs[pid].zombie then world.procs[pid].exe else ""
    }

    /** `/proc/PID/cmdline`, empty for a zombie. */
    function ReadCommand(pid: nat): seq<string>
      requires pid in world.procs
      reads this`world
    {
      if world.procs[pid].zombie then [] else world.procs[pid].cmd
    }

    /** `_read_and_validate_lease`, with the environment acting between the
        reads. `window` assumes that the PID is not handed to another process
        once its start time has been compared. */
    method ReadAndValidateLease(service: Service, window: bool) returns (r: Check)
      requires Inv()
      modifies this`world
      ensures Inv() && EnvStep(old(world), world, {}, Holders(), Safe())
      ensures !r.Valid? ==> !ValidNow(service)
      ensures r.Valid? ==> service in leases && r.lease == leases[service] && old(Live(world, Holder(leases[service])))
      ensures r == Vanished ==> service in leases
      ensures r.Valid? && window ==> old(ValidNow(service))
      ensures r.Valid? && window && r.lease.pid in world.procs ==> world.procs[r.lease.pid].start == r.lease.start
      ensures r.Valid? && Holder(r.lease) in Safe() ==> ValidNow(service)
    {
      hide Inv, EnvStep, CommandFits;
      EnvStepReflexive(world, {}, Holders(), Safe());
      if service !in leases {
        return Refused;
      }
      LeaseInPast(service);
      var lease := leases[service];
      var pid := lease.pid;
      if !IsProcessAlive(pid) {
        return Refused;
      }
      ghost var w0 := world;
      Env({});
      ghost var w1 := world;
      HolderAcross(service, w0, w1, {});
      if lease.uid != uid {
        return Refused;
      }
      if pid !in world.procs {
        return Vanished;
      }
      if world.procs[pid].owner != uid {
        return Refused;
      }
      Env({});
      ghost var w2 := world;
      HolderAcross(service, w1, w2, {});
      EnvStepChain(w0, w1, w2, Holders(), {}, Safe(), {}, Safe());
      if pid !in world.procs {
        return Vanished;
      }
      if world.procs[pid].start != lease.start {
        return Refused;
      }
      r := CheckImage(service, window);
      EnvStepChain(w0, w2, world, Holders(), {}, Safe(), {}, Safe());
      ValidityAcross(service, w0, w2);
    }

    /** The second half, once the start time has been compared: executable, digest,
        directory, command line and ports. */
    method CheckImage(service: Service, window: bool) returns (r: Check)
      requires Inv() && service in leases && leases[service].uid == uid
      requires var lease := leases[service];
        lease.pid in world.procs && world.procs[lease.pid].start == lease.start && world.procs[lease.pid].owner == uid
      modifies this`world
      ensures Inv() && EnvStep(old(world), world, {}, Holders(), Safe())
      ensures !r.Valid? ==> !ValidNow(service)
      ensures r.Valid? ==> r.lease == leases[service]
      ensures r.Valid? && window ==> old(ValidNow(service))
      ensures r.Valid? && window && r.lease.pid in world.procs ==> world.procs[r.lease.pid].start == r.lease.start
      ensures r.Valid? && Holder(r.lease) in Safe() && old(Live(world, Holder(leases[service]))) ==> ValidNow(service)
    {
      hide Inv, EnvStep, CommandFits;
      LeaseInPast(service);
      var lease := leases[service];
      var pid := lease.pid;
      ghost var w2 := world;
      var pinned := if window then {pid} else {};
      Env(pinned);
      ghost var w3 := world;
      HolderAcross(service, w2, w3, pinned);
      EnvStepClock(w2, w3, pinned, Holders(), Safe());
      var exe := ReadExe(pid);
      Env(pinned);
      HolderAcross(service, w3, world, pinned);
      EnvStepChain(w2, w3, world, Holders(), pinned, Safe(), pinned, Safe());
      if exe != lease.exe || digestOf(exe) != lease.digest {
        return Refused;
      }
      if !ownedDir(lease.dataDir) {
        return Refused;
      }
      if pid !in world.procs {
        return Vanished;
      }
      NoCommandNoService(service, lease);
      if !CommandFits(service, lease, ReadCommand(pid)) {
        return Refused;
      }
      if lease.ports != ports[service] {
        return Refused;
      }
      return Valid(lease);
    }

    lemma NoCommandNoService(service: Service, lease: Lease)
      ensures !CommandFits(service, lease, [])
    {
    }

    /** `_lease_is_running`; Vanished stands for the OSError it lets through. */
    method LeaseIsRunning(service: Service) returns (r: Check)
      requires Inv()
      modifies this`world
      ensures Inv() && EnvStep(old(world), world, {}, Holders(), Safe())
      ensures !r.Valid? ==> !ValidNow(service)
      ensures r.Valid? || r == Vanished ==> service in leases
      ensures r.Valid? && Holder(r.lease) in Safe() ==> ValidNow(service)
      ensures r.Valid? ==> r.lease == leases[service]
    {
      r := ReadAndValidateLease(service, false);
    }

    method Record(signal: Signal)
      requires Inv() && signal.target in everLeased
      modifies this`signals
      ensures Inv() && signals == old(signals) + [signal] && Safe() <= old(Safe())
    {
      ghost var before := signals;
      signals := signals + [signal];
      assert forall i :: 0 <= i < |before| ==> signals[i] == before[i];
      assert Targets() >= old(Targets());
    }

    /** `os.kill`: the signal goes to whatever process holds the PID now; the
        caller knows that it is the holder of the lease, if any process is. */
    method Deliver(service: Service, kind: Kind) returns (r: Outcome)
      requires Inv() && service in leases
      requires var lease := leases[service];
        lease.pid in world.procs ==> world.procs[lease.pid].start == lease.start
      modifies this`signals
      ensures Inv() && Safe() <= old(Safe())
      ensures r == Raised ==> signals == old(signals) && !ValidNow(service)
      ensures r == Done ==> signals == old(signals) + [Signal(Holder(leases[service]), kind)]
    {
      var pid := leases[service].pid;
      if pid !in world.procs || world.procs[pid].owner != uid {
        return Raised;
      }
      assert Holder(leases[service]) in Holders();
      Record(Signal(Incarnation(pid, world.procs[pid].start), kind));
      return Done;
    }

    /** Poll until the PID no longer runs, or give up at some point. */
    method PollUntilDead(pid: nat, limit: nat)
      requires Inv()
      modifies this`world
      ensures Inv() && EnvStep(old(world), world, {}, Holders(), Safe())
    {
      hide Inv, EnvStep;
      EnvStepReflexive(world, {}, Holders(), Safe());
      var polls := 0;
      var late := false;
      while IsProcessAlive(pid) && !late && polls < limit
        invariant Inv() && EnvStep(old(world), world, {}, Holders(), Safe())
        decreases limit - polls
      {
        ghost var before := world;
        Env({});
        EnvStepChain(old(world), before, world, Holders(), {}, Safe(), {}, Safe());
        polls := polls + 1;
        late := *;
      }
    }

    /** What one stop may send: one request, or SIGTERM then SIGKILL. */
    predicate StopSequence(sent: seq<Signal>, service: Service, holder: Incarnation) {
      || sent == []
      || (service == Postgres && sent == [Signal(holder, PgCtlStop)])
      || (service != Postgres && sent == [Signal(holder, Term)])
      || (service != Postgres && sent == [Signal(holder, Term), Signal(holder, Kill)])
    }

    /** `lease_path.unlink` for a dead holder. */
    method Unlink(service: Service)
      requires Inv() && service in leases && !Live(world, Holder(leases[service]))
      modifies this`leases
      ensures Inv() && leases == old(leases) - {service}
      ensures Holders() <= old(Holders()) && Safe() <= old(Safe())
    {
      ghost var before := leases;
      leases := leases - {service};
      forall i | i in old(Holders())
        ensures i in Holders() || i == Holder(before[service])
      {
        var s :| s in before && i == Holder(before[s]);
        if s != service {
          assert leases[s] == before[s];
        }
      }
    }

    /** `stop_service`. In every interleaving with the environment the requests
        go to the leased incarnation only, SIGTERM first, and the lease goes
        only once that incarnation is dead. */
    method StopService(service: Service) returns (r: Outcome, ghost waited: World)
      requires Inv()
      modifies this`world, this`leases, this`signals
      ensures Inv()
      ensures EnvStep(old(world), world, {}, Holders(), Safe())
      ensures old(signals) <= signals
      ensures signals != old(signals) ==>
        && old(ValidNow(service))
        && StopSequence(signals[|old(signals)|..], service, old(Holder(leases[service])))
      ensures service in old(leases) && old(ValidNow(service)) && old(Holder(leases[service])) in old(Safe()) ==>
        signals != old(signals)
      ensures ValidNow(service) ==> signals == old(signals) + Requests(service, true)
      ensures r == Done ==> leases == old(leases) - {service}
      ensures r == Done && service in old(leases) ==>
        && !Live(world, old(Holder(leases[service])))
        && signals == old(signals) + old(Requests(service, AliveIn(waited, leases[service].pid)))
      ensures r == Raised ==> leases == old(leases) && service in leases
      ensures Safe() <= old(Safe())
    {
      hide Inv, EnvStep, CommandFits, Matches, Targets, Safe, ValidLease;
      waited := world;
      EnvStepReflexive(world, {}, Holders(), Safe());
      if service !in leases {
        assert leases - {service} == leases;
        return Done, waited;
      }
      var holder := Holder(leases[service]);
      r, waited := SignalHolder(service);
      assert signals[|old(signals)|..] == [] || old(signals) + signals[|old(signals)|..] == signals;
      if r == Raised {
        return;
      }
      ghost var w := world;
      LeaseInPast(service);
      Env({});
      EnvStepChain(old(world), w, world, Holders(), {}, Safe(), {}, Safe());
      DeadAcross(holder, w, world);
      ghost var leased, safe := Holders(), Safe();
      Unlink(service);
      EnvStepWeaken(old(world), world, {}, leased, safe, Holders(), Safe());
    }

    lemma DeadAcross(i: Incarnation, a: World, b: World)
      requires Inv() && i in Holders() && EnvStep(a, b, {}, Holders(), Safe())
      requires i.start <= a.clock && !Live(a, i)
      ensures !Live(b, i)
    {
      DeadStaysDead(a, b, i, {}, Holders(), Safe());
    }

    /** What a stop sends: one request to PostgreSQL, otherwise SIGTERM, and SIGKILL
        as well to a process that outlives the first wait. */
    function Requests(service: Service, outlives: bool): seq<Signal>
      requires service in leases
      reads this`leases
    {
      RequestsTo(service, leases[service], outlives)
    }

    function RequestsTo(service: Service, lease: Lease, outlives: bool): seq<Signal> {
      var holder := Holder(lease);
      if service == Postgres then [Signal(holder, PgCtlStop)]
      else if outlives then [Signal(holder, Term), Signal(holder, Kill)]
      else [Signal(holder, Term)]
    }

    /** The part of `stop_service` up to the unlink: Done means dead. A process that
        validates and cannot die is always sent a request; SIGKILL follows exactly
        if it outlives the first wait, at whose end the world is `waited`; and what
        still validates at the end was sent everything. */
    method SignalHolder(service: Service) returns (r: Outcome, ghost waited: World)
      requires Inv() && service in leases
      modifies this`world, this`signals
      ensures Inv() && EnvStep(old(world), world, {}, Holders(), Safe()) && Safe() <= old(Safe())
      ensures EnvStep(old(world), waited, {}, Holders(), {}) && EnvStep(waited, world, {}, Holders(), {})
      ensures old(signals) <= signals
      ensures signals != old(signals) ==>
        && old(ValidNow(service))
        && (signals == old(signals) + Requests(service, false) || signals == old(signals) + Requests(service, true))
      ensures old(ValidNow(service)) && Holder(leases[service]) in old(Safe()) ==> signals != old(signals)
      ensures ValidNow(service) ==> signals == old(signals) + Requests(service, true)
      ensures r == Done ==> !Live(world, Holder(leases[service]))
      ensures r == Done ==> signals == old(signals) + Requests(service, AliveIn(waited, leases[service].pid))
    {
      hide Inv, EnvStep, CommandFits, Matches, Targets, Safe, ValidLease;
      ghost var w0 := world;
      waited := world;
      EnvStepReflexive(world, {}, Holders(), Safe());
      EnvStepReflexive(world, {}, Holders(), {});
      LeaseInPast(service);
      var holder := Holder(leases[service]);
      r := AimedDelivery(service, if service == Postgres then PgCtlStop else Term);
      EnvStepWeaken(w0, world, {}, Holders(), Safe(), Holders(), {});
      if r == Raised {
        return;
      }
      ghost var w1 := world;
      if service == Postgres {
        Env({});
        EnvStepChain(w0, w1, world, Holders(), {}, Safe(), {}, Safe());
        EnvStepWeaken(w0, world, {}, Holders(), Safe(), Holders(), {});
        var fails: bool := *;
        return if fails || Live(world, holder) then Raised else Done, waited;
      }
      PollUntilDead(holder.pid, 150);
      EnvStepChain(w0, w1, world, Holders(), {}, Safe(), {}, Safe());
      waited := world;
      EnvStepWeaken(w0, world, {}, Holders(), Safe(), Holders(), {});
      EnvStepReflexive(world, {}, Holders(), {});
      if IsProcessAlive(holder.pid) {
        r := KillHolder(service, w0);
      } else {
        DeadIsInvalid(service);
      }
    }

    /** The second part, for a process that outlived the first wait. */
    method KillHolder(service: Service, ghost w0: World) returns (r: Outcome)
      requires Inv() && service in leases && service != Postgres
      requires EnvStep(w0, world, {}, Holders(), Safe())
      modifies this`world, this`signals
      ensures Inv() && EnvStep(w0, world, {}, Holders(), Safe()) && Safe() <= old(Safe())
      ensures EnvStep(old(world), world, {}, Holders(), {})
      ensures signals == old(signals) || signals == old(signals) + [Signal(Holder(leases[service]), Kill)]
      ensures r == Done || ValidNow(service) ==> signals != old(signals)
      ensures r == Done ==> !Live(world, Holder(leases[service]))
    {
      hide Inv, EnvStep, CommandFits, Matches, Targets, Safe, ValidLease;
      var pid := leases[service].pid;
      ghost var w2, safe2 := world, Safe();
      r := AimedDelivery(service, Kill);
      EnvStepWeaken(w0, w2, {}, Holders(), safe2, Holders(), Safe());
      EnvStepChain(w0, w2, world, Holders(), {}, Safe(), {}, Safe());
      EnvStepWeaken(w2, world, {}, Holders(), Safe(), Holders(), {});
      if r == Raised {
        return;
      }
      ghost var w3 := world;
      PollUntilDead(pid, 20);
      EnvStepChain(w0, w3, world, Holders(), {}, Safe(), {}, Safe());
      EnvStepWeaken(w3, world, {}, Holders(), Safe(), Holders(), {});
      EnvStepChain(w2, w3, world, Holders(), {}, {}, {}, {});
      r := if IsProcessAlive(pid) then Raised else Done;
    }

    lemma DeadIsInvalid(service: Service)
      requires service in leases && !IsProcessAlive(leases[service].pid)
      ensures !ValidNow(service) && !Live(world, Holder(leases[service]))
    {
    }

    /** Validate the lease, then request the stop: in this window the PID is
        assumed not to change hands. */
    method AimedDelivery(service: Service, kind: Kind) returns (r: Outcome)
      requires Inv() && service in leases
      modifies this`world, this`signals
      ensures Inv() && EnvStep(old(world), world, {}, Holders(), Safe()) && Safe() <= old(Safe())
      ensures r == Raised ==> signals == old(signals) && !ValidNow(service)
      ensures old(ValidNow(service)) && Holder(leases[service]) in old(Safe()) ==> r == Done
      ensures r == Done ==> signals == old(signals) + [Signal(Holder(leases[service]), kind)] && old(ValidNow(service))
    {
      hide Inv, EnvStep, CommandFits, Matches, Targets, Safe, ValidLease;
      ghost var w0 := world;
      LeaseInPast(service);
      var check := ReadAndValidateLease(service, true);
      ValidityAcross(service, w0, world);
      if !check.Valid? {
        return Raised;
      }
      var pid := leases[service].pid;
      ghost var w1, safe := world, Safe();
      LeaseInPast(service);
      Env({pid});
      HolderAcross(service, w1, world, {pid});
      EnvStepChain(w0, w1, world, Holders(), {}, Safe(), {pid}, Safe());
      ValidityAcross(service, w0, world);
      if kind == PgCtlStop {
        HolderLeased(service);
        Record(Signal(Holder(leases[service]), kind));
        r := Done;
      } else {
        r := Deliver(service, kind);
      }
      EnvStepWeaken(w0, world, {}, Holders(), safe, Holders(), Safe());
    }

    lemma HolderLeased(service: Service)
      requires Inv() && service in leases
      ensures Holder(leases[service]) in everLeased
    {
      assert Holder(leases[service]) in Holders();
    }

    // ---------------------------------------------------------------- starting

    /** A new process of ours, if the system grants one. */
    method Spawn() returns (r: Outcome, pid: nat)
      requires Inv()
      modifies this`world, this`spawned
      ensures Inv() && EnvStep(old(world), world, {}, Holders(), Safe())
      ensures r == Done ==> pid in world.procs && world.procs[pid].start > old(world.clock)
      ensures r == Done ==> Live(world, Incarnation(pid, world.procs[pid].start))
      ensures spawned == old(spawned) + if r == Done then [Incarnation(pid, world.procs[pid].start)] else []
      ensures smooth ==> r == Done
    {
      hide EnvStep, Live, Holders, Safe, Targets;
      Env({});
      ghost var before := world;
      pid := 0;
      var fails: bool := *;
      if fails && !smooth {
        return Raised, pid;
      }
      FreePid(world.procs.Keys);
      pid :| pid !in world.procs;
      var exe: string := *;
      var cmd: seq<string> := *;
      var start := world.clock + 1;
      world := World(world.procs[pid := Proc(start, uid, false, exe, cmd)], start);
      spawned := spawned + [Incarnation(pid, start)];
      NewProcess(before, pid, world.procs[pid], Holders(), Safe());
      assert Inv() by {
        StillDeadAfter(before, world);
      }
      EnvStepChain(old(world), before, world, Holders(), {}, Safe(), {}, Safe());
      return Done, pid;
    }

    lemma StillDeadAfter(a: World, b: World)
      requires EnvStep(a, b, {}, Holders(), Safe()) && a.clock <= b.clock
      requires forall i :: i in everLeased ==> i.start <= a.clock
      ensures forall i :: i in everLeased ==> i.start <= b.clock
      ensures forall i :: i in everLeased && !Live(a, i) ==> !Live(b, i)
    {
      hide EnvStep;
      forall i | i in everLeased && !Live(a, i)
        ensures !Live(b, i)
      {
        DeadStaysDead(a, b, i, {}, Holders(), Safe());
      }
    }

    /** `_write_lease` for a child of ours, whose PID cannot change hands before
        we collect it. */
    method WriteLease(service: Service, pid: nat, ghost floor: nat) returns (r: Outcome)
      requires Inv() && service in ports
      requires pid in world.procs && floor < world.procs[pid].start
      modifies this`world, this`leases, this`everLeased, this`abandoned
      ensures Inv() && EnvStep(old(world), world, {}, old(Holders()), old(Safe()))
      ensures old(everLeased) <= everLeased && old(abandoned) <= abandoned
      ensures Overwrites(service, old(leases), old(abandoned), abandoned)
      ensures r == Raised ==> leases == old(leases)
      ensures r == Done ==> service in leases && leases == old(leases)[service := leases[service]] && leases[service].start > floor
      ensures r == Done ==> leases[service].pid == pid && leases[service].start == old(world.procs[pid].start)
      ensures r == Done ==> leases[service].uid == uid && leases[service].digest == digestOf(leases[service].exe)
      ensures r == Done ==> leases[service].dataDir == dataDirOf(service) && leases[service].config == configOf(service)
      ensures r == Done ==> leases[service].ports == ports[service]
      ensures r == Raised && service != OpenSearch ==> !Live(world, Incarnation(pid, old(world.procs[pid].start)))
    {
      var polls := 0;
      ghost var start := world.procs[pid].start;
      EnvStepReflexive(world, {}, Holders(), Safe());
      var ready := false;
      while !ready && polls < 240
        modifies this`world
        invariant Inv() && EnvStep(old(world), world, {}, Holders(), Safe())
        invariant pid in world.procs ==> world.procs[pid].start == start
        invariant !ready && polls > 0 && service != OpenSearch ==> !Live(world, Incarnation(pid, start))
      {
        ready := IsProcessAlive(pid) && (service == OpenSearch ==> IsJava(ReadExe(pid)));
        ghost var before := world;
        Env({pid});
        EnvStepChain(old(world), before, world, Holders(), {}, Safe(), {pid}, Safe());
        polls := polls + 1;
      }
      if !ready {
        return Raised;
      }
      var exe := ReadExe(pid);
      if pid !in world.procs || world.procs[pid].zombie {
        return Raised;
      }
      ghost var before := world;
      Env({pid});
      EnvStepChain(old(world), before, world, Holders(), {}, Safe(), {pid}, Safe());
      ghost var leased, safe := Holders(), Safe();
      if pid !in world.procs {
        return Raised;
      }
      var lease := Lease(pid, world.procs[pid].start, uid, exe, digestOf(exe),
                         dataDirOf(service), configOf(service), ports[service]);
      InstallLease(service, lease);
      return Done;
    }

    /** Nobody was abandoned but the holder of the lease that the service had. */
    ghost predicate Overwrites(service: Service, before: map<Service, Lease>, gone: set<Incarnation>, now: set<Incarnation>) {
      forall i :: i in now && i !in gone ==> service in before && i == Holder(before[service])
    }

    /** The lease file is written over whatever lease was there. */
    method InstallLease(service: Service, lease: Lease)
      requires Inv() && lease.start <= world.clock
      modifies this`leases, this`everLeased, this`abandoned
      ensures Inv() && leases == old(leases)[service := lease]
      ensures everLeased == old(everLeased) + {Holder(lease)} && old(abandoned) <= abandoned
      ensures Overwrites(service, old(leases), old(abandoned), abandoned)
    {
      if service in leases && Live(world, Holder(leases[service])) {
        abandoned := abandoned + {Holder(leases[service])};
        assert Holder(leases[service]) in Holders();
      }
      ghost var before := leases;
      leases := leases[service := lease];
      everLeased := everLeased + {Holder(lease)};
      forall i | i in old(Holders())
        ensures i in Holders() || (service in before && i == Holder(before[service]))
      {
        var s :| s in before && i == Holder(before[s]);
        if s != service {
          assert leases[s] == before[s];
        }
      }
      assert leases[service] == lease;
      assert Holder(lease) in Holders();
      forall i | i in everLeased
        ensures i in Holders() || i in abandoned || !Live(world, i)
      {
        assert i in old(Holders()) || i in old(abandoned) || !Live(world, i) || i == Holder(lease);
      }
    }

    /** `start_service`. It signals nobody, and touches no other lease. */
    method StartService(service: Service) returns (r: Outcome)
      requires Inv()
      modifies this`world, this`leases, this`everLeased, this`abandoned, this`spawned
      ensures Inv() && EnvStep(old(world), world, {}, Holders(), Safe())
      ensures old(everLeased) <= everLeased && old(abandoned) <= abandoned
      ensures Overwrites(service, old(leases), old(abandoned), abandoned)
      ensures spawned == old(spawned) || (|spawned| == |old(spawned)| + 1 && old(spawned) <= spawned)
      ensures r == Raised && smooth ==>
        if spawned == old(spawned) then service in leases && leases == old(leases) && !ValidNow(service)
        else service == OpenSearch || !Live(world, spawned[|spawned| - 1])
      ensures service !in old(leases) && smooth ==> spawned != old(spawned)
      ensures r == Done ==> service in leases
      ensures r == Done && Holder(leases[service]) in Safe() ==>
        ValidNow(service) || leases[service].start > old(world.clock)
      ensures leases == old(leases) || (
        && service in leases && leases == old(leases)[service := leases[service]]
        && leases[service].start > old(world.clock))
    {
      hide Inv, EnvStep, CommandFits, Matches, Targets, ValidLease, Overwrites;
      ghost var w0, leases0 := world, leases;
      Facts();
      NothingOverwritten(service);
      var check := LeaseIsRunning(service);
      if check.Valid? {
        return Done;
      }
      if check == Vanished {
        return Raised;
      }
      ghost var w1, leased, safe := world, Holders(), Safe();
      EnvStepClock(w0, w1, {}, leased, safe);
      Facts();
      r := Launch(service);
      EnvStepThen(w0, w1, world, leased, safe, Holders(), Safe());
    }

    lemma NothingOverwritten(service: Service)
      ensures Overwrites(service, leases, abandoned, abandoned)
    {
    }

    /** The start of a service that does not run. */
    method Launch(service: Service) returns (r: Outcome)
      requires Inv()
      modifies this`world, this`leases, this`everLeased, this`abandoned, this`spawned
      ensures Inv() && EnvStep(old(world), world, {}, Holders(), Safe())
      ensures forall i :: i in Holders() ==> i in old(Holders()) || old(world.clock) < i.start
      ensures forall i :: i in Safe() ==> i in old(Safe()) || old(world.clock) < i.start
      ensures old(everLeased) <= everLeased && old(abandoned) <= abandoned
      ensures Overwrites(service, old(leases), old(abandoned), abandoned)
      ensures spawned == old(spawned) || (|spawned| == |old(spawned)| + 1 && old(spawned) <= spawned)
      ensures r == Raised && smooth ==>
        spawned != old(spawned) && (service == OpenSearch || !Live(world, spawned[|spawned| - 1]))
      ensures smooth ==> spawned != old(spawned)
      ensures r == Done ==> service in leases && leases[service].start > old(world.clock)
      ensures leases == old(leases) || (
        && service in leases && leases == old(leases)[service := leases[service]]
        && leases[service].start > old(world.clock))
    {
      hide Inv, EnvStep, CommandFits, Matches, Targets, ValidLease, Overwrites, Live, Safe, Holders;
      NothingOverwritten(service);
      EnvStepReflexive(world, {}, Holders(), Safe());
      var refused: bool := *;             // a port is taken, or the setup fails
      if refused && !smooth {
        return Raised;
      }
      ghost var w0 := world;
      r := SpawnLeased(service);
      if r == Raised {
        return;
      }
      ghost var w := world;
      Env({});
      EnvStepChain(w0, w, world, Holders(), {}, Safe(), {}, Safe());
      var ready: bool := *;               // the readiness probe may time out
      return if ready || smooth then Done else Raised;
    }

    /** A new process with its lease. */
    method SpawnLeased(service: Service) returns (r: Outcome)
      requires Inv()
      modifies this`world, this`leases, this`everLeased, this`abandoned, this`spawned
      ensures Inv() && EnvStep(old(world), world, {}, Holders(), Safe())
      ensures forall i :: i in Holders() ==> i in old(Holders()) || old(world.clock) < i.start
      ensures forall i :: i in Safe() ==> i in old(Safe()) || old(world.clock) < i.start
      ensures old(everLeased) <= everLeased && old(abandoned) <= abandoned
      ensures Overwrites(service, old(leases), old(abandoned), abandoned)
      ensures spawned == old(spawned) || (|spawned| == |old(spawned)| + 1 && old(spawned) <= spawned)
      ensures r == Raised && smooth ==>
        spawned != old(spawned) && (service == OpenSearch || !Live(world, spawned[|spawned| - 1]))
      ensures smooth ==> spawned != old(spawned)
      ensures r == Done ==> service in leases && leases[service].start > old(world.clock)
      ensures leases == old(leases) || (
        && service in leases && leases == old(leases)[service := leases[service]]
        && leases[service].start > old(world.clock))
    {
      hide Inv, EnvStep, CommandFits, Matches, Targets, ValidLease, Overwrites, Live, Holders, Safe;
      ghost var w0, leased, safe := world, Holders(), Safe();
      WhoIsSafe();
      NothingOverwritten(service);
      Facts();
      var pid;
      r, pid := Spawn();
      if r == Raised {
        return;
      }
      ghost var w, before := world, leases;
      r := WriteLease(service, pid, w0.clock);
      EnvStepChain(w0, w, world, leased, {}, safe, {}, safe);
      EnvStepReflexive(world, {}, Holders(), Safe());
      FreshSafe(before, safe, leased, w0);
      EnvStepThen(w0, world, world, leased, safe, Holders(), Safe());
    }

    lemma WhoIsSafe()
      ensures Holders() == (set s | s in leases :: Holder(leases[s]))
      ensures Safe() == if calm then Holders() - Targets() else {}
    {
    }

    /** Who is safe in addition is fresh, as long as the same processes were signalled. */
    lemma FreshSafe(before: map<Service, Lease>, safe: set<Incarnation>, leased: set<Incarnation>, w0: World)
      requires leased == (set s | s in before :: Holder(before[s]))
      requires safe == if calm then leased - Targets() else {}
      requires forall s :: s in leases ==> leases[s].start > w0.clock || (s in before && leases[s] == before[s])
      ensures forall i :: i in Holders() ==> i in leased || w0.clock < i.start
      ensures forall i :: i in Safe() ==> i in safe || w0.clock < i.start
    {
    }

    lemma Facts()
      requires Inv()
      ensures WorldOk(world) && ports.Keys == {Postgres, OpenSearch, Minio, Otel}
      ensures Holders() <= everLeased && Targets() <= everLeased
      ensures forall s :: s in leases ==> leases[s].start <= world.clock
    {
      forall s | s in leases
        ensures leases[s].start <= world.clock
      {
        LeaseInPast(s);
      }
    }

    // ---------------------------------------------------------------- the fleet

    /** `health_service` */
    method HealthService(service: Service) returns (r: Outcome)
      requires Inv()
      modifies this`world
      ensures Inv() && EnvStep(old(world), world, {}, Holders(), Safe())
      ensures r == Done ==> service in leases && (Holder(leases[service]) in Safe() ==> ValidNow(service))
      ensures r == Raised && smooth ==> !ValidNow(service)
    {
      var check := ReadAndValidateLease(service, false);
      if !check.Valid? {
        return Raised;
      }
      var healthy: bool := *;             // probes and port checks
      return if healthy || smooth then Done else Raised;
    }

    /** The state in which `up` was entered. */
    ghost predicate Entry(w0: World, leases0: map<Service, Lease>, safe0: set<Incarnation>)
      reads this`signals
    {
      && WorldOk(w0)
      && (forall s :: s in leases0 ==> leases0[s].start <= w0.clock)
      && safe0 == (if calm then (set s | s in leases0 :: Holder(leases0[s])) - Targets() else {})
    }

    /** What `up` has guaranteed so far: what it did not touch is as it was,
        what it touched is new or was never valid, and what was valid at entry
        and could not die was not touched. */
    ghost predicate Progress(w0: World, leases0: map<Service, Lease>, safe0: set<Incarnation>, touched: set<Service>,
                             w: World, now: map<Service, Lease>) {
      && (forall s :: s !in touched ==> (s in now <==> s in leases0) && (s in leases0 ==> now[s] == leases0[s]))
      && (forall s :: s in touched && s in now ==> now[s].start > w0.clock || !ValidLease(w, s, now[s]))
      && (forall s :: s in touched && s in leases0 && ValidLease(w0, s, leases0[s]) ==> Holder(leases0[s]) !in safe0)
    }

    ghost predicate SoFar(w0: World, leases0: map<Service, Lease>, safe0: set<Incarnation>, touched: set<Service>)
      reads this`world, this`leases, this`signals, this`everLeased, this`abandoned
    {
      Inv() && EnvStep(w0, world, {}, Holders(), Safe()) && Progress(w0, leases0, safe0, touched, world, leases)
    }

    lemma ProgressEnv(w0: World, leases0: map<Service, Lease>, safe0: set<Incarnation>, touched: set<Service>,
                      a: World, b: World)
      requires Progress(w0, leases0, safe0, touched, a, leases) && EnvStep(a, b, {}, Holders(), Safe())
      requires forall s :: s in leases ==> leases[s].start <= a.clock
      ensures Progress(w0, leases0, safe0, touched, b, leases)
    {
      hide EnvStep, Matches, ValidLease;
      forall s | s in touched && s in leases
        ensures leases[s].start > w0.clock || !ValidLease(b, s, leases[s])
      {
        ValidityAcross(s, a, b);
      }
    }

    lemma ProgressTouch(w0: World, leases0: map<Service, Lease>, safe0: set<Incarnation>, touched: set<Service>,
                        service: Service, a: World, before: map<Service, Lease>, b: World)
      requires w0.clock <= a.clock && Progress(w0, leases0, safe0, touched, a, before)
      requires EnvStep(a, b, {}, Holders(), Safe())
      requires forall s :: s in before ==> before[s].start <= a.clock
      requires leases == before || (
        service in leases && leases == before[service := leases[service]] && leases[service].start > a.clock)
      requires service in before ==> !ValidLease(a, service, before[service])
      requires service in leases0 && ValidLease(w0, service, leases0[service]) ==> Holder(leases0[service]) !in safe0
      ensures Progress(w0, leases0, safe0, touched + {service}, b, leases)
    {
      hide EnvStep, Matches, ValidLease;
      forall s | s in touched + {service} && s in leases
        ensures leases[s].start > w0.clock || !ValidLease(b, s, leases[s])
      {
        if leases[s].start <= a.clock {
          ValidityAcross(s, a, b);
        }
      }
    }

    /** A lease found invalid was invalid at entry, or its holder could die. */
    lemma FoundInvalid(w0: World, leases0: map<Service, Lease>, safe0: set<Incarnation>, touched: set<Service>, service: Service)
      requires Entry(w0, leases0, safe0) && SoFar(w0, leases0, safe0, touched)
      requires service !in touched && !ValidNow(service)
      ensures service in leases0 && ValidLease(w0, service, leases0[service]) ==> Holder(leases0[service]) !in safe0
    {
      hide EnvStep, Matches, ValidLease;
      if service in leases0 {
        ValidityAcross(service, w0, world);
      }
    }

    /** The service ran when `up` was entered, and its process cannot die. */
    predicate RanSafely(w0: World, leases0: map<Service, Lease>, safe0: set<Incarnation>, service: Service) {
      ValidUnder(w0, service, leases0) && Holder(leases0[service]) in safe0
    }

    /** One round of the start loop. */
    method StartOne(service: Service, ghost w0: World, ghost leases0: map<Service, Lease>,
                    ghost safe0: set<Incarnation>, ghost touched: set<Service>)
      returns (r: Outcome, started: bool)
      requires Entry(w0, leases0, safe0) && SoFar(w0, leases0, safe0, touched) && service !in touched
      modifies this`world, this`leases, this`everLeased, this`abandoned, this`journal, this`spawned
      ensures Entry(w0, leases0, safe0) && old(leases).Keys <= leases.Keys
      ensures old(everLeased) <= everLeased && old(abandoned) <= abandoned
      ensures r == Done ==> service in leases
      ensures r == Raised ==> !started
      ensures journal == old(journal) ==> SoFar(w0, leases0, safe0, touched) && abandoned == old(abandoned)
      ensures journal != old(journal) ==>
        SoFar(w0, leases0, safe0, touched + {service}) && Overwrites(service, old(leases), old(abandoned), abandoned)
      ensures r == Done ==> journal == old(journal) + (if started then [Begin(service), Started(service)] else [])
      ensures r == Raised ==> journal == old(journal) || journal == old(journal) + [Begin(service)]
      ensures RanSafely(w0, leases0, safe0, service) ==> r == Done && !started
      ensures service !in old(leases) && smooth ==> journal != old(journal)
    {
      hide EnvStep, Matches, Targets, ValidLease, Progress, Inv, Overwrites;
      Facts();
      ghost var w := world;
      var check := LeaseIsRunning(service);
      EnvStepChain(w0, w, world, Holders(), {}, Safe(), {}, Safe());
      ProgressEnv(w0, leases0, safe0, touched, w, world);
      if check.Valid? {
        return Done, false;
      }
      FoundInvalid(w0, leases0, safe0, touched, service);
      if check == Vanished {
        return Raised, false;
      }
      var refused: bool := *;             // a port is taken
      if refused && !smooth {
        return Raised, false;
      }
      r := BeginOne(service, w0, leases0, safe0, touched);
      started := r == Done;
    }

    /** The start itself, of a service found not running. */
    method BeginOne(service: Service, ghost w0: World, ghost leases0: map<Service, Lease>,
                    ghost safe0: set<Incarnation>, ghost touched: set<Service>) returns (r: Outcome)
      requires Entry(w0, leases0, safe0) && SoFar(w0, leases0, safe0, touched)
      requires service !in touched && !ValidNow(service)
      modifies this`world, this`leases, this`everLeased, this`abandoned, this`journal, this`spawned
      ensures Entry(w0, leases0, safe0) && SoFar(w0, leases0, safe0, touched + {service})
      ensures old(leases).Keys <= leases.Keys && (r == Done ==> service in leases)
      ensures old(everLeased) <= everLeased && old(abandoned) <= abandoned
      ensures Overwrites(service, old(leases), old(abandoned), abandoned)
      ensures journal == old(journal) + if r == Done then [Begin(service), Started(service)] else [Begin(service)]
      ensures smooth && service !in old(leases) ==> spawned != old(spawned)
      ensures spawned == old(spawned) || (|spawned| == |old(spawned)| + 1 && old(spawned) <= spawned)
      ensures smooth && r == Raised && spawned != old(spawned) ==>
        service == OpenSearch || !Live(world, spawned[|spawned| - 1])
    {
      hide EnvStep, Matches, Targets, ValidLease, Progress, Inv, Overwrites;
      FoundInvalid(w0, leases0, safe0, touched, service);
      journal := journal + [Begin(service)];
      ghost var w1, leases1, leased1, safe1 := world, leases, Holders(), Safe();
      EnvStepClock(w0, w1, {}, leased1, safe1);
      Facts();
      r := StartService(service);
      EnvStepThen(w0, w1, world, leased1, safe1, Holders(), Safe());
      ProgressTouch(w0, leases0, safe0, touched, service, w1, leases1, world);
      if r == Done {
        journal := journal + [Started(service)];
      }
    }

    /** Whoever was abandoned since held a lease of a service touched since. */
    ghost predicate Forsook(leases0: map<Service, Lease>, gone0: set<Incarnation>, touched: set<Service>, now: set<Incarnation>) {
      forall i :: i in now && i !in gone0 ==> exists s :: s in touched && s in leases0 && i == Holder(leases0[s])
    }

    lemma ForsookGrows(leases0: map<Service, Lease>, gone0: set<Incarnation>, touched: set<Service>, service: Service,
                       before: map<Service, Lease>, gone: set<Incarnation>, now: set<Incarnation>)
      requires Forsook(leases0, gone0, touched, gone)
      requires now == gone || Overwrites(service, before, gone, now)
      requires service in before ==> service in leases0 && before[service] == leases0[service]
      ensures Forsook(leases0, gone0, touched + {service}, now)
      ensures now == gone ==> Forsook(leases0, gone0, touched, now)
    {
    }

    /** PostgreSQL first, then OpenSearch, MinIO and OTel. */
    predicate InOrderOfStart(started: seq<Service>) {
      forall i, j :: 0 <= i < j < |started| ==> Rank(started[i]) < Rank(started[j])
    }

    function Rank(service: Service): nat {
      match service
      case Postgres => 0
      case OpenSearch => 1
      case Minio => 2
      case Otel => 3
    }

    /** The loop of `up` that starts what is not running. */
    method StartAll(ghost w0: World, ghost leases0: map<Service, Lease>, ghost safe0: set<Incarnation>)
      returns (r: Outcome, started: seq<Service>, ghost touched: set<Service>, ghost added: seq<Event>)
      requires Entry(w0, leases0, safe0) && SoFar(w0, leases0, safe0, {})
      modifies this`world, this`leases, this`everLeased, this`abandoned, this`journal, this`spawned
      ensures Entry(w0, leases0, safe0) && SoFar(w0, leases0, safe0, touched)
      ensures old(everLeased) <= everLeased && old(abandoned) <= abandoned
      ensures Forsook(leases0, old(abandoned), touched, abandoned)
      ensures journal == old(journal) + added
      ensures StartedIn(added) == started && TriedIn(added) == [] && InOrderOfStart(started)
      ensures forall s :: s in touched <==> s in started || Pending(added, s)
      ensures forall s, t :: Pending(added, s) && Pending(added, t) ==> s == t
      ensures r == Done ==> (forall s :: !Pending(added, s)) && (forall s :: s in leases)
      ensures (forall s :: RanSafely(w0, leases0, safe0, s)) ==> r == Done && added == []
      ensures smooth && leases0 == map[] ==> if r == Done then started == SERVICE_ORDER else AnyPending(added)
    {
      hide Inv, EnvStep, Matches, Targets, SoFar, Entry, Pending, StartedIn, TriedIn, Overwrites, Forsook, RanSafely,
        Holders, Safe, ValidLease, Live, Rounds, AnyPending, Climbing, InOrderOfStart;
      ghost var gone0 := abandoned;
      started, touched, added := [], {}, [];
      StartClimbing(w0, leases0, safe0);
      var i := 0;
      while i < |SERVICE_ORDER|
        invariant 0 <= i <= |SERVICE_ORDER|
        invariant Climbing(w0, leases0, safe0, gone0, i, started, touched, added)
        invariant old(everLeased) <= everLeased && gone0 <= abandoned
        invariant journal == old(journal) + added
      {
        ghost var before := added;
        r, started, touched, added := StartNext(i, w0, leases0, safe0, gone0, started, touched, added);
        assert added == before + added[|before|..];
        if r == Raised {
          return;
        }
        i := i + 1;
      }
      EndClimbing(w0, leases0, safe0, gone0, started, touched, added);
      r := Done;
    }

    /** What the start loop keeps: the first `i` services are leased, and what was
        started is exactly what was touched and what the journal says. */
    ghost predicate Climbing(w0: World, leases0: map<Service, Lease>, safe0: set<Incarnation>, gone0: set<Incarnation>, i: nat,
                             started: seq<Service>, touched: set<Service>, added: seq<Event>)
      reads this`world, this`leases, this`signals, this`everLeased, this`abandoned
    {
      && Entry(w0, leases0, safe0) && SoFar(w0, leases0, safe0, touched)
      && Forsook(leases0, gone0, touched, abandoned) && Rounds(added, started)
      && (forall s :: s in touched <==> s in started)
      && InOrderOfStart(started) && (forall s :: s in started ==> Rank(s) < i)
      && (forall s :: Rank(s) < i ==> s in leases)
      && ((forall s :: RanSafely(w0, leases0, safe0, s)) ==> added == [])
      && (smooth && leases0 == map[] ==> |started| == i)
    }

    lemma StartClimbing(w0: World, leases0: map<Service, Lease>, safe0: set<Incarnation>)
      requires Entry(w0, leases0, safe0) && SoFar(w0, leases0, safe0, {})
      ensures Climbing(w0, leases0, safe0, abandoned, 0, [], {}, [])
    {
      hide Inv, EnvStep, Entry, SoFar, Rounds, RanSafely;
      NoneForsaken(leases0);
      RoundsEmpty();
    }

    lemma EndClimbing(w0: World, leases0: map<Service, Lease>, safe0: set<Incarnation>, gone0: set<Incarnation>,
                      started: seq<Service>, touched: set<Service>, added: seq<Event>)
      requires Climbing(w0, leases0, safe0, gone0, 4, started, touched, added)
      ensures Entry(w0, leases0, safe0) && SoFar(w0, leases0, safe0, touched) && Forsook(leases0, gone0, touched, abandoned)
      ensures StartedIn(added) == started && TriedIn(added) == [] && InOrderOfStart(started)
      ensures forall s :: s in touched <==> s in started
      ensures (forall s :: !Pending(added, s)) && (forall s :: s in leases)
      ensures (forall s :: RanSafely(w0, leases0, safe0, s)) ==> added == []
      ensures smooth && leases0 == map[] ==> started == SERVICE_ORDER
    {
      hide Inv, EnvStep, Entry, SoFar, RanSafely, Forsook;
      RoundsMean(added, started);
      if |started| == 4 {
        AllFour(started);
      }
    }

    /** Four services in the order of their start are all of them. */
    lemma AllFour(started: seq<Service>)
      requires |started| == 4 && InOrderOfStart(started)
      ensures started == SERVICE_ORDER
    {
      assert Rank(started[0]) < Rank(started[1]) < Rank(started[2]) < Rank(started[3]);
      assert started == [started[0], started[1], started[2], started[3]];
    }

    /** One round of the start loop, with what it adds to the journal. */
    method StartNext(i: nat, ghost w0: World, ghost leases0: map<Service, Lease>, ghost safe0: set<Incarnation>,
                     ghost gone0: set<Incarnation>, started: seq<Service>, ghost touched: set<Service>, ghost added: seq<Event>)
      returns (r: Outcome, now: seq<Service>, ghost touched': set<Service>, ghost added': seq<Event>)
      requires i < |SERVICE_ORDER| && Climbing(w0, leases0, safe0, gone0, i, started, touched, added)
      modifies this`world, this`leases, this`everLeased, this`abandoned, this`journal, this`spawned
      ensures old(everLeased) <= everLeased && old(abandoned) <= abandoned
      ensures added <= added' && journal == old(journal) + added'[|added|..]
      ensures r == Done ==> Climbing(w0, leases0, safe0, gone0, i + 1, now, touched', added')
      ensures r == Raised ==> Broken(w0, leases0, safe0, gone0, now, touched', added')
    {
      hide Inv, EnvStep, Matches, Targets, SoFar, Entry, Pending, StartedIn, TriedIn, Overwrites, Forsook, RanSafely,
        Holders, Safe, ValidLease, Live, Rounds, AnyPending;
      var service := SERVICE_ORDER[i];
      assert Rank(service) == i && service !in touched;
      ghost var before := journal;
      Untouched(w0, leases0, safe0, touched, service);
      ghost var held, gone := leases, abandoned;
      var grew;
      r, grew := StartOne(service, w0, leases0, safe0, touched);
      ForsookGrows(leases0, gone0, touched, service, held, gone, abandoned);
      RoundsMean(added, started);
      now, touched', added' := started, touched, added;
      if r == Raised {
        if journal != before {
          RoundsBreak(added, started, service);
          touched', added' := touched + {service}, added + [Begin(service)];
        }
      } else if grew {
        RoundsGrow(added, started, service);
        added' := added + [Begin(service), Started(service)];
        now, touched' := started + [service], touched + {service};
      }
      if r == Done {
        NextRank(i);
      }
    }

    lemma NextRank(i: nat)
      requires i < |SERVICE_ORDER|
      ensures forall s :: Rank(s) < i + 1 <==> Rank(s) < i || s == SERVICE_ORDER[i]
    {
    }

    /** The state in which the start loop gives up. */
    ghost predicate Broken(w0: World, leases0: map<Service, Lease>, safe0: set<Incarnation>, gone0: set<Incarnation>,
                           started: seq<Service>, touched: set<Service>, added: seq<Event>)
      reads this`world, this`leases, this`signals, this`everLeased, this`abandoned
    {
      && Entry(w0, leases0, safe0) && SoFar(w0, leases0, safe0, touched)
      && Forsook(leases0, gone0, touched, abandoned)
      && StartedIn(added) == started && TriedIn(added) == [] && InOrderOfStart(started)
      && (forall s :: s in touched <==> s in started || Pending(added, s))
      && (forall s, t :: Pending(added, s) && Pending(added, t) ==> s == t)
      && !(forall s :: RanSafely(w0, leases0, safe0, s))
      && (smooth && leases0 == map[] ==> AnyPending(added))
    }

    lemma NoneForsaken(leases0: map<Service, Lease>)
      ensures Forsook(leases0, abandoned, {}, abandoned)
    {
    }

    lemma Untouched(w0: World, leases0: map<Service, Lease>, safe0: set<Incarnation>, touched: set<Service>, service: Service)
      requires SoFar(w0, leases0, safe0, touched) && service !in touched
      ensures service in leases ==> service in leases0 && leases[service] == leases0[service]
    {
      hide Inv, EnvStep;
    }

    lemma InOrder()
      requires forall j :: 0 <= j < |SERVICE_ORDER| ==> SERVICE_ORDER[j] in leases
      ensures forall s :: s in leases
    {
      forall s: Service
        ensures s in leases
      {
        assert s == SERVICE_ORDER[match s case Postgres => 0 case OpenSearch => 1 case Minio => 2 case Otel => 3];
      }
    }

    /** `health`: every service, in order. */
    method Health() returns (r: Outcome)
      requires Inv()
      modifies this`world
      ensures Inv() && EnvStep(old(world), world, {}, Holders(), Safe())
      ensures r == Done ==> forall s :: s in leases && (Holder(leases[s]) in Safe() ==> ValidNow(s))
      ensures r == Raised && smooth ==> exists s :: !ValidNow(s)
    {
      hide Inv, EnvStep, Matches, Targets, ValidLease;
      EnvStepReflexive(world, {}, Holders(), Safe());
      var i := 0;
      while i < |SERVICE_ORDER|
        invariant 0 <= i <= |SERVICE_ORDER|
        invariant Inv() && EnvStep(old(world), world, {}, Holders(), Safe())
        invariant forall j :: 0 <= j < i ==>
          var s := SERVICE_ORDER[j]; s in leases && (Holder(leases[s]) in Safe() ==> ValidNow(s))
      {
        ghost var w := world;
        Facts();
        r := HealthService(SERVICE_ORDER[i]);
        EnvStepChain(old(world), w, world, Holders(), {}, Safe(), {}, Safe());
        forall j | 0 <= j < i
          ensures var s := SERVICE_ORDER[j]; s in leases && (Holder(leases[s]) in Safe() ==> ValidNow(s))
        {
          ValidityAcross(SERVICE_ORDER[j], w, world);
        }
        if r == Raised {
          return;
        }
        i := i + 1;
      }
      InOrder();
      forall s: Service
        ensures Holder(leases[s]) in Safe() ==> ValidNow(s)
      {
        assert s == SERVICE_ORDER[match s case Postgres => 0 case OpenSearch => 1 case Minio => 2 case Otel => 3];
      }
      r := Done;
    }

    /** Leases that are new since `floor`, or were never valid since. */
    ghost predicate NewOrInvalid(services: seq<Service>, floor: nat)
      reads this`world, this`leases
    {
      forall s :: s in services && s in leases ==> leases[s].start > floor || !ValidNow(s)
    }

    /** A request went to the process since. */
    predicate AskedIn(sent: seq<Signal>, from: nat, i: Incarnation) {
      exists k: nat :: from <= k < |sent| && sent[k].target == i
    }

    /** A stop was tried and did what it could: the holder of the lease was sent a
        request, or the lease is still there and does not validate. */
    predicate DealtIn(w: World, held: map<Service, Lease>, sent: seq<Signal>, service: Service, lease: Lease, from: nat) {
      AskedIn(sent, from, Holder(lease)) || (service in held && held[service] == lease && !ValidLease(w, service, lease))
    }

    ghost predicate Dealt(service: Service, lease: Lease, from: nat)
      reads this`world, this`leases, this`signals
    {
      DealtIn(world, leases, signals, service, lease, from)
    }

    lemma DealtNow(service: Service, lease: Lease, sent: seq<Signal>, r: Outcome, outlives: bool)
      requires r == Done ==> signals == sent + RequestsTo(service, lease, outlives)
      requires r == Raised ==> service in leases && leases[service] == lease
      requires r == Raised && ValidNow(service) ==> signals == sent + RequestsTo(service, lease, true)
      ensures Dealt(service, lease, |sent|)
    {
      hide ValidLease;
      if r == Done || ValidNow(service) {
        assert signals[|sent|].target == Holder(lease);
      }
    }

    lemma DealtEarlier(service: Service, lease: Lease, from: nat, earlier: nat)
      requires Dealt(service, lease, from) && earlier <= from
      ensures Dealt(service, lease, earlier)
    {
      hide ValidLease;
    }

    lemma DealtStays(service: Service, lease: Lease, from: nat, stopped: Service,
                     w: World, before: map<Service, Lease>, sent: seq<Signal>)
      requires DealtIn(w, before, sent, service, lease, from) && (service != stopped || service !in before)
      requires sent <= signals && (leases == before || leases == before - {stopped})
      requires service in leases && ValidNow(service) ==> ValidUnder(w, service, before)
      ensures Dealt(service, lease, from)
    {
      hide ValidLease;
      if AskedIn(sent, from, Holder(lease)) {
        var k: nat :| from <= k < |sent| && sent[k].target == Holder(lease);
        assert signals[k].target == Holder(lease);
      }
    }

    /** `stop_service` as the two callers see it that go on whatever it comes to. */
    method StopDealt(service: Service) returns (r: Outcome)
      requires Inv()
      modifies this`world, this`leases, this`signals
      ensures Inv() && EnvStep(old(world), world, {}, Holders(), Safe())
      ensures old(signals) <= signals
      ensures signals != old(signals) ==>
        && old(ValidNow(service))
        && StopSequence(signals[|old(signals)|..], service, old(Holder(leases[service])))
      ensures leases == if r == Done then old(leases) - {service} else old(leases)
      ensures r == Raised ==> service in leases
      ensures Holders() <= old(Holders()) && Safe() <= old(Safe())
      ensures service in old(leases) ==> Dealt(service, old(leases[service]), |old(signals)|)
      ensures service in old(leases) && !old(ValidNow(service)) ==> r == Raised
      ensures forall s :: s in leases && ValidNow(s) ==> old(ValidNow(s))
    {
      hide Inv, EnvStep, Matches, Targets, ValidLease, StopSequence, DealtIn, AskedIn, RequestsTo;
      ghost var w, sent, before := world, signals, leases;
      Facts();
      ghost var waited;
      r, waited := StopService(service);
      HoldersShrink(before);
      if service in before {
        DealtNow(service, before[service], sent, r, AliveIn(waited, before[service].pid));
        SomethingSent(sent, service, before[service], AliveIn(waited, before[service].pid));
      }
      forall s | s in leases && ValidNow(s)
        ensures old(ValidNow(s))
      {
        ValidityAcross(s, w, world);
      }
    }

    lemma SomethingSent(sent: seq<Signal>, service: Service, lease: Lease, outlives: bool)
      ensures sent + RequestsTo(service, lease, outlives) != sent
    {
      assert |sent + RequestsTo(service, lease, outlives)| > |sent|;
    }

    /** One suppressed stop of the rollback. */
    method StopAndGoOn(service: Service, ghost started: seq<Service>, ghost floor: nat) returns (r: Outcome)
      requires Inv() && NewOrInvalid(started, floor) && service in started
      modifies this`world, this`leases, this`signals, this`journal
      ensures Inv() && EnvStep(old(world), world, {}, Holders(), Safe()) && NewOrInvalid(started, floor)
      ensures old(signals) <= signals
      ensures forall i :: |old(signals)| <= i < |signals| ==> signals[i].target.start > floor
      ensures journal == old(journal) + [StopTried(service, r)]
      ensures leases == if r == Done then old(leases) - {service} else old(leases)
      ensures Holders() <= old(Holders()) && Safe() <= old(Safe())
      ensures service in old(leases) ==> Dealt(service, old(leases[service]), |old(signals)|)
      ensures forall s :: s in leases && ValidNow(s) ==> old(ValidNow(s))
    {
      hide Inv, EnvStep, Matches, Targets, ValidLease, StopSequence, DealtIn;
      ghost var sent, before := signals, leases;
      r := StopDealt(service);
      SentTo(signals, sent, service, before, floor);
      journal := journal + [StopTried(service, r)];
    }

    /** The handler of `up`: stop what was started, newest first, whatever each
        stop comes to. */
    method RollBack(started: seq<Service>, ghost floor: nat) returns (ghost tries: seq<Event>)
      requires Inv() && NewOrInvalid(started, floor)
      modifies this`world, this`leases, this`signals, this`journal
      ensures Inv() && EnvStep(old(world), world, {}, Holders(), Safe())
      ensures Holders() <= old(Holders()) && Safe() <= old(Safe())
      ensures old(signals) <= signals
      ensures forall i :: |old(signals)| <= i < |signals| ==> signals[i].target.start > floor
      ensures journal == old(journal) + tries
      ensures TriedIn(tries) == Reverse(started) && StartedIn(tries) == []
      ensures forall i :: 0 <= i < |tries| ==> tries[i].StopTried?
      ensures forall s :: s in leases ==>
        s in old(leases) && leases[s] == old(leases[s]) && (s in started ==> StopTried(s, Raised) in tries)
      ensures forall s :: s in old(leases) && s !in started ==> s in leases
      ensures forall s :: s in started && s in old(leases) ==> Dealt(s, old(leases[s]), |old(signals)|)
    {
      hide Inv, EnvStep, NewOrInvalid, Holders, Safe, StartedIn, TriedIn, ValidLease, BackwardIn;
      ghost var leases0, from := leases, |signals|;
      EnvStepReflexive(world, {}, Holders(), Safe());
      tries := [];
      EmptyJournal();
      StartBackward();
      var k := |started|;
      while k > 0
        invariant 0 <= k <= |started|
        invariant Inv() && EnvStep(old(world), world, {}, Holders(), Safe()) && NewOrInvalid(started, floor)
        invariant Holders() <= old(Holders()) && Safe() <= old(Safe())
        invariant old(signals) <= signals
        invariant forall i :: |old(signals)| <= i < |signals| ==> signals[i].target.start > floor
        invariant journal == old(journal) + tries
        invariant TriedIn(tries) == Reverse(started[k..]) && StartedIn(tries) == []
        invariant forall i :: 0 <= i < |tries| ==> tries[i].StopTried?
        invariant Backward(leases0, started[k..], tries, from)
      {
        k := k - 1;
        ghost var w, leased, safe, sent, before := world, Holders(), Safe(), signals, leases;
        var r := StopAndGoOn(started[k], started, floor);
        assert started[k..] == [started[k]] + started[k + 1..];
        BackwardStep(leases0, started[k], started[k + 1..], tries, from, r, w, before, sent);
        EnvStepWeaken(old(world), w, {}, leased, safe, Holders(), Safe());
        EnvStepChain(old(world), w, world, Holders(), {}, Safe(), {}, Safe());
        JournalStep(tries, StopTried(started[k], r));
        assert started[k..][1..] == started[k + 1..];
        assert forall i :: |sent| <= i < |signals| ==> signals[i].target.start > floor;
        tries := tries + [StopTried(started[k], r)];
      }
      assert started[0..] == started;
      EndBackward(leases0, started, tries, from);
    }

    /** What the rollback keeps as it goes: an untried service has its lease, a tried
        one was dealt with, and if it still has its lease, its stop failed. */
    ghost predicate BackwardIn(leases0: map<Service, Lease>, tried: seq<Service>, tries: seq<Event>, from: nat,
                               w: World, held: map<Service, Lease>, sent: seq<Signal>) {
      && from <= |sent|
      && (forall s :: s in held ==>
            s in leases0 && held[s] == leases0[s] && (s in tried ==> StopTried(s, Raised) in tries))
      && (forall s :: s in leases0 && s !in tried ==> s in held)
      && (forall s :: s in leases0 && s in tried ==> DealtIn(w, held, sent, s, leases0[s], from))
    }

    ghost predicate Backward(leases0: map<Service, Lease>, tried: seq<Service>, tries: seq<Event>, from: nat)
      reads this`world, this`leases, this`signals
    {
      BackwardIn(leases0, tried, tries, from, world, leases, signals)
    }

    lemma StartBackward()
      ensures Backward(leases, [], [], |signals|)
    {
    }

    lemma BackwardStep(leases0: map<Service, Lease>, service: Service, tried: seq<Service>, tries: seq<Event>, from: nat,
                       r: Outcome, w: World, before: map<Service, Lease>, sent: seq<Signal>)
      requires BackwardIn(leases0, tried, tries, from, w, before, sent) && sent <= signals
      requires leases == if r == Done then before - {service} else before
      requires service in before ==> Dealt(service, before[service], |sent|)
      requires forall s :: s in leases && ValidNow(s) ==> ValidUnder(w, s, before)
      ensures Backward(leases0, [service] + tried, tries + [StopTried(service, r)], from)
    {
      hide ValidLease, DealtIn;
      var e := StopTried(service, r);
      assert forall e' :: e' in tries + [e] <==> e' in tries || e' == e;
      forall s | s in leases0 && s in [service] + tried
        ensures Dealt(s, leases0[s], from)
      {
        if s == service && s in before {
          DealtEarlier(s, leases0[s], |sent|, from);
        } else {
          DealtStays(s, leases0[s], from, service, w, before, sent);
        }
      }
    }

    lemma EndBackward(leases0: map<Service, Lease>, started: seq<Service>, tries: seq<Event>, from: nat)
      requires Backward(leases0, started, tries, from)
      ensures forall s :: s in leases ==>
        s in leases0 && leases[s] == leases0[s] && (s in started ==> StopTried(s, Raised) in tries)
      ensures forall s :: s in leases0 && s !in started ==> s in leases
      ensures forall s :: s in started && s in leases0 ==> Dealt(s, leases0[s], from)
    {
      hide DealtIn;
    }

    lemma HoldersShrink(before: map<Service, Lease>)
      requires forall s :: s in leases ==> s in before && leases[s] == before[s]
      ensures Holders() <= (set s | s in before :: Holder(before[s]))
    {
    }

    lemma SentTo(now: seq<Signal>, sent: seq<Signal>, service: Service, before: map<Service, Lease>, floor: nat)
      requires sent <= now
      requires now != sent ==>
        && service in before && before[service].start > floor
        && StopSequence(now[|sent|..], service, Holder(before[service]))
      ensures forall i :: |sent| <= i < |now| ==> now[i].target.start > floor
    {
      forall i | |sent| <= i < |now|
        ensures now[i].target.start > floor
      {
        assert now[i] == now[|sent|..][i - |sent|];
      }
    }

    /** The `try` block of `up`. */
    method TryUp(ghost w0: World, ghost leases0: map<Service, Lease>, ghost safe0: set<Incarnation>)
      returns (r: Outcome, started: seq<Service>, ghost touched: set<Service>, ghost added: seq<Event>)
      requires Entry(w0, leases0, safe0) && SoFar(w0, leases0, safe0, {})
      modifies this`world, this`leases, this`everLeased, this`abandoned, this`journal, this`spawned
      ensures Entry(w0, leases0, safe0) && SoFar(w0, leases0, safe0, touched)
      ensures old(everLeased) <= everLeased && old(abandoned) <= abandoned
      ensures Forsook(leases0, old(abandoned), touched, abandoned)
      ensures journal == old(journal) + added
      ensures StartedIn(added) == started && TriedIn(added) == [] && InOrderOfStart(started)
      ensures forall s :: s in touched <==> s in started || Pending(added, s)
      ensures forall s, t :: Pending(added, s) && Pending(added, t) ==> s == t
      ensures r == Done ==> forall s :: s in leases && (Holder(leases[s]) in Safe() ==> ValidNow(s))
      ensures smooth && (forall s :: RanSafely(w0, leases0, safe0, s)) ==> added == [] && (r == Done || exists s :: !ValidNow(s))
      ensures smooth && leases0 == map[] ==> started == SERVICE_ORDER || (r == Raised && AnyPending(added))
    {
      hide Inv, EnvStep, Matches, Targets, ValidLease, Progress, Pending, StartedIn, TriedIn, Forsook;
      r, started, touched, added := StartAll(w0, leases0, safe0);
      if r == Done {
        ghost var w := world;
        Facts();
        r := Health();
        EnvStepChain(w0, w, world, Holders(), {}, Safe(), {}, Safe());
        ProgressEnv(w0, leases0, safe0, touched, w, world);
      }
    }

    /** What ran at entry, was not touched and was not signalled, still runs. */
    lemma UpKeeps(w0: World, leases0: map<Service, Lease>, safe0: set<Incarnation>, touched: set<Service>)
      requires EnvStep(w0, world, {}, Holders(), Safe())
      requires forall s :: s in leases0 ==> leases0[s].start <= w0.clock
      requires forall s :: s in leases0 && s !in touched ==> s in leases && leases[s] == leases0[s]
      requires forall s :: s in touched && s in leases0 && ValidLease(w0, s, leases0[s]) ==> Holder(leases0[s]) !in safe0
      requires forall i :: i in safe0 ==> calm && i !in Targets()
      ensures forall s :: s in leases0 && ValidLease(w0, s, leases0[s]) && Holder(leases0[s]) in safe0 ==>
        ValidNow(s) && leases[s] == leases0[s]
    {
      hide EnvStep, Matches, Targets, ValidLease;
      forall s | s in leases0 && ValidLease(w0, s, leases0[s]) && Holder(leases0[s]) in safe0
        ensures ValidNow(s) && leases[s] == leases0[s]
      {
        ValidityAcross(s, w0, world);
      }
    }

    /** What runs and was not touched ran at entry. */
    lemma UpAddsNothingElse(w0: World, leases0: map<Service, Lease>, touched: set<Service>)
      requires EnvStep(w0, world, {}, Holders(), Safe())
      requires forall s :: s in leases0 ==> leases0[s].start <= w0.clock
      requires forall s :: s in leases && s !in touched ==> s in leases0 && leases[s] == leases0[s]
      ensures forall s :: ValidNow(s) && s !in touched ==> s in leases0 && ValidLease(w0, s, leases0[s])
    {
      hide EnvStep, Matches, Targets, ValidLease;
      forall s | ValidNow(s) && s !in touched
        ensures s in leases0 && ValidLease(w0, s, leases0[s])
      {
        ValidityAcross(s, w0, world);
      }
    }

    lemma OldTargetsOnly(sent: seq<Signal>, floor: nat, i: Incarnation)
      requires sent <= signals && i.start <= floor
      requires forall k :: |sent| <= k < |signals| ==> signals[k].target.start > floor
      requires forall k :: 0 <= k < |sent| ==> sent[k].target != i
      ensures i !in Targets()
    {
      forall k | 0 <= k < |signals|
        ensures signals[k].target != i
      {
        if k < |sent| { assert signals[k] == sent[k]; }
      }
    }

    /** `up`. Whatever the environment does: only processes that `up` itself
        started are ever signalled; a failing `up` tries to stop exactly the
        services it fully started, newest first; and afterwards nothing runs
        that did not run before, except the start in progress and the services
        whose stop failed. In a calm environment what ran at entry still runs,
        and success means that every service is leased and valid. */
    method Up() returns (r: Outcome, ghost added: seq<Event>)
      requires Inv()
      modifies this`world, this`leases, this`signals, this`everLeased, this`abandoned, this`journal, this`spawned
      ensures Inv() && EnvStep(old(world), world, {}, Holders(), Safe())
      ensures journal == old(journal) + added && old(signals) <= signals
      ensures forall i :: |old(signals)| <= i < |signals| ==> signals[i].target.start > old(world.clock)
      ensures r == Done ==> signals == old(signals) && TriedIn(added) == []
      ensures old(everLeased) <= everLeased && old(abandoned) <= abandoned
      ensures forall i :: i in abandoned && i !in old(abandoned) ==>
        exists s :: s in old(leases) && i == old(Holder(leases[s])) && !(old(ValidNow(s)) && i in old(Safe()))
      ensures r == Raised ==> TriedIn(added) == Reverse(StartedIn(added))
      ensures InOrderOfStart(StartedIn(added))
      ensures r == Raised ==> forall s :: s in StartedIn(added) && ValidNow(s) ==>
        AskedIn(signals, |old(signals)|, Holder(leases[s]))
      ensures r == Raised ==> forall s :: ValidNow(s) ==>
        old(ValidNow(s)) || Pending(added, s) || StopTried(s, Raised) in added
      ensures forall s, t :: Pending(added, s) && Pending(added, t) ==> s == t
      ensures forall s :: old(ValidNow(s)) && old(Holder(leases[s])) in old(Safe()) ==>
        ValidNow(s) && leases[s] == old(leases[s])
      ensures smooth && (forall s :: old(ValidNow(s)) && old(Holder(leases[s])) in old(Safe())) ==> r == Done && added == []
      ensures smooth && old(leases) == map[] ==>
        StartedIn(added) == [Postgres, OpenSearch, Minio, Otel] || (r == Raised && AnyPending(added))
      ensures r == Done && calm ==> forall s :: ValidNow(s) || (s in leases && Holder(leases[s]) in old(Targets()))
    {
      hide EnvStep, Matches, ValidLease, Inv, Pending, StartedIn, TriedIn, AskedIn, InOrderOfStart, SoFar, Entry, Forsook,
        Overwrites, AnyPending;
      ghost var w0, leases0, safe0, sent, gone0 := world, leases, Safe(), signals, abandoned;
      AtEntry();
      EmptyJournal();
      added := [];
      var broken: bool := *;              // bootstrap
      if broken && !smooth {
        return Raised, added;
      }
      var started;
      ghost var touched;
      r, started, touched, added := TryUp(w0, leases0, safe0);
      assert forall s :: RanSafely(w0, leases0, safe0, s) <==> old(ValidNow(s)) && old(Holder(leases[s])) in old(Safe());
      AbandonedWere(w0, leases0, safe0, touched, gone0);
      KeptSoFar(w0, leases0, safe0, touched);
      if r == Done {
        assert StartedIn(added) == started;
        return;
      }
      ghost var before := added;
      added := Undo(w0, leases0, safe0, started, touched, added, sent);
      assert added == before + added[|before|..];
      assert journal == old(journal) + added;
    }

    lemma AtEntry()
      requires Inv()
      ensures EnvStep(world, world, {}, Holders(), Safe())
      ensures Entry(world, leases, Safe()) && SoFar(world, leases, Safe(), {})
    {
      hide Matches, ValidLease;
      EnvStepReflexive(world, {}, Holders(), Safe());
      Facts();
    }

    lemma AbandonedWere(w0: World, leases0: map<Service, Lease>, safe0: set<Incarnation>, touched: set<Service>, gone0: set<Incarnation>)
      requires SoFar(w0, leases0, safe0, touched) && Forsook(leases0, gone0, touched, abandoned)
      ensures forall i :: i in abandoned && i !in gone0 ==>
        exists s :: s in leases0 && i == Holder(leases0[s]) && !(ValidUnder(w0, s, leases0) && i in safe0)
    {
      hide Inv, EnvStep, ValidLease;
    }

    lemma KeptSoFar(w0: World, leases0: map<Service, Lease>, safe0: set<Incarnation>, touched: set<Service>)
      requires Entry(w0, leases0, safe0) && SoFar(w0, leases0, safe0, touched)
      ensures Inv() && EnvStep(w0, world, {}, Holders(), Safe())
      ensures forall s :: ValidUnder(w0, s, leases0) && Holder(leases0[s]) in safe0 ==> ValidNow(s) && leases[s] == leases0[s]
    {
      hide Inv, EnvStep, ValidLease;
      UpKeeps(w0, leases0, safe0, touched);
    }

    /** The failing half of `up`: roll back, and what that leaves. */
    method Undo(ghost w0: World, ghost leases0: map<Service, Lease>, ghost safe0: set<Incarnation>, started: seq<Service>,
                ghost touched: set<Service>, ghost before: seq<Event>, ghost sent: seq<Signal>) returns (ghost added: seq<Event>)
      requires Entry(w0, leases0, safe0) && SoFar(w0, leases0, safe0, touched) && signals == sent
      requires StartedIn(before) == started && TriedIn(before) == []
      requires forall s :: s in touched <==> s in started || Pending(before, s)
      modifies this`world, this`leases, this`signals, this`journal
      ensures Inv() && EnvStep(w0, world, {}, Holders(), Safe())
      ensures old(signals) <= signals
      ensures forall i :: |sent| <= i < |signals| ==> signals[i].target.start > w0.clock
      ensures before <= added && journal == old(journal) + added[|before|..]
      ensures StartedIn(added) == started && TriedIn(added) == Reverse(started)
      ensures forall s :: Pending(added, s) <==> Pending(before, s)
      ensures AnyPending(added) <==> AnyPending(before)
      ensures forall s :: s in started && ValidNow(s) ==> AskedIn(signals, |sent|, Holder(leases[s]))
      ensures forall s :: ValidNow(s) ==>
        ValidUnder(w0, s, leases0) || Pending(added, s) || StopTried(s, Raised) in added
      ensures forall s :: ValidUnder(w0, s, leases0) && Holder(leases0[s]) in safe0 ==> ValidNow(s) && leases[s] == leases0[s]
    {
      hide EnvStep, Matches, ValidLease, StopSequence, Inv, Pending, StartedIn, TriedIn, AskedIn;
      ghost var w1, leased1, safe1 := world, Holders(), Safe();
      ghost var tries := RollBack(started, w0.clock);
      EnvStepWeaken(w0, w1, {}, leased1, safe1, Holders(), Safe());
      EnvStepChain(w0, w1, world, Holders(), {}, Safe(), {}, Safe());
      forall i | i in safe0
        ensures calm && i !in Targets()
      {
        OldTargetsOnly(sent, w0.clock, i);
      }
      UpKeeps(w0, leases0, safe0, touched);
      UpAddsNothingElse(w0, leases0, touched);
      JournalConcat(before, tries);
      PendingBeforeTries(before, tries);
      added := before + tries;
      assert added[|before|..] == tries;
      assert [] + Reverse(started) == Reverse(started) && started + [] == started;
    }

    lemma EmptyJournal()
      ensures StartedIn([]) == [] && TriedIn([]) == [] && Reverse<Service>([]) == []
      ensures InOrderOfStart([]) && forall s :: !Pending([], s)
    {
    }

    /** What the stops tried so far did to the leases. */
    ghost predicate Tally(tries: seq<Event>, tried: seq<Service>, before: map<Service, Lease>, now: map<Service, Lease>) {
      && TriedIn(tries) == Reverse(tried)
      && (forall e :: e in tries ==> e.StopTried? && e.service in tried)
      && (forall s :: s in now ==> s in before && now[s] == before[s] && (s in tried ==> StopTried(s, Raised) in tries))
      && (forall s :: s in before && s !in now ==> StopTried(s, Raised) !in tries)
    }

    lemma TallyGrows(tries: seq<Event>, tried: seq<Service>, before: map<Service, Lease>, now: map<Service, Lease>,
                     service: Service, outcome: Outcome, next: map<Service, Lease>)
      requires Tally(tries, tried, before, now) && service !in tried
      requires next == if outcome == Done then now - {service} else now
      requires outcome == Raised ==> service in now
      ensures Tally(tries + [StopTried(service, outcome)], [service] + tried, before, next)
    {
      var e := StopTried(service, outcome);
      JournalStep(tries, e);
      assert ([service] + tried)[1..] == tried;
      assert forall e' :: e' in tries + [e] <==> e' in tries || e' == e;
    }

    /** The holder of the lease cannot die, and no lease that validates names it. */
    ghost predicate Spared(service: Service)
      reads this`world, this`leases, this`signals
    {
      && service in leases && Holder(leases[service]) in Safe()
      && forall t :: ValidNow(t) ==> Holder(leases[t]) != Holder(leases[service])
    }

    lemma SparedMeans()
      ensures forall s :: Spared(s) ==> s in leases && calm && NotSignalled(signals, Holder(leases[s]))
      ensures forall s, t :: Spared(s) && ValidUnder(world, t, leases) ==> Holder(leases[t]) != Holder(leases[s])
    {
      hide ValidLease;
    }

    predicate NotSignalled(sent: seq<Signal>, i: Incarnation) {
      forall k :: 0 <= k < |sent| ==> sent[k].target != i
    }

    lemma StaysSpared(service: Service, stopped: Service, w: World, before: map<Service, Lease>, sent: seq<Signal>)
      requires leases == before || (stopped in before && ValidUnder(w, stopped, before) && leases == before - {stopped})
      requires sent <= signals
      requires signals != sent ==>
        ValidUnder(w, stopped, before) && StopSequence(signals[|sent|..], stopped, Holder(before[stopped]))
      requires calm && service in before && NotSignalled(sent, Holder(before[service]))
      requires forall t :: ValidUnder(w, t, before) ==> Holder(before[t]) != Holder(before[service])
      requires forall t :: t in leases && ValidNow(t) ==> ValidUnder(w, t, before)
      ensures Spared(service) && leases[service] == before[service]
    {
      hide ValidLease;
      forall k | 0 <= k < |signals|
        ensures signals[k].target != Holder(before[service])
      {
        if k < |sent| {
          assert signals[k] == sent[k];
        } else {
          assert signals[k] == signals[|sent|..][k - |sent|];
        }
      }
      assert Holder(leases[service]) in Holders();
    }

    /** What `down` keeps as it goes: an untried service has its lease, a tried one
        was dealt with, and who was spared at the start is spared and lives. */
    ghost predicate Downward(leases0: map<Service, Lease>, spared: set<Service>, alive: set<Service>, tried: seq<Service>, from: nat)
      reads this`world, this`leases, this`signals
    {
      && from <= |signals|
      && (forall s :: s in leases0 && s !in tried ==> s in leases && leases[s] == leases0[s])
      && (forall s :: s in leases0 && s in tried ==> Dealt(s, leases0[s], from))
      && (forall s :: s in spared ==> s in leases0 && Spared(s) && leases[s] == leases0[s])
      && (forall s :: s in alive ==> s in spared && Live(world, Holder(leases0[s])))
    }

    /** One stop of `down`, whose error is only noted. */
    method StopAndRecord(service: Service, ghost leases0: map<Service, Lease>, ghost spared: set<Service>,
                         ghost alive: set<Service>, ghost tried: seq<Service>, ghost from: nat) returns (r: Outcome)
      requires Inv() && Downward(leases0, spared, alive, tried, from) && service !in tried
      modifies this`world, this`leases, this`signals, this`journal
      ensures Inv() && EnvStep(old(world), world, {}, Holders(), Safe())
      ensures old(signals) <= signals && journal == old(journal) + [StopTried(service, r)]
      ensures leases == if r == Done then old(leases) - {service} else old(leases)
      ensures r == Raised ==> service in leases
      ensures Holders() <= old(Holders()) && Safe() <= old(Safe())
      ensures service in old(leases) && !old(ValidNow(service)) ==> r == Raised
      ensures Downward(leases0, spared, alive, [service] + tried, from)
      ensures forall s :: s in leases && ValidNow(s) ==> old(ValidNow(s))
    {
      hide Inv, EnvStep, Matches, Targets, ValidLease, StopSequence, DealtIn, Live;
      ghost var before, w, sent := leases, world, signals;
      SparedMeans();
      r := StopDealt(service);
      forall s | s in spared
        ensures Spared(s) && leases[s] == leases0[s]
      {
        StaysSpared(s, service, w, before, sent);
      }
      forall s | s in alive
        ensures Live(world, Holder(leases0[s]))
      {
        SafeSurvive(w, world, Holders(), Safe());
      }
      forall s | s in leases0 && s in [service] + tried
        ensures Dealt(s, leases0[s], from)
      {
        if s == service {
          DealtEarlier(s, leases0[s], |sent|, from);
        } else {
          DealtStays(s, leases0[s], from, service, w, before, sent);
        }
      }
      journal := journal + [StopTried(service, r)];
    }

    /** The loop of `down`: every service is dealt with, whatever the others come to. */
    method StopAll() returns (errors: bool, ghost tries: seq<Event>)
      requires Inv()
      modifies this`world, this`leases, this`signals, this`journal
      ensures Inv() && EnvStep(old(world), world, {}, Holders(), Safe())
      ensures journal == old(journal) + tries && old(signals) <= signals
      ensures Tally(tries, SERVICE_ORDER, old(leases), leases)
      ensures errors <==> exists s :: StopTried(s, Raised) in tries
      ensures forall s :: s in old(leases) && !old(ValidNow(s)) ==> s in leases
      ensures forall s :: s in old(leases) ==> Dealt(s, old(leases[s]), |old(signals)|)
      ensures forall s :: s in old(leases) && old(Spared(s)) && old(Live(world, Holder(leases[s]))) ==> Live(world, old(Holder(leases[s])))
    {
      hide Inv, EnvStep, Holders, Safe, Targets, Tally, ValidLease, Matches, StartedIn, TriedIn, Live, Downward, Reverse, Spared,
        DealtIn, Failed;
      ghost var leases0, from, w0 := leases, |signals|, world;
      ghost var spared := set s: Service | Spared(s);
      ghost var alive := set s: Service | s in leases && s in spared && Live(world, Holder(leases[s]));
      EnvStepReflexive(world, {}, Holders(), Safe());
      tries, errors := [], false;
      var k := |SERVICE_ORDER|;
      assert SERVICE_ORDER[k..] == [];
      TallyEmpty(leases);
      NothingFailed();
      StartDownward(spared, alive);
      while k > 0
        invariant 0 <= k <= |SERVICE_ORDER|
        invariant Inv() && EnvStep(w0, world, {}, Holders(), Safe())
        invariant journal == old(journal) + tries && old(signals) <= signals
        invariant Tally(tries, SERVICE_ORDER[k..], leases0, leases)
        invariant errors <==> Failed(tries)
        invariant forall s :: s in leases && ValidNow(s) ==> old(ValidNow(s))
        invariant forall s :: s in old(leases) && !old(ValidNow(s)) ==> s in leases
        invariant Downward(leases0, spared, alive, SERVICE_ORDER[k..], from)
      {
        k := k - 1;
        OrderTail(k);
        var outcome := StopNext(SERVICE_ORDER[k], w0, leases0, spared, alive, SERVICE_ORDER[k + 1..], from, tries);
        errors := errors || outcome == Raised;
        tries := tries + [StopTried(SERVICE_ORDER[k], outcome)];
      }
      assert SERVICE_ORDER[0..] == SERVICE_ORDER;
      EndDownward(leases0, spared, alive, from);
      FailedMeans(tries);
    }

    predicate Failed(tries: seq<Event>) {
      exists s: Service :: StopTried(s, Raised) in tries
    }

    lemma FailedMeans(tries: seq<Event>)
      ensures Failed(tries) <==> exists s :: StopTried(s, Raised) in tries
    {
    }

    lemma NothingFailed()
      ensures !Failed([])
    {
    }

    lemma FailedGrows(tries: seq<Event>, service: Service, outcome: Outcome)
      ensures Failed(tries + [StopTried(service, outcome)]) <==> Failed(tries) || outcome == Raised
    {
      var e := StopTried(service, outcome);
      assert forall x :: x in tries + [e] <==> x in tries || x == e;
      if outcome == Raised {
        assert StopTried(service, Raised) in tries + [e];
      }
    }

    /** One round of the loop of `down`. */
    method StopNext(service: Service, ghost w0: World, ghost leases0: map<Service, Lease>, ghost spared: set<Service>,
                    ghost alive: set<Service>, ghost tried: seq<Service>, ghost from: nat, ghost tries: seq<Event>)
      returns (r: Outcome)
      requires Inv() && EnvStep(w0, world, {}, Holders(), Safe())
      requires Downward(leases0, spared, alive, tried, from) && service !in tried
      requires Tally(tries, tried, leases0, leases)
      modifies this`world, this`leases, this`signals, this`journal
      ensures Inv() && EnvStep(w0, world, {}, Holders(), Safe())
      ensures old(signals) <= signals && journal == old(journal) + [StopTried(service, r)]
      ensures Downward(leases0, spared, alive, [service] + tried, from)
      ensures Tally(tries + [StopTried(service, r)], [service] + tried, leases0, leases)
      ensures Failed(tries + [StopTried(service, r)]) <==> Failed(tries) || r == Raised
      ensures forall s :: s in old(leases) && !old(ValidNow(s)) ==> s in leases
      ensures forall s :: s in leases && ValidNow(s) ==> old(ValidNow(s))
    {
      hide Inv, EnvStep, Holders, Safe, Targets, Tally, ValidLease, Matches, Live, Downward, Failed;
      ghost var w, leased, safe, before := world, Holders(), Safe(), leases;
      r := StopAndRecord(service, leases0, spared, alive, tried, from);
      EnvStepWeaken(w0, w, {}, leased, safe, Holders(), Safe());
      EnvStepChain(w0, w, world, Holders(), {}, Safe(), {}, Safe());
      TallyGrows(tries, tried, leases0, before, service, r, leases);
      FailedGrows(tries, service, r);
    }

    lemma StartDownward(spared: set<Service>, alive: set<Service>)
      requires spared == (set s: Service | Spared(s))
      requires alive == (set s: Service | s in leases && s in spared && Live(world, Holder(leases[s])))
      ensures Downward(leases, spared, alive, [], |signals|)
    {
      hide ValidLease, Safe, Live;
    }

    lemma EndDownward(leases0: map<Service, Lease>, spared: set<Service>, alive: set<Service>, from: nat)
      requires Downward(leases0, spared, alive, SERVICE_ORDER, from)
      ensures forall s :: s in leases0 ==> Dealt(s, leases0[s], from)
      ensures forall s :: s in alive ==> s in leases0 && Live(world, Holder(leases0[s]))
    {
      hide DealtIn, ValidLease, Safe, Live;
      InSomeOrder();
    }

    lemma TallyEmpty(now: map<Service, Lease>)
      ensures Tally([], [], now, now)
    {
    }

    /** `down`: every service is tried, newest first, whatever the others come
        to. With `clean`, the run directory goes as far as it can be removed, and
        with it the leases of services whose stop failed, such as those whose lease
        does not validate; `dropped` says which. The others keep theirs. */
    method Down(clean: bool, removal: Removal) returns (r: Outcome, dropped: set<Service>, ghost tries: seq<Event>)
      requires Inv()
      modifies this`world, this`leases, this`signals, this`abandoned, this`journal
      ensures Inv() && EnvStep(old(world), world, {}, Holders(), Safe())
      ensures journal == old(journal) + tries && old(signals) <= signals
      ensures TriedIn(tries) == [Otel, Minio, OpenSearch, Postgres]
      ensures forall s :: s in old(leases) ==>
        AskedIn(signals, |old(signals)|, old(Holder(leases[s]))) || !ValidLease(world, s, old(leases[s]))
      ensures forall s :: s in dropped <==>
        s in old(leases) && StopTried(s, Raised) in tries && clean && integration && Removes(removal, s)
      ensures abandoned == old(abandoned) + HoldersOf(old(leases), dropped)
      ensures !clean ==> abandoned == old(abandoned)
      ensures forall s :: s in leases <==> s in old(leases) && StopTried(s, Raised) in tries && s !in dropped
      ensures forall s :: s in leases ==> leases[s] == old(leases[s])
      ensures forall s :: s in old(leases) && !old(ValidNow(s)) ==> StopTried(s, Raised) in tries
      ensures forall s :: s in old(leases) && old(Spared(s)) && old(Live(world, Holder(leases[s]))) ==> Live(world, old(Holder(leases[s])))
      ensures r == Done <==>
        (forall s :: StopTried(s, Raised) !in tries) && (clean ==> integration && removal == Everything)
    {
      hide Inv, EnvStep, Matches, ValidLease, TriedIn;
      var errors;
      errors, tries := StopAll();
      InSomeOrder();
      Backwards();
      ghost var leased, safe := Holders(), Safe();
      dropped := {};
      if clean {
        if !integration {
          return Raised, dropped, tries;
        }
        if removal.DataStuck? {
          return Raised, dropped, tries;
        }
        dropped := set s | s in leases && Removes(removal, s);
        DropLeases(dropped);
        EnvStepWeaken(old(world), world, {}, leased, safe, Holders(), Safe());
        if removal.LeasesLeft? {
          return Raised, dropped, tries;
        }
      }
      r := if errors then Raised else Done;
    }

    lemma Backwards()
      ensures Reverse(SERVICE_ORDER) == [Otel, Minio, OpenSearch, Postgres]
    {
      assert Reverse([Otel]) == [Otel];
      assert [Minio, Otel][1..] == [Otel] && Reverse([Minio, Otel]) == [Otel, Minio];
      assert [OpenSearch, Minio, Otel][1..] == [Minio, Otel] && Reverse([OpenSearch, Minio, Otel]) == [Otel, Minio, OpenSearch];
      assert SERVICE_ORDER[1..] == [OpenSearch, Minio, Otel];
    }

    predicate Removes(removal: Removal, service: Service) {
      removal.Everything? || (removal.LeasesLeft? && service !in removal.left)
    }

    ghost function HoldersOf(held: map<Service, Lease>, services: set<Service>): set<Incarnation> {
      set s | s in held && s in services :: Holder(held[s])
    }

    lemma SafeSurvive(a: World, b: World, leased: set<Incarnation>, safe: set<Incarnation>)
      requires EnvStep(a, b, {}, leased, safe)
      ensures forall i :: i in safe && Live(a, i) ==> Live(b, i)
    {
    }

    lemma OrderTail(k: nat)
      requires k < |SERVICE_ORDER|
      ensures SERVICE_ORDER[k..] == [SERVICE_ORDER[k]] + SERVICE_ORDER[k + 1..]
      ensures SERVICE_ORDER[k] !in SERVICE_ORDER[k + 1..]
    {
    }

    lemma InSomeOrder()
      ensures forall s: Service :: s in SERVICE_ORDER
    {
      forall s: Service
        ensures s in SERVICE_ORDER
      {
        assert s == SERVICE_ORDER[match s case Postgres => 0 case OpenSearch => 1 case Minio => 2 case Otel => 3];
      }
    }

    /** Removing the run directory, or a part of it, removes leases. */
    method DropLeases(dropped: set<Service>)
      requires Inv() && dropped <= leases.Keys
      modifies this`leases, this`abandoned
      ensures Inv() && leases == old(leases) - dropped
      ensures Holders() <= old(Holders()) && Safe() <= old(Safe())
      ensures abandoned == old(abandoned) + HoldersOf(old(leases), dropped)
    {
      ghost var before := leases;
      abandoned := abandoned + HoldersOf(leases, dropped);
      leases := leases - dropped;
      forall i | i in old(Holders())
        ensures i in Holders() || i in abandoned
      {
        var s :| s in before && i == Holder(before[s]);
        if s !in dropped {
          assert leases[s] == before[s];
        }
      }
    }

    // -------------------------------------------------------------- whole runs

    /** Any sequence of commands, in any environment. The invariant at its end
        speaks of the whole history: every request to stop went to a process
        that this profile had leased, and a process that was ever leased is
        leased now, dead, or abandoned. Stopping abandons nobody. */
    method Run(ops: seq<Op>)
      requires Inv()
      modifies this`world, this`leases, this`signals, this`everLeased, this`abandoned, this`journal, this`spawned
      ensures Inv()
      ensures old(signals) <= signals && old(everLeased) <= everLeased && old(abandoned) <= abandoned
      ensures (forall op :: op in ops ==> op.OpStop? || op == OpDown(false)) ==>
        abandoned == old(abandoned) && everLeased == old(everLeased)
      ensures forall i :: i in old(everLeased) && old(!Live(world, i)) ==> !Live(world, i)
    {
      hide Inv, EnvStep, Matches, ValidLease, StopSequence, TriedIn, StartedIn, Pending, Overwrites, HoldersOf, Reverse;
      ghost var known := everLeased;
      var n := 0;
      while n < |ops|
        invariant 0 <= n <= |ops|
        invariant Inv()
        invariant old(signals) <= signals && known <= everLeased && old(abandoned) <= abandoned
        invariant (forall op :: op in ops ==> op.OpStop? || op == OpDown(false)) ==>
          abandoned == old(abandoned) && everLeased == known
        invariant forall i :: i in known && old(!Live(world, i)) ==> !Live(world, i)
        decreases |ops| - n
      {
        ghost var w := world;
        Past(known);
        Env({});
        StillDead(known, w);
        w := world;
        Past(known);
        assert ops[n] in ops;
        match ops[n] {
          case OpUp => var _, _ := Up();
          case OpDown(clean) =>
            var removal: Removal := *;
            var _, _, _ := Down(clean, removal);
          case OpStart(service) => var _ := StartService(service);
          case OpStop(service) => var _, _ := StopService(service);
        }
        StillDead(known, w);
        n := n + 1;
      }
    }

    lemma Past(known: set<Incarnation>)
      requires Inv() && known <= everLeased
      ensures forall i :: i in known ==> i.start <= world.clock
    {
    }

    lemma StillDead(known: set<Incarnation>, w: World)
      requires EnvStep(w, world, {}, Holders(), Safe())
      requires forall i :: i in known ==> i.start <= w.clock
      ensures forall i :: i in known && !Live(w, i) ==> !Live(world, i)
    {
      hide EnvStep;
      forall i | i in known && !Live(w, i)
        ensures !Live(world, i)
      {
        DeadStaysDead(w, world, i, {}, Holders(), Safe());
      }
    }
  }

  /** Cleaning abandons every process that lives under a lease which no longer
      validates, such as after its executable was replaced: the stop is refused,
      the lease is dropped, and the process lives on, unless it dies by itself or
      another lease names it, too. */
  method CleanAbandons(m: Manager, service: Service) returns (r: Outcome)
    requires m.Inv() && m.integration
    requires m.Spared(service) && Live(m.world, Holder(m.leases[service]))
    modifies m`world, m`leases, m`signals, m`abandoned, m`journal
    ensures m.Inv() && r == Raised && m.leases == map[]
    ensures old(Holder(m.leases[service])) in m.abandoned && Live(m.world, old(Holder(m.leases[service])))
  {
    hide Manager.Inv, EnvStep, Manager.Matches, Manager.ValidLease, TriedIn, Live;
    var dropped;
    ghost var tries;
    r, dropped, tries := m.Down(true, Everything);
  }

  /** Such a state exists. */
  method AbandonedAlive() returns (m: Manager, holder: Incarnation)
    ensures m.Inv() && m.leases == map[] && holder in m.abandoned && Live(m.world, holder)
  {
    var lease := Lease(7, 1, 0, "", "old digest", "", "", []);
    holder := Holder(lease);
    m := new Manager(0, map[Postgres := [], OpenSearch := [], Minio := [], Otel := []], true, _ => "new digest",
                     _ => true, _ => "", _ => "", true, false,
                     World(map[7 := Proc(1, 0, false, "", [])], 1), map[Minio := lease]);
    assert lease.digest[0] != m.digestOf("")[0];
    assert m.Spared(Minio);
    var _ := CleanAbandons(m, Minio);
  }
}
