/** The model-service lifecycle of `scripts/native_models.py`, which validates
    its PID record once and then trusts the PID: `start_model`, `stop_model`. */
module ModelService {
  import opened Wrappers
  import opened Processes

  datatype Record = Record(pid: nat, start: nat, command: seq<string>)

  datatype Outcome = Done | Raised

  function Holder(record: Record): Incarnation {
    Incarnation(record.pid, record.start)
  }

  /** `_record_matches_live_process`: the recorded process lives, is ours, and has
      the recorded command line, which is the one that `start_model` uses. */
  predicate Running(record: Record, uid: nat, command: seq<string>, w: World) {
    && Live(w, Holder(record)) && w.procs[record.pid].owner == uid
    && w.procs[record.pid].cmd == record.command == command
  }

  /** A live process of ours holds the PID. */
  predicate Held(record: Record, uid: nat, w: World) {
    record.pid in w.procs && w.procs[record.pid].owner == uid && !w.procs[record.pid].zombie
  }

  /** The worlds of one pass through the signalling part of `stop_model`: of the
      validated SIGTERM, of the second signal after the wait, and of the end, when
      the record is deleted. */
  datatype Pass = Pass(first: World, second: World, end: World)

  /** SIGTERM to the recorded process, and after the wait SIGKILL to whoever holds
      the PID then; nothing waits for its effect. */
  ghost predicate StopRun(record: Record, uid: nat, command: seq<string>, p: Pass, sent: seq<Signal>) {
    && WorldOk(p.first) && WorldOk(p.second) && WorldOk(p.end)
    && Running(record, uid, command, p.first)
    && EnvStep(p.first, p.second, {}, {Holder(record)}, {})
    && EnvStep(p.second, p.end, {}, {Holder(record)}, {})
    && sent == [Signal(Holder(record), Term)] +
        (if Held(record, uid, p.second) then [Signal(Incarnation(record.pid, p.second.procs[record.pid].start), Kill)] else [])
  }

  /** Every signal reaches the recorded process. */
  predicate OnTarget(record: Record, sent: seq<Signal>) {
    forall i :: 0 <= i < |sent| ==> sent[i].target == Holder(record)
  }

  /** The recorded process was signalled twice. */
  predicate KilledToo(record: Record, sent: seq<Signal>) {
    sent == [Signal(Holder(record), Term), Signal(Holder(record), Kill)]
  }

  /** A signal misses if and only if the recorded process died during the wait
      and its PID went to another live process of ours. */
  lemma StopHitsRecorded(record: Record, uid: nat, command: seq<string>, p: Pass, sent: seq<Signal>)
    requires StopRun(record, uid, command, p, sent)
    ensures !OnTarget(record, sent) <==> !Live(p.second, Holder(record)) && Held(record, uid, p.second)
  {
    assert sent[0] == Signal(Holder(record), Term);
    assert Held(record, uid, p.second) ==>
      sent[1] == Signal(Incarnation(record.pid, p.second.procs[record.pid].start), Kill);
  }

  /** SIGKILL goes to the recorded process exactly if that lives after the wait;
      so if it still lives when its record is deleted, it was sent SIGKILL. */
  lemma StopLeavesAlive(record: Record, uid: nat, command: seq<string>, p: Pass, sent: seq<Signal>)
    requires StopRun(record, uid, command, p, sent)
    ensures Live(p.second, Holder(record)) <==> KilledToo(record, sent)
    ensures Live(p.end, Holder(record)) ==> KilledToo(record, sent)
  {
    assert Holder(record) in {Holder(record)};
    if Live(p.second, Holder(record)) {
      assert Persists(p.first, p.second, record.pid, {Holder(record)});
    } else {
      HolderInPast(record, uid, command, p.first);
      DeadStaysDead(p.second, p.end, Holder(record), {}, {Holder(record)}, {});
    }
    if KilledToo(record, sent) {
      assert sent[1] == Signal(Holder(record), Kill);
    }
  }

  lemma HolderInPast(record: Record, uid: nat, command: seq<string>, w: World)
    requires WorldOk(w) && Running(record, uid, command, w)
    ensures record.start <= w.clock
  {
  }

  /** No state at entry rules out a miss: whenever the call signals at all, the
      environment is free to make it signal another process. */
  lemma NoEntryIsSafe(record: Record, uid: nat, command: seq<string>, a: World)
    requires WorldOk(a)
    ensures (exists p: Pass, sent :: p.first == a && StopRun(record, uid, command, p, sent) && !OnTarget(record, sent)) <==>
            Running(record, uid, command, a)
  {
    if Running(record, uid, command, a) {
      var next := a.clock + 1;
      var b := World(a.procs[record.pid := Proc(next, uid, false, "", [])], next);
      var p := Pass(a, b, b);
      var sent := [Signal(Holder(record), Term), Signal(Incarnation(record.pid, next), Kill)];
      assert EnvStep(a, b, {}, {Holder(record)}, {});
      EnvStepReflexive(b, {}, {Holder(record)}, {});
      assert StopRun(record, uid, command, p, sent) && sent[1].target != Holder(record);
    }
  }

  /** Nor does any settle how a pass that sends SIGKILL to the recorded process
      ends: the record can go while the process lives, and after it has died. */
  lemma NoEntryWaits(record: Record, uid: nat, command: seq<string>, a: World)
    requires WorldOk(a)
    ensures (exists p: Pass, sent :: p.first == a && StopRun(record, uid, command, p, sent) && KilledToo(record, sent)
               && Live(p.end, Holder(record))) <==> Running(record, uid, command, a)
    ensures (exists p: Pass, sent :: p.first == a && StopRun(record, uid, command, p, sent) && KilledToo(record, sent)
               && !Live(p.end, Holder(record))) <==> Running(record, uid, command, a)
  {
    if Running(record, uid, command, a) {
      EnvStepReflexive(a, {}, {Holder(record)}, {});
      var sent := [Signal(Holder(record), Term), Signal(Holder(record), Kill)];
      assert StopRun(record, uid, command, Pass(a, a, a), sent);
      var gone := World(a.procs - {record.pid}, a.clock);
      assert EnvStep(a, gone, {}, {Holder(record)}, {});
      assert StopRun(record, uid, command, Pass(a, a, gone), sent);
    }
  }

  class Service {
    const uid: nat
    const command: seq<string>       // the command line that start_model uses
    const smooth: bool               // assumption: a port, a process and a healthy answer are granted

    var world: World
    var record: Option<Record>
    var signals: seq<Signal>

    ghost predicate Inv()
      reads this
    {
      WorldOk(world) && (record.Some? ==> record.value.start <= world.clock)
    }

    function Holders(): set<Incarnation>
      reads this`record
    {
      if record.Some? then {Holder(record.value)} else {}
    }

    constructor (uid: nat, command: seq<string>, smooth: bool, world: World, record: Option<Record>)
      requires WorldOk(world) && (record.Some? ==> record.value.start <= world.clock)
      ensures Inv() && this.record == record && signals == []
    {
      this.smooth := smooth;
      this.uid, this.command, this.world, this.record, this.signals := uid, command, world, record, [];
    }

    method Env(pinned: set<nat>)
      requires Inv()
      modifies this`world
      ensures Inv() && EnvStep(old(world), world, pinned, Holders(), {})
    {
      assert EnvStep(world, world, pinned, Holders(), {}) && WorldOk(world);
      var next :| EnvStep(world, next, pinned, Holders(), {}) && WorldOk(next);
      assert EnvStep(world, next, pinned, Holders(), {});
      world := next;
    }

    predicate AliveIn(w: World, pid: nat) {
      pid in w.procs && (w.procs[pid].owner != uid || !w.procs[pid].zombie)
    }

    predicate IsProcessAlive(pid: nat)
      reads this`world
    {
      AliveIn(world, pid)
    }

    predicate Matches(r: Record)
      reads this`world
    {
      Running(r, uid, command, world)
    }

    /** `stop_model`. `looked` is the world in which the PID of a record that does
        not match was last looked at. */
    method StopModel() returns (outcome: Outcome, ghost run: Option<Pass>, ghost looked: World)
      requires Inv()
      modifies this`world, this`record, this`signals
      ensures Inv() && old(signals) <= signals
      ensures outcome == Raised ==> record == old(record)
      ensures outcome == Done ==> record == None
      ensures run.Some? <==> old(record.Some? && Matches(record.value))
      ensures run.None? ==> signals == old(signals)
      ensures run.None? && old(record).Some? ==>
        && EnvStep(old(world), looked, {}, {Holder(old(record).value)}, {})
        && EnvStep(looked, world, {}, {Holder(old(record).value)}, {})
        && (outcome == Done <==> !AliveIn(looked, old(record).value.pid))
      ensures run.None? && outcome == Done && old(record).Some? ==> !Live(world, Holder(old(record).value))
      ensures run.Some? ==> run.value.first == old(world) && run.value.end == world
      ensures run.Some? ==> (outcome == Raised <==>
        var pid, w := old(record).value.pid, run.value.second; pid in w.procs && w.procs[pid].owner != uid)
      ensures run.Some? ==> StopRun(old(record).value, uid, command, run.value, signals[|old(signals)|..])
      ensures run.Some? && outcome == Done && Live(world, Holder(old(record).value)) ==>
        KilledToo(old(record).value, signals[|old(signals)|..])
    {
      run, looked := None, world;
      if record.None? {
        return Done, run, looked;
      }
      var r := record.value;
      EnvStepReflexive(world, {}, Holders(), {});
      if !Matches(r) {
        Env({});
        looked := world;
        var alive := IsProcessAlive(r.pid);
        Env({});
        if !alive {
          DeadStaysDead(looked, world, Holder(r), {}, Holders(), {});
          record := None;
          return Done, run, looked;
        }
        return Raised, run, looked;
      }
      ghost var a := world;
      signals := signals + [Signal(Incarnation(r.pid, world.procs[r.pid].start), Term)];
      var polls := 0;
      while polls < 150 && IsProcessAlive(r.pid)
        modifies this`world
        invariant Inv() && EnvStep(a, world, {}, Holders(), {})
      {
        ghost var w := world;
        Env({});
        EnvStepChain(a, w, world, Holders(), {}, {}, {}, {});
        polls := polls + 1;
      }
      ghost var b := world;
      if IsProcessAlive(r.pid) {
        if world.procs[r.pid].owner != uid {
          // Signalling a process of somebody else is refused.
          EnvStepReflexive(world, {}, Holders(), {});
          run := Some(Pass(a, b, b));
          return Raised, run, looked;
        }
        signals := signals + [Signal(Incarnation(r.pid, world.procs[r.pid].start), Kill)];
      }
      Env({});
      run := Some(Pass(a, b, world));
      StopLeavesAlive(r, uid, command, run.value, signals[|old(signals)|..]);
      record := None;
      return Done, run, looked;
    }

    /** `start_model`. An existing record is never overwritten: it either matches
        a live process or the start is refused. */
    method StartModel() returns (outcome: Outcome)
      requires Inv()
      modifies this`world, this`record, this`signals
      ensures Inv() && old(signals) <= signals
      ensures old(record).Some? ==> record == old(record) && signals == old(signals)
      ensures old(record).Some? ==> (outcome == Done <==>
        var r := old(record).value;
        && r.pid in old(world).procs && !old(world).procs[r.pid].zombie && old(world).procs[r.pid].start == r.start
        && old(world).procs[r.pid].owner == uid && old(world).procs[r.pid].cmd == r.command && r.command == command)
      ensures record.Some? && old(record).None? ==> record.value.start > old(world.clock)
      ensures outcome == Done ==> record.Some? && signals == old(signals) && record.value.command == command
      ensures old(record).None? && smooth ==> outcome == Done
    {
      if record.Some? {
        return if Matches(record.value) then Done else Raised;
      }
      Env({});
      var fails: bool := *;
      if fails && !smooth {
        return Raised;
      }
      FreePid(world.procs.Keys);
      var pid: nat :| pid !in world.procs;
      world := World(world.procs[pid := Proc(world.clock + 1, uid, false, "", command)], world.clock + 1);
      record := Some(Record(pid, world.clock, command));
      Env({});
      var healthy: bool := *;
      if !healthy && !smooth {
        var _, _, _ := StopModel();
        return Raised;
      }
      return Done;
    }
  }
}
