/** The operating system's process table and everything that may happen to it
    between two steps of a lifecycle script: processes exit, become zombies,
    exec another program, and PIDs are handed to new processes. */
module Processes {

  /** A process for its whole life: a PID together with its start time. */
  datatype Incarnation = Incarnation(pid: nat, start: nat)

  datatype Proc = Proc(start: nat, owner: nat, zombie: bool, exe: string, cmd: seq<string>)

  datatype World = World(procs: map<nat, Proc>, clock: nat)

  datatype Kind = Term | Kill | PgCtlStop

  /** A request to stop, and the process that received it. */
  datatype Signal = Signal(target: Incarnation, kind: Kind)

  predicate WorldOk(w: World) {
    forall pid :: pid in w.procs ==> w.procs[pid].start <= w.clock
  }

  /** The incarnation holds its PID and is not a zombie. */
  predicate Live(w: World, i: Incarnation) {
    i.pid in w.procs && w.procs[i.pid].start == i.start && !w.procs[i.pid].zombie
  }

  predicate Persists(a: World, b: World, pid: nat, leased: set<Incarnation>)
    requires pid in b.procs
  {
    && pid in a.procs
    && b.procs[pid].start == a.procs[pid].start
    && (a.procs[pid].zombie ==> b.procs[pid].zombie)
    && (Incarnation(pid, b.procs[pid].start) in leased ==>
          b.procs[pid] == a.procs[pid].(zombie := b.procs[pid].zombie))
  }

  /** Any number of steps of the environment. A PID may go to a new process,
      which then starts later than everything seen so far, unless the PID is
      `pinned`. A leased process does not exec. The `safe` incarnations do not
      die. */
  predicate EnvStep(a: World, b: World, pinned: set<nat>, leased: set<Incarnation>, safe: set<Incarnation>) {
    && a.clock <= b.clock
    && (forall pid :: pid in b.procs ==>
          || Persists(a, b, pid, leased)
          || (a.clock < b.procs[pid].start <= b.clock && pid !in pinned))
    && (forall i :: i in safe && Live(a, i) ==> Live(b, i))
  }

  /** The freedom of the environment: any process that is not safe can exit, become
      a zombie, or exec unless it is leased, and any PID that is not pinned and not
      held by a safe process can go to a new process. */
  lemma EnvironmentIsFree(w: World, pid: nat, young: Proc, pinned: set<nat>, leased: set<Incarnation>, safe: set<Incarnation>)
    requires pid in w.procs && Incarnation(pid, w.procs[pid].start) !in safe
    ensures EnvStep(w, World(w.procs - {pid}, w.clock), pinned, leased, safe)
    ensures EnvStep(w, World(w.procs[pid := w.procs[pid].(zombie := true)], w.clock), pinned, leased, safe)
    ensures Incarnation(pid, w.procs[pid].start) !in leased ==>
      EnvStep(w, World(w.procs[pid := w.procs[pid].(exe := young.exe, cmd := young.cmd)], w.clock), pinned, leased, safe)
    ensures pid !in pinned && young.start > w.clock ==>
      EnvStep(w, World(w.procs[pid := young], young.start), pinned, leased, safe)
  {
  }

  /** Some PID is always free. */
  lemma {:induction false} FreePid(taken: set<nat>)
    ensures exists pid: nat :: pid !in taken
  {
    var bound := Above(taken);
    assert bound !in taken;
  }

  lemma {:induction false} Above(taken: set<nat>) returns (bound: nat)
    ensures forall pid :: pid in taken ==> pid < bound
  {
    if taken == {} {
      bound := 0;
    } else {
      var pid :| pid in taken;
      var rest := Above(taken - {pid});
      assert taken == (taken - {pid}) + {pid};
      bound := if rest > pid then rest else pid + 1;
    }
  }

  lemma NewProcess(w: World, pid: nat, p: Proc, leased: set<Incarnation>, safe: set<Incarnation>)
    requires pid !in w.procs && p.start > w.clock && !p.zombie
    ensures EnvStep(w, World(w.procs[pid := p], p.start), {}, leased, safe)
    ensures Live(World(w.procs[pid := p], p.start), Incarnation(pid, p.start))
    ensures WorldOk(w) ==> WorldOk(World(w.procs[pid := p], p.start))
  {
  }

  lemma EnvStepReflexive(a: World, pinned: set<nat>, leased: set<Incarnation>, safe: set<Incarnation>)
    ensures EnvStep(a, a, pinned, leased, safe)
  {
  }

  lemma EnvStepClock(a: World, b: World, pinned: set<nat>, leased: set<Incarnation>, safe: set<Incarnation>)
    requires EnvStep(a, b, pinned, leased, safe)
    ensures a.clock <= b.clock
  {
  }

  lemma EnvStepWeaken(a: World, b: World, pinned: set<nat>, leased: set<Incarnation>, safe: set<Incarnation>,
                      leased': set<Incarnation>, safe': set<Incarnation>)
    requires EnvStep(a, b, pinned, leased, safe) && leased' <= leased && safe' <= safe
    ensures EnvStep(a, b, {}, leased', safe')
  {
    forall pid | pid in b.procs && Persists(a, b, pid, leased)
      ensures Persists(a, b, pid, leased')
    {
    }
  }

  /** Environment steps compose; the set of protected incarnations may shrink
      on the way, and what was pinned no longer counts. */
  lemma EnvStepChain(a: World, b: World, c: World, leased: set<Incarnation>,
                     pinned: set<nat>, safe: set<Incarnation>, pinned': set<nat>, safe': set<Incarnation>)
    requires EnvStep(a, b, pinned, leased, safe) && EnvStep(b, c, pinned', leased, safe') && safe' <= safe
    ensures EnvStep(a, c, {}, leased, safe')
  {
    forall pid | pid in c.procs
      ensures Persists(a, c, pid, leased) || a.clock < c.procs[pid].start <= c.clock
    {
      if Persists(b, c, pid, leased) && Persists(a, b, pid, leased) {
        assert Persists(a, c, pid, leased);
      }
    }
  }

  /** As EnvStepChain, where the protected incarnations of the second part may
      include ones that did not exist at the start. */
  lemma EnvStepThen(a: World, b: World, c: World, leased: set<Incarnation>, safe: set<Incarnation>,
                    leased': set<Incarnation>, safe': set<Incarnation>)
    requires WorldOk(a) && EnvStep(a, b, {}, leased, safe) && EnvStep(b, c, {}, leased', safe')
    requires forall i :: i in leased' ==> i in leased || a.clock < i.start
    requires forall i :: i in safe' ==> i in safe || a.clock < i.start
    ensures EnvStep(a, c, {}, leased', safe')
  {
    forall pid | pid in b.procs
      ensures Persists(a, b, pid, leased') || a.clock < b.procs[pid].start <= b.clock
    {
      if Persists(a, b, pid, leased) {
        assert Incarnation(pid, b.procs[pid].start) in leased' ==> Incarnation(pid, b.procs[pid].start) in leased;
      }
    }
    assert EnvStep(a, b, {}, leased', safe');
    EnvStepChain(a, b, c, leased', {}, safe', {}, safe');
  }

  /** A dead incarnation never lives again, whatever its PID is used for. */
  lemma DeadStaysDead(a: World, b: World, i: Incarnation, pinned: set<nat>, leased: set<Incarnation>, safe: set<Incarnation>)
    requires EnvStep(a, b, pinned, leased, safe)
    requires i.start <= a.clock && !Live(a, i)
    ensures !Live(b, i)
  {
    if i.pid in b.procs && b.procs[i.pid].start == i.start {
      assert Persists(a, b, i.pid, leased);
    }
  }
}
