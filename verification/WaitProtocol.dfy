/** Parents parked until a child ends: ticks, exec, exit, faults, keys and sleeps as steps
    on the task ring. */
module WaitProtocol {
  import opened Tasks

  // ---- the steps ----

  /** `task_create`: a node behind the list's head. */
  function Created(s: Sched, parent: nat, esp: nat, dir: nat, ustack: nat): (t: Sched)
    requires s.ring != [] && s.cur < |s.ring|
    ensures |t.ring| == |s.ring| + 1 && t.cur < |t.ring|
  {
    Sched([s.ring[0], T(s.nextPid, parent, Ready, esp, dir, ustack)] + s.ring[1..],
          if s.cur == 0 then 0 else s.cur + 1, s.nextPid + 1)
  }

  /** The running task parks behind a child and the processor is handed on. */
  function Parked(s: Sched, esp: nat): (t: Sched)
    requires s.cur < |s.ring|
    ensures |t.ring| == |s.ring| && t.cur < |t.ring|
  {
    Switched(s.(ring := s.ring[s.cur := s.ring[s.cur].(esp := esp, state := Waiting)]), esp)
  }

  /** SYS_EXEC and SYS_EXEC_ELF that succeed. */
  function Execed(s: Sched, esp: nat, childEsp: nat, dir: nat, ustack: nat): (t: Sched)
    requires s.ring != [] && s.cur < |s.ring|
    ensures |t.ring| == |s.ring| + 1 && t.cur < |t.ring|
  {
    Parked(Created(s, s.ring[s.cur].id, childEsp, dir, ustack), esp)
  }

  /** The first task of this id, woken if it waits. */
  function Woken(r: seq<T>, pid: nat, i: nat): (q: seq<T>)
    requires i <= |r|
    ensures |q| == |r|
    decreases |r| - i
  {
    if i == |r| then r
    else if r[i].id == pid then (if r[i].state == Waiting then r[i := r[i].(state := Ready)] else r)
    else Woken(r, pid, i + 1)
  }

  /** The running task marked terminated and its parent woken. */
  function Ended(s: Sched): (t: Sched)
    requires s.cur < |s.ring|
    ensures |t.ring| == |s.ring| && t.cur == s.cur && t.nextPid == s.nextPid
  {
    var r := s.ring[s.cur := s.ring[s.cur].(state := Terminated)];
    s.(ring := if s.ring[s.cur].parent > 0 then Woken(r, s.ring[s.cur].parent, 0) else r)
  }

  /** exit, exit_group, and a fault in user mode. */
  function Exited(s: Sched, esp: nat): (t: Sched)
    requires s.cur < |s.ring|
    ensures |t.ring| == |s.ring| && t.cur < |t.ring|
  {
    Switched(Ended(s), esp)
  }

  /** A read from an empty keyboard buffer. */
  function Slept(s: Sched, esp: nat): (t: Sched)
    requires s.cur < |s.ring|
    ensures |t.ring| == |s.ring| && t.cur < |t.ring|
  {
    Switched(s.(ring := s.ring[s.cur := s.ring[s.cur].(state := Sleeping)]), esp)
  }

  function Awake(t: T): T { if t.state == Sleeping then t.(state := Ready) else t }

  /** A key press wakes every sleeper. */
  function KeyPressed(s: Sched): (t: Sched)
    ensures |t.ring| == |s.ring| && t.cur == s.cur && t.nextPid == s.nextPid
  {
    s.(ring := seq(|s.ring|, i requires 0 <= i < |s.ring| => Awake(s.ring[i])))
  }

  datatype Step =
    | Tick(esp: nat)
    | Exec(esp: nat, childEsp: nat, dir: nat, ustack: nat)
    | Exit(esp: nat)
    | Sleep(esp: nat)
    | Key
    | Spawn(childEsp: nat, dir: nat, ustack: nat)        // by the kernel, as pid 1
    | Execve(esp: nat, dir: nat, ustack: nat)            // the loader's task took a pid and is gone again

  /** User-mode steps are not the idle task's; only the kernel's own task spawns. */
  predicate Enabled(s: Sched, step: Step)
    requires s.cur < |s.ring|
  {
    match step
    case Tick(_) => true
    case Key => true
    case Spawn(_, _, _) => s.cur == 0
    case _ => s.cur != 0
  }

  function Do(s: Sched, step: Step): (t: Sched)
    requires s.ring != [] && s.cur < |s.ring|
    ensures t.ring != [] && t.cur < |t.ring|
  {
    match step
    case Tick(esp) => Switched(s, esp)
    case Exec(esp, childEsp, dir, ustack) => Execed(s, esp, childEsp, dir, ustack)
    case Exit(esp) => Exited(s, esp)
    case Sleep(esp) => Slept(s, esp)
    case Key => KeyPressed(s)
    case Spawn(childEsp, dir, ustack) => Created(s, 0, childEsp, dir, ustack)
    case Execve(esp, dir, ustack) =>
      s.(ring := s.ring[s.cur := s.ring[s.cur].(esp := esp, dir := dir, ustack := ustack)], nextPid := s.nextPid + 1)
  }

  /** The state a step hands to `task_switch`, for the steps that do. */
  function Handed(s: Sched, step: Step): (t: Sched)
    requires s.ring != [] && s.cur < |s.ring|
    ensures t.cur < |t.ring|
  {
    match step
    case Exec(esp, childEsp, dir, ustack) =>
      var c := Created(s, s.ring[s.cur].id, childEsp, dir, ustack);
      c.(ring := c.ring[c.cur := c.ring[c.cur].(esp := esp, state := Waiting)])
    case Exit(_) => Ended(s)
    case Sleep(_) => s.(ring := s.ring[s.cur := s.ring[s.cur].(state := Sleeping)])
    case _ => s
  }

  /** If the step switches, a runnable task is within reach of the scan. */
  predicate SwitchInReach(s: Sched, step: Step)
    requires s.ring != [] && s.cur < |s.ring|
  {
    step.Tick? || step.Exec? || step.Exit? || step.Sleep? ==> InReach(Handed(s, step).ring, Handed(s, step).cur)
  }

  // ---- the invariant ----

  predicate Live(t: T) { t.state != Terminated }

  /** Task j, alive, names task i as its parent. */
  predicate ChildOf(r: seq<T>, i: nat, j: nat)
    requires i < |r| && j < |r|
  {
    Live(r[j]) && r[j].parent == r[i].id
  }

  ghost predicate HasChild(r: seq<T>, i: nat)
    requires i < |r|
  {
    exists j: nat :: j < |r| && ChildOf(r, i, j)
  }

  /** Ids are distinct and given out in order; a parent's is smaller than its child's; nobody
      names the idle task. */
  predicate IdsOk(r: seq<T>, nextPid: nat) {
    && (forall i, j :: 0 <= i < j < |r| ==> r[i].id != r[j].id)
    && (forall i :: 0 <= i < |r| ==> 1 <= r[i].id < nextPid && r[i].parent < r[i].id && r[i].parent != IDLE)
  }

  /** A task waits exactly when it has a living child, and then it has just one. */
  ghost predicate WaitsOk(r: seq<T>) {
    && (forall i: nat :: i < |r| ==> (r[i].state == Waiting <==> HasChild(r, i)))
    && (forall i: nat, j: nat, k: nat :: i < |r| && j < |r| && k < |r| && ChildOf(r, i, j) && ChildOf(r, i, k) ==> j == k)
  }

  ghost predicate Inv(s: Sched) {
    && Headed(s.ring) && s.cur < |s.ring| && s.ring[s.cur].state == Running
    && IdsOk(s.ring, s.nextPid) && WaitsOk(s.ring)
  }

  /** The state `task_init` leaves. */
  function Initial(): Sched {
    Sched([T(IDLE, 0, Running, 0, 0, 0)], 0, 2)
  }

  lemma InitialOk()
    ensures Inv(Initial())
  {
  }

  // ---- waiting survives every step ----

  /** What matters to waiting: ids, parents, who waits and who is terminated. */
  predicate SameWaits(r: seq<T>, q: seq<T>) {
    |q| == |r| && forall i :: 0 <= i < |r| ==>
      && q[i].id == r[i].id && q[i].parent == r[i].parent
      && (q[i].state == Waiting <==> r[i].state == Waiting) && (Live(q[i]) <==> Live(r[i]))
  }

  lemma SameWaitsOk(r: seq<T>, q: seq<T>, nextPid: nat, later: nat)
    requires SameWaits(r, q) && IdsOk(r, nextPid) && WaitsOk(r) && nextPid <= later
    ensures IdsOk(q, later) && WaitsOk(q)
  {
    forall i: nat | i < |q|
      ensures q[i].state == Waiting <==> HasChild(q, i)
    {
      if HasChild(r, i) {
        var j: nat :| j < |r| && ChildOf(r, i, j);
        assert ChildOf(q, i, j);
      }
      if HasChild(q, i) {
        var j: nat :| j < |q| && ChildOf(q, i, j);
        assert ChildOf(r, i, j);
      }
    }
    forall i: nat, j: nat, k: nat | i < |q| && j < |q| && k < |q| && ChildOf(q, i, j) && ChildOf(q, i, k)
      ensures j == k
    {
      assert ChildOf(r, i, j) && ChildOf(r, i, k);
    }
  }

  /** A switch from a state in which the current task may be blocked. */
  lemma SwitchKeeps(s: Sched, esp: nat)
    requires Headed(s.ring) && s.cur < |s.ring| && InReach(s.ring, s.cur)
    requires IdsOk(s.ring, s.nextPid) && WaitsOk(s.ring)
    ensures Inv(Switched(s, esp))
  {
    SwitchPicks(s, esp);
    SameWaitsOk(s.ring, Switched(s, esp).ring, s.nextPid, s.nextPid);
  }

  lemma CreatedIds(s: Sched, parent: nat, esp: nat, dir: nat, ustack: nat)
    requires s.ring != [] && s.cur < |s.ring| && IdsOk(s.ring, s.nextPid) && Headed(s.ring)
    requires parent < s.nextPid && parent != IDLE
    ensures var t := Created(s, parent, esp, dir, ustack); IdsOk(t.ring, t.nextPid) && Headed(t.ring)
    ensures var t := Created(s, parent, esp, dir, ustack); t.ring[t.cur] == s.ring[s.cur]
  {
    var t := Created(s, parent, esp, dir, ustack);
    assert forall i :: 2 <= i < |t.ring| ==> t.ring[i] == s.ring[i - 1];
  }

  /** Where a task of the old ring stands in the new one. */
  function Shift(i: nat): nat { if i == 0 then 0 else i + 1 }

  lemma CreatedAt(s: Sched, parent: nat, esp: nat, dir: nat, ustack: nat, i: nat)
    requires s.ring != [] && s.cur < |s.ring|
    ensures var t := Created(s, parent, esp, dir, ustack);
      && (i < |s.ring| ==> t.ring[Shift(i)] == s.ring[i])
      && (i < |t.ring| && i != 1 ==> t.ring[i] == s.ring[if i == 0 then 0 else i - 1])
      && t.ring[1] == T(s.nextPid, parent, Ready, esp, dir, ustack)
  {
  }

  /** A new task that names no one leaves the waiting as it is. */
  lemma SpawnKeepsWaits(s: Sched, esp: nat, dir: nat, ustack: nat)
    requires s.ring != [] && s.cur < |s.ring| && IdsOk(s.ring, s.nextPid) && WaitsOk(s.ring)
    ensures WaitsOk(Created(s, 0, esp, dir, ustack).ring)
  {
    assert s.ring[0].id < s.nextPid;
    CreatedWaits(s, 0, esp, dir, ustack);
  }

  /** Children in the ring after a creation: the old ones, and the new task. */
  lemma CreatedChild(s: Sched, parent: nat, esp: nat, dir: nat, ustack: nat, i: nat, j: nat)
    requires s.ring != [] && s.cur < |s.ring| && IdsOk(s.ring, s.nextPid) && parent < s.nextPid
    requires var t := Created(s, parent, esp, dir, ustack); i < |t.ring| && j < |t.ring| && ChildOf(t.ring, i, j)
    ensures i != 1
    ensures var t := Created(s, parent, esp, dir, ustack);
      if j == 1 then t.ring[i].id == parent
      else ChildOf(s.ring, if i == 0 then 0 else i - 1, if j == 0 then 0 else j - 1)
  {
    CreatedAt(s, parent, esp, dir, ustack, i);
    CreatedAt(s, parent, esp, dir, ustack, j);
  }

  lemma CreatedWaits(s: Sched, parent: nat, esp: nat, dir: nat, ustack: nat)
    requires s.ring != [] && s.cur < |s.ring| && IdsOk(s.ring, s.nextPid) && WaitsOk(s.ring) && parent < s.nextPid
    requires forall i: nat :: i < |s.ring| && s.ring[i].id == parent ==> !HasChild(s.ring, i)
    ensures var r := Created(s, parent, esp, dir, ustack).ring;
      && (forall i: nat :: i < |r| && r[i].id != parent ==> (r[i].state == Waiting <==> HasChild(r, i)))
      && (forall i: nat, j: nat, k: nat :: i < |r| && j < |r| && k < |r| && ChildOf(r, i, j) && ChildOf(r, i, k) ==> j == k)
  {
    var r := Created(s, parent, esp, dir, ustack).ring;
    forall i: nat | i < |r| && r[i].id != parent
      ensures r[i].state == Waiting <==> HasChild(r, i)
    {
      CreatedAt(s, parent, esp, dir, ustack, i);
      if HasChild(r, i) {
        var j: nat :| j < |r| && ChildOf(r, i, j);
        CreatedChild(s, parent, esp, dir, ustack, i, j);
      } else if i != 1 {
        var was: nat := if i == 0 then 0 else i - 1;
        if HasChild(s.ring, was) {
          var j: nat :| j < |s.ring| && ChildOf(s.ring, was, j);
          CreatedAt(s, parent, esp, dir, ustack, j);
          assert ChildOf(r, i, Shift(j));
        }
      }
    }
    forall i: nat, j: nat, k: nat | i < |r| && j < |r| && k < |r| && ChildOf(r, i, j) && ChildOf(r, i, k)
      ensures j == k
    {
      CreatedChild(s, parent, esp, dir, ustack, i, j);
      CreatedChild(s, parent, esp, dir, ustack, i, k);
      CreatedAt(s, parent, esp, dir, ustack, i);
    }
  }

  // ---- each kind of step ----

  /** The exec'ing task waits, for the one child just made. */
  lemma ExecWaits(r: seq<T>, i: nat, q: seq<T>)
    requires i < |r| == |q| && i != 1 && |r| > 1 && q == r[i := q[i]] && q[i].id == r[i].id && q[i].parent == r[i].parent
    requires q[i].state == Waiting && r[i].state == Running && ChildOf(r, i, 1)
    requires forall k: nat, j: nat :: k < j < |r| ==> r[k].id != r[j].id
    requires forall k: nat :: k < |r| && r[k].id != r[i].id ==> (r[k].state == Waiting <==> HasChild(r, k))
    requires forall k: nat, j: nat, l: nat :: k < |r| && j < |r| && l < |r| && ChildOf(r, k, j) && ChildOf(r, k, l) ==> j == l
    ensures WaitsOk(q)
  {
    forall k: nat | k < |q|
      ensures q[k].state == Waiting <==> HasChild(q, k)
    {
      if HasChild(r, k) {
        var j: nat :| j < |r| && ChildOf(r, k, j);
        assert ChildOf(q, k, j);
      }
      if HasChild(q, k) {
        var j: nat :| j < |q| && ChildOf(q, k, j);
        assert ChildOf(r, k, j);
      }
    }
    forall k: nat, j: nat, l: nat | k < |q| && j < |q| && l < |q| && ChildOf(q, k, j) && ChildOf(q, k, l)
      ensures j == l
    {
      assert ChildOf(r, k, j) && ChildOf(r, k, l);
    }
  }

  lemma ExecParks(s: Sched, esp: nat, childEsp: nat, dir: nat, ustack: nat)
    requires Inv(s) && s.cur != 0
    ensures var c := Created(s, s.ring[s.cur].id, childEsp, dir, ustack);
      var r := c.ring[c.cur := c.ring[c.cur].(esp := esp, state := Waiting)];
      Headed(r) && IdsOk(r, c.nextPid) && WaitsOk(r)
  {
    var pid := s.ring[s.cur].id;
    var c := Created(s, pid, childEsp, dir, ustack);
    var r := c.ring[c.cur := c.ring[c.cur].(esp := esp, state := Waiting)];
    CreatedIds(s, pid, childEsp, dir, ustack);
    CreatedWaits(s, pid, childEsp, dir, ustack);
    CreatedAt(s, pid, childEsp, dir, ustack, s.cur);
    ExecWaits(c.ring, c.cur, r);
  }

  lemma ExecKeeps(s: Sched, esp: nat, childEsp: nat, dir: nat, ustack: nat)
    requires Inv(s) && s.cur != 0 && SwitchInReach(s, Exec(esp, childEsp, dir, ustack))
    ensures Inv(Execed(s, esp, childEsp, dir, ustack))
  {
    ExecParks(s, esp, childEsp, dir, ustack);
    SwitchKeeps(Handed(s, Exec(esp, childEsp, dir, ustack)), esp);
  }

  lemma {:induction false} WokenIs(r: seq<T>, pid: nat, i: nat)
    requires i <= |r| && forall k, j :: 0 <= k < j < |r| ==> r[k].id != r[j].id
    ensures forall k :: 0 <= k < |r| ==>
      Woken(r, pid, i)[k] == if k >= i && r[k].id == pid && r[k].state == Waiting then r[k].(state := Ready) else r[k]
    decreases |r| - i
  {
    if i < |r| && r[i].id != pid {
      WokenIs(r, pid, i + 1);
    }
  }

  function EndedTask(r: seq<T>, cur: nat, k: nat): T
    requires cur < |r| && k < |r|
  {
    if k == cur then r[k].(state := Terminated)
    else if r[k].id == r[cur].parent && r[k].state == Waiting then r[k].(state := Ready)
    else r[k]
  }

  /** The ring once the current task has ended: it is terminated, its parent no longer waits. */
  predicate EndedRing(r: seq<T>, cur: nat, q: seq<T>)
    requires cur < |r|
  {
    |q| == |r| && forall k :: 0 <= k < |r| ==> q[k] == EndedTask(r, cur, k)
  }

  lemma EndedIs(s: Sched)
    requires s.cur < |s.ring| && IdsOk(s.ring, s.nextPid)
    ensures EndedRing(s.ring, s.cur, Ended(s).ring)
  {
    var r := s.ring[s.cur := s.ring[s.cur].(state := Terminated)];
    forall k, j | 0 <= k < j < |r|
      ensures r[k].id != r[j].id
    {
    }
    WokenIs(r, s.ring[s.cur].parent, 0);
  }

  lemma EndedWaits(r: seq<T>, cur: nat, q: seq<T>, nextPid: nat)
    requires cur < |r| && EndedRing(r, cur, q) && r[cur].state == Running && IdsOk(r, nextPid) && WaitsOk(r)
    ensures WaitsOk(q)
  {
    forall i: nat, j: nat | i < |r| && j < |r|
      ensures ChildOf(q, i, j) <==> ChildOf(r, i, j) && j != cur
    {
    }
    forall i: nat | i < |q|
      ensures q[i].state == Waiting <==> HasChild(q, i)
    {
      if HasChild(r, i) {
        var j: nat :| j < |r| && ChildOf(r, i, j);
        if j != cur {
          assert ChildOf(q, i, j) && !ChildOf(r, i, cur);
        } else {
          assert forall k: nat :: k < |r| && ChildOf(q, i, k) ==> ChildOf(r, i, k) && ChildOf(r, i, cur) && k != cur;
        }
      }
    }
  }

  lemma ExitKeeps(s: Sched, esp: nat)
    requires Inv(s) && s.cur != 0 && SwitchInReach(s, Exit(esp))
    ensures Inv(Exited(s, esp))
  {
    EndedIs(s);
    EndedWaits(s.ring, s.cur, Ended(s).ring, s.nextPid);
    SwitchKeeps(Ended(s), esp);
  }

  lemma SleepKeeps(s: Sched, esp: nat)
    requires Inv(s) && s.cur != 0 && SwitchInReach(s, Sleep(esp))
    ensures Inv(Slept(s, esp))
  {
    var t := s.(ring := s.ring[s.cur := s.ring[s.cur].(state := Sleeping)]);
    SameWaitsOk(s.ring, t.ring, s.nextPid, s.nextPid);
    SwitchKeeps(t, esp);
  }

  lemma SpawnKeeps(s: Sched, childEsp: nat, dir: nat, ustack: nat)
    requires Inv(s) && s.cur == 0
    ensures Inv(Created(s, 0, childEsp, dir, ustack))
  {
    SpawnKeepsWaits(s, childEsp, dir, ustack);
    CreatedIds(s, 0, childEsp, dir, ustack);
  }

  /** Every step keeps the invariant whose switch, if it has one, has a runnable task in reach. */
  lemma StepKeeps(s: Sched, step: Step)
    requires Inv(s) && Enabled(s, step) && SwitchInReach(s, step)
    ensures Inv(Do(s, step))
  {
    match step
    case Tick(esp) => SwitchKeeps(s, esp);
    case Exec(esp, childEsp, dir, ustack) => ExecKeeps(s, esp, childEsp, dir, ustack);
    case Exit(esp) => ExitKeeps(s, esp);
    case Sleep(esp) => SleepKeeps(s, esp);
    case Key => SameWaitsOk(s.ring, KeyPressed(s).ring, s.nextPid, s.nextPid);
    case Spawn(childEsp, dir, ustack) => SpawnKeeps(s, childEsp, dir, ustack);
    case Execve(esp, dir, ustack) => SameWaitsOk(s.ring, Do(s, step).ring, s.nextPid, s.nextPid + 1);
  }

  /** With at most 101 tasks there always is one: the idle task. */
  lemma SmallStepInReach(s: Sched, step: Step)
    requires Inv(s) && Enabled(s, step) && |Do(s, step).ring| <= 101
    ensures SwitchInReach(s, step)
  {
    match step
    case Exec(esp, childEsp, dir, ustack) =>
      ExecParks(s, esp, childEsp, dir, ustack);
      SmallRingInReach(Handed(s, step).ring, Handed(s, step).cur);
    case Exit(esp) =>
      EndedIs(s);
      SmallRingInReach(Ended(s).ring, s.cur);
    case Sleep(esp) => SmallRingInReach(Handed(s, step).ring, s.cur);
    case _ => if step.Tick? { SmallRingInReach(s.ring, s.cur); }
  }

  // ---- runs ----

  /** A run of any length, with any number of tasks, in which the scan always reaches a runnable one. */
  predicate IsRun(states: seq<Sched>, steps: seq<Step>) {
    && |states| == |steps| + 1 && states[0] == Initial()
    && (forall k :: 0 <= k < |states| ==> states[k].ring != [] && states[k].cur < |states[k].ring|)
    && (forall k :: 0 <= k < |steps| ==> RunStep(states[k], steps[k], states[k + 1]))
  }

  predicate RunStep(s: Sched, step: Step, t: Sched)
    requires s.ring != [] && s.cur < |s.ring|
  {
    Enabled(s, step) && t == Do(s, step) && SwitchInReach(s, step)
  }

  /** From `task_init` on, over every such run: a task waits exactly when one living task names
      it as parent. */
  lemma {:induction false} RunsKeep(states: seq<Sched>, steps: seq<Step>, k: nat)
    requires IsRun(states, steps) && k < |states|
    ensures Inv(states[k])
    decreases k
  {
    if k == 0 {
      InitialOk();
    } else {
      RunsKeep(states, steps, k - 1);
      assert RunStep(states[k - 1], steps[k - 1], states[k - 1 + 1]);
      StepKeeps(states[k - 1], steps[k - 1]);
    }
  }

  /** A run whose ring never has more than 101 tasks. */
  predicate IsSmallRun(states: seq<Sched>, steps: seq<Step>) {
    && |states| == |steps| + 1 && states[0] == Initial()
    && (forall k :: 0 <= k < |states| ==> states[k].ring != [] && states[k].cur < |states[k].ring| <= 101)
    && (forall k :: 0 <= k < |steps| ==> SmallStep(states[k], steps[k], states[k + 1]))
  }

  predicate SmallStep(s: Sched, step: Step, t: Sched)
    requires s.ring != [] && s.cur < |s.ring|
  {
    Enabled(s, step) && t == Do(s, step)
  }

  /** It is one in which the scan always reaches a runnable task. */
  lemma SmallRunsKeep(states: seq<Sched>, steps: seq<Step>, k: nat)
    requires IsSmallRun(states, steps) && k < |states|
    ensures IsRun(states, steps) && Inv(states[k])
  {
    forall i | 0 <= i < |steps|
      ensures RunStep(states[i], steps[i], states[i + 1])
    {
      SmallRunsStep(states, steps, i);
    }
    RunsKeep(states, steps, k);
  }

  lemma {:induction false} SmallRunsStep(states: seq<Sched>, steps: seq<Step>, k: nat)
    requires IsSmallRun(states, steps) && k < |steps|
    ensures Inv(states[k]) && RunStep(states[k], steps[k], states[k + 1])
    decreases k
  {
    if k == 0 {
      InitialOk();
    } else {
      SmallRunsStep(states, steps, k - 1);
      assert RunStep(states[k - 1], steps[k - 1], states[k - 1 + 1]);
      StepKeeps(states[k - 1], steps[k - 1]);
    }
    assert SmallStep(states[k], steps[k], states[k + 1]);
    assert |states[k + 1].ring| <= 101;
    SmallStepInReach(states[k], steps[k]);
  }

  // ---- waits end ----

  ghost predicate WaitsFor(r: seq<T>, i: nat, path: seq<nat>) {
    && path != [] && path[0] == i && (forall k :: 0 <= k < |path| ==> path[k] < |r|)
    && forall k :: 0 <= k < |path| - 1 ==> r[path[k]].state == Waiting && ChildOf(r, path[k], path[k + 1])
  }

  predicate EndsAwake(r: seq<T>, path: seq<nat>) {
    |path| > 1 && var last := path[|path| - 1]; last < |r| && Live(r[last]) && r[last].state != Waiting
  }

  /** Every waiting task waits, through its child and the child's child and so on, for a living
      task that does not wait. */
  lemma {:induction false} WaitsEnd(s: Sched, i: nat)
    requires Inv(s) && i < |s.ring| && s.ring[i].state == Waiting
    ensures exists path :: WaitsFor(s.ring, i, path) && EndsAwake(s.ring, path)
    decreases s.nextPid - s.ring[i].id
  {
    var r := s.ring;
    var j: nat :| j < |r| && ChildOf(r, i, j);
    if r[j].state == Waiting {
      WaitsEnd(s, j);
      var path :| WaitsFor(r, j, path) && EndsAwake(r, path);
      var longer := [i] + path;
      assert forall k :: 1 <= k < |longer| ==> longer[k] == path[k - 1];
      assert WaitsFor(r, i, longer) && longer[|longer| - 1] == path[|path| - 1];
    } else {
      var path := [i, j];
      assert WaitsFor(r, i, path);
    }
  }

  /** No task waits for itself: along a chain of waits the ids grow. */
  lemma {:induction false} WaitsForward(s: Sched, i: nat, path: seq<nat>, k: nat)
    requires Inv(s) && WaitsFor(s.ring, i, path) && 0 < k < |path|
    ensures s.ring[path[k]].id > s.ring[i].id
    decreases k
  {
    assert ChildOf(s.ring, path[k - 1], path[k]);
    if k > 1 {
      WaitsForward(s, i, path, k - 1);
    }
  }

  // ---- what a parked task resumes with ----

  /** The place of a task after a step: creations shift all but the head. */
  function PlaceAfter(step: Step, i: nat): nat {
    if step.Exec? || step.Spawn? then Shift(i) else i
  }

  /** While a task waits its saved stack pointer stays what it was when it parked. */
  lemma ParkedKeepsEsp(s: Sched, step: Step, i: nat)
    requires Inv(s) && Enabled(s, step) && SwitchInReach(s, step)
    requires i < |s.ring| && s.ring[i].state == Waiting
    ensures PlaceAfter(step, i) < |Do(s, step).ring|
    ensures var t := Do(s, step).ring[PlaceAfter(step, i)];
      t.id == s.ring[i].id && t.esp == s.ring[i].esp && (t.state == Waiting || t.state == Ready || t.state == Running)
  {
    match step
    case Tick(esp) => SwitchKeepsParked(s, esp, i);
    case Exec(esp, childEsp, dir, ustack) => ExecKeepsParked(s, esp, childEsp, dir, ustack, i);
    case Exit(esp) =>
      EndedIs(s);
      SwitchKeepsOthers(Ended(s), esp, i);
    case Sleep(esp) =>
      SwitchKeepsParked(s.(ring := s.ring[s.cur := s.ring[s.cur].(state := Sleeping)]), esp, i);
    case Key =>
    case Spawn(childEsp, dir, ustack) => CreatedAt(s, 0, childEsp, dir, ustack, i);
    case Execve(_, _, _) =>
  }

  lemma SwitchKeepsOthers(s: Sched, esp: nat, i: nat)
    requires Headed(s.ring) && s.cur < |s.ring| && InReach(s.ring, s.cur) && i < |s.ring| && i != s.cur
    ensures var t := Switched(s, esp).ring[i];
      t.id == s.ring[i].id && t.esp == s.ring[i].esp && (t.state == s.ring[i].state || t.state == Running)
  {
    SwitchPicks(s, esp);
  }

  lemma SwitchKeepsParked(s: Sched, esp: nat, i: nat)
    requires Headed(s.ring) && s.cur < |s.ring| && InReach(s.ring, s.cur) && i < |s.ring| && s.ring[i].state == Waiting
    ensures var t := Switched(s, esp).ring[i];
      t.id == s.ring[i].id && t.esp == s.ring[i].esp && t.state == Waiting
  {
    SwitchPicks(s, esp);
  }

  lemma ExecKeepsParked(s: Sched, esp: nat, childEsp: nat, dir: nat, ustack: nat, i: nat)
    requires Inv(s) && s.cur != 0 && SwitchInReach(s, Exec(esp, childEsp, dir, ustack))
    requires i < |s.ring| && s.ring[i].state == Waiting
    ensures var t := Execed(s, esp, childEsp, dir, ustack).ring[Shift(i)];
      t.id == s.ring[i].id && t.esp == s.ring[i].esp && t.state == Waiting
  {
    ExecParks(s, esp, childEsp, dir, ustack);
    CreatedAt(s, s.ring[s.cur].id, childEsp, dir, ustack, i);
    SwitchKeepsParked(Handed(s, Exec(esp, childEsp, dir, ustack)), esp, Shift(i));
  }

  /** An exec parks the caller with the stack pointer of its system call. */
  lemma ExecSavesEsp(s: Sched, esp: nat, childEsp: nat, dir: nat, ustack: nat)
    requires Inv(s) && s.cur != 0 && SwitchInReach(s, Exec(esp, childEsp, dir, ustack))
    ensures var t := Execed(s, esp, childEsp, dir, ustack).ring;
      t[Shift(s.cur)].id == s.ring[s.cur].id && t[Shift(s.cur)].state == Waiting && t[Shift(s.cur)].esp == esp
      && ChildOf(t, Shift(s.cur), 1)
      && t[1].id == s.nextPid && t[1].esp == childEsp && !Blocked(t[1])
  {
    ExecParks(s, esp, childEsp, dir, ustack);
    CreatedAt(s, s.ring[s.cur].id, childEsp, dir, ustack, s.cur);
    SwitchPicks(Handed(s, Exec(esp, childEsp, dir, ustack)), esp);
  }

  /** When the child ends, its parent is runnable again in the same step. */
  lemma ExitWakesParent(s: Sched, esp: nat, i: nat)
    requires Inv(s) && s.cur != 0 && SwitchInReach(s, Exit(esp))
    requires i < |s.ring| && ChildOf(s.ring, i, s.cur)
    ensures s.ring[i].state == Waiting && !Blocked(Exited(s, esp).ring[i]) && Exited(s, esp).ring[i].esp == s.ring[i].esp
    ensures Exited(s, esp).ring[s.cur].state == Terminated
  {
    EndedIs(s);
    SwitchPicks(Ended(s), esp);
  }

  // ---- what a step leaves alone ----

  /** The task is as it was, or has been picked to run. */
  predicate SameOrPicked(was: T, now: T, current: bool) {
    now == was || (current && now == was.(state := Running))
  }

  lemma SwitchKeepsOther(s: Sched, esp: nat, i: nat)
    requires Headed(s.ring) && s.cur < |s.ring| && InReach(s.ring, s.cur) && i < |s.ring| && i != s.cur
    ensures SameOrPicked(s.ring[i], Switched(s, esp).ring[i], Switched(s, esp).cur == i)
  {
    SwitchPicks(s, esp);
  }

  /** A task that is woken by a step: a sleeper by a key, a waiting parent by its child's end. */
  predicate WokenBy(s: Sched, step: Step, i: nat)
    requires s.cur < |s.ring| && i < |s.ring|
  {
    || (step.Key? && s.ring[i].state == Sleeping)
    || (step.Exit? && s.ring[i].state == Waiting && s.ring[i].id == s.ring[s.cur].parent)
  }

  /** But for the current task, a step changes no task except that it makes ready those it wakes,
      and running the one it picks. */
  lemma StepKeepsOthers(s: Sched, step: Step, i: nat)
    requires Inv(s) && Enabled(s, step) && SwitchInReach(s, step) && i < |s.ring| && i != s.cur
    ensures PlaceAfter(step, i) < |Do(s, step).ring|
    ensures var t, p := Do(s, step), PlaceAfter(step, i);
      SameOrPicked(if WokenBy(s, step, i) then s.ring[i].(state := Ready) else s.ring[i], t.ring[p], t.cur == p)
  {
    match step
    case Tick(esp) => SwitchKeepsOther(s, esp, i);
    case Exec(esp, childEsp, dir, ustack) =>
      ExecParks(s, esp, childEsp, dir, ustack);
      CreatedAt(s, s.ring[s.cur].id, childEsp, dir, ustack, i);
      SwitchKeepsOther(Handed(s, step), esp, Shift(i));
    case Exit(esp) =>
      EndedIs(s);
      SwitchKeepsOther(Ended(s), esp, i);
    case Sleep(esp) => SwitchKeepsOther(Handed(s, step), esp, i);
    case Key =>
    case Spawn(childEsp, dir, ustack) => CreatedAt(s, 0, childEsp, dir, ustack, i);
    case Execve(_, _, _) =>
  }

  // ---- sleep and wake ----

  /** A key press makes every sleeper ready and changes nothing else of any task. */
  lemma KeyWakesSleepers(s: Sched, i: nat)
    requires s.ring != [] && s.cur < |s.ring| && i < |s.ring|
    ensures var t := Do(s, Key);
      && |t.ring| == |s.ring| && t.cur == s.cur && t.nextPid == s.nextPid && t.ring[i].state != Sleeping
      && t.ring[i] == if s.ring[i].state == Sleeping then s.ring[i].(state := Ready) else s.ring[i]
  {
  }

  /** A read that finds no key puts the reader to sleep with the stack pointer of its system call. */
  lemma SleepSavesEsp(s: Sched, esp: nat)
    requires Inv(s) && s.cur != 0 && SwitchInReach(s, Sleep(esp))
    ensures Do(s, Sleep(esp)).ring[s.cur] == s.ring[s.cur].(state := Sleeping, esp := esp)
    ensures Do(s, Sleep(esp)).cur != s.cur
  {
    SwitchPicks(Handed(s, Sleep(esp)), esp);
  }

  lemma SwitchKeepsSleeper(s: Sched, esp: nat, i: nat)
    requires Headed(s.ring) && s.cur < |s.ring| && InReach(s.ring, s.cur)
    requires i < |s.ring| && i != s.cur && s.ring[i].state == Sleeping
    ensures Switched(s, esp).ring[i] == s.ring[i]
  {
    SwitchPicks(s, esp);
  }

  /** Every step but a key press leaves a sleeper as it is. */
  lemma SleeperStays(s: Sched, step: Step, i: nat)
    requires Inv(s) && Enabled(s, step) && SwitchInReach(s, step) && !step.Key?
    requires i < |s.ring| && s.ring[i].state == Sleeping
    ensures PlaceAfter(step, i) < |Do(s, step).ring| && Do(s, step).ring[PlaceAfter(step, i)] == s.ring[i]
  {
    match step
    case Tick(esp) => SwitchKeepsSleeper(s, esp, i);
    case Exec(esp, childEsp, dir, ustack) =>
      ExecParks(s, esp, childEsp, dir, ustack);
      CreatedAt(s, s.ring[s.cur].id, childEsp, dir, ustack, i);
      SwitchKeepsSleeper(Handed(s, step), esp, Shift(i));
    case Exit(esp) =>
      EndedIs(s);
      SwitchKeepsSleeper(Ended(s), esp, i);
    case Sleep(esp) => SwitchKeepsSleeper(Handed(s, step), esp, i);
    case Spawn(childEsp, dir, ustack) => CreatedAt(s, 0, childEsp, dir, ustack, i);
    case Execve(_, _, _) =>
  }

  /** Where a task stands after some steps. */
  function PlaceAlong(steps: seq<Step>, i: nat): nat {
    if steps == [] then i else PlaceAlong(steps[1..], PlaceAfter(steps[0], i))
  }

  predicate NoKey(steps: seq<Step>) {
    forall k :: 0 <= k < |steps| ==> !steps[k].Key?
  }

  /** So on every run a sleeper sleeps on until the first key press. */
  lemma {:induction false} SleepsOn(states: seq<Sched>, steps: seq<Step>, from: nat, to: nat, i: nat)
    requires IsRun(states, steps) && from <= to < |states| && NoKey(steps[from..to])
    requires i < |states[from].ring| && states[from].ring[i].state == Sleeping
    ensures var p := PlaceAlong(steps[from..to], i);
      p < |states[to].ring| && states[to].ring[p] == states[from].ring[i]
    decreases if from <= to then to - from else 0
  {
    if from < to {
      RunsKeep(states, steps, from);
      var rest := steps[from..to];
      assert rest[0] == steps[from] && rest[1..] == steps[from + 1..to];
      assert RunStep(states[from], steps[from], states[from + 1]);
      SleeperStays(states[from], steps[from], i);
      SleepsOn(states, steps, from + 1, to, PlaceAfter(steps[from], i));
    }
  }

  /** After a key press it gets the processor within as many switches as there are runnable tasks. */
  lemma KeyThenRuns(s: Sched, esps: seq<nat>, i: nat)
    requires Inv(s) && |s.ring| <= 101 && i < |s.ring| && s.ring[i].state == Sleeping
    requires |esps| == GoodBetween(Do(s, Key).ring, s.cur, 0, |s.ring|)
    ensures exists n :: 1 <= n <= |esps| && Switches(Do(s, Key), esps[..n]).cur == i
  {
    KeyWakesSleepers(s, i);
    KeyWakesSleepers(s, 0);
    FairWithin(Do(s, Key), esps, i);
  }

  /** A task that executes a program stays the one it was, with the new program's stack. */
  lemma ExecveReplaces(s: Sched, esp: nat, dir: nat, ustack: nat, i: nat)
    requires s.ring != [] && s.cur < |s.ring| && i < |s.ring|
    ensures var t := Do(s, Execve(esp, dir, ustack));
      && |t.ring| == |s.ring| && t.cur == s.cur && t.nextPid == s.nextPid + 1
      && t.ring[i] == if i == s.cur then s.ring[i].(esp := esp, dir := dir, ustack := ustack) else s.ring[i]
  {
  }

  // ---- where the scan's bound shows ----

  /** A shell that has run m commands: the idle task, m terminated children, the running shell. */
  predicate ShellAfter(s: Sched, m: nat) {
    && |s.ring| == m + 2 && s.cur == m + 1
    && Headed(s.ring) && s.ring[m + 1].state == Running && s.ring[m + 1].id == 2 < s.nextPid
    && (forall i :: 1 <= i <= m ==> s.ring[i].state == Terminated)
    && IdsOk(s.ring, s.nextPid)
  }

  /** One command: the shell execs, the child exits at once. */
  function Command(s: Sched): (t: Sched)
    requires s.ring != [] && s.cur < |s.ring|
    ensures t.ring != [] && t.cur < |t.ring|
  {
    Exited(Execed(s, 0, 0, 0, 0), 0)
  }

  /** The child runs, with the shell parked last in the ring. */
  lemma ChildRuns(s: Sched, m: nat)
    requires ShellAfter(s, m)
    ensures var t := Execed(s, 0, 0, 0, 0);
      && |t.ring| == m + 3 && t.cur == 1 && t.nextPid == s.nextPid + 1 && Headed(t.ring) && IdsOk(t.ring, t.nextPid)
      && t.ring[1].state == Running && t.ring[1].parent == 2
      && t.ring[m + 2].id == 2 && t.ring[m + 2].state == Waiting
      && forall i :: 2 <= i < m + 2 ==> t.ring[i].state == Terminated && t.ring[i].id == s.ring[i - 1].id
  {
    var c := Created(s, 2, 0, 0, 0);
    CreatedIds(s, 2, 0, 0, 0);
    var p := c.(ring := c.ring[c.cur := c.ring[c.cur].(esp := 0, state := Waiting)]);
    var n := m + 3;
    assert c.cur == m + 2 && Pos(m + 2, 0, n) == 0 && Pos(m + 2, 1, n) == 1;
    assert !Blocked(p.ring[Pos(p.cur, 0, n)]);
    assert FirstGood(p.ring, p.cur, 0) == FirstGood(p.ring, p.cur, 1) == 1;
    SwitchPicks(p, 0);
  }

  /** The child has exited: the shell is ready behind m+1 terminated tasks. */
  lemma ChildEnds(t: Sched, m: nat)
    requires |t.ring| == m + 3 && t.cur == 1 && Headed(t.ring) && IdsOk(t.ring, t.nextPid)
    requires t.ring[1].state == Running && t.ring[1].parent == 2
    requires t.ring[m + 2].id == 2 && t.ring[m + 2].state == Waiting
    requires forall i :: 2 <= i < m + 2 ==> t.ring[i].state == Terminated
    ensures var e := Ended(t);
      && Headed(e.ring) && e.ring[m + 2] == t.ring[m + 2].(state := Ready)
      && (forall i :: 1 <= i < m + 2 ==> e.ring[i].state == Terminated && e.ring[i].id == t.ring[i].id)
      && forall i :: 0 <= i < m + 3 ==> e.ring[i].id == t.ring[i].id && e.ring[i].parent == t.ring[i].parent
  {
    EndedIs(t);
  }

  /** Up to a hundred terminated children the shell gets the processor back. */
  lemma CommandWorks(s: Sched, m: nat)
    requires ShellAfter(s, m) && m <= 100
    ensures ShellAfter(Command(s), m + 1)
  {
    var t := Execed(s, 0, 0, 0, 0);
    ChildRuns(s, m);
    ChildEnds(t, m);
    SwitchToShell(Ended(t), m);
  }

  lemma SwitchToShell(e: Sched, m: nat)
    requires |e.ring| == m + 3 && e.cur == 1 && Headed(e.ring) && m <= 100
    requires Good(e.ring[m + 2]) && forall i :: 1 <= i < m + 2 ==> e.ring[i].state == Terminated
    ensures var t := Switched(e, 0);
      && t.cur == m + 2 && t.ring[m + 2].state == Running && Headed(t.ring)
      && (forall i :: 0 <= i < m + 3 ==> t.ring[i].id == e.ring[i].id && t.ring[i].parent == e.ring[i].parent)
      && forall i :: 1 <= i < m + 2 ==> t.ring[i].state == Terminated
  {
    var n := m + 3;
    assert forall k :: 0 <= k <= m ==> Pos(1, k, n) == k + 2;
    assert !Blocked(e.ring[Pos(1, m, n)]);
    FirstGoodSkips(e.ring, 1, 0, m);
    assert FirstGood(e.ring, 1, m) == m;
    SwitchPicks(e, 0);
  }

  lemma SwitchToDead(e: Sched, m: nat)
    requires |e.ring| == m + 3 && e.cur == 1 && Headed(e.ring) && m > 100
    requires forall i :: 1 <= i < m + 2 ==> e.ring[i].state == Terminated
    ensures var t := Switched(e, 0);
      t.cur == 102 && t.ring[t.cur].state == Running && t.ring[t.cur].id == e.ring[t.cur].id
  {
    var r, n := Saved(e.ring, 1, 0), m + 3;
    HeadedAfterSave(e.ring, 1, 0);
    assert forall k :: 0 <= k < m ==> Pos(1, k, n) == k + 2;
    ScanFinds(r, 1, 0, m);
    assert Pos(1, 100, n) == 102;
  }

  /** Behind more of them a terminated child is set running again in its place. */
  lemma CommandRevives(s: Sched, m: nat)
    requires ShellAfter(s, m) && m > 100
    ensures var t := Command(s);
      2 <= t.cur < m + 2 && t.ring[t.cur].state == Running && t.ring[t.cur].id == s.ring[t.cur - 1].id
      && s.ring[t.cur - 1].state == Terminated
  {
    var t := Execed(s, 0, 0, 0, 0);
    ChildRuns(s, m);
    ChildEnds(t, m);
    SwitchToDead(Ended(t), m);
  }

  /** The boot state with the shell spawned and switched to. */
  function Booted(): Sched {
    Switched(Created(Initial(), 0, 0, 0, 0), 0)
  }

  lemma ShellBooted()
    ensures ShellAfter(Booted(), 0)
  {
    var c := Created(Initial(), 0, 0, 0, 0);
    assert c.ring == [T(IDLE, 0, Running, 0, 0, 0), T(2, 0, Ready, 0, 0, 0)];
    assert Pos(0, 0, 2) == 1 && !Blocked(c.ring[Pos(0, 0, 2)]);
    assert FirstGood(c.ring, 0, 0) == 0;
    SwitchPicks(c, 0);
  }

  /** The states of a shell session: each command leads to the next. */
  predicate Session(states: seq<Sched>) {
    && (forall k :: 0 <= k < |states| ==> states[k].ring != [] && states[k].cur < |states[k].ring|)
    && forall k :: 0 < k < |states| ==> states[k] == Command(states[k - 1])
  }

  lemma {:induction false} SessionRuns(states: seq<Sched>, k: nat)
    requires Session(states) && k < |states| && k <= 101 && ShellAfter(states[0], 0)
    ensures ShellAfter(states[k], k)
  {
    if k > 0 {
      SessionRuns(states, k - 1);
      CommandWorks(states[k - 1], k - 1);
    }
  }

  /** From boot, a shell's first 101 commands come back to it; the 102nd leaves a child that
      had terminated running in its stead. */
  lemma BoundIsMet(states: seq<Sched>)
    requires |states| == 103 && states[0] == Booted() && Session(states)
    ensures forall k :: 0 <= k <= 101 ==> ShellAfter(states[k], k)
    ensures var s, t := states[101], states[102];
      2 <= t.cur < |t.ring| - 1 && t.cur - 1 < |s.ring| && t.ring[t.cur].id == s.ring[t.cur - 1].id
      && s.ring[t.cur - 1].state == Terminated && t.ring[t.cur].state == Running
  {
    ShellBooted();
    forall k | 0 <= k <= 101
      ensures ShellAfter(states[k], k)
    {
      SessionRuns(states, k);
    }
    LastCommand(states[101], states[102]);
  }

  lemma LastCommand(s: Sched, t: Sched)
    requires ShellAfter(s, 101) && t == Command(s)
    ensures 2 <= t.cur < |t.ring| - 1 && t.cur - 1 < |s.ring| && t.ring[t.cur].id == s.ring[t.cur - 1].id
    ensures s.ring[t.cur - 1].state == Terminated && t.ring[t.cur].state == Running
  {
    CommandRevives(s, 101);
  }
}
