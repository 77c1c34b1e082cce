/** The scheduler on its linked ring of tasks, against the ring of values. */
module Scheduler {
  import opened Words
  import opened Tasks
  import opened WaitProtocol

  class Task {
    var id: nat
    var parent: nat
    var state: State
    var esp: nat
    var dir: nat
    var ustack: nat
    var next: Task?

    constructor (id: nat, parent: nat, state: State, esp: nat, dir: nat, ustack: nat)
      ensures this.id == id && this.parent == parent && this.state == state
      ensures this.esp == esp && this.dir == dir && this.ustack == ustack
    {
      this.id, this.parent, this.state := id, parent, state;
      this.esp, this.dir, this.ustack := esp, dir, ustack;
      next := null;
    }

    ghost function Snap(): T
      reads this
    {
      T(id, parent, state, esp, dir, ustack)
    }
  }

  /** The tasks' values in ring order. */
  ghost function Snaps(ts: seq<Task>): (r: seq<T>)
    reads ts
    ensures |r| == |ts| && forall i :: 0 <= i < |ts| ==> r[i] == ts[i].Snap()
  {
    seq(|ts|, i requires 0 <= i < |ts| reads ts => ts[i].Snap())
  }

  function Successor(i: nat, n: nat): (j: nat)
    requires i < n
    ensures j < n
  {
    if i + 1 < n then i + 1 else 0
  }

  /** The nodes are distinct and linked in a circle in this order. */
  ghost predicate Linked(ts: seq<Task>)
    reads ts
  {
    && (forall i, j :: 0 <= i < j < |ts| ==> ts[i] != ts[j])
    && forall i :: 0 <= i < |ts| ==> ts[i].next == ts[Successor(i, |ts|)]
  }

  lemma PosNext(cur: nat, k: nat, n: nat)
    requires cur < n && k + 1 < n
    ensures Successor(Pos(cur, k, n), n) == Pos(cur, k + 1, n)
  {
  }

  lemma PosEnds(cur: nat, n: nat)
    requires cur < n
    ensures Successor(cur, n) == Pos(cur, 0, n) && Pos(cur, n - 1, n) == cur
    ensures forall k :: 0 < k < n ==> Pos(cur, k, n) != Pos(cur, 0, n)
  {
  }

  function Roused(t: T, pid: nat): T {
    if t.id == pid && t.state == Waiting then t.(state := Ready) else t
  }

  /** A loop that turns r into w, one task after the other, has done i of them. */
  predicate Halfway(s: seq<T>, w: seq<T>, r: seq<T>, i: nat) {
    i <= |w| == |r| && s == w[..i] + r[i..]
  }

  lemma AllDone(s: seq<T>, w: seq<T>, r: seq<T>, i: nat)
    requires Halfway(s, w, r, i) && i == |r|
    ensures s == w
  {
  }

  predicate IsBlocked(s: State) { s == Terminated || s == Sleeping || s == Waiting }

  class Scheduler {
    var list: Task
    var current: Task
    var nextPid: nat
    ghost var ring: seq<Task>
    ghost var pos: nat

    ghost predicate Valid()
      reads this, ring
    {
      ring != [] && list == ring[0] && pos < |ring| && current == ring[pos] && Linked(ring)
    }

    ghost function View(): Sched
      requires Valid()
      reads this, ring
    {
      Sched(Snaps(ring), pos, nextPid)
    }

    /** `task_init`. */
    constructor ()
      ensures Valid() && fresh(ring) && View() == Initial() == Sched([T(1, 0, Running, 0, 0, 0)], 0, 2)
    {
      var first := new Task(IDLE, 0, Running, 0, 0, 0);
      list, current, nextPid := first, first, 2;
      ring, pos := [first], 0;
      new;
      first.next := first;
    }

    /** The list part of `task_create`, its allocations granted. */
    method Create(parent: nat, esp: nat, dir: nat, ustack: nat) returns (proc: Task)
      requires Valid()
      modifies this, list
      ensures Valid() && fresh(proc) && ring == [old(ring)[0], proc] + old(ring)[1..] && current == old(current)
      ensures View() == Created(old(View()), parent, esp, dir, ustack)
    {
      ghost var s := View();
      proc := new Task(nextPid, parent, Ready, esp, dir, ustack);
      nextPid := nextPid + 1;
      LinkIn(proc);
      InsertedIsCreated(s, parent, esp, dir, ustack, Snaps(ring));
    }

    /** A node goes behind the list's head. */
    method LinkIn(proc: Task)
      requires Valid() && proc !in ring
      modifies this`ring, this`pos, proc`next, list`next
      ensures Valid() && ring == [old(ring)[0], proc] + old(ring)[1..] && pos == Shift(old(pos))
      ensures Snaps(ring) == [old(Snaps(ring))[0], old(proc.Snap())] + old(Snaps(ring))[1..]
    {
      ghost var was := ring;
      proc.next := list.next;
      list.next := proc;
      ring := [was[0], proc] + was[1..];
      assert ring[Shift(pos)] == was[pos];
      pos := Shift(pos);
      LinkedInsert(was, proc, ring);
      SnapsWith(was, proc, ring);
    }

    /** A field of one task set: its value in the ring changes and no other. */
    method SetState(t: Task, s: State, ghost i: nat)
      requires Valid() && i < |ring| && t == ring[i]
      modifies t`state
      ensures Valid() && Snaps(ring) == old(Snaps(ring))[i := old(Snaps(ring))[i].(state := s)]
    {
      ghost var r := Snaps(ring);
      t.state := s;
      forall k | 0 <= k < |ring|
        ensures ring[k].Snap() == r[i := r[i].(state := s)][k]
      {
        assert r[k] == old(ring[k].Snap());
      }
    }

    method SetEsp(t: Task, esp: nat, ghost i: nat)
      requires Valid() && i < |ring| && t == ring[i]
      modifies t`esp
      ensures Valid() && Snaps(ring) == old(Snaps(ring))[i := old(Snaps(ring))[i].(esp := esp)]
    {
      ghost var r := Snaps(ring);
      t.esp := esp;
      forall k | 0 <= k < |ring|
        ensures ring[k].Snap() == r[i := r[i].(esp := esp)][k]
      {
        assert r[k] == old(ring[k].Snap());
      }
    }

    /** `task_switch`. */
    method Switch(esp: nat) returns (resume: nat)
      requires Valid()
      modifies this, ring
      ensures Valid() && ring == old(ring) && list == old(list)
      ensures View() == Switched(old(View()), esp)
      ensures resume == current.esp
    {
      ghost var was := View();
      assert was.ring[pos] == current.Snap();
      if current.state != Waiting {
        SetEsp(current, esp, pos);
      }
      ghost var r := Saved(was.ring, was.cur, esp);
      assert r[pos] == current.Snap();
      var next, stay := Find(r);
      if stay {
        return esp;
      }
      resume := Dispatch(next, esp, r);
    }

    /** The end of `task_switch`: the task found becomes current. */
    method Dispatch(next: Task, esp: nat, ghost r: seq<T>) returns (resume: nat)
      requires Valid() && r == Snaps(ring) && Target(r, pos).Some? && next == ring[Target(r, pos).value]
      modifies this`current, this`pos, ring
      ensures Valid() && ring == old(ring)
      ensures var p := Target(r, old(pos)).value;
        View() == if p == old(pos) && r[p].state == Running then old(View())
                  else Sched(r[p := r[p].(state := Running)], p, nextPid)
      ensures current == next && resume == if next == old(current) && r[old(pos)].state == Running then esp else current.esp
    {
      ghost var p := Target(r, pos).value;
      assert r[p] == next.Snap();
      if next == current && current.state == Running {
        return esp;
      }
      current, pos := next, p;
      SetState(current, Running, p);
      assert Snaps(ring)[p] == next.Snap();
      return next.esp;
    }

    /** The two loops of `task_switch`: the bounded scan, and past the idle task. */
    method Find(ghost r: seq<T>) returns (next: Task, stay: bool)
      requires Valid() && r == Snaps(ring)
      ensures stay <==> Target(r, pos) == None
      ensures !stay ==> next == ring[Target(r, pos).value]
    {
      next, stay := ScanOn(r);
      if stay {
        return;
      }
      ghost var p := Pos(pos, if Scan(r, pos, 0) == |ring| then 0 else Scan(r, pos, 0), |ring|);
      assert r[p] == next.Snap();
      if next.id == 1 && next.next != next {
        next := PastIdle(r, next, p);
      }
    }

    method ScanOn(ghost r: seq<T>) returns (next: Task, stay: bool)
      requires Valid() && r == Snaps(ring)
      ensures stay <==> Scan(r, pos, 0) == |ring| && current.state == Running
      ensures !stay ==> next == ring[Pos(pos, if Scan(r, pos, 0) == |ring| then 0 else Scan(r, pos, 0), |ring|)]
    {
      ghost var n := |ring|;
      PosEnds(pos, n);
      next := current.next;
      var start := next;
      var iterations := 0;
      while IsBlocked(next.state) && iterations < 100
        invariant iterations < n && next == ring[Pos(pos, iterations, n)]
        invariant Scan(r, pos, 0) == Scan(r, pos, iterations)
        decreases n - iterations
      {
        assert r[Pos(pos, iterations, n)] == ring[Pos(pos, iterations, n)].Snap();
        if iterations + 1 < n {
          PosNext(pos, iterations, n);
        }
        next := next.next;
        iterations := iterations + 1;
        if next == start {
          return next, current.state == Running;
        }
      }
      assert r[Pos(pos, iterations, n)] == ring[Pos(pos, iterations, n)].Snap();
      return next, false;
    }

    method PastIdle(ghost r: seq<T>, idle: Task, ghost p: nat) returns (next: Task)
      requires Valid() && r == Snaps(ring) && p < |ring| && idle == ring[p] && |ring| > 1
      ensures next == ring[SkipIdle(r, p, 0)]
    {
      ghost var n := |ring|;
      ghost var j: nat := 0;
      PosEnds(p, n);
      var check := idle.next;
      while check != idle
        invariant j < n && check == ring[Pos(p, j, n)] && SkipIdle(r, p, 0) == SkipIdle(r, p, j)
        decreases n - j
      {
        assert r[Pos(p, j, n)] == ring[Pos(p, j, n)].Snap() && j < n - 1;
        if !IsBlocked(check.state) && check.id != 1 {
          return check;
        }
        PosNext(p, j, n);
        check := check.next;
        j := j + 1;
      }
      assert j == n - 1;
      return idle;
    }

    /** SYS_EXIT up to its switch: the current task ends and its parent is woken. */
    method End()
      requires Valid() && IdsOk(Snaps(ring), nextPid)
      modifies ring
      ensures Valid() && View() == Ended(old(View()))
    {
      ghost var was := View();
      current.state := Terminated;
      ghost var r := was.ring[pos := was.ring[pos].(state := Terminated)];
      assert Snaps(ring) == r;
      if current.parent > 0 {
        WakeFirst(r, current.parent);
      }
    }

    /** The waking loop of SYS_EXIT, which stops at the parent. */
    method WakeFirst(ghost r: seq<T>, pid: nat)
      requires Valid() && r == Snaps(ring)
      modifies ring
      ensures Valid() && Snaps(ring) == Woken(r, pid, 0)
    {
      var p: Task := list;
      ghost var i: nat := 0;
      while true
        invariant i < |ring| && p == ring[i] && Valid() && Snaps(ring) == r && Woken(r, pid, 0) == Woken(r, pid, i)
        decreases |ring| - i
      {
        assert r[i] == ring[i].Snap();
        if p.id == pid {
          if p.state == Waiting {
            SetState(p, Ready, i);
          }
          return;
        }
        p := p.next;
        i := i + 1;
        if p == list {
          break;
        }
      }
    }

    /** exit and exit_group of the Linux interface: the loop goes all the way round. */
    method EndLinux()
      requires Valid() && IdsOk(Snaps(ring), nextPid)
      modifies ring
      ensures Valid() && View() == Ended(old(View()))
    {
      ghost var was := View();
      current.state := Terminated;
      ghost var r := was.ring[pos := was.ring[pos].(state := Terminated)];
      assert Snaps(ring) == r;
      if current.parent > 0 {
        WokenIs(r, current.parent, 0);
        WakeAll(r, Woken(r, current.parent, 0), current.parent);
      }
    }

    /** One round of a waking loop; r is the ring before the loop, w after it. */
    method WakeOne(p: Task, wake: bool, ghost r: seq<T>, ghost w: seq<T>, ghost i: nat) returns (q: Task)
      requires Valid() && i < |ring| && p == ring[i]
      requires Halfway(Snaps(ring), w, r, i)
      requires w[i] == if wake then p.Snap().(state := Ready) else p.Snap()
      modifies p`state
      ensures Valid() && Halfway(Snaps(ring), w, r, i + 1)
      ensures i + 1 < |ring| ==> q == ring[i + 1]
      ensures q == list <==> i + 1 == |ring|
    {
      assert w[..i + 1] == w[..i] + [w[i]] && r[i..] == [r[i]] + r[i + 1..];
      assert Snaps(ring)[i] == p.Snap();
      if wake {
        SetState(p, Ready, i);
      }
      q := p.next;
    }

    method WakeAll(ghost r: seq<T>, ghost w: seq<T>, pid: nat)
      requires Valid() && r == Snaps(ring) && |w| == |r| && forall k :: 0 <= k < |r| ==> w[k] == Roused(r[k], pid)
      modifies ring
      ensures Valid() && Snaps(ring) == w
    {
      var p: Task := list;
      ghost var i: nat := 0;
      while true
        invariant i < |ring| && p == ring[i] && Valid()
        invariant Halfway(Snaps(ring), w, r, i)
        decreases |ring| - i
      {
        assert p.Snap() == Snaps(ring)[i] == r[i];
        p := WakeOne(p, p.id == pid && p.state == Waiting, r, w, i);
        i := i + 1;
        if p == list {
          break;
        }
      }
      AllDone(Snaps(ring), w, r, i);
    }

    /** The waking part of `keyboard_handler`. */
    method KeyPress()
      requires Valid()
      modifies ring
      ensures Valid() && View() == KeyPressed(old(View()))
    {
      WakeSleepers(Snaps(ring), KeyPressed(View()).ring);
    }

    method WakeSleepers(ghost r: seq<T>, ghost w: seq<T>)
      requires Valid() && r == Snaps(ring) && |w| == |r| && forall k :: 0 <= k < |r| ==> w[k] == Awake(r[k])
      modifies ring
      ensures Valid() && Snaps(ring) == w
    {
      var p: Task := list;
      ghost var i: nat := 0;
      while true
        invariant i < |ring| && p == ring[i] && Valid()
        invariant Halfway(Snaps(ring), w, r, i)
        decreases |ring| - i
      {
        assert p.Snap() == Snaps(ring)[i] == r[i];
        p := WakeOne(p, p.state == Sleeping, r, w, i);
        i := i + 1;
        if p == list {
          break;
        }
      }
      AllDone(Snaps(ring), w, r, i);
    }

    // ---- system calls ----

    method SetParked(t: Task, esp: nat, ghost i: nat)
      requires Valid() && i < |ring| && t == ring[i]
      modifies t`esp, t`state
      ensures Valid() && Snaps(ring) == old(Snaps(ring))[i := old(Snaps(ring))[i].(esp := esp, state := Waiting)]
    {
      SetEsp(t, esp, i);
      SetState(t, Waiting, i);
    }

    /** SYS_EXEC, the program loaded and its task's resources granted. */
    method Exec(esp: nat, childEsp: nat, dir: nat, ustack: nat) returns (resume: nat)
      requires Valid()
      modifies this, ring
      ensures Valid() && View() == Execed(old(View()), esp, childEsp, dir, ustack)
      ensures resume == current.esp
    {
      var child := Create(current.id, childEsp, dir, ustack);
      SetParked(current, esp, pos);
      resume := Switch(esp);
    }

    method SetParent(t: Task, pid: nat, ghost i: nat)
      requires Valid() && i < |ring| && t == ring[i]
      modifies t`parent
      ensures Valid() && Snaps(ring) == old(Snaps(ring))[i := old(Snaps(ring))[i].(parent := pid)]
    {
      ghost var r := Snaps(ring);
      t.parent := pid;
      forall k | 0 <= k < |ring|
        ensures ring[k].Snap() == r[i := r[i].(parent := pid)][k]
      {
        assert r[k] == old(ring[k].Snap());
      }
    }

    /** SYS_EXEC_ELF: the loader makes a task without parent, which is then adopted. */
    method ExecElf(esp: nat, childEsp: nat, dir: nat, ustack: nat) returns (resume: nat)
      requires Valid()
      modifies this, ring
      ensures Valid() && View() == Execed(old(View()), esp, childEsp, dir, ustack)
      ensures resume == current.esp
    {
      ghost var s := View();
      var child := Create(0, childEsp, dir, ustack);
      SetParent(child, current.id, 1);
      Adopted(s, childEsp, dir, ustack, Snaps(ring));
      SetParked(current, esp, pos);
      resume := Switch(esp);
    }

    /** SYS_EXIT; a fault in user mode does the same. */
    method Exit(esp: nat) returns (resume: nat)
      requires Valid() && IdsOk(Snaps(ring), nextPid)
      modifies this, ring
      ensures Valid() && ring == old(ring) && View() == Exited(old(View()), esp)
      ensures resume == current.esp
    {
      End();
      resume := Switch(esp);
    }

    /** SYS_READ on an empty buffer. */
    method Sleep(esp: nat) returns (resume: nat)
      requires Valid()
      modifies this, ring
      ensures Valid() && ring == old(ring) && View() == Slept(old(View()), esp)
      ensures resume == current.esp
    {
      SetState(current, Sleeping, pos);
      resume := Switch(esp);
    }

    // ---- task_exec ----

    /** The loader's task, whose directory and stack move to the current one, is unlinked again. */
    method TaskExec(tempEsp: nat, esp: nat, dir: nat, ustack: nat)
      requires Valid()
      modifies this, ring
      ensures Valid() && ring == old(ring) && View() == Do(old(View()), Execve(esp, dir, ustack))
    {
      ghost var was, s := ring, View();
      var temp := Create(0, tempEsp, dir, ustack);
      ReplacedInPlace(s, tempEsp, esp, dir, ustack);
      Replace(temp, esp);
      DropInserted(was, temp);
    }

    /** The current task takes over what the loader's task at place 1 has, and that one goes. */
    method Replace(temp: Task, esp: nat)
      requires Valid() && |ring| > 1 && temp == ring[1] && pos != 1
      modifies this`ring, this`pos, ring
      ensures Valid() && ring == old(ring)[..1] + old(ring)[2..]
      ensures View() == Replaced(old(View()), esp)
    {
      TakeOver(temp, esp, 1);
      Drop(temp, 1);
    }

    method TakeOver(temp: Task, esp: nat, ghost q: nat)
      requires Valid() && q < |ring| && temp == ring[q] && q != pos
      modifies current`dir, current`ustack, current`esp, temp`dir, temp`ustack
      ensures Valid()
      ensures var r := old(Snaps(ring));
        Snaps(ring) == r[pos := r[pos].(esp := esp, dir := r[q].dir, ustack := r[q].ustack)][q := r[q].(dir := 0, ustack := 0)]
    {
      ghost var r := Snaps(ring);
      current.dir := temp.dir;
      temp.dir := 0;
      current.ustack := temp.ustack;
      temp.ustack := 0;
      current.esp := esp;
      ghost var w := r[pos := r[pos].(esp := esp, dir := r[q].dir, ustack := r[q].ustack)][q := r[q].(dir := 0, ustack := 0)];
      forall k | 0 <= k < |ring|
        ensures ring[k].Snap() == w[k]
      {
        assert r[k] == old(ring[k].Snap());
      }
    }

    /** The node is searched for and unlinked. */
    method Drop(temp: Task, ghost q: nat)
      requires Valid() && 0 < q < |ring| && temp == ring[q] && pos != q
      modifies this`ring, this`pos, ring
      ensures Valid() && ring == old(ring)[..q] + old(ring)[q + 1..]
      ensures pos == if old(pos) < q then old(pos) else old(pos) - 1
      ensures Snaps(ring) == old(Snaps(ring))[..q] + old(Snaps(ring))[q + 1..]
    {
      var before := FindBefore(temp, q);
      Unlink(before, temp, q);
    }

    /** The search of `task_exec` for the node in front of the loader's. */
    method FindBefore(temp: Task, ghost q: nat) returns (iter: Task)
      requires Valid() && 0 < q < |ring| && temp == ring[q]
      ensures iter == ring[q - 1]
    {
      iter := list;
      ghost var k: nat := 0;
      while iter.next != temp
        invariant k < q && iter == ring[k]
        decreases q - k
      {
        iter := iter.next;
        k := k + 1;
        if iter == list {
          break;
        }
      }
    }

    method Unlink(before: Task, temp: Task, ghost q: nat)
      requires Valid() && 0 < q < |ring| && temp == ring[q] && before == ring[q - 1] && pos != q
      modifies this`ring, this`pos, before`next
      ensures Valid() && ring == old(ring)[..q] + old(ring)[q + 1..]
      ensures pos == if old(pos) < q then old(pos) else old(pos) - 1
      ensures Snaps(ring) == old(Snaps(ring))[..q] + old(Snaps(ring))[q + 1..]
    {
      Relink(before, temp, q);
      SnapsWithout(ring, ring[..q] + ring[q + 1..], q);
      ring := ring[..q] + ring[q + 1..];
      pos := if pos < q then pos else pos - 1;
    }

    method Relink(before: Task, temp: Task, ghost q: nat)
      requires Linked(ring) && 0 < q < |ring| && temp == ring[q] && before == ring[q - 1]
      modifies before`next
      ensures Linked(ring[..q] + ring[q + 1..]) && Snaps(ring) == old(Snaps(ring))
    {
      before.next := temp.next;
      LinkedRemove(ring, ring[..q] + ring[q + 1..], q);
    }
  }

  /** The task at place 1 gone, its directory and stack with the current task. */
  function Replaced(s: Sched, esp: nat): Sched
    requires 1 < |s.ring| && s.cur < |s.ring| && s.cur != 1
  {
    var r := s.ring[s.cur := s.ring[s.cur].(esp := esp, dir := s.ring[1].dir, ustack := s.ring[1].ustack)]
                   [1 := s.ring[1].(dir := 0, ustack := 0)];
    Sched(r[..1] + r[2..], if s.cur < 1 then s.cur else s.cur - 1, s.nextPid)
  }

  /** Creating the loader's task, taking over from it and dropping it changes the current task alone. */
  lemma ReplacedInPlace(s: Sched, tempEsp: nat, esp: nat, dir: nat, ustack: nat)
    requires s.ring != [] && s.cur < |s.ring|
    ensures var c := Created(s, 0, tempEsp, dir, ustack);
      c.cur != 1 && Replaced(c, esp) == Do(s, Execve(esp, dir, ustack))
  {
    var c := Created(s, 0, tempEsp, dir, ustack);
    assert Replaced(c, esp).ring == Do(s, Execve(esp, dir, ustack)).ring;
  }

  lemma Adopted(s: Sched, childEsp: nat, dir: nat, ustack: nat, r: seq<T>)
    requires s.ring != [] && s.cur < |s.ring|
    requires var c := Created(s, 0, childEsp, dir, ustack).ring; r == c[1 := c[1].(parent := s.ring[s.cur].id)]
    ensures r == Created(s, s.ring[s.cur].id, childEsp, dir, ustack).ring
  {
  }

  // ---- ownership ----

  /** No page directory and no user stack belongs to two tasks. */
  predicate Owned(r: seq<T>) {
    && (forall i, j :: 0 <= i < j < |r| && r[i].dir == r[j].dir ==> r[i].dir == 0)
    && (forall i, j :: 0 <= i < j < |r| && r[i].ustack == r[j].ustack ==> r[i].ustack == 0)
  }

  /** A directory or stack nobody has yet. */
  predicate Unowned(r: seq<T>, dir: nat, ustack: nat) {
    forall i :: 0 <= i < |r| ==> (r[i].dir == dir ==> dir == 0) && (r[i].ustack == ustack ==> ustack == 0)
  }

  /** The directory and stack a step brings; 0 for none. */
  function Brings(step: Step): (nat, nat) {
    match step
    case Exec(_, _, d, u) => (d, u)
    case Spawn(_, d, u) => (d, u)
    case Execve(_, d, u) => (d, u)
    case _ => (0, 0)
  }

  /** Every task has the directory and the stack it had. */
  predicate SameRes(r: seq<T>, q: seq<T>) {
    |q| == |r| && forall i :: 0 <= i < |r| ==> q[i].dir == r[i].dir && q[i].ustack == r[i].ustack
  }

  lemma SameOwned(r: seq<T>, q: seq<T>)
    requires SameRes(r, q) && Owned(r)
    ensures Owned(q)
  {
  }

  lemma {:induction false} WokenRes(r: seq<T>, pid: nat, i: nat)
    requires i <= |r|
    ensures SameRes(r, Woken(r, pid, i))
    decreases |r| - i
  {
    if i < |r| && r[i].id != pid {
      WokenRes(r, pid, i + 1);
    }
  }

  lemma EndedRes(s: Sched)
    requires s.cur < |s.ring|
    ensures SameRes(s.ring, Ended(s).ring)
  {
    WokenRes(s.ring[s.cur := s.ring[s.cur].(state := Terminated)], s.ring[s.cur].parent, 0);
  }

  lemma CreatedOwned(s: Sched, parent: nat, esp: nat, dir: nat, ustack: nat)
    requires s.ring != [] && s.cur < |s.ring| && Owned(s.ring) && Unowned(s.ring, dir, ustack)
    ensures Owned(Created(s, parent, esp, dir, ustack).ring)
  {
    var r := Created(s, parent, esp, dir, ustack).ring;
    assert forall i :: 2 <= i < |r| ==> r[i] == s.ring[i - 1];
  }

  lemma SwitchedRes(s: Sched, esp: nat)
    requires s.cur < |s.ring|
    ensures SameRes(s.ring, Switched(s, esp).ring)
  {
  }

  lemma ParkedRes(s: Sched, esp: nat)
    requires s.cur < |s.ring|
    ensures SameRes(s.ring, Parked(s, esp).ring)
  {
    SwitchedRes(s.(ring := s.ring[s.cur := s.ring[s.cur].(esp := esp, state := Waiting)]), esp);
  }

  /** Where the task at place i stands after a step: a new task goes behind the head. */
  function Place(step: Step, i: nat): nat {
    if step.Exec? || step.Spawn? then Shift(i) else i
  }

  /** A step gives what it brings to the task it creates, or to the current one when that
      executes a program, and every other task keeps what it has. */
  lemma StepMovesResources(s: Sched, step: Step, i: nat)
    requires s.ring != [] && s.cur < |s.ring| && i < |s.ring|
    ensures var t, p := Do(s, step), Place(step, i);
      && |t.ring| == |s.ring| + (if step.Exec? || step.Spawn? then 1 else 0)
      && (t.ring[p].dir, t.ring[p].ustack) ==
           (if step.Execve? && i == s.cur then Brings(step) else (s.ring[i].dir, s.ring[i].ustack))
      && (step.Exec? || step.Spawn? ==> (t.ring[1].dir, t.ring[1].ustack) == Brings(step))
  {
    match step
    case Tick(esp) => SwitchedRes(s, esp);
    case Exec(esp, childEsp, dir, ustack) =>
      CreatedAt(s, s.ring[s.cur].id, childEsp, dir, ustack, i);
      ParkedRes(Created(s, s.ring[s.cur].id, childEsp, dir, ustack), esp);
    case Exit(esp) =>
      EndedRes(s);
      SwitchedRes(Ended(s), esp);
    case Sleep(esp) => SwitchedRes(s.(ring := s.ring[s.cur := s.ring[s.cur].(state := Sleeping)]), esp);
    case Key =>
    case Spawn(childEsp, dir, ustack) => CreatedAt(s, 0, childEsp, dir, ustack, i);
    case Execve(esp, dir, ustack) =>
  }

  /** Every step whose directory and stack are nobody's when it is taken keeps all apart. */
  lemma StepKeepsOwned(s: Sched, step: Step)
    requires s.ring != [] && s.cur < |s.ring| && Owned(s.ring) && Unowned(s.ring, Brings(step).0, Brings(step).1)
    ensures Owned(Do(s, step).ring)
  {
    match step
    case Tick(esp) =>
      SwitchedRes(s, esp);
      SameOwned(s.ring, Do(s, step).ring);
    case Exec(esp, childEsp, dir, ustack) =>
      var c := Created(s, s.ring[s.cur].id, childEsp, dir, ustack);
      CreatedOwned(s, s.ring[s.cur].id, childEsp, dir, ustack);
      ParkedRes(c, esp);
      SameOwned(c.ring, Do(s, step).ring);
    case Exit(esp) =>
      EndedRes(s);
      SwitchedRes(Ended(s), esp);
      SameOwned(s.ring, Do(s, step).ring);
    case Sleep(esp) =>
      SwitchedRes(s.(ring := s.ring[s.cur := s.ring[s.cur].(state := Sleeping)]), esp);
      SameOwned(s.ring, Do(s, step).ring);
    case Key => SameOwned(s.ring, Do(s, step).ring);
    case Spawn(childEsp, dir, ustack) => CreatedOwned(s, 0, childEsp, dir, ustack);
    case Execve(esp, dir, ustack) =>
  }

  /** A run from boot, of any length and any number of tasks, whose steps bring directories and
      stacks nobody has at that moment. */
  predicate BringsItsOwn(states: seq<Sched>, steps: seq<Step>) {
    && |states| == |steps| + 1 && states[0] == Initial()
    && (forall k :: 0 <= k < |states| ==> states[k].ring != [] && states[k].cur < |states[k].ring|)
    && (forall k :: 0 <= k < |steps| ==> OwnStep(states[k], steps[k], states[k + 1]))
  }

  predicate OwnStep(s: Sched, step: Step, t: Sched)
    requires s.ring != [] && s.cur < |s.ring|
  {
    t == Do(s, step) && Unowned(s.ring, Brings(step).0, Brings(step).1)
  }

  /** No page directory and no user stack ever belongs to two tasks. */
  lemma {:induction false} RunsKeepOwned(states: seq<Sched>, steps: seq<Step>, k: nat)
    requires BringsItsOwn(states, steps) && k < |states|
    ensures Owned(states[k].ring)
    decreases k
  {
    if k > 0 {
      RunsKeepOwned(states, steps, k - 1);
      assert OwnStep(states[k - 1], steps[k - 1], states[k - 1 + 1]);
      StepKeepsOwned(states[k - 1], steps[k - 1]);
    }
  }

  lemma InsertedIsCreated(s: Sched, parent: nat, esp: nat, dir: nat, ustack: nat, r: seq<T>)
    requires s.ring != [] && s.cur < |s.ring|
    requires r == [s.ring[0], T(s.nextPid, parent, Ready, esp, dir, ustack)] + s.ring[1..]
    ensures Sched(r, if s.cur == 0 then 0 else s.cur + 1, s.nextPid + 1) == Created(s, parent, esp, dir, ustack)
  {
  }

  lemma DropInserted(was: seq<Task>, proc: Task)
    requires was != []
    ensures var now := [was[0], proc] + was[1..]; now[..1] + now[2..] == was
  {
  }

  lemma SnapsWith(was: seq<Task>, proc: Task, now: seq<Task>)
    requires was != [] && now == [was[0], proc] + was[1..]
    ensures Snaps(now) == [Snaps(was)[0], proc.Snap()] + Snaps(was)[1..]
  {
  }

  lemma SnapsWithout(was: seq<Task>, now: seq<Task>, q: nat)
    requires q < |was| && now == was[..q] + was[q + 1..]
    ensures Snaps(now) == Snaps(was)[..q] + Snaps(was)[q + 1..]
  {
  }

  lemma LinkedRemove(was: seq<Task>, now: seq<Task>, q: nat)
    requires 0 < q < |was| && now == was[..q] + was[q + 1..]
    requires forall i, j :: 0 <= i < j < |was| ==> was[i] != was[j]
    requires was[q - 1].next == was[Successor(q, |was|)]
    requires forall i :: 0 <= i < |was| && i != q - 1 ==> was[i].next == was[Successor(i, |was|)]
    ensures Linked(now)
  {
    forall i | 0 <= i < |now|
      ensures now[i].next == now[Successor(i, |now|)]
    {
      if i >= q {
        assert now[i] == was[i + 1];
      }
    }
  }

  lemma LinkedInsert(was: seq<Task>, proc: Task, now: seq<Task>)
    requires was != [] && proc !in was && now == [was[0], proc] + was[1..]
    requires forall i, j :: 0 <= i < j < |was| ==> was[i] != was[j]
    requires was[0].next == proc && proc.next == was[Successor(0, |was|)]
    requires forall i :: 1 <= i < |was| ==> was[i].next == was[Successor(i, |was|)]
    ensures Linked(now)
  {
    forall i | 0 <= i < |now|
      ensures now[i].next == now[Successor(i, |now|)]
    {
      if i >= 2 {
        assert now[i] == was[i - 1];
      }
    }
  }
}
