/** The task ring as values: what one switch picks, and how long a task can be passed over. */
module Tasks {
  import opened Words

  datatype State = Ready | Running | Sleeping | Waiting | Terminated

  /** A task: its saved stack pointer, its page directory and user stack (0 for none). */
  datatype T = T(id: nat, parent: nat, state: State, esp: nat, dir: nat, ustack: nat)

  /** The ring from pid 1 on, the place of the current task, and the next pid. */
  datatype Sched = Sched(ring: seq<T>, cur: nat, nextPid: nat)

  const IDLE: nat := 1
  const SCAN_LIMIT: nat := 100

  predicate Blocked(t: T) { t.state == Terminated || t.state == Sleeping || t.state == Waiting }

  /** Runnable and not the idle task. */
  predicate Good(t: T) { !Blocked(t) && t.id != IDLE }

  /** The place k+1 steps behind `cur` in a ring of n. */
  function Pos(cur: nat, k: nat, n: nat): (p: nat)
    requires cur < n && k < n
    ensures p < n
  {
    if cur + 1 + k < n then cur + 1 + k else cur + 1 + k - n
  }

  // ---- task_switch, as written ----

  /** Where the scan stops: at the first task that is not blocked, after a full turn, or
      after a hundred steps. |r| stands for a full turn. */
  function Scan(r: seq<T>, cur: nat, k: nat): (m: nat)
    requires cur < |r| && k < |r|
    ensures k <= m <= |r|
    decreases |r| - k
  {
    if Blocked(r[Pos(cur, k, |r|)]) && k < SCAN_LIMIT then
      if k + 1 == |r| then |r| else Scan(r, cur, k + 1)
    else k
  }

  /** The first runnable task behind p that is not the idle task; p when there is none. */
  function SkipIdle(r: seq<T>, p: nat, k: nat): (q: nat)
    requires p < |r| && k < |r|
    ensures q < |r|
    decreases |r| - k
  {
    if k == |r| - 1 then p
    else if Good(r[Pos(p, k, |r|)]) then Pos(p, k, |r|)
    else SkipIdle(r, p, k + 1)
  }

  /** Which task `task_switch` settles on; None where it gives up and stays. */
  function Target(r: seq<T>, cur: nat): (p: Option<nat>)
    requires cur < |r|
    ensures p.Some? ==> p.value < |r|
  {
    var k := Scan(r, cur, 0);
    if k == |r| && r[cur].state == Running then None
    else
      var p := Pos(cur, if k == |r| then 0 else k, |r|);
      Some(if r[p].id == IDLE && |r| > 1 then SkipIdle(r, p, 0) else p)
  }

  /** The stack pointer is saved unless the task is parked: a parked one saved it before. */
  function Saved(r: seq<T>, cur: nat, esp: nat): (q: seq<T>)
    requires cur < |r|
    ensures |q| == |r|
  {
    if r[cur].state == Waiting then r else r[cur := r[cur].(esp := esp)]
  }

  function Switched(s: Sched, esp: nat): (t: Sched)
    requires s.cur < |s.ring|
    ensures |t.ring| == |s.ring| && t.cur < |t.ring| && t.nextPid == s.nextPid
  {
    var r := Saved(s.ring, s.cur, esp);
    match Target(r, s.cur)
    case None => s.(ring := r)
    case Some(p) =>
      if p == s.cur && r[p].state == Running then s.(ring := r)
      else Sched(r[p := r[p].(state := Running)], p, s.nextPid)
  }

  // ---- what it is for ----

  /** The ring is headed by the idle task, which is runnable; no other task has its id. */
  predicate Headed(r: seq<T>) {
    && r != [] && r[0].id == IDLE && !Blocked(r[0])
    && forall i :: 0 < i < |r| ==> r[i].id != IDLE
  }

  /** The first place from k on behind `cur` that holds a runnable task other than idle. */
  function FirstGood(r: seq<T>, cur: nat, k: nat): (m: nat)
    requires cur < |r| && k <= |r|
    ensures k <= m <= |r|
    ensures m < |r| ==> Good(r[Pos(cur, m, |r|)])
    ensures forall i :: k <= i < m ==> !Good(r[Pos(cur, i, |r|)])
    decreases |r| - k
  {
    if k == |r| || Good(r[Pos(cur, k, |r|)]) then k else FirstGood(r, cur, k + 1)
  }

  /** Round robin: the next runnable task in ring order, itself last; idle only when there is none. */
  function Pick(r: seq<T>, cur: nat): (p: nat)
    requires cur < |r|
    ensures p < |r|
  {
    var k := FirstGood(r, cur, 0);
    if k < |r| then Pos(cur, k, |r|) else 0
  }

  /** No runnable task stands nearer behind `cur` than the one picked. */
  lemma PickIsNearest(r: seq<T>, cur: nat, q: nat)
    requires cur < |r| && q < |r| && !Blocked(r[q]) && r[q].id != IDLE
    ensures var p := Pick(r, cur); !Blocked(r[p]) && r[p].id != IDLE
    ensures (Pick(r, cur) + |r| - cur - 1) % |r| <= (q + |r| - cur - 1) % |r|
  {
    var n, k := |r|, if q > cur then q - cur - 1 else |r| + q - cur - 1;
    assert Pos(cur, k, n) == q;
    assert FirstGood(r, cur, 0) <= k;
    Around(cur, k, n);
    Around(cur, FirstGood(r, cur, 0), n);
  }

  lemma Around(cur: nat, k: nat, n: nat)
    requires cur < n && k < n
    ensures (Pos(cur, k, n) + n - cur - 1) % n == k
  {
    if cur + 1 + k < n {
      assert Pos(cur, k, n) + n - cur - 1 == n + k;
    }
  }

  /** A runnable task, idle or not, is met within the scan's hundred steps. */
  predicate InReach(r: seq<T>, cur: nat)
    requires cur < |r|
  {
    exists k :: 0 <= k < |r| && k <= 100 && !Blocked(r[Pos(cur, k, |r|)])
  }

  lemma {:induction false} ScanFinds(r: seq<T>, cur: nat, k: nat, m: nat)
    requires cur < |r| && k <= m < |r|
    requires forall i :: k <= i < m ==> Blocked(r[Pos(cur, i, |r|)])
    ensures !Blocked(r[Pos(cur, m, |r|)]) && m <= SCAN_LIMIT ==> Scan(r, cur, k) == m
    ensures k <= SCAN_LIMIT <= m ==> Scan(r, cur, k) == SCAN_LIMIT
    decreases m - k
  {
    if k < m && k < SCAN_LIMIT {
      ScanFinds(r, cur, k + 1, m);
    }
  }

  /** The first runnable place behind cur. */
  function FirstRunnable(r: seq<T>, cur: nat, k: nat): (m: nat)
    requires cur < |r| && k <= |r|
    ensures k <= m <= |r|
    ensures m < |r| ==> !Blocked(r[Pos(cur, m, |r|)])
    ensures forall i :: k <= i < m ==> Blocked(r[Pos(cur, i, |r|)])
    decreases |r| - k
  {
    if k == |r| || !Blocked(r[Pos(cur, k, |r|)]) then k else FirstRunnable(r, cur, k + 1)
  }

  /** Where pid 1 stands, seen from cur. */
  function ToHead(cur: nat, n: nat): (k: nat)
    requires cur < n
    ensures k < n && Pos(cur, k, n) == 0
  {
    n - 1 - cur
  }

  /** Skipping the idle task, met at place m, goes on where the search from cur left off. */
  lemma {:induction false} SkipIdleContinues(r: seq<T>, cur: nat, m: nat, k: nat)
    requires Headed(r) && cur < |r| && m == ToHead(cur, |r|) && k < |r|
    requires forall i :: 0 <= i < m ==> Blocked(r[Pos(cur, i, |r|)])
    ensures var f := if m + 1 + k <= |r| then FirstGood(r, cur, m + 1 + k) else |r|;
      SkipIdle(r, 0, k) == if f < |r| then Pos(cur, f, |r|) else 0
    decreases |r| - k
  {
    if k < |r| - 1 {
      SkipIdleContinues(r, cur, m, k + 1);
      if m + 1 + k < |r| {
        assert Pos(0, k, |r|) == Pos(cur, m + 1 + k, |r|);
      } else {
        assert Pos(0, k, |r|) == Pos(cur, m + 1 + k - |r|, |r|);
      }
    }
  }

  lemma FirstGoodSkips(r: seq<T>, cur: nat, k: nat, m: nat)
    requires cur < |r| && k <= m <= |r|
    requires forall i :: k <= i < m ==> !Good(r[Pos(cur, i, |r|)])
    ensures FirstGood(r, cur, k) == FirstGood(r, cur, m)
    decreases m - k
  {
    if k < m {
      FirstGoodSkips(r, cur, k + 1, m);
    }
  }

  /** The switch picks round robin exactly when a runnable task is in reach of its scan;
      when none is, it settles on a blocked one. */
  lemma TargetIsPick(r: seq<T>, cur: nat)
    requires Headed(r) && cur < |r|
    ensures InReach(r, cur) ==> Target(r, cur) == Some(Pick(r, cur)) && !Blocked(r[Pick(r, cur)])
    ensures !InReach(r, cur) ==> Target(r, cur).Some? && Blocked(r[Target(r, cur).value])
  {
    var n := |r|;
    var m := FirstRunnable(r, cur, 0);
    assert m <= ToHead(cur, n);
    ScanFinds(r, cur, 0, m);
    if m <= SCAN_LIMIT {
      var p := Pos(cur, m, n);
      if r[p].id == IDLE {
        assert m == ToHead(cur, n);
        if n > 1 {
          SkipIdleContinues(r, cur, m, 0);
          FirstGoodSkips(r, cur, 0, m + 1);
        }
      } else {
        FirstGoodSkips(r, cur, 0, m);
      }
    } else {
      assert Blocked(r[Pos(cur, SCAN_LIMIT, n)]);
    }
  }

  /** Up to 101 tasks, everything is in reach. */
  lemma SmallRingInReach(r: seq<T>, cur: nat)
    requires Headed(r) && cur < |r| <= 101
    ensures InReach(r, cur)
  {
    var k := ToHead(cur, |r|);
    assert !Blocked(r[Pos(cur, k, |r|)]);
  }

  /** Behind more than a hundred terminated tasks the switch revives a terminated one. */
  lemma DeadRevived(r: seq<T>, cur: nat, n: nat)
    requires Headed(r) && cur < |r| && n > 100 && cur + n < |r|
    requires forall i :: cur < i <= cur + n ==> r[i].state == Terminated
    ensures Target(r, cur).Some? && r[Target(r, cur).value].state == Terminated
    ensures !InReach(r, cur)
  {
    ScanFinds(r, cur, 0, n - 1);
    forall k | 0 <= k < |r| && k <= SCAN_LIMIT
      ensures Blocked(r[Pos(cur, k, |r|)])
    {
      assert Pos(cur, k, |r|) == cur + 1 + k;
    }
  }

  lemma HeadedAfterSave(r: seq<T>, cur: nat, esp: nat)
    requires Headed(r) && cur < |r|
    ensures Headed(Saved(r, cur, esp))
    ensures forall i :: 0 <= i < |r| ==> Saved(r, cur, esp)[i] == r[i] || (i == cur && Saved(r, cur, esp)[i] == r[i].(esp := esp))
  {
  }

  lemma {:induction false} SamePick(r: seq<T>, q: seq<T>, cur: nat, k: nat)
    requires |q| == |r| && cur < |r| && k <= |r| && forall i :: 0 <= i < |r| ==> Good(q[i]) == Good(r[i])
    ensures FirstGood(q, cur, k) == FirstGood(r, cur, k)
    decreases |r| - k
  {
    if k < |r| && !Good(r[Pos(cur, k, |r|)]) {
      SamePick(r, q, cur, k + 1);
    }
  }

  /** One switch: the next task in round robin is current and running, no other state has
      changed, the old task's stack pointer is saved unless it is parked, and the pointer
      resumed from is the one the picked task saved last. */
  lemma SwitchPicks(s: Sched, esp: nat)
    requires Headed(s.ring) && s.cur < |s.ring| && InReach(s.ring, s.cur)
    ensures var t, p := Switched(s, esp), Pick(s.ring, s.cur);
      && t.cur == p && !Blocked(s.ring[p]) && Headed(t.ring)
      && (forall i :: 0 <= i < |s.ring| ==>
           t.ring[i] == s.ring[i].(state := if i == p then Running else s.ring[i].state,
                                   esp := if i == s.cur && s.ring[i].state != Waiting then esp else s.ring[i].esp))
  {
    var r := Saved(s.ring, s.cur, esp);
    HeadedAfterSave(s.ring, s.cur, esp);
    InReachAfterSave(s.ring, s.cur, esp);
    TargetIsPick(r, s.cur);
    SamePick(s.ring, r, s.cur, 0);
    var p := Pick(s.ring, s.cur);
    if p == s.cur && r[p].state == Running {
      assert r[p] == r[p].(state := Running);
    }
  }

  lemma InReachAfterSave(r: seq<T>, cur: nat, esp: nat)
    requires cur < |r| && InReach(r, cur)
    ensures InReach(Saved(r, cur, esp), cur)
  {
    var k :| 0 <= k < |r| && k <= SCAN_LIMIT && !Blocked(r[Pos(cur, k, |r|)]);
    assert !Blocked(Saved(r, cur, esp)[Pos(cur, k, |r|)]);
  }

  // ---- fairness ----

  /** How many runnable tasks stand at the places from lo up to hi behind cur. */
  function GoodBetween(r: seq<T>, cur: nat, lo: nat, hi: nat): (c: nat)
    requires cur < |r| && lo <= hi <= |r|
    ensures c <= hi - lo
    decreases hi - lo
  {
    if lo == hi then 0 else (if Good(r[Pos(cur, lo, |r|)]) then 1 else 0) + GoodBetween(r, cur, lo + 1, hi)
  }

  /** How many steps behind cur place p is, less one. */
  function Ahead(cur: nat, p: nat, n: nat): (k: nat)
    requires cur < n && p < n
    ensures k < n && Pos(cur, k, n) == p
  {
    if p > cur then p - cur - 1 else n - 1 - cur + p
  }

  /** How many runnable tasks get their turn before place p. */
  function Before(r: seq<T>, cur: nat, p: nat): nat
    requires cur < |r| && p < |r|
  {
    GoodBetween(r, cur, 0, Ahead(cur, p, |r|))
  }

  /** Seen from the task at place j behind cur, everything is j+1 places nearer. */
  lemma {:induction false} BetweenShifts(r: seq<T>, cur: nat, j: nat, lo: nat, hi: nat)
    requires cur < |r| && j < |r| && j + 1 + lo <= j + 1 + hi <= |r|
    ensures GoodBetween(r, Pos(cur, j, |r|), lo, hi) == GoodBetween(r, cur, j + 1 + lo, j + 1 + hi)
    decreases hi - lo
  {
    if lo < hi {
      assert Pos(Pos(cur, j, |r|), lo, |r|) == Pos(cur, j + 1 + lo, |r|);
      BetweenShifts(r, cur, j, lo + 1, hi);
    }
  }

  lemma {:induction false} BetweenSkips(r: seq<T>, cur: nat, lo: nat, mid: nat, hi: nat)
    requires cur < |r| && lo <= mid <= hi <= |r|
    requires forall i :: lo <= i < mid ==> !Good(r[Pos(cur, i, |r|)])
    ensures GoodBetween(r, cur, lo, hi) == GoodBetween(r, cur, mid, hi)
    decreases mid - lo
  {
    if lo < mid {
      BetweenSkips(r, cur, lo + 1, mid, hi);
    }
  }

  lemma {:induction false} BetweenSame(r: seq<T>, q: seq<T>, cur: nat, lo: nat, hi: nat)
    requires |q| == |r| && cur < |r| && lo <= hi <= |r| && forall i :: 0 <= i < |r| ==> Good(q[i]) == Good(r[i])
    ensures GoodBetween(q, cur, lo, hi) == GoodBetween(r, cur, lo, hi)
    decreases hi - lo
  {
    if lo < hi {
      BetweenSame(r, q, cur, lo + 1, hi);
    }
  }

  /** Each switch brings a runnable task its turn, or brings its turn one nearer. */
  lemma TurnNears(r: seq<T>, cur: nat, p: nat)
    requires cur < |r| && p < |r| && Good(r[p])
    ensures Pick(r, cur) == p || Before(r, Pick(r, cur), p) + 1 == Before(r, cur, p)
  {
    var n := |r|;
    var d := Ahead(cur, p, n);
    var j := FirstGood(r, cur, 0);
    assert j <= d;
    if j < d {
      var q := Pos(cur, j, n);
      assert Ahead(q, p, n) == d - j - 1;
      BetweenShifts(r, cur, j, 0, d - j - 1);
      BetweenSkips(r, cur, 0, j, d);
    }
  }

  /** The scheduler after a run of switches with the given stack pointers. */
  function Switches(s: Sched, esps: seq<nat>): (t: Sched)
    requires s.cur < |s.ring|
    ensures |t.ring| == |s.ring| && t.cur < |t.ring|
    decreases |esps|
  {
    if esps == [] then s else Switches(Switched(s, esps[0]), esps[1..])
  }

  /** A runnable task is dispatched once those before it have had their turn. */
  lemma {:induction false} Fair(s: Sched, esps: seq<nat>, p: nat)
    requires Headed(s.ring) && s.cur < |s.ring| <= 101
    requires p < |s.ring| && Good(s.ring[p]) && |esps| >= Before(s.ring, s.cur, p) + 1
    ensures exists i :: 1 <= i <= |esps| && Switches(s, esps[..i]).cur == p
    decreases |esps|
  {
    SmallRingInReach(s.ring, s.cur);
    SwitchPicks(s, esps[0]);
    TurnNears(s.ring, s.cur, p);
    var t := Switched(s, esps[0]);
    if t.cur == p {
      assert esps[..1][1..] == [];
      assert Switches(s, esps[..1]).cur == p;
    } else {
      assert forall i :: 0 <= i < |t.ring| ==> Good(t.ring[i]) == Good(s.ring[i]);
      BetweenSame(s.ring, t.ring, t.cur, 0, Ahead(t.cur, p, |t.ring|));
      Fair(t, esps[1..], p);
      var i :| 1 <= i <= |esps| - 1 && Switches(t, esps[1..][..i]).cur == p;
      assert esps[..i + 1][1..] == esps[1..][..i];
      assert Switches(s, esps[..i + 1]).cur == p;
    }
  }

  /** With k runnable tasks, each is dispatched within k switches. */
  lemma FairWithin(s: Sched, esps: seq<nat>, p: nat)
    requires Headed(s.ring) && s.cur < |s.ring| <= 101
    requires p < |s.ring| && Good(s.ring[p]) && |esps| == GoodBetween(s.ring, s.cur, 0, |s.ring|)
    ensures exists i :: 1 <= i <= |esps| && Switches(s, esps[..i]).cur == p
  {
    BetweenSplits(s.ring, s.cur, 0, Ahead(s.cur, p, |s.ring|), |s.ring|);
    Fair(s, esps, p);
  }

  lemma {:induction false} BetweenSplits(r: seq<T>, cur: nat, lo: nat, mid: nat, hi: nat)
    requires cur < |r| && lo <= mid <= hi <= |r|
    ensures GoodBetween(r, cur, lo, hi) == GoodBetween(r, cur, lo, mid) + GoodBetween(r, cur, mid, hi)
    decreases mid - lo
  {
    if lo < mid {
      BetweenSplits(r, cur, lo + 1, mid, hi);
    }
  }
}
