/** Cluster chains in a file allocation table: following them, freeing them, growing them. */
module Chains {
  import opened Volume

  /** Every entry is free, a cluster, or an end mark. */
  predicate Closed(fat: seq<nat>) {
    |fat| < END_MARK && forall c :: 0 <= c < |fat| ==> fat[c] < |fat| || fat[c] >= END_MARK
  }

  /** cs is a complete chain: each cluster names the next, the last carries an end mark. */
  predicate IsChain(fat: seq<nat>, cs: seq<nat>) {
    && |fat| < END_MARK
    && cs != []
    && (forall i :: 0 <= i < |cs| ==> 2 <= cs[i] < |fat|)
    && (forall i :: 0 <= i < |cs| - 1 ==> fat[cs[i]] == cs[i + 1])
    && fat[cs[|cs| - 1]] >= END_MARK
  }

  lemma ChainTail(fat: seq<nat>, cs: seq<nat>)
    requires IsChain(fat, cs) && |cs| > 1
    ensures IsChain(fat, cs[1..])
  {
    var ds := cs[1..];
    forall i | 0 <= i < |ds| - 1
      ensures fat[ds[i]] == ds[i + 1]
    {
      assert ds[i] == cs[i + 1] && ds[i + 1] == cs[i + 2];
    }
  }

  lemma NextOnChain(fat: seq<nat>, cs: seq<nat>)
    requires IsChain(fat, cs)
    ensures |cs| > 1 <==> fat[cs[0]] < END_MARK
    ensures |cs| > 1 ==> fat[cs[0]] == cs[1]
  {
    if |cs| > 1 {
      assert fat[cs[0]] == cs[1];
    }
  }

  /** A cluster starts at most one chain. */
  lemma {:induction false} ChainUnique(fat: seq<nat>, cs: seq<nat>, ds: seq<nat>)
    requires IsChain(fat, cs) && IsChain(fat, ds) && cs[0] == ds[0]
    ensures cs == ds
    decreases |cs|
  {
    NextOnChain(fat, cs);
    NextOnChain(fat, ds);
    if |cs| > 1 && |ds| > 1 {
      ChainTail(fat, cs);
      ChainTail(fat, ds);
      ChainUnique(fat, cs[1..], ds[1..]);
      assert cs == [cs[0]] + cs[1..] && ds == [ds[0]] + ds[1..];
    }
  }

  lemma {:induction false} ChainFrom(fat: seq<nat>, cs: seq<nat>, i: nat)
    requires IsChain(fat, cs) && i < |cs|
    ensures IsChain(fat, cs[i..])
    decreases i
  {
    if i > 0 {
      ChainTail(fat, cs);
      ChainFrom(fat, cs[1..], i - 1);
      assert cs[1..][i - 1..] == cs[i..];
    }
  }

  /** A chain that reaches an end mark visits no cluster twice. */
  lemma ChainAcyclic(fat: seq<nat>, cs: seq<nat>, i: nat, j: nat)
    requires IsChain(fat, cs) && i < j < |cs|
    ensures cs[i] != cs[j]
  {
    if cs[i] == cs[j] {
      ChainFrom(fat, cs, i);
      ChainFrom(fat, cs, j);
      ChainUnique(fat, cs[i..], cs[j..]);
    }
  }

  /** Two chains that share a cluster share everything behind it. */
  lemma ChainsMerge(fat: seq<nat>, cs: seq<nat>, ds: seq<nat>, i: nat, j: nat)
    requires IsChain(fat, cs) && IsChain(fat, ds) && i < |cs| && j < |ds| && cs[i] == ds[j]
    ensures cs[i..] == ds[j..]
  {
    ChainFrom(fat, cs, i);
    ChainFrom(fat, ds, j);
    ChainUnique(fat, cs[i..], ds[j..]);
  }

  lemma ChainFrame(fat: seq<nat>, gat: seq<nat>, cs: seq<nat>)
    requires IsChain(fat, cs) && |gat| == |fat|
    requires forall c :: c in cs ==> gat[c] == fat[c]
    ensures IsChain(gat, cs)
  {
  }

  predicate StartsChain(fat: seq<nat>, c: nat, cs: seq<nat>) {
    IsChain(fat, cs) && cs[0] == c
  }

  ghost predicate HasChain(fat: seq<nat>, c: nat) {
    exists cs :: StartsChain(fat, c, cs)
  }

  /** The chain that starts at cluster c. */
  ghost function ChainOf(fat: seq<nat>, c: nat): (cs: seq<nat>)
    requires HasChain(fat, c)
    ensures StartsChain(fat, c, cs)
  {
    var cs :| StartsChain(fat, c, cs);
    cs
  }

  lemma ChainOfIs(fat: seq<nat>, c: nat, cs: seq<nat>)
    requires StartsChain(fat, c, cs)
    ensures HasChain(fat, c) && ChainOf(fat, c) == cs
  {
    ChainUnique(fat, ChainOf(fat, c), cs);
  }

  // ---- freeing ----

  function Used(fat: seq<nat>): nat {
    if fat == [] then 0 else Used(fat[..|fat| - 1]) + if fat[|fat| - 1] != 0 then 1 else 0
  }

  lemma {:induction false} UsedAfter(fat: seq<nat>, c: nat, v: nat)
    requires c < |fat|
    ensures Used(fat[c := v]) + (if fat[c] != 0 then 1 else 0) == Used(fat) + if v != 0 then 1 else 0
  {
    var n := |fat| - 1;
    if c == n {
      assert fat[c := v][..n] == fat[..n];
    } else {
      UsedAfter(fat[..n], c, v);
      assert fat[c := v][..n] == fat[..n][c := v];
    }
  }

  predicate Follows(c: nat) { 0 < c < END_MARK }

  /** The loop of `fat32_rm`: free c, go on where it pointed. It ends on a cyclic
      chain too, because a cluster met again is free by then. */
  function FreeChain(fat: seq<nat>, c: nat): (r: seq<nat>)
    requires Closed(fat) && (c < |fat| || c >= END_MARK)
    ensures |r| == |fat| && Closed(r)
    decreases Used(fat), c != 0
  {
    if !Follows(c) then fat else
    UsedAfter(fat, c, 0);
    FreeChain(fat[c := 0], fat[c])
  }

  method FreeClusters(vol: Volume, first: nat)
    requires vol.Valid() && Closed(vol.View().fat) && (first < vol.g.Clusters() || first >= END_MARK)
    modifies vol
    ensures vol.Valid()
    ensures vol.View() == Disk(FreeChain(old(vol.View().fat), first), old(vol.View().data))
  {
    var cluster: nat := first;
    while cluster > 0 && cluster < END_MARK
      invariant vol.Valid() && Closed(vol.View().fat) && vol.View().data == old(vol.View().data)
      invariant cluster < vol.g.Clusters() || cluster >= END_MARK
      invariant FreeChain(vol.View().fat, cluster) == FreeChain(old(vol.View().fat), first)
      decreases Used(vol.View().fat), cluster != 0
    {
      UsedAfter(vol.View().fat, cluster, 0);
      var next := vol.GetFat(cluster);
      vol.SetFat(cluster, 0);
      cluster := next;
    }
  }

  /** Where k steps lead from c; 0 once the walk has stopped. */
  function Walk(fat: seq<nat>, c: nat, k: nat): nat
    requires Closed(fat) && (c < |fat| || c >= END_MARK)
    decreases k
  {
    if k == 0 then c else if !Follows(c) then 0 else Walk(fat, fat[c], k - 1)
  }

  ghost predicate Reaches(fat: seq<nat>, c: nat, x: nat)
    requires Closed(fat) && (c < |fat| || c >= END_MARK)
  {
    Follows(x) && exists k: nat :: Walk(fat, c, k) == x
  }

  /** A walk from c to another cluster can be redone from c's successor without c. */
  lemma {:induction false} WalkWithout(fat: seq<nat>, c: nat, d: nat, k: nat, x: nat)
    requires Closed(fat) && Follows(c) && c < |fat| && (d < |fat| || d >= END_MARK)
    requires Walk(fat, d, k) == x && x != c && Follows(x)
    requires d == fat[c] || Reaches(fat[c := 0], fat[c], d)
    ensures Reaches(fat[c := 0], fat[c], x)
    decreases k
  {
    var gat := fat[c := 0];
    if d == fat[c] {
      assert Walk(gat, fat[c], 0) == d;
    }
    if k > 0 {
      if d == c {
        WalkWithout(fat, c, fat[c], k - 1, x);
      } else {
        assert Reaches(gat, fat[c], d);
        var m: nat :| Walk(gat, fat[c], m) == d;
        WalkStep(gat, fat[c], m);
        if Follows(fat[d]) {
          WalkWithout(fat, c, fat[d], k - 1, x);
        }
      }
    }
  }

  lemma {:induction false} WalkStep(fat: seq<nat>, c: nat, k: nat)
    requires Closed(fat) && (c < |fat| || c >= END_MARK)
    requires Follows(Walk(fat, c, k))
    ensures Walk(fat, c, k) < |fat| && Walk(fat, c, k + 1) == fat[Walk(fat, c, k)]
    decreases k
  {
    if k > 0 {
      WalkStep(fat, fat[c], k - 1);
    }
  }

  /** A walk in the table with c freed is a walk in the table before. */
  lemma {:induction false} WalkBefore(fat: seq<nat>, c: nat, d: nat, k: nat)
    requires Closed(fat) && Follows(c) && c < |fat| && (d < |fat| || d >= END_MARK)
    requires Follows(Walk(fat[c := 0], d, k))
    ensures Walk(fat, d, k) == Walk(fat[c := 0], d, k)
    decreases k
  {
    if k > 0 {
      FreedStops(fat[c := 0], c, k);
      if d != c {
        WalkBefore(fat, c, fat[d], k - 1);
      }
    }
  }

  lemma FreedStops(fat: seq<nat>, c: nat, k: nat)
    requires Closed(fat) && Follows(c) && c < |fat| && fat[c] == 0 && k > 0
    ensures Walk(fat, c, k) == 0
  {
    assert Walk(fat, c, k) == Walk(fat, 0, k - 1);
  }

  /** Freeing from c clears exactly the clusters reachable from c, cyclic chain or not. */
  lemma {:induction false} FreeClearsReachable(fat: seq<nat>, c: nat, x: nat)
    requires Closed(fat) && (c < |fat| || c >= END_MARK) && x < |fat|
    ensures FreeChain(fat, c)[x] == if Reaches(fat, c, x) then 0 else fat[x]
    decreases Used(fat), c != 0
  {
    if Follows(c) {
      UsedAfter(fat, c, 0);
      var gat := fat[c := 0];
      FreeClearsReachable(gat, fat[c], x);
      if x == c {
        assert Walk(fat, c, 0) == c;
      } else if Reaches(fat, c, x) {
        var k: nat :| Walk(fat, c, k) == x;
        assert Walk(fat, fat[c], k - 1) == x;
        WalkWithout(fat, c, fat[c], k - 1, x);
      } else if Reaches(gat, fat[c], x) {
        var k: nat :| Walk(gat, fat[c], k) == x;
        WalkBefore(fat, c, fat[c], k);
        assert Walk(fat, c, k + 1) == x;
      }
    }
  }

  /** The table with the clusters of cs freed. */
  function Zeroed(fat: seq<nat>, cs: seq<nat>): (r: seq<nat>)
    ensures |r| == |fat|
  {
    seq(|fat|, c requires 0 <= c < |fat| => if c in cs then 0 else fat[c])
  }

  /** Freeing a complete chain clears exactly that chain and raises the free count by its length. */
  lemma {:induction false} FreeClearsChain(fat: seq<nat>, cs: seq<nat>)
    requires Closed(fat) && IsChain(fat, cs)
    ensures FreeChain(fat, cs[0]) == Zeroed(fat, cs)
    ensures Used(Zeroed(fat, cs)) + |cs| == Used(fat)
    decreases |cs|
  {
    var c := cs[0];
    var gat := fat[c := 0];
    NextOnChain(fat, cs);
    UsedAfter(fat, c, 0);
    if |cs| > 1 {
      ChainTail(fat, cs);
      var ds := cs[1..];
      forall d | d in ds
        ensures d != c
      {
        var i :| 0 <= i < |ds| && ds[i] == d;
        ChainAcyclic(fat, cs, 0, i + 1);
      }
      ChainFrame(fat, gat, ds);
      FreeClearsChain(gat, ds);
      assert Zeroed(gat, ds) == Zeroed(fat, cs) by {
        assert cs == [c] + ds;
      }
    } else {
      assert FreeChain(gat, fat[c]) == gat;
      assert Zeroed(fat, cs) == gat;
    }
  }

  // ---- growing ----

  predicate InTable(fat: seq<nat>, ds: seq<nat>) {
    forall i :: 0 <= i < |ds| ==> ds[i] < |fat|
  }

  /** Distinct free clusters. */
  predicate Fresh(fat: seq<nat>, ds: seq<nat>) {
    && (forall i :: 0 <= i < |ds| ==> 2 <= ds[i] < |fat| && fat[ds[i]] == 0)
    && (forall i, j :: 0 <= i < j < |ds| ==> ds[i] != ds[j])
  }

  /** The table after the clusters of ds were taken one by one and linked into a chain. */
  function Grown(fat: seq<nat>, ds: seq<nat>): (r: seq<nat>)
    requires InTable(fat, ds)
    ensures |r| == |fat|
  {
    var n := |ds|;
    if n == 0 then fat
    else if n == 1 then fat[ds[0] := END]
    else Grown(fat, ds[..n - 1])[ds[n - 2] := ds[n - 1]][ds[n - 1] := END]
  }

  /** The clusters a writer takes for n blocks: each time the least free one, until the disk is full. */
  function Taken(fat: seq<nat>, n: nat): (ds: seq<nat>)
    ensures |ds| <= n && InTable(fat, ds)
    decreases n
  {
    if n == 0 then [] else
    var ds := Taken(fat, n - 1);
    var c := LeastFree(Grown(fat, ds), 2);
    if c == 0 then ds else ds + [c]
  }

  lemma {:induction false} TakenFresh(fat: seq<nat>, n: nat)
    ensures Fresh(fat, Taken(fat, n))
    decreases n
  {
    if n > 0 {
      TakenFresh(fat, n - 1);
      var ds := Taken(fat, n - 1);
      var c := LeastFree(Grown(fat, ds), 2);
      if c != 0 {
        FreshNext(fat, ds, c);
      }
    }
  }

  /** A cluster still free after growing is another one, and was free before. */
  lemma FreshNext(fat: seq<nat>, ds: seq<nat>, c: nat)
    requires Fresh(fat, ds) && 2 <= c < |fat| && Grown(fat, ds)[c] == 0
    ensures Fresh(fat, ds + [c])
  {
    GrownUsed(fat, ds);
    GrownFrame(fat, ds, c);
  }

  /** Growing touches no other cluster. */
  lemma {:induction false} GrownFrame(fat: seq<nat>, ds: seq<nat>, c: nat)
    requires Fresh(fat, ds) && c < |fat| && c !in ds
    ensures Grown(fat, ds)[c] == fat[c]
    decreases |ds|
  {
    if |ds| > 1 {
      GrownFrame(fat, ds[..|ds| - 1], c);
    }
  }

  /** Growing links the new clusters in order and ends the last. */
  lemma {:induction false} GrownLink(fat: seq<nat>, ds: seq<nat>, i: nat)
    requires Fresh(fat, ds) && i < |ds|
    ensures Grown(fat, ds)[ds[i]] == if i + 1 < |ds| then ds[i + 1] else END
    decreases |ds|
  {
    var n := |ds|;
    if n > 1 {
      var was := Grown(fat, ds[..n - 1]);
      if i < n - 2 {
        GrownLink(fat, ds[..n - 1], i);
        assert ds[i] != ds[n - 2] && ds[i] != ds[n - 1];
      }
    }
  }

  lemma GrownUsed(fat: seq<nat>, ds: seq<nat>)
    requires Fresh(fat, ds)
    ensures forall d :: d in ds ==> Grown(fat, ds)[d] != 0
  {
    forall d | d in ds
      ensures Grown(fat, ds)[d] != 0
    {
      var i :| 0 <= i < |ds| && ds[i] == d;
      GrownLink(fat, ds, i);
    }
  }

  /** What was grown is a chain. */
  lemma GrownChain(fat: seq<nat>, ds: seq<nat>)
    requires Closed(fat) && Fresh(fat, ds) && ds != []
    ensures IsChain(Grown(fat, ds), ds) && Closed(Grown(fat, ds))
  {
    var gat := Grown(fat, ds);
    forall i | 0 <= i < |ds|
      ensures gat[ds[i]] == if i + 1 < |ds| then ds[i + 1] else END
    {
      GrownLink(fat, ds, i);
    }
    forall c | 0 <= c < |fat|
      ensures gat[c] < |fat| || gat[c] >= END_MARK
    {
      if c !in ds {
        GrownFrame(fat, ds, c);
      } else {
        var i :| 0 <= i < |ds| && ds[i] == c;
        GrownLink(fat, ds, i);
      }
    }
  }

  /** Growing uses up as many clusters as the chain has. */
  lemma {:induction false} GrownCount(fat: seq<nat>, ds: seq<nat>)
    requires Fresh(fat, ds)
    ensures Used(Grown(fat, ds)) == Used(fat) + |ds|
    decreases |ds|
  {
    var n := |ds|;
    if n == 1 {
      UsedAfter(fat, ds[0], END);
    } else if n > 1 {
      var es := ds[..n - 1];
      var was := Grown(fat, es);
      GrownCount(fat, es);
      GrownFrame(fat, es, ds[n - 1]);
      GrownLink(fat, es, n - 2);
      UsedAfter(was, ds[n - 2], ds[n - 1]);
      UsedAfter(was[ds[n - 2] := ds[n - 1]], ds[n - 1], END);
    }
  }

  /** Only a full disk gives a writer fewer clusters than it asked for. */
  lemma {:induction false} TakenAll(fat: seq<nat>, n: nat)
    requires Closed(fat) && Used(fat) + n + 2 <= |fat|
    ensures |Taken(fat, n)| == n
    decreases n
  {
    if n > 0 {
      TakenAll(fat, n - 1);
      TakenFresh(fat, n - 1);
      var ds := Taken(fat, n - 1);
      var gat := Grown(fat, ds);
      GrownCount(fat, ds);
      if LeastFree(gat, 2) == 0 {
        forall c | 2 <= c < |gat|
          ensures gat[c] != 0
        {
          LeastFreeIsLeast(gat, 2, c);
        }
        AllUsed(gat, 2);
      }
    }
  }

  lemma {:induction false} AllUsed(fat: seq<nat>, lo: nat)
    requires lo <= |fat| && forall c :: lo <= c < |fat| ==> fat[c] != 0
    ensures Used(fat) >= |fat| - lo
  {
    if |fat| > lo {
      AllUsed(fat[..|fat| - 1], lo);
    }
  }
}
