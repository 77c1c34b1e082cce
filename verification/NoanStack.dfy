/** The command line of `noan_execute`: split in place into tokens, and laid out on the user
    stack as the started program reads it. */
module NoanStack {
  import opened Words

  const STACK_SIZE := 4096
  const LINE_CAP := 127
  const MAX_ARGS := 16
  const RETURN_ADDRESS: u32 := 0xDEAD_BEEF

  // ---- tokens ----

  predicate Blank(c: byte) { c <= 32 }

  /** The next place from p on that holds no blank. */
  function Skip(s: seq<byte>, p: nat): (a: nat)
    requires p <= |s|
    ensures p <= a <= |s| && (a < |s| ==> !Blank(s[a])) && forall i :: p <= i < a ==> Blank(s[i])
    decreases |s| - p
  {
    if p == |s| || !Blank(s[p]) then p else Skip(s, p + 1)
  }

  /** The next place from p on that holds a blank. */
  function Stop(s: seq<byte>, p: nat): (b: nat)
    requires p <= |s|
    ensures p <= b <= |s| && (b < |s| ==> Blank(s[b])) && forall i :: p <= i < b ==> !Blank(s[i])
    decreases |s| - p
  {
    if p == |s| || Blank(s[p]) then p else Stop(s, p + 1)
  }

  /** Where a token starts and ends. */
  datatype Span = Span(lo: nat, hi: nat)

  /** The loop of `noan_execute` from place p on, `max` tokens at most. */
  function Spans(s: seq<byte>, p: nat, max: nat): (r: seq<Span>)
    requires p <= |s|
    ensures |r| <= max
    decreases max, 0
  {
    if max == 0 then [] else
    var a := Skip(s, p);
    if a == |s| then [] else [Span(a, Stop(s, a))] + Later(s, Stop(s, a), max - 1)
  }

  /** The tokens behind the one that ends at b. */
  function Later(s: seq<byte>, b: nat, max: nat): (r: seq<Span>)
    requires b <= |s|
    ensures |r| <= max
    decreases max, 1
  {
    if b == |s| then [] else Spans(s, b + 1, max)
  }

  predicate InLine(s: seq<byte>, ts: seq<Span>) {
    forall k :: 0 <= k < |ts| ==> ts[k].lo < ts[k].hi <= |s|
  }

  lemma ConsInLine(s: seq<byte>, t: Span, rest: seq<Span>)
    requires InLine(s, rest) && t.lo < t.hi <= |s|
    ensures InLine(s, [t] + rest)
  {
  }

  lemma {:induction false} SpansInLine(s: seq<byte>, p: nat, max: nat)
    requires p <= |s|
    ensures InLine(s, Spans(s, p, max))
    decreases max
  {
    var a := Skip(s, p);
    if max > 0 && a < |s| {
      var b := Stop(s, a);
      if b < |s| {
        SpansInLine(s, b + 1, max - 1);
      }
      ConsInLine(s, Span(a, b), Later(s, b, max - 1));
    }
  }

  /** A longest run of bytes that are no blanks. */
  predicate IsToken(s: seq<byte>, t: Span) {
    && t.lo < t.hi <= |s| && (forall i :: t.lo <= i < t.hi ==> s[i] > 32)
    && (t.lo > 0 ==> s[t.lo - 1] <= 32) && (t.hi < |s| ==> s[t.hi] <= 32)
  }

  /** Tokens, from p on, each behind the one before. */
  predicate InOrder(s: seq<byte>, ts: seq<Span>, p: nat) {
    && (forall k :: 0 <= k < |ts| ==> IsToken(s, ts[k]) && p <= ts[k].lo)
    && forall i, k :: 0 <= i < k < |ts| ==> ts[i].hi < ts[k].lo
  }

  lemma ConsInOrder(s: seq<byte>, t: Span, rest: seq<Span>, p: nat)
    requires IsToken(s, t) && p <= t.lo && InOrder(s, rest, t.hi + 1)
    ensures InOrder(s, [t] + rest, p)
  {
    var all := [t] + rest;
    assert forall k :: 1 <= k < |all| ==> all[k] == rest[k - 1];
  }

  /** The loop finds tokens, in order. */
  lemma {:induction false} SpansAreTokens(s: seq<byte>, p: nat, max: nat)
    requires p <= |s| && (p > 0 ==> Blank(s[p - 1]))
    ensures InOrder(s, Spans(s, p, max), p)
    decreases max
  {
    var a := Skip(s, p);
    if max > 0 && a < |s| {
      assert a > 0 ==> Blank(s[a - 1]);
      var b := Stop(s, a);
      if b < |s| {
        SpansAreTokens(s, b + 1, max - 1);
      }
      ConsInOrder(s, Span(a, b), Later(s, b, max - 1), p);
    }
  }

  /** It passes over none before it stops: every token from p on is found, or lies behind the
      last of as many as were wanted. */
  lemma {:induction false} SpansFindAll(s: seq<byte>, p: nat, max: nat, t: Span)
    requires p <= |s| && IsToken(s, t) && t.lo >= p
    ensures t in Spans(s, p, max) ||
      (|Spans(s, p, max)| == max && forall k :: 0 <= k < max ==> Spans(s, p, max)[k].hi < t.lo)
    decreases max
  {
    var r, a := Spans(s, p, max), Skip(s, p);
    assert !Blank(s[t.lo]);
    if max > 0 && t != Span(a, Stop(s, a)) {
      TokenBehind(s, p, t);
      var b := Stop(s, a);
      SpansFindAll(s, b + 1, max - 1, t);
      FoundBehind(Span(a, b), Later(s, b, max - 1), r, max, t);
    }
  }

  lemma FoundBehind(first: Span, rest: seq<Span>, all: seq<Span>, max: nat, t: Span)
    requires all == [first] + rest && max > 0 && first.hi < t.lo
    requires t in rest || (|rest| == max - 1 && forall k :: 0 <= k < max - 1 ==> rest[k].hi < t.lo)
    ensures t in all || (|all| == max && forall k :: 0 <= k < max ==> all[k].hi < t.lo)
  {
    assert forall k :: 1 <= k < |all| ==> all[k] == rest[k - 1];
  }

  /** A token that is not the first one starts behind it. */
  lemma TokenBehind(s: seq<byte>, p: nat, t: Span)
    requires p <= |s| && IsToken(s, t) && t.lo >= p && t != Span(Skip(s, p), Stop(s, Skip(s, p)))
    ensures Skip(s, p) < |s| && t.lo > Stop(s, Skip(s, p))
  {
    var a := Skip(s, p);
    var b := Stop(s, a);
    assert !Blank(s[t.lo]) && t.lo >= a;
    assert t.lo > a ==> Blank(s[t.lo - 1]);
  }

  function Texts(s: seq<byte>, ts: seq<Span>): (r: seq<seq<byte>>)
    requires InLine(s, ts)
    ensures |r| == |ts|
  {
    seq(|ts|, k requires 0 <= k < |ts| => s[ts[k].lo..ts[k].hi])
  }

  /** The command line as far as the buffer takes it. */
  function Line(cmd: seq<byte>): (s: seq<byte>)
    ensures |s| <= LINE_CAP
  {
    cmd[..Min(|cmd|, LINE_CAP)]
  }

  /** The first `max` tokens of a line. */
  function TokenTexts(s: seq<byte>, max: nat): (args: seq<seq<byte>>)
    ensures |args| <= max
  {
    SpansInLine(s, 0, max);
    Texts(s, Spans(s, 0, max))
  }

  /** The arguments: the first 16 tokens of the first 127 bytes. */
  function Arguments(cmd: seq<byte>): seq<seq<byte>> {
    TokenTexts(Line(cmd), MAX_ARGS)
  }

  /** These are the tokens of the line, in order: all of them, or the first sixteen. */
  ghost predicate AreTokens(line: seq<byte>, ts: seq<Span>) {
    && InOrder(line, ts, 0) && InLine(line, ts) && |ts| <= 16
    && forall t: Span :: IsToken(line, t) ==> t in ts || (|ts| == 16 && ts[15].hi < t.lo)
  }

  /** The arguments are the tokens of the command's first 127 bytes. */
  lemma ArgumentsAreTokens(cmd: seq<byte>)
    ensures exists ts :: AreTokens(cmd[..Min(|cmd|, 127)], ts) && Arguments(cmd) == Texts(cmd[..Min(|cmd|, 127)], ts)
  {
    var line := Line(cmd);
    var ts := Spans(line, 0, 16);
    SpansInLine(line, 0, 16);
    SpansAreTokens(line, 0, 16);
    forall t: Span | IsToken(line, t)
      ensures t in ts || (|ts| == 16 && ts[15].hi < t.lo)
    {
      SpansFindAll(line, 0, 16, t);
    }
    assert AreTokens(line, ts);
  }

  // ---- strings behind each other ----

  /** The strings with their NULs, one behind the other. */
  function Flat(ts: seq<seq<byte>>): seq<byte> {
    if ts == [] then [] else ts[0] + [0] + Flat(ts[1..])
  }

  /** The string at `off`, up to its NUL. */
  function CStr(mem: seq<byte>, off: nat): seq<byte>
    decreases |mem| - off
  {
    if off >= |mem| || mem[off] == 0 then [] else [mem[off]] + CStr(mem, off + 1)
  }

  lemma {:induction false} CStrIs(mem: seq<byte>, off: nat, t: seq<byte>)
    requires off + |t| < |mem| && mem[off..off + |t|] == t && mem[off + |t|] == 0
    requires forall i :: 0 <= i < |t| ==> t[i] != 0
    ensures CStr(mem, off) == t
    decreases |t|
  {
    if t != [] {
      assert mem[off] == t[0];
      assert mem[off + 1..off + 1 + |t[1..]|] == t[1..];
      CStrIs(mem, off + 1, t[1..]);
    }
  }

  lemma FlatCons(x: seq<byte>, ts: seq<seq<byte>>)
    ensures Flat([x] + ts) == x + [0] + Flat(ts)
  {
    assert ([x] + ts)[1..] == ts;
  }

  lemma TextsCons(s: seq<byte>, t: Span, ts: seq<Span>)
    requires t.lo < t.hi <= |s| && InLine(s, ts)
    ensures InLine(s, [t] + ts) && Texts(s, [t] + ts) == [s[t.lo..t.hi]] + Texts(s, ts)
  {
    ConsInLine(s, t, ts);
    var l, r := Texts(s, [t] + ts), [s[t.lo..t.hi]] + Texts(s, ts);
    forall k | 0 <= k < |l|
      ensures l[k] == r[k]
    {
      if k > 0 {
        assert ([t] + ts)[k] == ts[k - 1];
      }
    }
  }

  /** The strings and their NULs take no more room than the line and its own. */
  lemma {:induction false} FlatFits(s: seq<byte>, p: nat, max: nat)
    requires p <= |s|
    ensures InLine(s, Spans(s, p, max)) && |Flat(Texts(s, Spans(s, p, max)))| <= |s| - p + 1
    decreases max
  {
    var a := Skip(s, p);
    if max > 0 && a < |s| {
      var b := Stop(s, a);
      var rest := Later(s, b, max - 1);
      if b < |s| {
        FlatFits(s, b + 1, max - 1);
      }
      TextsCons(s, Span(a, b), rest);
      FlatCons(s[a..b], Texts(s, rest));
    }
  }

  // ---- what the started program reads ----

  /** The j-th word of the argv array. */
  function ArgPtr(mem: seq<byte>, base: nat, sp: nat, j: nat): u32
    requires base <= sp && sp - base + 12 + 4 * j + 4 <= |mem|
  {
    Get32(mem, sp - base + 12 + 4 * j)
  }

  /** At sp: the return address, argc, argv; argv's words point to the arguments and end in
      NULL; the strings lie above the words and do not overlap. */
  predicate ReadsBack(mem: seq<byte>, base: nat, sp: nat, args: seq<seq<byte>>) {
    && base <= sp && sp - base + 4 * (|args| + 4) <= |mem|
    && Get32(mem, sp - base) == 0xDEAD_BEEF
    && Get32(mem, sp - base + 4) == |args|
    && Get32(mem, sp - base + 8) == sp + 12
    && ArgPtr(mem, base, sp, |args|) == 0
    && (forall j :: 0 <= j < |args| ==>
         Points(mem, base, ArgPtr(mem, base, sp, j), args[j]) && ArgPtr(mem, base, sp, j) >= sp + 4 * (|args| + 4))
    && forall j, k :: 0 <= j < k < |args| ==> ArgPtr(mem, base, sp, j) + |args[j]| < ArgPtr(mem, base, sp, k)
  }

  /** The address leads to the string, NUL included, inside the memory. */
  predicate Points(mem: seq<byte>, base: nat, p: nat, t: seq<byte>) {
    base <= p && p - base + |t| < |mem| && CStr(mem, p - base) == t && mem[p - base + |t|] == 0
  }

  // ---- noan_execute ----

  method CopyLine(cmd: seq<byte>) returns (buf: array<byte>, len: nat)
    requires forall i :: 0 <= i < |cmd| ==> cmd[i] != 0
    ensures fresh(buf) && buf.Length == 128 && len == |Line(cmd)| && buf[..len] == Line(cmd) && buf[len] == 0
  {
    buf := new byte[128](_ => 0);
    len := 0;
    while len < |cmd| && len < LINE_CAP
      invariant len <= |cmd| && len <= LINE_CAP && buf[..len] == cmd[..len]
    {
      buf[len] := cmd[len];
      len := len + 1;
    }
    buf[len] := 0;
  }

  /** The buffer holds token t as a string. */
  predicate Cut(buf: seq<byte>, s: seq<byte>, t: Span) {
    t.lo < t.hi <= |s| < |buf| && buf[t.lo..t.hi] == s[t.lo..t.hi] && buf[t.hi] == 0
  }

  /** The tokens found so far are cut out of the buffer, which is untouched from p on. */
  predicate CutSoFar(buf: seq<byte>, s: seq<byte>, argv: seq<nat>, ts: seq<Span>, p: nat) {
    && p <= |s| < |buf| && buf[|s|] == 0 && |argv| == |ts|
    && (forall i :: p <= i < |s| ==> buf[i] == s[i])
    && forall k :: 0 <= k < |ts| ==> argv[k] == ts[k].lo && Cut(buf, s, ts[k]) && (p < |s| ==> ts[k].hi < p)
  }

  /** The splitting loop; argv holds places in the buffer. */
  method Tokenise(buf: array<byte>, len: nat, maxArgs: nat) returns (argv: seq<nat>)
    requires len < buf.Length && buf[len] == 0 && forall i :: 0 <= i < len ==> buf[i] != 0
    modifies buf
    ensures var s := old(buf[..len]); var ts := Spans(s, 0, maxArgs);
      CutSoFar(buf[..], s, argv, ts, len)
  {
    ghost var s := buf[..len];
    ghost var ts: seq<Span> := [];
    ghost var all := Spans(s, 0, maxArgs);
    argv := [];
    var p: nat := 0;
    while buf[p] != 0 && |argv| < maxArgs
      invariant CutSoFar(buf[..], s, argv, ts, p) && Progress(s, ts, p, all, maxArgs)
      decreases len - p
    {
      EndOfLine(buf[..], s, argv, ts, p);
      ghost var was := buf[..];
      var lo, hi := NextToken(buf, p, len, s);
      ProgressStep(s, ts, p, all, maxArgs);
      if lo == len {
        p := len;
        break;
      }
      CutNext(was, buf[..], s, argv, ts, p, lo, hi);
      argv := argv + [lo];
      ts := ts + [Span(lo, hi)];
      if hi == len {
        p := len;
        break;
      }
      p := hi + 1;
    }
    EndOfLine(buf[..], s, argv, ts, p);
    Untouched(buf[..], s, argv, ts, p);
    ProgressEnd(s, ts, p, all, maxArgs);
  }

  /** Only the line's end holds a NUL among what is still untouched. */
  lemma EndOfLine(buf: seq<byte>, s: seq<byte>, argv: seq<nat>, ts: seq<Span>, p: nat)
    requires CutSoFar(buf, s, argv, ts, p) && forall i :: 0 <= i < |s| ==> s[i] != 0
    ensures buf[p] == 0 <==> p == |s|
  {
  }

  lemma Untouched(buf: seq<byte>, s: seq<byte>, argv: seq<nat>, ts: seq<Span>, p: nat)
    requires CutSoFar(buf, s, argv, ts, p)
    ensures CutSoFar(buf, s, argv, ts, |s|)
  {
  }

  /** One token: its ends, with a NUL written behind it unless the line ends there. */
  method NextToken(buf: array<byte>, from: nat, len: nat, ghost s: seq<byte>) returns (lo: nat, hi: nat)
    requires from < len == |s| < buf.Length && buf[len] == 0
    requires (forall i :: from <= i < len ==> buf[i] == s[i]) && forall i :: 0 <= i < len ==> s[i] != 0
    modifies buf
    ensures lo == Skip(s, from) && (lo < len ==> hi == Stop(s, lo))
    ensures buf[..] == if lo < len && hi < len then old(buf[..])[hi := 0] else old(buf[..])
  {
    lo := SkipBlanks(buf, from, len, s);
    hi := lo;
    if buf[lo] == 0 {
      return;
    }
    hi := SkipToken(buf, lo, len, s);
    if buf[hi] != 0 {
      buf[hi] := 0;
    }
  }

  /** ts are the tokens before p; the loop's remaining rounds find the rest of all m. */
  predicate Progress(s: seq<byte>, ts: seq<Span>, p: nat, all: seq<Span>, m: nat) {
    p <= |s| && |ts| <= m && all == ts + Spans(s, p, m - |ts|)
  }

  lemma ProgressStep(s: seq<byte>, ts: seq<Span>, p: nat, all: seq<Span>, m: nat)
    requires Progress(s, ts, p, all, m) && |ts| < m
    ensures var lo := Skip(s, p);
      if lo == |s| then Progress(s, ts, |s|, all, m)
      else Progress(s, ts + [Span(lo, Stop(s, lo))], if Stop(s, lo) < |s| then Stop(s, lo) + 1 else |s|, all, m)
  {
    var lo := Skip(s, p);
    if lo < |s| {
      var rest := Later(s, Stop(s, lo), m - |ts| - 1);
      assert ts + ([Span(lo, Stop(s, lo))] + rest) == ts + [Span(lo, Stop(s, lo))] + rest;
    }
  }

  lemma ProgressEnd(s: seq<byte>, ts: seq<Span>, p: nat, all: seq<Span>, m: nat)
    requires Progress(s, ts, p, all, m) && (p == |s| || |ts| == m)
    ensures all == ts
  {
  }

  lemma CutNext(was: seq<byte>, buf: seq<byte>, s: seq<byte>, argv: seq<nat>, ts: seq<Span>, p: nat, lo: nat, hi: nat)
    requires CutSoFar(was, s, argv, ts, p) && p < |s| && lo == Skip(s, p) < |s| && hi == Stop(s, lo)
    requires buf == if hi < |s| then was[hi := 0] else was
    ensures CutSoFar(buf, s, argv + [lo], ts + [Span(lo, hi)], if hi < |s| then hi + 1 else |s|)
  {
    forall k | 0 <= k < |ts|
      ensures Cut(buf, s, ts[k])
    {
      assert buf[ts[k].lo..ts[k].hi] == was[ts[k].lo..ts[k].hi];
    }
    assert was[lo..hi] == s[lo..hi] && buf[lo..hi] == was[lo..hi];
  }

  method SkipBlanks(buf: array<byte>, from: nat, len: nat, ghost s: seq<byte>) returns (p: nat)
    requires from <= len == |s| < buf.Length && buf[len] == 0
    requires (forall i :: from <= i < len ==> buf[i] == s[i]) && forall i :: 0 <= i < len ==> s[i] != 0
    ensures p == Skip(s, from) && (buf[p] == 0 <==> p == len)
  {
    p := from;
    while buf[p] != 0 && buf[p] <= 32
      invariant from <= p <= len && Skip(s, from) == Skip(s, p)
      decreases len - p
    {
      p := p + 1;
    }
  }

  method SkipToken(buf: array<byte>, from: nat, len: nat, ghost s: seq<byte>) returns (p: nat)
    requires from <= len == |s| < buf.Length && buf[len] == 0
    requires (forall i :: from <= i < len ==> buf[i] == s[i]) && forall i :: 0 <= i < len ==> s[i] != 0
    ensures p == Stop(s, from) && (buf[p] == 0 <==> p == len)
  {
    p := from;
    while buf[p] != 0 && buf[p] > 32
      invariant from <= p <= len && Stop(s, from) == Stop(s, p)
      decreases len - p
    {
      p := p + 1;
    }
  }

  // ---- the user stack ----

  predicate NoNul(t: seq<byte>) { forall i :: 0 <= i < |t| ==> t[i] != 0 }

  /** The buffer holds t as a string at place `at`. */
  predicate Holds(buf: seq<byte>, at: nat, t: seq<byte>) {
    at + |t| < |buf| && buf[at..at + |t|] == t && buf[at + |t|] == 0 && NoNul(t)
  }

  /** One string copied below `sp`, its NUL included. */
  method PlaceString(buf: array<byte>, at: nat, stack: array<byte>, sp: nat, ghost t: seq<byte>) returns (now: nat)
    requires Holds(buf[..], at, t) && buf != stack && |t| + 1 <= sp <= stack.Length
    modifies stack
    ensures now == sp - (|t| + 1) && stack[now..sp] == t + [0]
    ensures forall i :: 0 <= i < now || sp <= i < stack.Length ==> stack[i] == old(stack[i])
  {
    var len: nat := 0;
    while buf[at + len] != 0
      invariant len <= |t| && stack[..] == old(stack[..])
      decreases |t| - len
    {
      StringByte(buf[..], at, t, len);
      len := len + 1;
    }
    StringByte(buf[..], at, t, len);
    now := sp - (len + 1);
    for k := 0 to len + 1
      invariant forall i :: 0 <= i < now || sp <= i < stack.Length ==> stack[i] == old(stack[i])
      invariant stack[now..now + k] == buf[at..at + k]
    {
      stack[now + k] := buf[at + k];
      assert stack[now..now + k + 1] == stack[now..now + k] + [stack[now + k]];
    }
    assert buf[at..at + len + 1] == buf[..][at..at + |t|] + [buf[at + len]];
  }

  lemma StringByte(buf: seq<byte>, at: nat, t: seq<byte>, i: nat)
    requires Holds(buf, at, t) && i <= |t|
    ensures buf[at + i] == 0 <==> i == |t|
  {
    if i < |t| {
      assert buf[at..at + |t|][i] == t[i];
    }
  }

  lemma {:induction false} FlatFrom(ts: seq<seq<byte>>, k: nat)
    requires k <= |ts|
    ensures |Flat(ts[k..])| <= |Flat(ts)| && Flat(ts)[|Flat(ts)| - |Flat(ts[k..])|..] == Flat(ts[k..])
    decreases k
  {
    if k > 0 {
      FlatFrom(ts[1..], k - 1);
      assert ts[1..][k - 1..] == ts[k..];
      var f, g := Flat(ts), Flat(ts[1..]);
      assert f == ts[0] + [0] + g;
      assert f[|f| - |g|..] == g;
      assert f[|f| - |Flat(ts[k..])|..] == g[|g| - |Flat(ts[k..])|..];
    } else {
      assert ts[0..] == ts;
    }
  }

  /** Where string k ends up: everything from it on is behind it. */
  function PlaceOf(args: seq<seq<byte>>, top: nat, k: nat): int
    requires k <= |args|
  {
    top - |Flat(args[k..])|
  }

  /** The strings from j on are in place below the top, and ptrs has their addresses. */
  predicate Placed(stack: seq<byte>, base: nat, args: seq<seq<byte>>, ptrs: seq<nat>, j: nat, sp: nat) {
    && j <= |args| == |ptrs| && sp == PlaceOf(args, |stack|, j) && stack[sp..] == Flat(args[j..])
    && forall k :: j <= k < |args| ==> ptrs[k] == base + PlaceOf(args, |stack|, k)
  }

  lemma PlacedNext(was: seq<byte>, stack: seq<byte>, base: nat, args: seq<seq<byte>>, ptrs: seq<nat>, j: nat, sp: nat, now: nat)
    requires j > 0 && Placed(was, base, args, ptrs, j, sp) && |stack| == |was|
    requires now == sp - (|args[j - 1]| + 1) && now >= 0 && stack[now..sp] == args[j - 1] + [0] && stack[sp..] == was[sp..]
    ensures Placed(stack, base, args, ptrs[j - 1 := base + now], j - 1, now)
  {
    var rest := args[j - 1..];
    assert rest == [args[j - 1]] + args[j..];
    FlatCons(args[j - 1], args[j..]);
    assert stack[now..] == stack[now..sp] + stack[sp..];
  }

  lemma RoomForNext(args: seq<seq<byte>>, top: nat, j: nat)
    requires 0 < j <= |args| && |Flat(args)| <= top
    ensures |args[j - 1]| + 1 <= PlaceOf(args, top, j)
  {
    FlatFrom(args, j - 1);
    assert args[j - 1..] == [args[j - 1]] + args[j..];
    FlatCons(args[j - 1], args[j..]);
  }

  method CopyStrings(buf: array<byte>, argv: seq<nat>, stack: array<byte>, base: nat, ghost args: seq<seq<byte>>)
    returns (sp: nat, ptrs: seq<nat>)
    requires |argv| == |args| && buf != stack && |Flat(args)| <= stack.Length
    requires forall k :: 0 <= k < |args| ==> Holds(buf[..], argv[k], args[k])
    modifies stack
    ensures Placed(stack[..], base, args, ptrs, 0, sp)
  {
    sp := stack.Length;
    ptrs := seq(|argv|, _ => 0);
    var j: nat := |argv|;
    assert args[j..] == [];
    while j > 0
      invariant j <= |argv| && buf[..] == old(buf[..]) && Placed(stack[..], base, args, ptrs, j, sp)
    {
      ghost var was := stack[..];
      RoomForNext(args, stack.Length, j);
      var now := PlaceString(buf, argv[j - 1], stack, sp, args[j - 1]);
      PlacedNext(was, stack[..], base, args, ptrs, j, sp, now);
      ptrs := ptrs[j - 1 := base + now];
      j := j - 1;
      sp := now;
    }
  }

  lemma StringAt(stack: seq<byte>, base: nat, args: seq<seq<byte>>, ptrs: seq<nat>, sp: nat, k: nat)
    requires Placed(stack, base, args, ptrs, 0, sp) && k < |args| && sp >= 0
    requires forall i :: 0 <= i < |args| ==> NoNul(args[i])
    ensures base + sp <= ptrs[k] && Points(stack, base, ptrs[k], args[k])
  {
    assert args[0..] == args;
    FlatFrom(args, k);
    var off := PlaceOf(args, |stack|, k);
    assert stack[off..] == stack[sp..][off - sp..] == Flat(args[k..]);
    assert args[k..] == [args[k]] + args[k + 1..];
    FlatCons(args[k], args[k + 1..]);
    assert stack[off..off + |args[k]|] == stack[off..][..|args[k]|] == args[k];
    assert stack[off..][|args[k]|] == 0;
    CStrIs(stack, off, args[k]);
  }

  // ---- the words below ----

  method Store32(stack: array<byte>, off: nat, w: u32)
    requires off + 4 <= stack.Length
    modifies stack
    ensures stack[..] == Put32(old(stack[..]), off, w)
  {
    stack[off] := w % 0x100;
    stack[off + 1] := (w / 0x100) % 0x100;
    stack[off + 2] := (w / 0x1_0000) % 0x100;
    stack[off + 3] := w / 0x100_0000;
  }

  /** The words the program finds at sp. */
  function FrameWords(base: nat, sp: nat, ptrs: seq<nat>): (ws: seq<nat>)
    ensures |ws| == |ptrs| + 4
  {
    [RETURN_ADDRESS as nat, |ptrs|, base + sp + 12] + ptrs + [0]
  }

  /** Words from i on are in place, at sp and up; nothing at or above `above` has changed. */
  predicate WordsFrom(stack: seq<byte>, was: seq<byte>, sp: nat, ws: seq<nat>, i: nat, above: nat) {
    && i <= |ws| && |stack| == |was| && sp + 4 * |ws| <= above <= |stack|
    && stack[above..] == was[above..]
    && forall k :: i <= k < |ws| ==> WordIs(stack, sp + 4 * k, ws[k])
  }

  predicate WordIs(mem: seq<byte>, off: nat, w: nat) {
    off + 4 <= |mem| && Get32(mem, off) == w
  }

  lemma StoreWord(stack: seq<byte>, was: seq<byte>, sp: nat, ws: seq<nat>, i: nat, above: nat)
    requires i > 0 && WordsFrom(stack, was, sp, ws, i, above) && ws[i - 1] < 0x1_0000_0000
    ensures WordsFrom(Put32(stack, sp + 4 * (i - 1), ws[i - 1]), was, sp, ws, i - 1, above)
  {
    var off := sp + 4 * (i - 1);
    var now := Put32(stack, off, ws[i - 1]);
    GetPut32(stack, off, ws[i - 1], off);
    forall k | i - 1 <= k < |ws|
      ensures WordIs(now, sp + 4 * k, ws[k])
    {
      if k >= i {
        assert WordIs(stack, sp + 4 * k, ws[k]);
        GetPut32(stack, off, ws[i - 1], sp + 4 * k);
      }
    }
    assert now[above..] == stack[above..];
  }

  /** A word pushed: the i-th of ws from the top end. */
  method Push(stack: array<byte>, top: nat, w: u32, ghost was: seq<byte>, ghost sp: nat, ghost ws: seq<nat>, ghost i: nat, ghost above: nat)
    returns (now: nat)
    requires i > 0 && WordsFrom(stack[..], was, sp, ws, i, above) && top == sp + 4 * i && ws[i - 1] == w
    modifies stack
    ensures now == sp + 4 * (i - 1) && WordsFrom(stack[..], was, sp, ws, i - 1, above)
  {
    now := top - 4;
    StoreWord(stack[..], was, sp, ws, i, above);
    Store32(stack, now, w);
  }

  /** NULL, the pointers, argv, argc and the return address, pushed in that order. */
  method PushWords(stack: array<byte>, base: nat, top: nat, ptrs: seq<nat>) returns (sp: nat)
    requires 4 * (|ptrs| + 4) <= top <= stack.Length && base + stack.Length < 0x1_0000_0000
    requires |ptrs| < 0x1_0000_0000 && forall k :: 0 <= k < |ptrs| ==> ptrs[k] < 0x1_0000_0000
    modifies stack
    ensures sp == top - 4 * (|ptrs| + 4)
    ensures WordsFrom(stack[..], old(stack[..]), sp, FrameWords(base, sp, ptrs), 0, top)
  {
    ghost var was, goal := stack[..], top - 4 * (|ptrs| + 4);
    ghost var ws := FrameWords(base, goal, ptrs);
    sp := Push(stack, top, 0, was, goal, ws, |ws|, top);
    var j: nat := |ptrs|;
    while j > 0
      invariant j <= |ptrs| && sp == goal + 4 * (j + 3) && WordsFrom(stack[..], was, goal, ws, j + 3, top)
    {
      j := j - 1;
      sp := Push(stack, sp, ptrs[j], was, goal, ws, j + 4, top);
    }
    var argvAddr := base + sp;
    sp := Push(stack, sp, argvAddr, was, goal, ws, 3, top);
    sp := Push(stack, sp, |ptrs|, was, goal, ws, 2, top);
    sp := Push(stack, sp, RETURN_ADDRESS, was, goal, ws, 1, top);
  }

  lemma WordsRead(stack: seq<byte>, was: seq<byte>, base: nat, off: nat, sp: nat, ptrs: seq<nat>, above: nat, args: seq<seq<byte>>)
    requires sp == base + off && WordsFrom(stack, was, off, FrameWords(base, off, ptrs), 0, above) && |ptrs| == |args|
    requires forall j :: 0 <= j < |args| ==> Points(stack, base, ptrs[j], args[j]) && ptrs[j] >= base + above
    requires InRow(ptrs, args)
    ensures ReadsBack(stack, base, sp, args)
  {
    var ws := FrameWords(base, off, ptrs);
    assert WordIs(stack, off + 4 * 0, ws[0]) && WordIs(stack, off + 4 * 1, ws[1]) && WordIs(stack, off + 4 * 2, ws[2]);
    WordAt(stack, was, base, off, sp, ptrs, above, |args|);
    forall j | 0 <= j < |args|
      ensures ArgPtr(stack, base, sp, j) == ptrs[j]
    {
      WordAt(stack, was, base, off, sp, ptrs, above, j);
    }
  }

  /** Each string ends before the next one starts. */
  predicate InRow(ptrs: seq<nat>, args: seq<seq<byte>>) {
    |ptrs| == |args| && forall j, k :: 0 <= j < k < |args| ==> ptrs[j] + |args[j]| < ptrs[k]
  }

  lemma WordAt(stack: seq<byte>, was: seq<byte>, base: nat, off: nat, sp: nat, ptrs: seq<nat>, above: nat, j: nat)
    requires sp == base + off && WordsFrom(stack, was, off, FrameWords(base, off, ptrs), 0, above) && j <= |ptrs|
    ensures ArgPtr(stack, base, sp, j) == if j < |ptrs| then ptrs[j] else 0
  {
    var ws := FrameWords(base, off, ptrs);
    assert WordIs(stack, off + 4 * (j + 3), ws[j + 3]);
  }

  lemma PointsKept(was: seq<byte>, now: seq<byte>, base: nat, p: nat, t: seq<byte>, above: nat)
    requires Points(was, base, p, t) && |now| == |was| && above <= |was| && now[above..] == was[above..] && base + above <= p
    requires NoNul(t)
    ensures Points(now, base, p, t)
  {
    var off := p - base;
    CStrText(was, off);
    assert now[above..|now|] == now[above..] && was[above..|was|] == was[above..];
    SubSlice(now, above, |now|, off - above, off - above + |t|);
    SubSlice(was, above, |was|, off - above, off - above + |t|);
    assert now[off + |t|] == now[above..][off - above + |t|] == was[above..][off - above + |t|];
    CStrIs(now, off, t);
  }

  lemma {:induction false} CStrText(mem: seq<byte>, off: nat)
    requires off <= |mem|
    ensures off + |CStr(mem, off)| <= |mem| && mem[off..off + |CStr(mem, off)|] == CStr(mem, off)
    decreases |mem| - off
  {
    if off < |mem| && mem[off] != 0 {
      CStrText(mem, off + 1);
      var t := CStr(mem, off + 1);
      assert mem[off..off + 1 + |t|] == [mem[off]] + mem[off + 1..off + 1 + |t|];
    }
  }

  lemma CutHolds(buf: seq<byte>, s: seq<byte>, ts: seq<Span>, argv: seq<nat>, p: nat)
    requires CutSoFar(buf, s, argv, ts, p) && InLine(s, ts) && NoNul(s)
    ensures forall k :: 0 <= k < |ts| ==> Holds(buf, argv[k], Texts(s, ts)[k]) && NoNul(Texts(s, ts)[k])
  {
  }

  /** The stack `noan_execute` prepares: below the strings, on a word boundary, the words. */
  method BuildStack(cmd: seq<byte>, stack: array<byte>, base: nat) returns (sp: nat)
    requires NoNul(cmd) && stack.Length == STACK_SIZE && base % 4 == 0 && base + STACK_SIZE < 0x1_0000_0000
    modifies stack
    ensures base <= sp < base + STACK_SIZE && sp % 4 == 0
    ensures ReadsBack(stack[..], base, sp, Arguments(cmd))
  {
    var off := BuildArgs(cmd, stack, base, MAX_ARGS);
    sp := base + off;
    BothAligned(base, off);
  }

  lemma BothAligned(base: nat, off: nat)
    requires base % 4 == 0 && off % 4 == 0
    ensures (base + off) % 4 == 0
  {
  }

  method BuildArgs(cmd: seq<byte>, stack: array<byte>, base: nat, maxArgs: nat) returns (off: nat)
    requires NoNul(cmd) && stack.Length == STACK_SIZE && base + STACK_SIZE < 0x1_0000_0000 && maxArgs <= MAX_ARGS
    modifies stack
    ensures off < STACK_SIZE && off % 4 == 0 && ReadsBack(stack[..], base, base + off, TokenTexts(Line(cmd), maxArgs))
  {
    ghost var s := Line(cmd);
    var buf, len := CopyLine(cmd);
    var argv := Tokenise(buf, len, maxArgs);
    SpansInLine(s, 0, maxArgs);
    FlatFits(s, 0, maxArgs);
    CutHolds(buf[..], s, Spans(s, 0, maxArgs), argv, len);
    off := LayOut(buf, argv, stack, base, TokenTexts(s, maxArgs));
  }

  method LayOut(buf: array<byte>, argv: seq<nat>, stack: array<byte>, base: nat, ghost args: seq<seq<byte>>) returns (off: nat)
    requires stack.Length == STACK_SIZE && buf != stack && base + STACK_SIZE < 0x1_0000_0000
    requires |argv| == |args| <= MAX_ARGS && |Flat(args)| <= LINE_CAP + 1
    requires forall k :: 0 <= k < |args| ==> Holds(buf[..], argv[k], args[k]) && NoNul(args[k])
    modifies stack
    ensures off < STACK_SIZE && off % 4 == 0 && ReadsBack(stack[..], base, base + off, args)
  {
    var top, ptrs := CopyStrings(buf, argv, stack, base, args);
    assert args[0..] == args;
    off := PushBelow(stack, base, top, ptrs, args);
  }

  /** A string ends before the next one starts. */
  lemma StringsApart(stack: seq<byte>, base: nat, args: seq<seq<byte>>, ptrs: seq<nat>, sp: nat, j: nat, k: nat)
    requires Placed(stack, base, args, ptrs, 0, sp) && j < k < |args|
    ensures ptrs[j] + |args[j]| < ptrs[k]
  {
    assert args[j..] == [args[j]] + args[j + 1..];
    FlatCons(args[j], args[j + 1..]);
    FlatFrom(args[j + 1..], k - j - 1);
    assert args[j + 1..][k - j - 1..] == args[k..];
  }

  /** What the strings' addresses are good for. */
  lemma AllPlaced(stack: seq<byte>, base: nat, args: seq<seq<byte>>, ptrs: seq<nat>, top: nat)
    requires Placed(stack, base, args, ptrs, 0, top) && base + |stack| < 0x1_0000_0000
    requires forall k :: 0 <= k < |args| ==> NoNul(args[k])
    ensures InRow(ptrs, args) && top <= |stack|
    ensures forall k :: 0 <= k < |args| ==> base + top <= ptrs[k] < 0x1_0000_0000 && Points(stack, base, ptrs[k], args[k])
  {
    forall k | 0 <= k < |args|
      ensures base + top <= ptrs[k] < 0x1_0000_0000 && Points(stack, base, ptrs[k], args[k])
    {
      StringAt(stack, base, args, ptrs, top, k);
    }
    forall j, k | 0 <= j < k < |args|
      ensures ptrs[j] + |args[j]| < ptrs[k]
    {
      StringsApart(stack, base, args, ptrs, top, j, k);
    }
  }

  method PushBelow(stack: array<byte>, base: nat, top: nat, ptrs: seq<nat>, ghost args: seq<seq<byte>>) returns (off: nat)
    requires stack.Length == STACK_SIZE && base + STACK_SIZE < 0x1_0000_0000
    requires Placed(stack[..], base, args, ptrs, 0, top) && |args| <= MAX_ARGS && top >= STACK_SIZE - LINE_CAP - 1
    requires forall k :: 0 <= k < |args| ==> NoNul(args[k])
    modifies stack
    ensures off < STACK_SIZE && off % 4 == 0 && ReadsBack(stack[..], base, base + off, args)
  {
    ghost var was := stack[..];
    AllPlaced(was, base, args, ptrs, top);
    var aligned := top / 4 * 4;
    off := PushWords(stack, base, aligned, ptrs);
    Aligned(top, |ptrs|);
    PushedReads(was, stack[..], base, top, aligned, off, ptrs, args);
  }

  lemma Aligned(top: nat, n: nat)
    requires top / 4 * 4 >= 4 * (n + 4)
    ensures (top / 4 * 4 - 4 * (n + 4)) % 4 == 0 && top / 4 * 4 <= top
  {
    assert top / 4 * 4 - 4 * (n + 4) == 4 * (top / 4 - n - 4);
  }

  lemma PushedReads(was: seq<byte>, now: seq<byte>, base: nat, top: nat, aligned: nat, off: nat, ptrs: seq<nat>, args: seq<seq<byte>>)
    requires InRow(ptrs, args) && aligned <= top
    requires forall k :: 0 <= k < |args| ==> NoNul(args[k]) && base + top <= ptrs[k] && Points(was, base, ptrs[k], args[k])
    requires WordsFrom(now, was, off, FrameWords(base, off, ptrs), 0, aligned)
    ensures ReadsBack(now, base, base + off, args)
  {
    forall k | 0 <= k < |args|
      ensures Points(now, base, ptrs[k], args[k])
    {
      PointsKept(was, now, base, ptrs[k], args[k], aligned);
    }
    WordsRead(now, was, base, off, base + off, ptrs, aligned, args);
  }
}
