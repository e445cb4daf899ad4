/** kernel/src/auto_security.rs: tumbling-window rate detectors for forks and outbound
    connections, the per-process sandbox flag, the event log and the event counter. */
module AutoSecurity {
  import opened Bits

  const FORK_RATE_LIMIT: nat := 50
  const PORT_SCAN_LIMIT: nat := 200
  const WINDOW_MS: nat := 1000
  const MEM_BOMB_PCT: nat := 60
  const SCAN_INTERVAL_MS: nat := 5_000

  type Pid = nat

  datatype Kind = Fork | Connect
  {
    function Limit(): nat { if Fork? then FORK_RATE_LIMIT else PORT_SCAN_LIMIT }
  }

  /** `fork_count_last_sec` and `last_fork_tick`, or the two connection fields. */
  datatype Window = Window(count: nat, anchor: nat)

  datatype ProcStats = ProcStats(fork: Window, conn: Window, sandboxed: bool)
  {
    function Win(k: Kind): Window { if k.Fork? then fork else conn }

    function WithWin(k: Kind, w: Window): ProcStats {
      if k.Fork? then this.(fork := w) else this.(conn := w)
    }
  }

  const NEW: ProcStats := ProcStats(Window(0, 0), Window(0, 0), false)

  datatype Reason = ForkBomb | PortScan | MemBomb | Reported
  {
    /** Whether an event of this kind also sandboxes the process. */
    predicate Convicts() { !Reported? }
  }

  datatype Threat = Threat(pid: Pid, reason: Reason, timestamp: nat)

  datatype Sec = Sec(stats: map<Pid, ProcStats>, log: seq<Threat>, events: nat)
  {
    /** `entry(pid).or_default()` */
    function Of(p: Pid): ProcStats { if p in stats then stats[p] else NEW }
  }

  /** What reaches the detector: a fork or connection hook, the memory scan convicting, or one of
      the hooks that only report (privilege escalation, seccomp lock, stack overflow, confinement). */
  datatype Op = Hook(kind: Kind, pid: Pid, now: nat) | Memory(pid: Pid, now: nat) | Report(pid: Pid, now: nat)

  // ----- One window ------------------------------------------------------------------

  function Inc32(n: nat): nat { if n + 1 == U32 then 0 else n + 1 }

  /** `now - anchor > 1000`; the difference wraps when the clock is behind the anchor. */
  predicate Expired(w: Window, now: nat) {
    now - w.anchor > WINDOW_MS || (now < w.anchor && now + U64 - w.anchor > WINDOW_MS)
  }

  /** One hook call: a new window when the old one is over, then count it. */
  function Bump(w: Window, now: nat): Window {
    if Expired(w, now) then Window(1, now) else Window(Inc32(w.count), w.anchor)
  }

  function ReasonOf(k: Kind): Reason { if k.Fork? then ForkBomb else PortScan }

  function Convict(s: Sec, p: Pid, ps: ProcStats, reason: Reason, now: nat): Sec {
    Sec(s.stats[p := ps.(sandboxed := true)], s.log + [Threat(p, reason, now)], Inc64(s.events))
  }

  function Step(s: Sec, op: Op): Sec {
    match op
    case Hook(k, p, now) =>
      var ps := s.Of(p).WithWin(k, Bump(s.Of(p).Win(k), now));
      if ps.Win(k).count > k.Limit() && !ps.sandboxed then Convict(s, p, ps, ReasonOf(k), now)
      else s.(stats := s.stats[p := ps])
    case Memory(p, now) =>
      if s.Of(p).sandboxed then s else Convict(s, p, s.Of(p), MemBomb, now)
    case Report(p, now) => Sec(s.stats, s.log + [Threat(p, Reported, now)], Inc64(s.events))
  }

  /** `(used * 100 / total) as u8 > 60` */
  predicate Hogs(used: nat, total: nat) { total > 0 && used * 100 % U64 / total % 256 > MEM_BOMB_PCT }

  /** The memory scan of the first `n` processes. */
  ghost function Scanned(s: Sec, procs: seq<(Pid, nat)>, total: nat, now: nat, n: nat): Sec
    requires n <= |procs|
  {
    if n == 0 then s else
      var prev := Scanned(s, procs, total, now, n - 1);
      if Hogs(procs[n - 1].1, total) then Step(prev, Memory(procs[n - 1].0, now)) else prev
  }

  /** A process is promised to be convicted above 60 percent of memory.  The cast to a byte keeps the
      promise exactly while the percentage modulo 256 is above 60 too. */
  lemma {:induction false} HogsIff(used: nat, total: nat)
    requires total > 0 && used * 100 < U64
    ensures (Hogs(used, total) <==> used * 100 / total > MEM_BOMB_PCT)
      <==> used * 100 / total <= MEM_BOMB_PCT || used * 100 / total % 256 > MEM_BOMB_PCT
  {
    assert used * 100 % U64 == used * 100;
    ByteOf(used * 100 / total);
  }

  lemma {:induction false} ByteOf(pct: nat)
    ensures pct % 256 <= pct
  {}

  /** Three times the memory counts as 44 percent. */
  lemma {:induction false} ThreeTimesTheMemory()
    ensures 3 * 4096 * 100 / 4096 == 300 && !Hogs(3 * 4096, 4096)
  {}

  ghost function Run(ops: seq<Op>): Sec {
    if ops == [] then Sec(map[], [], 0) else Step(Run(ops[..|ops| - 1]), ops[|ops| - 1])
  }

  // ----- The code ----------------------------------------------------------------------

  class Monitor {
    var enabled: bool
    var procStats: map<Pid, ProcStats>
    var log: seq<Threat>
    var events: nat
    var nextScan: nat

    ghost function State(): Sec
      reads this
    {
      Sec(procStats, log, events)
    }

    constructor ()
      ensures !enabled && State() == Run([])
    {
      enabled, procStats, log, events, nextScan := false, map[], [], 0, 0;
    }

    method Init(now: nat)
      modifies `enabled, `nextScan
      ensures enabled && nextScan == now + SCAN_INTERVAL_MS
    {
      nextScan := now + SCAN_INTERVAL_MS;
      enabled := true;
    }

    /** `on_fork` */
    method OnFork(pid: Pid, now: nat)
      modifies `procStats, `log, `events
      ensures State() == if enabled then Step(old(State()), Hook(Fork, pid, now)) else old(State())
    {
      if !enabled { return; }
      var ps := if pid in procStats then procStats[pid] else NEW;
      if Expired(ps.fork, now) {
        ps := ps.(fork := Window(0, now));
      }
      ps := ps.(fork := Window(Inc32(ps.fork.count), ps.fork.anchor));
      if ps.fork.count > FORK_RATE_LIMIT && !ps.sandboxed {
        ps := ps.(sandboxed := true);
        log := log + [Threat(pid, ForkBomb, now)];
        events := Inc64(events);
      }
      procStats := procStats[pid := ps];
    }

    /** `on_connect` */
    method OnConnect(pid: Pid, now: nat)
      modifies `procStats, `log, `events
      ensures State() == if enabled then Step(old(State()), Hook(Connect, pid, now)) else old(State())
    {
      if !enabled { return; }
      var ps := if pid in procStats then procStats[pid] else NEW;
      if Expired(ps.conn, now) {
        ps := ps.(conn := Window(0, now));
      }
      ps := ps.(conn := Window(Inc32(ps.conn.count), ps.conn.anchor));
      if ps.conn.count > PORT_SCAN_LIMIT && !ps.sandboxed {
        ps := ps.(sandboxed := true);
        log := log + [Threat(pid, PortScan, now)];
        events := Inc64(events);
      }
      procStats := procStats[pid := ps];
    }

    /** `tick`: at most one scan in five seconds, over the processes with their memory use in bytes. */
    method Tick(procs: seq<(Pid, nat)>, total: nat, now: nat)
      modifies `procStats, `log, `events, `nextScan
      ensures var due := enabled && now >= old(nextScan);
        && nextScan == (if due then now + SCAN_INTERVAL_MS else old(nextScan))
        && State() == if due then Scanned(old(State()), procs, total, now, |procs|) else old(State())
    {
      if !enabled || now < nextScan { return; }
      nextScan := now + SCAN_INTERVAL_MS;
      Scan(procs, total, now);
    }

    method Scan(procs: seq<(Pid, nat)>, total: nat, now: nat)
      modifies `procStats, `log, `events
      ensures State() == Scanned(old(State()), procs, total, now, |procs|)
    {
      ghost var was := State();
      for i := 0 to |procs|
        invariant State() == Scanned(was, procs, total, now, i)
      {
        if Hogs(procs[i].1, total) { OnMemoryBomb(procs[i].0, now); }
      }
    }

    /** The conviction branch of the memory scan. */
    method OnMemoryBomb(pid: Pid, now: nat)
      modifies `procStats, `log, `events
      ensures State() == Step(old(State()), Memory(pid, now))
    {
      var ps := if pid in procStats then procStats[pid] else NEW;
      if !ps.sandboxed {
        procStats := procStats[pid := ps.(sandboxed := true)];
        log := log + [Threat(pid, MemBomb, now)];
        events := Inc64(events);
      }
    }

    /** The hooks that log an event and leave the statistics alone. */
    method OnReport(pid: Pid, now: nat)
      modifies `log, `events
      ensures State() == if enabled then Step(old(State()), Report(pid, now)) else old(State())
    {
      if !enabled { return; }
      log := log + [Threat(pid, Reported, now)];
      events := Inc64(events);
    }
  }

  // ----- The windows of one process ------------------------------------------------------

  /** When process `p` made calls of kind `k`. */
  ghost function Times(ops: seq<Op>, k: Kind, p: Pid): seq<nat> {
    if ops == [] then [] else
      var rest, op := Times(ops[..|ops| - 1], k, p), ops[|ops| - 1];
      if op.Hook? && op.kind == k && op.pid == p then rest + [op.now] else rest
  }

  /** The window after those calls. */
  ghost function WinAfter(ts: seq<nat>): Window {
    if ts == [] then Window(0, 0) else Bump(WinAfter(ts[..|ts| - 1]), ts[|ts| - 1])
  }

  /** Whether some call pushed the count over the limit. */
  ghost predicate Fired(ts: seq<nat>, limit: nat) {
    exists n :: 0 <= n <= |ts| && WinAfter(ts[..n]).count > limit
  }

  ghost predicate Monotone(ts: seq<nat>) { forall i, j :: 0 <= i <= j < |ts| ==> ts[i] <= ts[j] }

  /** Each process's window depends on its own calls only. */
  lemma {:induction false} WindowOf(ops: seq<Op>, k: Kind, p: Pid)
    ensures Run(ops).Of(p).Win(k) == WinAfter(Times(ops, k, p))
  {
    if ops != [] {
      var n := |ops| - 1;
      WindowOf(ops[..n], k, p);
      var rest := Times(ops[..n], k, p);
      assert (rest + [ops[n].now])[..|rest|] == rest;
    }
  }

  /** The window after call `j`. */
  ghost function At(ts: seq<nat>, j: nat): Window
    requires j < |ts|
  {
    WinAfter(ts[..j + 1])
  }

  /** Call `j` starts a new window. */
  ghost predicate Starts(ts: seq<nat>, j: nat)
    requires 0 < j < |ts|
  {
    Expired(At(ts, j - 1), ts[j])
  }

  lemma {:induction false} AtStep(ts: seq<nat>, j: nat)
    requires 0 < j < |ts|
    ensures At(ts, j) == Bump(At(ts, j - 1), ts[j])
  {
    assert ts[..j + 1][..j] == ts[..j];
  }

  lemma {:induction false} AtFirst(ts: seq<nat>)
    requires |ts| > 0
    ensures At(ts, 0).count == 1 && At(ts, 0).anchor <= ts[0] <= At(ts, 0).anchor + WINDOW_MS
  {
    assert ts[..1][..0] == [];
    assert WinAfter([]) == Window(0, 0);
  }

  /** While no window starts, the anchor stays and the count grows by one per call, as long as
      the limit has not been passed. */
  lemma {:induction false} SameWindow(ts: seq<nat>, limit: nat, i: nat, j: nat)
    requires i <= j < |ts| && limit < U32 - 1 && !Fired(ts, limit)
    requires forall b :: i < b <= j ==> !Starts(ts, b)
    ensures At(ts, j) == Window(At(ts, i).count + (j - i), At(ts, i).anchor)
    decreases j
  {
    if i < j {
      SameWindow(ts, limit, i, j - 1);
      AtStep(ts, j);
      assert !Starts(ts, j);
      assert At(ts, j - 1).count <= limit by { assert !(WinAfter(ts[..j - 1 + 1]).count > limit); }
    }
  }

  lemma {:induction false} CountPositive(ts: seq<nat>, limit: nat, j: nat)
    requires j < |ts| && limit < U32 - 1 && !Fired(ts, limit)
    ensures 1 <= At(ts, j).count <= limit
  {
    assert WinAfter(ts[..j + 1]).count <= limit;
    if j == 0 {
      AtFirst(ts);
    } else {
      AtStep(ts, j);
      assert WinAfter(ts[..j - 1 + 1]).count <= limit;
    }
  }

  /** Without firing, a new window starts at most `limit` calls later. */
  lemma {:induction false} NextStart(ts: seq<nat>, limit: nat, i: nat) returns (b: nat)
    requires i + limit < |ts| && limit < U32 - 1 && !Fired(ts, limit)
    ensures i < b <= i + limit && Starts(ts, b) && forall c :: i < c < b ==> !Starts(ts, c)
  {
    b := i + 1;
    CountPositive(ts, limit, i);
    while b <= i + limit && !Starts(ts, b)
      invariant i < b <= i + limit + 1
      invariant forall c :: i < c < b ==> !Starts(ts, c)
    {
      b := b + 1;
    }
    if b == i + limit + 1 {
      SameWindow(ts, limit, i, i + limit);
      assert false;
    }
  }

  /** If the detector has not fired, any 2 * limit + 1 consecutive calls took over 1000 ms. */
  lemma {:induction false} SlowUnlessFired(ts: seq<nat>, limit: nat, i: nat)
    requires Monotone(ts) && limit < U32 - 1 && i + 2 * limit < |ts| && !Fired(ts, limit)
    ensures ts[i + 2 * limit] - ts[i] > WINDOW_MS
  {
    var b := NextStart(ts, limit, i);
    var c := NextStart(ts, limit, b);
    AtStep(ts, b);
    SameWindow(ts, limit, b, c - 1);
    assert ts[c] - ts[b] > WINDOW_MS;
    assert ts[i] <= ts[b] && ts[c] <= ts[i + 2 * limit];
  }

  // ----- Whole runs ----------------------------------------------------------------------

  lemma {:induction false} FiredPrefix(ts: seq<nat>, n: nat, limit: nat)
    requires n <= |ts| && Fired(ts[..n], limit)
    ensures Fired(ts, limit)
  {
    var m :| 0 <= m <= n && WinAfter(ts[..n][..m]).count > limit;
    assert ts[..n][..m] == ts[..m];
  }

  /** The call that fires first is the one that pushes the window over. */
  lemma {:induction false} FiresNow(rest: seq<nat>, t: nat, limit: nat)
    requires !Fired(rest, limit) && Fired(rest + [t], limit)
    ensures WinAfter(rest + [t]).count > limit
  {
    var ts := rest + [t];
    assert forall m :: 0 <= m <= |rest| ==> ts[..m] == rest[..m];
    assert ts[..|ts|] == ts;
  }

  /** Once a window has gone over its limit the process is sandboxed, and stays so. */
  lemma {:induction false} FiredSandboxes(ops: seq<Op>, k: Kind, p: Pid)
    requires Fired(Times(ops, k, p), k.Limit())
    ensures Run(ops).Of(p).sandboxed
  {
    var n := |ops| - 1;
    var rest := Times(ops[..n], k, p);
    if Fired(rest, k.Limit()) {
      FiredSandboxes(ops[..n], k, p);
    } else {
      FiresNow(rest, ops[n].now, k.Limit());
      WindowOf(ops, k, p);
    }
  }

  /** Calls of one kind by one process never go back in time. */
  ghost predicate ClockMonotone(ops: seq<Op>) {
    forall i, j :: 0 <= i <= j < |ops| ==> ops[i].now <= ops[j].now
  }

  lemma {:induction false} TimesMonotone(ops: seq<Op>, k: Kind, p: Pid)
    requires ClockMonotone(ops)
    ensures Monotone(Times(ops, k, p))
    ensures forall i :: 0 <= i < |Times(ops, k, p)| ==> Times(ops, k, p)[i] <= ops[|ops| - 1].now
  {
    if ops != [] {
      TimesMonotone(ops[..|ops| - 1], k, p);
    }
  }

  /** Detection: on a monotone clock, 2 * limit + 1 calls of one process (101 forks, 401
      connections) within any closed interval of 1000 ms leave it sandboxed. */
  lemma {:induction false} Detection(ops: seq<Op>, k: Kind, p: Pid, i: nat)
    requires ClockMonotone(ops) && i + 2 * k.Limit() < |Times(ops, k, p)|
    requires Times(ops, k, p)[i + 2 * k.Limit()] - Times(ops, k, p)[i] <= WINDOW_MS
    ensures Run(ops).Of(p).sandboxed
  {
    var ts := Times(ops, k, p);
    TimesMonotone(ops, k, p);
    if Fired(ts, k.Limit()) {
      FiredSandboxes(ops, k, p);
    } else {
      SlowUnlessFired(ts, k.Limit(), i);
    }
  }

  /** The window invariant: after `n` calls with the limit never passed, the count is the
      number of the most recent calls that lie within 1000 ms of the anchor. */
  lemma {:induction false} CountedCalls(ts: seq<nat>, limit: nat)
    requires Monotone(ts) && limit < U32 - 1 && ts != [] && !Fired(ts[..|ts| - 1], limit)
    ensures var c := WinAfter(ts).count; 1 <= c <= |ts| && ts[|ts| - 1] - ts[|ts| - c] <= WINDOW_MS
    ensures WinAfter(ts).anchor <= ts[|ts| - WinAfter(ts).count] && ts[|ts| - 1] <= WinAfter(ts).anchor + WINDOW_MS
  {
    var n := |ts| - 1;
    var rest, w := ts[..n], WinAfter(ts[..n]);
    if n > 0 {
      assert rest[..n] == rest && w.count <= limit;
      if Fired(rest[..n - 1], limit) { FiredPrefix(rest, n - 1, limit); }
      CountedCalls(rest, limit);
    }
  }

  /** No false alarm: a fork-bomb (port-scan) event is only logged when the process made
      limit + 1 such calls (51 forks, 201 connections) within 1000 ms, the last one now. */
  lemma {:induction false} NoFalseAlarm(ops: seq<Op>, k: Kind, p: Pid, now: nat)
    requires ClockMonotone(ops + [Hook(k, p, now)])
    requires |Step(Run(ops), Hook(k, p, now)).log| > |Run(ops).log|
    ensures var ts := Times(ops, k, p) + [now];
      |ts| > k.Limit() && now - ts[|ts| - 1 - k.Limit()] <= WINDOW_MS
  {
    var ts := Times(ops, k, p) + [now];
    var all := ops + [Hook(k, p, now)];
    assert all[..|ops|] == ops;
    TimesMonotone(all, k, p);
    assert Times(all, k, p) == ts;
    WindowOf(ops, k, p);
    assert ts[..|ts| - 1] == Times(ops, k, p);
    if Fired(Times(ops, k, p), k.Limit()) {
      FiredSandboxes(ops, k, p);
    } else {
      CountedCalls(ts, k.Limit());
    }
  }

  /** Entry `i` of the log is a conviction of process `p`. */
  ghost predicate ConvictionAt(log: seq<Threat>, i: nat, p: Pid) {
    i < |log| && log[i].pid == p && log[i].reason.Convicts()
  }

  /** In every reachable state each sandboxed process has exactly one conviction in the log, nobody
      else has one, and the event counter is the length of the log. */
  lemma {:induction false} LogMatchesFlags(ops: seq<Op>)
    requires |ops| < U64
    ensures var s := Run(ops);
      && |s.log| <= |ops| && s.events == |s.log|
      && (forall i, j, p :: 0 <= i < j && ConvictionAt(s.log, i, p) ==> !ConvictionAt(s.log, j, p))
      && (forall p :: s.Of(p).sandboxed <==> exists i :: ConvictionAt(s.log, i, p))
  {
    if ops != [] {
      var n := |ops| - 1;
      LogMatchesFlags(ops[..n]);
      var s, s' := Run(ops[..n]), Run(ops);
      forall p
        ensures s'.Of(p).sandboxed <==> exists i :: ConvictionAt(s'.log, i, p)
      {
        assert s.Of(p).sandboxed <==> exists i :: ConvictionAt(s.log, i, p);
        assert forall i :: 0 <= i < |s.log| ==> (ConvictionAt(s'.log, i, p) <==> ConvictionAt(s.log, i, p));
        if |s'.log| > |s.log| {
          assert ConvictionAt(s'.log, |s.log|, p) <==> ops[n].pid == p && !ops[n].Report?;
        }
      }
      forall i, j, p | 0 <= i < j && ConvictionAt(s'.log, i, p)
        ensures !ConvictionAt(s'.log, j, p)
      {
        assert i < |s.log| ==> (ConvictionAt(s.log, i, p) <==> ConvictionAt(s'.log, i, p));
        assert j < |s.log| ==> (ConvictionAt(s.log, j, p) <==> ConvictionAt(s'.log, j, p));
      }
    }
  }

  /** The memory scan has convicted `p`. */
  ghost predicate Bombed(ops: seq<Op>, p: Pid) { exists i :: 0 <= i < |ops| && ops[i].Memory? && ops[i].pid == p }

  lemma {:induction false} FiredGrows(ops: seq<Op>, k: Kind, p: Pid)
    requires ops != []
    ensures Fired(Times(ops[..|ops| - 1], k, p), k.Limit()) ==> Fired(Times(ops, k, p), k.Limit())
  {
    var rest, ts := Times(ops[..|ops| - 1], k, p), Times(ops, k, p);
    assert ts[..|rest|] == rest;
    if Fired(rest, k.Limit()) { FiredPrefix(ts, |rest|, k.Limit()); }
  }

  lemma {:induction false} SandboxedWhy(ops: seq<Op>, p: Pid)
    requires Run(ops).Of(p).sandboxed
    ensures Fired(Times(ops, Fork, p), Fork.Limit()) || Fired(Times(ops, Connect, p), Connect.Limit()) || Bombed(ops, p)
  {
    if ops != [] {
      var n, op := |ops| - 1, ops[|ops| - 1];
      if Run(ops[..n]).Of(p).sandboxed {
        SandboxedWhy(ops[..n], p);
        FiredGrows(ops, Fork, p);
        FiredGrows(ops, Connect, p);
        assert forall i :: 0 <= i < n ==> ops[..n][i] == ops[i];
      } else if op.Hook? {
        WindowOf(ops, op.kind, p);
        var ts := Times(ops, op.kind, p);
        assert ts[..|ts|] == ts;
      }
    }
  }

  lemma {:induction false} BombedSandboxes(ops: seq<Op>, p: Pid)
    requires Bombed(ops, p)
    ensures Run(ops).Of(p).sandboxed
  {
    var n := |ops| - 1;
    if !(ops[n].Memory? && ops[n].pid == p) {
      var i :| 0 <= i < |ops| && ops[i].Memory? && ops[i].pid == p;
      assert ops[..n][i] == ops[i];
      BombedSandboxes(ops[..n], p);
    }
  }

  /** After any run a process is sandboxed exactly when one of its own windows once went over its
      limit or the memory scan convicted it. */
  lemma {:induction false} SandboxedIff(ops: seq<Op>, p: Pid)
    ensures Run(ops).Of(p).sandboxed <==>
      Fired(Times(ops, Fork, p), Fork.Limit()) || Fired(Times(ops, Connect, p), Connect.Limit()) || Bombed(ops, p)
  {
    if Run(ops).Of(p).sandboxed { SandboxedWhy(ops, p); }
    if Fired(Times(ops, Fork, p), Fork.Limit()) { FiredSandboxes(ops, Fork, p); }
    if Fired(Times(ops, Connect, p), Connect.Limit()) { FiredSandboxes(ops, Connect, p); }
    if Bombed(ops, p) { BombedSandboxes(ops, p); }
  }

  // ----- The detection bound is tight ------------------------------------------------------

  ghost function Repeat(t: nat, n: nat): (r: seq<nat>)
    ensures |r| == n && forall i :: 0 <= i < n ==> r[i] == t
  {
    seq(n, i => t)
  }

  /** `limit` calls at 1000 ms and `limit` more one millisecond later: 2 * limit calls within
      1 ms do not fire the detector. */
  lemma {:induction false} BoundIsTight(limit: nat)
    requires 1 <= limit < U32 - 1
    ensures !Fired(Repeat(WINDOW_MS, limit) + Repeat(WINDOW_MS + 1, limit), limit)
  {
    var ts := Repeat(WINDOW_MS, limit) + Repeat(WINDOW_MS + 1, limit);
    forall n | 0 <= n <= |ts|
      ensures WinAfter(ts[..n]).count <= limit
    {
      TightCount(ts, limit, n);
    }
  }

  lemma {:induction false} TightCount(ts: seq<nat>, limit: nat, n: nat)
    requires 1 <= limit < U32 - 1 && ts == Repeat(WINDOW_MS, limit) + Repeat(WINDOW_MS + 1, limit) && n <= |ts|
    ensures WinAfter(ts[..n]) == if n <= limit then Window(n, 0) else Window(n - limit, WINDOW_MS + 1)
  {
    if n != 0 {
      TightCount(ts, limit, n - 1);
      assert ts[..n][..n - 1] == ts[..n - 1];
    }
  }
}
