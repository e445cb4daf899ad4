/** kernel/src/auto_security.rs: what the memory scan of `tick` does. */
module SecurityLaws {
  import opened Bits
  import opened AutoSecurity

  /** A window is over exactly when the 64-bit difference of now and its start exceeds a second, also
      when the clock is behind; the counter is a 32-bit one. */
  lemma {:induction false} ExpiredIff(w: Window, now: nat)
    requires w.anchor < U64 && now < U64
    ensures Expired(w, now) <==> (now - w.anchor) % U64 > 1000
  {}

  lemma {:induction false} CountsModulo(n: nat)
    requires n < U32
    ensures Inc32(n) == (n + 1) % U32
  {}

  /** One of the first `n` processes of the list is `p` and fails the test: it uses more than 60
      percent, as far as a byte can tell. */
  ghost predicate Found(procs: seq<(Pid, nat)>, total: nat, n: nat, p: Pid)
    requires n <= |procs|
  {
    total > 0 && exists i :: 0 <= i < n && procs[i].0 == p && procs[i].1 * 100 % U64 / total % 256 > 60
  }

  lemma {:induction false} FoundNext(procs: seq<(Pid, nat)>, total: nat, n: nat, p: Pid)
    requires n < |procs|
    ensures Found(procs, total, n + 1, p) <==> Found(procs, total, n, p) || (procs[n].0 == p && Hogs(procs[n].1, total))
  {}

  /** A scan convicts exactly the processes it finds, and leaves every window alone. */
  lemma {:induction false} ScanConvicts(s: Sec, procs: seq<(Pid, nat)>, total: nat, now: nat, n: nat, p: Pid)
    requires n <= |procs|
    ensures var s' := Scanned(s, procs, total, now, n);
      && (s'.Of(p).sandboxed <==> s.Of(p).sandboxed || Found(procs, total, n, p))
      && s'.Of(p).fork == s.Of(p).fork && s'.Of(p).conn == s.Of(p).conn
  {
    if n > 0 {
      ScanConvicts(s, procs, total, now, n - 1, p);
      FoundNext(procs, total, n - 1, p);
    }
  }

  /** How many events of `p` the log holds from place `from` on. */
  ghost function EventsOf(log: seq<Threat>, from: nat, p: Pid): nat {
    if |log| <= from then 0
    else EventsOf(log[..|log| - 1], from, p) + if log[|log| - 1].pid == p then 1 else 0
  }

  lemma {:induction false} EventsAppend(log: seq<Threat>, e: Threat, from: nat, p: Pid)
    requires from <= |log|
    ensures EventsOf(log + [e], from, p) == EventsOf(log, from, p) + if e.pid == p then 1 else 0
  {
    assert (log + [e])[..|log|] == log;
  }

  lemma {:induction false} MemoryLogs(s: Sec, q: Pid, now: nat)
    ensures Step(s, Memory(q, now)).log == if s.Of(q).sandboxed then s.log else s.log + [Threat(q, MemBomb, now)]
    ensures forall p :: Step(s, Memory(q, now)).Of(p).sandboxed <==> s.Of(p).sandboxed || p == q
  {}

  ghost predicate OnlyMemory(log: seq<Threat>, from: nat, now: nat) {
    forall i :: from <= i < |log| ==> log[i] == Threat(log[i].pid, MemBomb, now)
  }

  lemma {:induction false} OneMoreConviction(s: Sec, s0: Sec, q: Pid, now: nat, p: Pid)
    requires s.log <= s0.log && OnlyMemory(s0.log, |s.log|, now) && (s.Of(p).sandboxed ==> s0.Of(p).sandboxed)
    requires EventsOf(s0.log, |s.log|, p) == if !s.Of(p).sandboxed && s0.Of(p).sandboxed then 1 else 0
    ensures var s' := Step(s0, Memory(q, now));
      && s.log <= s'.log && OnlyMemory(s'.log, |s.log|, now)
      && EventsOf(s'.log, |s.log|, p) == if !s.Of(p).sandboxed && s'.Of(p).sandboxed then 1 else 0
  {
    MemoryLogs(s0, q, now);
    EventsAppend(s0.log, Threat(q, MemBomb, now), |s.log|, p);
  }

  /** It logs one memory event for each process it convicts, and nothing else. */
  lemma {:induction false} ScanLogs(s: Sec, procs: seq<(Pid, nat)>, total: nat, now: nat, n: nat, p: Pid)
    requires n <= |procs|
    ensures var s' := Scanned(s, procs, total, now, n);
      && s.log <= s'.log && OnlyMemory(s'.log, |s.log|, now)
      && EventsOf(s'.log, |s.log|, p) == if !s.Of(p).sandboxed && s'.Of(p).sandboxed then 1 else 0
  {
    if n > 0 {
      ScanLogs(s, procs, total, now, n - 1, p);
      ScanConvicts(s, procs, total, now, n - 1, p);
      if Hogs(procs[n - 1].1, total) {
        OneMoreConviction(s, Scanned(s, procs, total, now, n - 1), procs[n - 1].0, now, p);
      }
    }
  }
}
