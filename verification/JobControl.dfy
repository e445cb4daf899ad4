/** kernel/src/job_control.rs: process groups as a pair of maps, and the priority bonus that
    follows the foreground group and the processes it habitually wakes. */
module JobControl {
  import opened Bits
  import opened Prelude
  import opened Ranking
  import opened Causal
  import opened Habits

  const FG_CAUSAL_BONUS: int := -8
  const FG_DIRECT_BONUS: int := -15
  const SIGCONT: nat := 18
  const SIGTSTP: nat := 20

  type u32 = x: nat | x < U32

  // ----- Process groups ---------------------------------------------------------------------

  datatype Groups = Groups(pidPgid: map<u32, u32>, members: map<u32, set<u32>>)
  {
    function Of(g: u32): set<u32> { if g in members then members[g] else {} }

    function GroupOf(p: u32): Option<u32> { if p in pidPgid then Some(pidPgid[p]) else None }

    /** The two maps are exact inverses. */
    ghost predicate Inverse() {
      forall p: u32, g: u32 :: p in Of(g) <==> GroupOf(p) == Some(g)
    }

    function Without(p: u32): Groups {
      match GroupOf(p)
      case None => this
      case Some(g) => Groups(pidPgid - {p}, if g in members then members[g := members[g] - {p}] else members)
    }

    function With(p: u32, g: u32): Groups {
      Groups(pidPgid[p := g], members[g := Of(g) + {p}])
    }
  }

  datatype Op = SetPgid(pid: u32, pgid: u32) | Cleanup(pid64: nat)
  {
    /** The process the call is about. */
    function Named(): u32 { if SetPgid? then pid else pid64 % U32 }
  }

  function Leader(pid: u32, pgid: u32): u32 { if pgid == 0 then pid else pgid }

  ghost function Step(s: Groups, op: Op): Groups {
    match op
    case SetPgid(p, g) => s.Without(p).With(p, Leader(p, g))
    case Cleanup(p) => s.Without(p % U32)
  }

  ghost function Run(ops: seq<Op>): Groups {
    if ops == [] then Groups(map[], map[]) else Step(Run(ops[..|ops| - 1]), ops[|ops| - 1])
  }

  /** The group of a process, from the calls alone: the last one that names it decides. */
  ghost function LastGroup(ops: seq<Op>, p: u32): Option<u32> {
    if ops == [] then None else
      match ops[|ops| - 1]
      case SetPgid(q, g) => if q == p then Some(Leader(q, g)) else LastGroup(ops[..|ops| - 1], p)
      case Cleanup(q) => if q % U32 == p then None else LastGroup(ops[..|ops| - 1], p)
  }

  lemma {:induction false} StepInverse(s: Groups, op: Op)
    requires s.Inverse()
    ensures Step(s, op).Inverse()
  {
    var q := op.Named();
    var w := s.Without(q);
    forall p: u32, g: u32
      ensures p in w.Of(g) <==> w.GroupOf(p) == Some(g)
    {
      assert p in s.Of(g) <==> s.GroupOf(p) == Some(g);
      assert q in s.Of(g) <==> s.GroupOf(q) == Some(g);
    }
    assert w.GroupOf(q) == None;
    if op.SetPgid? {
      var r := w.With(q, Leader(q, op.pgid));
      forall p: u32, g: u32
        ensures p in r.Of(g) <==> r.GroupOf(p) == Some(g)
      {
        assert p in w.Of(g) <==> w.GroupOf(p) == Some(g);
      }
    }
  }

  /** Over every run the two maps are inverses, and both are decided by the last call that
      names a process. */
  lemma {:induction false} RunInverse(ops: seq<Op>)
    ensures Run(ops).Inverse()
    ensures forall p :: Run(ops).GroupOf(p) == LastGroup(ops, p)
    ensures forall p: u32, g: u32 :: p in Run(ops).Of(g) <==> LastGroup(ops, p) == Some(g)
  {
    if ops != [] {
      RunInverse(ops[..|ops| - 1]);
      StepInverse(Run(ops[..|ops| - 1]), ops[|ops| - 1]);
    }
  }

  /** After `setpgid(p, 0)` a process is in its own group, after `setpgid(p, g)` in group g, and in
      no other; after its exit in none. */
  lemma {:induction false} GroupAfter(ops: seq<Op>, p: u32, g: u32, h: u32, pid64: nat)
    ensures p in Run(ops + [SetPgid(p, g)]).Of(h) <==> h == (if g != 0 then g else p)
    ensures p == pid64 % U32 ==> p !in Run(ops + [Cleanup(pid64)]).Of(h)
  {
    var joined, quit := ops + [SetPgid(p, g)], ops + [Cleanup(pid64)];
    RunInverse(joined);
    RunInverse(quit);
    assert p in Run(joined).Of(h) <==> LastGroup(joined, p) == Some(h);
    assert p in Run(quit).Of(h) <==> LastGroup(quit, p) == Some(h);
  }

  // ----- The foreground bonus -----------------------------------------------------------------

  /** The processes a group habitually wakes, as 32-bit process numbers. */
  ghost function CausalSet(members: set<u32>, log: seq<Edge>): set<u32> {
    set p, w | p in members && w in Successors(log, p) :: w % U32
  }

  lemma {:induction false} CausalSetMore(pids: seq<u32>, log: seq<Edge>, i: nat)
    requires i < |pids|
    ensures CausalSet(Elems(pids[..i + 1]), log) == CausalSet(Elems(pids[..i]), log) + CausalSet({pids[i]}, log)
  {
    assert Elems(pids[..i + 1]) == Elems(pids[..i]) + {pids[i]};
  }

  /** What being in the foreground, or waking something there, is worth. */
  ghost function Bonus(fg: u32, members: set<u32>, log: seq<Edge>, p: u32): int {
    if fg == 0 then 0
    else if p in members then FG_DIRECT_BONUS
    else if p in CausalSet(members, log) then FG_CAUSAL_BONUS
    else 0
  }

  /** The adjustment of a process after `tcsetpgrp(pgid)`: members at -15, the others they wake at
      -8, what only the old group covered at 0, everybody else as before. */
  ghost function After(s: Groups, log: seq<Edge>, old': u32, pgid: u32, p: u32, was: int): int {
    if pgid != 0 && p in s.Of(pgid) then FG_DIRECT_BONUS
    else if pgid != 0 && p in CausalSet(s.Of(pgid), log) then FG_CAUSAL_BONUS
    else if old' != 0 && old' != pgid && (p in s.Of(old') || p in CausalSet(s.Of(old'), log)) then 0
    else was
  }

  /** Every task has exactly the bonus its place earns. */
  ghost predicate Earned(nice: map<u32, int>, s: Groups, log: seq<Edge>, fg: u32) {
    forall p :: p in nice ==> nice[p] == Bonus(fg, s.Of(fg), log, p)
  }

  ghost predicate Moved(nice: map<u32, int>, next: map<u32, int>, s: Groups, log: seq<Edge>, fg: u32, pgid: u32) {
    && next.Keys == nice.Keys
    && forall p :: p in nice ==> next[p] == After(s, log, fg, pgid, p, nice[p])
  }

  /** Moving the foreground keeps it so, whatever group comes next. */
  lemma {:induction false} ForegroundKeeps(nice: map<u32, int>, next: map<u32, int>, s: Groups, log: seq<Edge>,
                                           fg: u32, pgid: u32)
    requires Earned(nice, s, log, fg) && Moved(nice, next, s, log, fg, pgid)
    ensures Earned(next, s, log, pgid)
  {
    forall p | p in next
      ensures next[p] == Bonus(pgid, s.Of(pgid), log, p)
    {
      assert next[p] == After(s, log, fg, pgid, p, nice[p]) && nice[p] == Bonus(fg, s.Of(fg), log, p);
    }
  }

  /** The group calls do not move bonuses.  While `p` is a live task they are right after such a
      call exactly when it did not move `p` into or out of the foreground group. */
  lemma {:induction false} RegroupKeepsIff(nice: map<u32, int>, s: Groups, op: Op, log: seq<Edge>, fg: u32, p: u32)
    requires s.Inverse() && Earned(nice, s, log, fg) && p in nice && p == op.Named()
    ensures Earned(nice, Step(s, op), log, fg) <==> fg == 0 || (p in s.Of(fg) <==> p in Step(s, op).Of(fg))
  {
    var s' := Step(s, op);
    StepInverse(s, op);
    if p in s.Of(fg) <==> p in s'.Of(fg) {
      assert s.Of(fg) == s'.Of(fg) by {
        forall q
          ensures q in s.Of(fg) <==> q in s'.Of(fg)
        {
          assert q in s.Of(fg) <==> s.GroupOf(q) == Some(fg);
          assert q in s'.Of(fg) <==> s'.GroupOf(q) == Some(fg);
        }
      }
    } else if fg != 0 {
      assert Bonus(fg, s.Of(fg), log, p) != Bonus(fg, s'.Of(fg), log, p);
    }
  }

  /** A process that leaves the foreground group keeps its -15. */
  lemma {:induction false} BonusLeaks(log: seq<Edge>)
    ensures var s, nice := Groups(map[5 := 7], map[7 := {5}]), map[5 := FG_DIRECT_BONUS];
      s.Inverse() && Earned(nice, s, log, 7) && !Earned(nice, Step(s, SetPgid(5, 9)), log, 7)
  {
    var s, nice := Groups(map[5 := 7], map[7 := {5}]), map[5 := FG_DIRECT_BONUS];
    assert Step(s, SetPgid(5, 9)).Of(7) == {};
    RegroupKeepsIff(nice, s, SetPgid(5, 9), log, 7, 5);
  }

  /** A process is covered by a foreground group that contains it or habitually wakes it. */
  ghost predicate Covered(s: Groups, log: seq<Edge>, g: u32, p: u32) {
    g != 0 && (p in s.Of(g) || p in CausalSet(s.Of(g), log))
  }

  /** One foreground move sets right exactly the processes that the old or the new group covers. */
  lemma {:induction false} MoveSetsCovered(nice: map<u32, int>, next: map<u32, int>, s: Groups, log: seq<Edge>,
                                           fg: u32, pgid: u32, p: u32)
    requires Moved(nice, next, s, log, fg, pgid) && p in nice
    ensures p in next && next[p] == if Covered(s, log, fg, p) || Covered(s, log, pgid, p)
      then Bonus(pgid, s.Of(pgid), log, p) else nice[p]
  {
    assert next[p] == After(s, log, fg, pgid, p, nice[p]);
  }

  /** So a leaked adjustment survives every later foreground move, with any regrouping and any
      wakeups in between, until the process is covered again. */
  lemma {:induction false} LeakSurvives(ss: seq<Groups>, logs: seq<seq<Edge>>, fgs: seq<u32>, ns: seq<map<u32, int>>,
                                        p: u32, n: nat)
    requires n <= |ss| == |logs| && |fgs| == |ns| == |ss| + 1 && p in ns[0]
    requires forall i :: 0 <= i < |ss| ==> Moved(ns[i], ns[i + 1], ss[i], logs[i], fgs[i], fgs[i + 1])
    requires forall i :: 0 <= i < |ss| ==> !Covered(ss[i], logs[i], fgs[i], p) && !Covered(ss[i], logs[i], fgs[i + 1], p)
    ensures p in ns[n] && ns[n][p] == ns[0][p]
  {
    if n > 0 {
      LeakSurvives(ss, logs, fgs, ns, p, n - 1);
      MoveSetsCovered(ns[n - 1], ns[n], ss[n - 1], logs[n - 1], fgs[n - 1], fgs[n], p);
    }
  }

  /** The numbers: -15 for members of the new group, -8 for others that a member woke at least twice
      lately, 0 for what only the old group contained. */
  lemma {:induction false} MoveNumbers(nice: map<u32, int>, next: map<u32, int>, s: Groups, log: seq<Edge>, fg: u32, pgid: u32, p: u32)
    requires Moved(nice, next, s, log, fg, pgid) && p in nice && pgid != 0 && fg != 0
    ensures p in next
    ensures p in s.Of(pgid) ==> next[p] == -15
    ensures p !in s.Of(pgid) && (exists q: u32, w: nat :: q in s.Of(pgid) && w in Successors(log, q) && w % U32 == p) ==> next[p] == -8
    ensures p in s.Of(fg) && !Covered(s, log, pgid, p) ==> next[p] == 0
  {
    MoveSetsCovered(nice, next, s, log, fg, pgid, p);
  }

  // ----- New wakeups ------------------------------------------------------------------------------

  /** No member of the group loses an edge from the window to the next wakeup. */
  ghost predicate NoneQuits(members: set<u32>, log: seq<Edge>) {
    forall p :: p in members ==> !Quits(log, p)
  }

  /** A wakeup by a process outside the foreground group keeps the bonuses right. */
  lemma {:induction false} StrangerWakeupKeeps(nice: map<u32, int>, s: Groups, log: seq<Edge>, e: Edge, fg: u32)
    requires Earned(nice, s, log, fg)
    requires (forall p :: p in s.Of(fg) ==> p != e.waker) && NoneQuits(s.Of(fg), log)
    ensures Earned(nice, s, log + [e], fg)
  {
    forall q | q in s.Of(fg)
      ensures Successors(log + [e], q) == Successors(log, q)
    {
      OthersKeep(log, e, q);
    }
    SameCausalSet(s.Of(fg), log, log + [e]);
  }

  lemma {:induction false} SameCausalSet(members: set<u32>, log: seq<Edge>, log': seq<Edge>)
    requires forall q :: q in members ==> Successors(log', q) == Successors(log, q)
    ensures CausalSet(members, log') == CausalSet(members, log)
  {}

  /** Member `q` habitually wakes `w`, but not as a process that `x` pushes out. */
  ghost predicate StillWakes(members: set<u32>, log: seq<Edge>, pid: nat, x: nat, q: u32, w: nat) {
    && q in members && w in Successors(log, q)
    && !(q == pid && PushedOut(Last(log, RECENT), pid, x, w))
  }

  /** The group wakes `p` in another way than by `pid` waking a process that `x` pushes out. */
  ghost predicate OtherwiseWoken(members: set<u32>, log: seq<Edge>, pid: nat, x: nat, p: u32) {
    exists q: u32, w: nat :: StillWakes(members, log, pid, x, q, w) && w % U32 == p
  }

  /** The bonus of `p` does not depend on whether the group wakes it. */
  predicate Indifferent(nice: map<u32, int>, members: set<u32>, p: u32) { p !in nice || p in members }

  /** The woken process, new among those the member habitually wakes, had its bonus before. */
  ghost predicate GainKnown(nice: map<u32, int>, members: set<u32>, log: seq<Edge>, x: nat) {
    Indifferent(nice, members, x % U32) || x % U32 in CausalSet(members, log)
  }

  /** Whoever it pushes out keeps earning its bonus. */
  ghost predicate LossHarmless(nice: map<u32, int>, members: set<u32>, log: seq<Edge>, pid: nat, x: nat) {
    forall v :: v in Successors(log, pid) && PushedOut(Last(log, RECENT), pid, x, v) ==>
      Indifferent(nice, members, v % U32) || v % U32 == x % U32 || OtherwiseWoken(members, log, pid, x, v % U32)
  }

  ghost predicate PushedOutAs(log: seq<Edge>, pid: nat, x: nat, p: u32) {
    exists v: nat :: v in Successors(log, pid) && PushedOut(Last(log, RECENT), pid, x, v) && v % U32 == p
  }

  lemma {:induction false} CausalBefore(members: set<u32>, log: seq<Edge>, pid: u32, x: nat, p: u32)
    requires pid in members
    ensures p in CausalSet(members, log) <==>
      || OtherwiseWoken(members, log, pid, x, p)
      || PushedOutAs(log, pid, x, p)
  {
    if p in CausalSet(members, log) {
      var q: u32, w: nat :| q in members && w in Successors(log, q) && w % U32 == p;
      assert StillWakes(members, log, pid, x, q, w) || PushedOutAs(log, pid, x, p);
    }
    if OtherwiseWoken(members, log, pid, x, p) {
      var q: u32, w: nat :| StillWakes(members, log, pid, x, q, w) && w % U32 == p;
    }
  }

  lemma {:induction false} CausalNext(members: set<u32>, log: seq<Edge>, e: Edge, p: u32)
    requires e.waker < U32 && e.waker in members && e.wakee != 0 && NoneQuits(members, log)
    requires Enters(Last(log, RECENT), e.waker, e.wakee)
    ensures p in CausalSet(members, log + [e]) <==>
      p == e.wakee % U32 || OtherwiseWoken(members, log, e.waker, e.wakee, p)
  {
    var pid, x := e.waker, e.wakee;
    if p in CausalSet(members, log + [e]) {
      var q: u32, w: nat :| q in members && w in Successors(log + [e], q) && w % U32 == p;
      WakeeNext(log, e, q, w);
      assert (q == pid && w == x) || StillWakes(members, log, pid, x, q, w);
    }
    if p == x % U32 {
      SuccessorsNext(log, e, x);
    }
    if OtherwiseWoken(members, log, pid, x, p) {
      var q: u32, w: nat :| StillWakes(members, log, pid, x, q, w) && w % U32 == p;
      WakeeNext(log, e, q, w);
    }
  }

  lemma {:induction false} WakeeNext(log: seq<Edge>, e: Edge, q: nat, w: nat)
    requires e.wakee != 0 && !Quits(log, e.waker) && !Quits(log, q) && Enters(Last(log, RECENT), e.waker, e.wakee)
    ensures w in Successors(log + [e], q) <==>
      || (w in Successors(log, q) && !(q == e.waker && PushedOut(Last(log, RECENT), e.waker, e.wakee, w)))
      || (q == e.waker && w == e.wakee)
  {
    if q == e.waker { SuccessorsNext(log, e, w); } else { OthersKeep(log, e, q); }
  }

  lemma {:induction false} EarnedNextIff(nice: map<u32, int>, s: Groups, log: seq<Edge>, e: Edge, fg: u32)
    requires Earned(nice, s, log, fg) && fg != 0
    ensures Earned(nice, s, log + [e], fg) <==> forall p :: p in nice && p !in s.Of(fg) ==>
      (p in CausalSet(s.Of(fg), log) <==> p in CausalSet(s.Of(fg), log + [e]))
  {
    forall p | p in nice
      ensures Bonus(fg, s.Of(fg), log, p) == Bonus(fg, s.Of(fg), log + [e], p)
          <==> p in s.Of(fg) || (p in CausalSet(s.Of(fg), log) <==> p in CausalSet(s.Of(fg), log + [e]))
    {
    }
  }

  /** A wakeup by a member keeps the bonuses right if and only if the woken process does not enter
      the member's prediction, or its own bonus and that of the process it pushes out stay earned. */
  lemma {:induction false} MemberWakeupIff(nice: map<u32, int>, s: Groups, log: seq<Edge>, e: Edge, fg: u32)
    requires Earned(nice, s, log, fg) && fg != 0 && NoneQuits(s.Of(fg), log)
    requires e.waker < U32 && e.waker in s.Of(fg) && e.wakee != 0
    ensures Earned(nice, s, log + [e], fg) <==>
      || !Enters(Last(log, RECENT), e.waker, e.wakee)
      || (GainKnown(nice, s.Of(fg), log, e.wakee) && LossHarmless(nice, s.Of(fg), log, e.waker, e.wakee))
  {
    var ms, pid: u32, x := s.Of(fg), e.waker, e.wakee;
    if Enters(Last(log, RECENT), pid, x) {
      forall p: u32
        ensures p in CausalSet(ms, log) <==> OtherwiseWoken(ms, log, pid, x, p) || PushedOutAs(log, pid, x, p)
        ensures p in CausalSet(ms, log + [e]) <==> p == x % U32 || OtherwiseWoken(ms, log, pid, x, p)
      {
        CausalBefore(ms, log, pid, x, p);
        CausalNext(ms, log, e, p);
      }
      EarnedNextIff(nice, s, log, e, fg);
    } else {
      forall q | q in ms
        ensures Successors(log + [e], q) == Successors(log, q)
      {
        if q == pid { SuccessorsKeptIff(log, e); } else { OthersKeep(log, e, q); }
      }
      SameCausalSet(ms, log, log + [e]);
    }
  }

  /** For a member with fewer than four habits: the bonuses go wrong exactly at its second wakeup
      of a live task outside the group that earned nothing so far. */
  lemma {:induction false} SecondWakeupIff(nice: map<u32, int>, s: Groups, log: seq<Edge>, e: Edge, fg: u32)
    requires Earned(nice, s, log, fg) && fg != 0 && NoneQuits(s.Of(fg), log)
    requires e.waker < U32 && e.waker in s.Of(fg) && e.wakee != 0
    requires |WokenBy(Last(log, RECENT), e.waker, 2)| < MAX_SUCCESSORS
    ensures !Earned(nice, s, log + [e], fg) <==>
      && Woken(Last(log, RECENT), e.waker, e.wakee) == 1
      && e.wakee % U32 in nice && nice[e.wakee % U32] == 0
  {
    MemberWakeupIff(nice, s, log, e, fg);
    FewHabits(Last(log, RECENT), e.waker, e.wakee);
  }

  /** Group 7 is in the foreground; its member 5 wakes task 6 a second time, and 6 stays at 0. */
  lemma {:induction false} WakeupNotFollowed()
    ensures var s, nice := Groups(map[5 := 7], map[7 := {5}]), map[5 := FG_DIRECT_BONUS, 6 := 0];
      var log := [Edge(5, 6, 0)];
      s.Inverse() && Earned(nice, s, log, 7) && !Earned(nice, s, log + [Edge(5, 6, 1)], 7)
  {
    var s, nice := Groups(map[5 := 7], map[7 := {5}]), map[5 := FG_DIRECT_BONUS, 6 := 0];
    var e := Edge(5, 6, 0);
    var log := [e];
    assert Woken(log, 5, 6) == 1 by { assert log[1..] == []; }
    assert WokenBy(log, 5, 2) == {} by {
      forall w
        ensures w !in WokenBy(log, 5, 2)
      {
        WokenByIff(log, 5, 2, w);
        assert log[1..] == [];
      }
    }
    assert CausalSet({5}, log) == {};
    SecondWakeupIff(nice, s, log, Edge(5, 6, 1), 7);
  }

  // ----- The code ------------------------------------------------------------------------------

  class Jobs {
    var pidPgid: map<u32, u32>
    var members: map<u32, set<u32>>
    var fgPgid: u32
    var nice: map<u32, int>          // `ai_nice_adjust` of every live task
    var signals: seq<(u32, nat)>     // what was sent, in order
    const graph: CausalGraph

    ghost function State(): Groups
      reads this
    {
      Groups(pidPgid, members)
    }

    constructor (graph: CausalGraph)
      ensures State() == Run([]) && fgPgid == 0 && nice == map[] && signals == [] && this.graph == graph
    {
      pidPgid, members, fgPgid, nice, signals := map[], map[], 0, map[], [];
      this.graph := graph;
    }

    /** `setpgid` */
    method SetPgid(pid: u32, pgidIn: u32)
      modifies `pidPgid, `members
      ensures State() == Step(old(State()), Op.SetPgid(pid, pgidIn))
    {
      var pgid := if pgidIn == 0 then pid else pgidIn;
      var had := pid in pidPgid;
      var was := if had then pidPgid[pid] else 0;
      pidPgid := pidPgid[pid := pgid];
      if had && was in members {
        members := members[was := members[was] - {pid}];
      }
      members := members[pgid := (if pgid in members then members[pgid] else {}) + {pid}];
      assert old(pidPgid) - {pid} + map[pid := pgid] == pidPgid;
    }

    /** `cleanup_pid`, which truncates the process number to 32 bits. */
    method CleanupPid(pid: nat)
      modifies `pidPgid, `members
      ensures State() == Step(old(State()), Cleanup(pid))
    {
      var p := pid % U32;
      if p in pidPgid {
        var g := pidPgid[p];
        pidPgid := pidPgid - {p};
        if g in members { members := members[g := members[g] - {p}]; }
      }
    }

    /** `getpgid` */
    method GetPgid(pid: u32) returns (g: u32)
      ensures g == if State().GroupOf(pid).Some? then State().GroupOf(pid).value else pid
    {
      g := if pid in pidPgid then pidPgid[pid] else pid;
    }

    method GroupMembers(pgid: u32) returns (r: seq<u32>)
      ensures Ascending(r) && forall p: u32 :: p in r <==> p in State().Of(pgid)
    {
      r := SortedList(if pgid in members then members[pgid] else {});
    }

    method AdjustNice(p: u32, v: int)
      modifies `nice
      ensures nice == if p in old(nice) then old(nice)[p := v] else old(nice)
    {
      if p in nice { nice := nice[p := v]; }
    }

    /** Every live task of the list is set to `v`, nothing else changes. */
    method AdjustAll(ps: seq<u32>, v: int)
      modifies `nice
      ensures nice.Keys == old(nice).Keys
      ensures forall p :: p in nice ==> nice[p] == if p in ps then v else old(nice)[p]
    {
      for i := 0 to |ps|
        invariant nice.Keys == old(nice).Keys
        invariant forall p :: p in nice ==> nice[p] == if p in ps[..i] then v else old(nice)[p]
      {
        AdjustNice(ps[i], v);
      }
      assert ps[..|ps|] == ps;
    }

    method Truncated(pid: u32) returns (r: seq<u32>)
      requires graph.Valid()
      ensures forall q: u32 :: q in r <==> q in CausalSet({pid}, graph.log)
    {
      var succ := graph.PredictSuccessors(pid);
      r := seq(|succ|, i requires 0 <= i < |succ| => succ[i] % U32);
      forall q: u32
        ensures q in r <==> q in CausalSet({pid}, graph.log)
      {
        if q in r {
          var i :| 0 <= i < |r| && r[i] == q;
          assert succ[i] in succ;
        }
        if q in CausalSet({pid}, graph.log) {
          var w :| w in Successors(graph.log, pid) && w % U32 == q;
          var i :| 0 <= i < |succ| && succ[i] == w;
          assert r[i] == q;
        }
      }
    }

    /** Withdraw the bonus from a group and everything it habitually wakes. */
    method Withdraw(pids: seq<u32>)
      requires graph.Valid()
      modifies `nice
      ensures nice.Keys == old(nice).Keys
      ensures forall p :: p in nice ==>
        nice[p] == if p in pids || p in CausalSet(Elems(pids), graph.log) then 0 else old(nice)[p]
    {
      for i := 0 to |pids|
        invariant nice.Keys == old(nice).Keys
        invariant forall p :: p in nice ==>
          nice[p] == if p in pids[..i] || p in CausalSet(Elems(pids[..i]), graph.log) then 0 else old(nice)[p]
      {
        AdjustNice(pids[i], 0);
        var succ := Truncated(pids[i]);
        CausalSetMore(pids, graph.log, i);
        AdjustAll(succ, 0);
      }
      assert pids[..|pids|] == pids;
    }

    /** The processes outside the group that it habitually wakes. */
    method Dependents(pids: seq<u32>) returns (r: set<u32>)
      requires graph.Valid()
      ensures r == CausalSet(Elems(pids), graph.log) - Elems(pids)
    {
      r := {};
      assert CausalSet(Elems(pids[..0]), graph.log) == {};
      for i := 0 to |pids|
        invariant r == CausalSet(Elems(pids[..i]), graph.log) - Elems(pids)
      {
        var succ := Truncated(pids[i]);
        CausalSetMore(pids, graph.log, i);
        r := r + set q: u32 | q in succ && q !in pids;
      }
      assert pids[..|pids|] == pids;
    }

    /** `tcsetpgrp` */
    method TcSetPgrp(pgid: u32)
      requires graph.Valid()
      modifies `fgPgid, `nice
      ensures fgPgid == pgid && Moved(old(nice), nice, State(), graph.log, old(fgPgid), pgid)
    {
      var oldFg := fgPgid;
      fgPgid := pgid;
      if oldFg != 0 && oldFg != pgid {
        var pids := GroupMembers(oldFg);
        assert Elems(pids) == State().Of(oldFg);
        Withdraw(pids);
      }
      if pgid == 0 { return; }
      ghost var mid := nice;
      var members := GroupMembers(pgid);
      assert Elems(members) == State().Of(pgid);
      AdjustAll(members, FG_DIRECT_BONUS);
      var causal := Dependents(members);
      var list := SortedList(causal);
      AdjustAll(list, FG_CAUSAL_BONUS);
    }

    method SortedList(s: set<u32>) returns (r: seq<u32>)
      ensures Ascending(r) && forall p: u32 :: p in r <==> p in s
    {
      var ns := Iterate(s);
      assert forall i :: 0 <= i < |ns| ==> ns[i] in ns && ns[i] in s;
      r := ns;
    }

    method SignalGroup(pgid: u32, sig: nat)
      modifies `signals
      ensures Signalled(old(signals), signals, State().Of(pgid), sig)
    {
      var r := GroupMembers(pgid);
      for i := 0 to |r|
        invariant SentTo(old(signals), signals, r[..i], sig)
      {
        signals := signals + [(r[i], sig)];
      }
      assert r[..|r|] == r;
    }

    /** `stop_job`: every member is stopped once; stopping the foreground job gives up the foreground. */
    method StopJob(pgid: u32)
      requires graph.Valid()
      modifies `signals, `fgPgid, `nice
      ensures Signalled(old(signals), signals, State().Of(pgid), SIGTSTP)
      ensures if old(fgPgid) == pgid then fgPgid == 0 && Moved(old(nice), nice, State(), graph.log, pgid, 0)
        else fgPgid == old(fgPgid) && nice == old(nice)
    {
      SignalGroup(pgid, SIGTSTP);
      if fgPgid == pgid { TcSetPgrp(0); }
    }

    /** `continue_job_fg` */
    method ContinueJobFg(pgid: u32)
      requires graph.Valid()
      modifies `signals, `fgPgid, `nice
      ensures Signalled(old(signals), signals, State().Of(pgid), SIGCONT)
      ensures fgPgid == pgid && Moved(old(nice), nice, State(), graph.log, old(fgPgid), pgid)
    {
      SignalGroup(pgid, SIGCONT);
      TcSetPgrp(pgid);
    }
  }

  /** One signal to each process of the list, in its order, after what was sent before. */
  ghost predicate SentTo(was: seq<(u32, nat)>, now: seq<(u32, nat)>, r: seq<u32>, sig: nat) {
    now == was + seq(|r|, i requires 0 <= i < |r| => (r[i], sig))
  }

  /** Each of the processes got the signal once, in ascending order. */
  ghost predicate Signalled(was: seq<(u32, nat)>, now: seq<(u32, nat)>, ps: set<u32>, sig: nat) {
    exists r: seq<u32> :: Ascending(r) && (forall p: u32 :: p in r <==> p in ps) && SentTo(was, now, r, sig)
  }

}
