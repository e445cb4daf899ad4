/** kernel/src/build_sys.rs: dependency order of Makefile rules, by depth-first search
    over target names on an arbitrary, possibly cyclic, rule set. */
module BuildSys {
  import opened Prelude

  datatype Rule = Rule(targets: seq<string>, deps: seq<string>, recipe: seq<string>)

  /** The first rule that lists `t` among its targets. */
  function FindRule(rules: seq<Rule>, t: string): (r: Option<nat>)
    ensures r.Some? ==> r.value < |rules| && t in rules[r.value].targets
    ensures forall i :: 0 <= i < (if r.Some? then r.value else |rules|) ==> t !in rules[i].targets
  {
    FindFrom(rules, t, 0)
  }

  function FindFrom(rules: seq<Rule>, t: string, from: nat): (r: Option<nat>)
    requires from <= |rules|
    ensures r.Some? ==> from <= r.value < |rules| && t in rules[r.value].targets
    ensures forall i :: from <= i < (if r.Some? then r.value else |rules|) ==> t !in rules[i].targets
    decreases |rules| - from
  {
    if from == |rules| then None
    else if t in rules[from].targets then Some(from)
    else FindFrom(rules, t, from + 1)
  }

  function DepsOf(rules: seq<Rule>, t: string): seq<string> {
    match FindRule(rules, t)
    case None => []
    case Some(i) => rules[i].deps
  }

  // ----- The search as a function --------------------------------------------------

  /** `visited` as in the code; `post` the names in the order their rules are pushed. */
  datatype St = St(visited: seq<string>, post: seq<string>)

  ghost function Names(rules: seq<Rule>): set<string> {
    set i, d | 0 <= i < |rules| && d in rules[i].deps :: d
  }

  /** What the recursion consumes: names still to be visited. */
  ghost function Unseen(rules: seq<Rule>, extra: set<string>, st: St): set<string> {
    Names(rules) + extra - Elems(st.visited)
  }

  ghost function Visit(rules: seq<Rule>, t: string, st: St): (r: St)
    ensures st.visited <= r.visited
    decreases |Unseen(rules, {t}, st)|, 0, 0
  {
    if t in st.visited then st else
      var st1 := St(st.visited + [t], st.post);
      match FindRule(rules, t)
      case None => st1
      case Some(i) =>
        assert |Unseen(rules, {}, st1)| < |Unseen(rules, {t}, st)| by {
          assert t in Unseen(rules, {t}, st) && t !in Unseen(rules, {}, st1);
          SubsetSize(Unseen(rules, {}, st1), Unseen(rules, {t}, st));
        }
        var st2 := VisitAll(rules, rules[i].deps, st1);
        St(st2.visited, st2.post + [t])
  }

  ghost function VisitAll(rules: seq<Rule>, deps: seq<string>, st: St): (r: St)
    requires Elems(deps) <= Names(rules)
    ensures st.visited <= r.visited
    decreases |Unseen(rules, {}, st)|, 1, |deps|
  {
    if deps == [] then st else
      assert deps[0] in Elems(deps);
      assert Unseen(rules, {deps[0]}, st) == Unseen(rules, {}, st);
      var st1 := Visit(rules, deps[0], st);
      assert |Unseen(rules, {}, st1)| <= |Unseen(rules, {}, st)| by {
        SubsetSize(Unseen(rules, {}, st1), Unseen(rules, {}, st));
      }
      assert Elems(deps[1..]) <= Elems(deps);
      VisitAll(rules, deps[1..], st1)
  }

  /** The pushed rules, as indices into `rules`. */
  ghost function OrderOf(rules: seq<Rule>, post: seq<string>): (r: seq<nat>)
    requires forall n :: n in post ==> FindRule(rules, n).Some?
    ensures |r| == |post|
    ensures forall i :: 0 <= i < |post| ==> r[i] == FindRule(rules, post[i]).value
  {
    seq(|post|, i requires 0 <= i < |post| => FindRule(rules, post[i]).value)
  }

  /** Why the recursive call on `deps[k]` is smaller, whatever the earlier calls visited. */
  lemma LoopShrinks(rules: seq<Rule>, deps: seq<string>, k: nat, t: string, st: St, cur: St)
    requires k < |deps| && Elems(deps[k..]) <= Names(rules) && t !in st.visited && st.visited + [t] <= cur.visited
    ensures |Unseen(rules, {deps[k]}, cur)| < |Unseen(rules, {t}, st)|
    ensures Elems(deps[k + 1..]) <= Names(rules) && deps[k..][1..] == deps[k + 1..] && deps[k..][0] == deps[k]
  {
    assert deps[k] in Elems(deps[k..]);
    assert Elems(deps[k + 1..]) <= Elems(deps[k..]);
    assert forall n :: n in st.visited + [t] ==> n in cur.visited;
    assert t in st.visited + [t];
    assert t in Unseen(rules, {t}, st) && t !in Unseen(rules, {deps[k]}, cur);
    SubsetSize(Unseen(rules, {deps[k]}, cur), Unseen(rules, {t}, st));
  }

  // ----- The code --------------------------------------------------------------------

  /** The two vectors that `collect_deps` threads through its recursion. */
  class Resolver {
    const rules: seq<Rule>
    var visited: seq<string>
    var order: seq<nat>
    ghost var post: seq<string>

    ghost predicate Valid()
      reads this
    {
      (forall n :: n in post ==> FindRule(rules, n).Some?) && order == OrderOf(rules, post)
    }

    ghost function State(): St
      reads this
    {
      St(visited, post)
    }

    constructor (rules: seq<Rule>)
      ensures Valid() && this.rules == rules && State() == St([], [])
    {
      this.rules, visited, order, post := rules, [], [], [];
    }

    method CollectDeps(t: string)
      requires Valid()
      modifies `visited, `order, `post
      ensures Valid() && State() == Visit(rules, t, old(State()))
      decreases |Unseen(rules, {t}, State())|
    {
      if t in visited { return; }
      ghost var st := State();
      visited := visited + [t];
      var rule := FindRule(rules, t);
      if rule.Some? {
        var deps := rules[rule.value].deps;
        ghost var st1 := State();
        for k := 0 to |deps|
          invariant Valid() && st.visited + [t] <= visited
          invariant Elems(deps[k..]) <= Names(rules)
          invariant VisitAll(rules, deps[k..], State()) == VisitAll(rules, deps, st1)
        {
          LoopShrinks(rules, deps, k, t, st, State());
          CollectDeps(deps[k]);
        }
        order := order + [rule.value];
        post := post + [t];
      }
    }
  }

  method ResolveOrder(target: string, rules: seq<Rule>) returns (order: seq<nat>)
    ensures var post := Visit(rules, target, St([], [])).post;
      (forall n :: n in post ==> FindRule(rules, n).Some?) && order == OrderOf(rules, post)
  {
    var r := new Resolver(rules);
    r.CollectDeps(target);
    order := r.order;
  }

  // ----- Paths and cycles ----------------------------------------------------------------

  ghost predicate Path(rules: seq<Rule>, p: seq<string>) {
    |p| >= 1 && forall i :: 0 <= i < |p| - 1 ==> p[i + 1] in DepsOf(rules, p[i])
  }

  ghost predicate PathFromTo(rules: seq<Rule>, p: seq<string>, a: string, b: string) {
    Path(rules, p) && p[0] == a && p[|p| - 1] == b
  }

  ghost predicate Reaches(rules: seq<Rule>, a: string, b: string) {
    exists p :: PathFromTo(rules, p, a, b)
  }

  ghost predicate IsCycle(rules: seq<Rule>, p: seq<string>) {
    |p| >= 2 && Path(rules, p) && p[0] == p[|p| - 1]
  }

  /** Some cycle of target names can be reached from `root`. */
  ghost predicate CycleFrom(rules: seq<Rule>, root: string) {
    exists p :: IsCycle(rules, p) && Reaches(rules, root, p[0])
  }

  /** Every dependency that has a rule comes before the name that needs it. */
  ghost predicate NamesOrdered(rules: seq<Rule>, post: seq<string>) {
    forall j, d :: 0 <= j < |post| && d in DepsOf(rules, post[j]) && FindRule(rules, d).Some? ==> d in post[..j]
  }

  /** What holds between two calls when `stack` are the calls in progress, outermost first. */
  ghost predicate Good(rules: seq<Rule>, root: string, st: St, stack: seq<string>) {
    && NoDup(st.visited) && NoDup(st.post)
    && (forall n :: n in stack ==> n in st.visited)
    && (forall n :: n in st.post <==> n in st.visited && n !in stack && FindRule(rules, n).Some?)
    && (forall n, d :: n in st.visited && n !in stack && d in DepsOf(rules, n) ==> d in st.visited)
    && (forall n :: n in st.visited ==> Reaches(rules, root, n))
    && (CycleFrom(rules, root) || NamesOrdered(rules, st.post))
    && (stack != [] ==> Path(rules, stack) && stack[0] == root)
  }

  lemma PushReaches(rules: seq<Rule>, root: string, st: St, stack: seq<string>, t: string)
    requires Good(rules, root, st, stack)
    requires if stack == [] then t == root else t in DepsOf(rules, stack[|stack| - 1])
    ensures Path(rules, stack + [t]) && (stack + [t])[0] == root && Reaches(rules, root, t)
  {
    assert PathFromTo(rules, stack + [t], root, t);
  }

  /** A dependency found on the stack closes a cycle. */
  lemma StackCycle(rules: seq<Rule>, root: string, stack: seq<string>, d: string)
    requires stack != [] && Path(rules, stack) && stack[0] == root
    requires d in stack && d in DepsOf(rules, stack[|stack| - 1])
    ensures CycleFrom(rules, root)
  {
    var i :| 0 <= i < |stack| && stack[i] == d;
    var c := stack[i..] + [d];
    assert IsCycle(rules, c);
    assert PathFromTo(rules, stack[..i + 1], root, d);
  }

  lemma PushGood(rules: seq<Rule>, root: string, st: St, stack: seq<string>, t: string)
    requires Good(rules, root, st, stack) && t !in st.visited
    requires if stack == [] then t == root else t in DepsOf(rules, stack[|stack| - 1])
    ensures Good(rules, root, St(st.visited + [t], st.post), stack + [t])
  {
    PushReaches(rules, root, st, stack, t);
  }

  lemma AppendOrdered(rules: seq<Rule>, post: seq<string>, t: string)
    requires NamesOrdered(rules, post)
    requires forall d :: d in DepsOf(rules, t) && FindRule(rules, d).Some? ==> d in post
    ensures NamesOrdered(rules, post + [t])
  {
    var p := post + [t];
    forall j, d | 0 <= j < |p| && d in DepsOf(rules, p[j]) && FindRule(rules, d).Some?
      ensures d in p[..j]
    {
      assert j < |post| ==> p[j] == post[j] && p[..j] == post[..j];
      assert p[..|post|] == post;
    }
  }

  lemma PathPrefix(rules: seq<Rule>, stack: seq<string>, t: string)
    requires Path(rules, stack + [t]) && stack != []
    ensures Path(rules, stack) && stack[0] == (stack + [t])[0]
  {
    assert forall i :: 0 <= i < |stack| ==> stack[i] == (stack + [t])[i];
  }

  /** Finishing `t`: its dependencies are all visited, and pushed before it unless a cycle
      leads back to the stack. */
  lemma PopOrdered(rules: seq<Rule>, root: string, st: St, stack: seq<string>, t: string)
    requires Good(rules, root, st, stack + [t]) && !CycleFrom(rules, root)
    requires forall d :: d in DepsOf(rules, t) ==> d in st.visited
    ensures NamesOrdered(rules, st.post + [t])
  {
    forall d | d in DepsOf(rules, t) && FindRule(rules, d).Some?
      ensures d in st.post
    {
      if d in stack + [t] { StackCycle(rules, root, stack + [t], d); }
    }
    AppendOrdered(rules, st.post, t);
  }

  lemma PopGood(rules: seq<Rule>, root: string, st: St, stack: seq<string>, t: string)
    requires Good(rules, root, st, stack + [t]) && t !in stack && FindRule(rules, t).Some?
    requires forall d :: d in DepsOf(rules, t) ==> d in st.visited
    ensures Good(rules, root, St(st.visited, st.post + [t]), stack)
  {
    if !CycleFrom(rules, root) { PopOrdered(rules, root, st, stack, t); }
    if stack != [] { PathPrefix(rules, stack, t); }
    assert forall n :: n in stack + [t] <==> n in stack || n == t;
    assert forall n :: n in st.post + [t] <==> n in st.post || n == t;
  }

  lemma NoRuleGood(rules: seq<Rule>, root: string, st: St, stack: seq<string>, t: string)
    requires Good(rules, root, st, stack + [t]) && t !in stack && FindRule(rules, t).None?
    ensures Good(rules, root, st, stack)
  {
    if stack != [] { PathPrefix(rules, stack, t); }
    assert forall n :: n in stack + [t] <==> n in stack || n == t;
  }

  lemma {:induction false} VisitGood(rules: seq<Rule>, root: string, t: string, st: St, stack: seq<string>)
    requires Good(rules, root, st, stack)
    requires if stack == [] then t == root else t in DepsOf(rules, stack[|stack| - 1])
    ensures Good(rules, root, Visit(rules, t, st), stack) && t in Visit(rules, t, st).visited
    decreases |Unseen(rules, {t}, st)|, 0, 0
  {
    if t !in st.visited {
      var st1, stack1 := St(st.visited + [t], st.post), stack + [t];
      PushGood(rules, root, st, stack, t);
      if FindRule(rules, t).Some? {
        var deps := rules[FindRule(rules, t).value].deps;
        assert |Unseen(rules, {}, st1)| < |Unseen(rules, {t}, st)| by {
          assert t in Unseen(rules, {t}, st) && t !in Unseen(rules, {}, st1);
          SubsetSize(Unseen(rules, {}, st1), Unseen(rules, {t}, st));
        }
        VisitAllGood(rules, root, deps, st1, stack1);
        PopGood(rules, root, VisitAll(rules, deps, st1), stack, t);
      } else {
        NoRuleGood(rules, root, st1, stack, t);
      }
    }
  }

  lemma Shrinks(rules: seq<Rule>, deps: seq<string>, st: St, st1: St)
    requires deps != [] && Elems(deps) <= Names(rules) && st.visited <= st1.visited
    ensures Unseen(rules, {deps[0]}, st) == Unseen(rules, {}, st) && Elems(deps[1..]) <= Names(rules)
    ensures |Unseen(rules, {}, st1)| <= |Unseen(rules, {}, st)|
  {
    assert deps[0] in Elems(deps);
    SubsetSize(Unseen(rules, {}, st1), Unseen(rules, {}, st));
    assert Elems(deps[1..]) <= Elems(deps);
  }

  ghost predicate SubDeps(rules: seq<Rule>, deps: seq<string>, t: string) {
    forall d :: d in deps ==> d in DepsOf(rules, t)
  }

  lemma HeadAndTail(deps: seq<string>, visited: seq<string>)
    requires deps != [] && deps[0] in visited && forall d :: d in deps[1..] ==> d in visited
    ensures forall d :: d in deps ==> d in visited
  {
    assert deps == [deps[0]] + deps[1..];
  }

  lemma {:induction false} VisitAllGood(rules: seq<Rule>, root: string, deps: seq<string>, st: St, stack: seq<string>)
    requires Good(rules, root, st, stack) && Elems(deps) <= Names(rules)
    requires stack != [] && SubDeps(rules, deps, stack[|stack| - 1])
    ensures Good(rules, root, VisitAll(rules, deps, st), stack)
    ensures forall d :: d in deps ==> d in VisitAll(rules, deps, st).visited
    decreases |Unseen(rules, {}, st)|, 1, |deps|
  {
    if deps != [] {
      var st1 := Visit(rules, deps[0], st);
      Shrinks(rules, deps, st, st1);
      VisitGood(rules, root, deps[0], st, stack);
      VisitAllGood(rules, root, deps[1..], st1, stack);
      HeadAndTail(deps, VisitAll(rules, deps[1..], st1).visited);
    }
  }

  // ----- What `resolve_order` promises ---------------------------------------------------

  lemma {:induction false} ReachesVisited(rules: seq<Rule>, visited: seq<string>, p: seq<string>)
    requires Path(rules, p) && p[0] in visited
    requires forall n, d :: n in visited && d in DepsOf(rules, n) ==> d in visited
    ensures forall i :: 0 <= i < |p| ==> p[i] in visited
  {
    var k := 1;
    while k < |p|
      invariant 1 <= k <= |p|
      invariant forall i :: 0 <= i < k ==> p[i] in visited
    {
      assert p[k - 1 + 1] in DepsOf(rules, p[k - 1]);
      k := k + 1;
    }
  }

  /** On every rule set, cyclic or not, the search visits exactly the reachable names, and
      pushes exactly the reachable names that have a rule, each once. */
  lemma VisitsReachable(rules: seq<Rule>, target: string)
    ensures var st := Visit(rules, target, St([], []));
      && Good(rules, target, st, [])
      && (forall n :: n in st.visited <==> Reaches(rules, target, n))
      && (forall n :: n in st.post <==> Reaches(rules, target, n) && FindRule(rules, n).Some?)
      && NoDup(st.post)
  {
    var st := Visit(rules, target, St([], []));
    VisitGood(rules, target, target, St([], []), []);
    forall n | Reaches(rules, target, n)
      ensures n in st.visited
    {
      var p :| PathFromTo(rules, p, target, n);
      ReachesVisited(rules, st.visited, p);
    }
  }

  /** Every occurrence of a rule comes after a rule for each of its dependencies. */
  ghost predicate RulesOrdered(rules: seq<Rule>, order: seq<nat>)
    requires forall j :: 0 <= j < |order| ==> order[j] < |rules|
  {
    forall j, d :: 0 <= j < |order| && d in rules[order[j]].deps && FindRule(rules, d).Some?
      ==> FindRule(rules, d).value in order[..j]
  }

  ghost function Order(rules: seq<Rule>, target: string): (r: seq<nat>)
    ensures forall j :: 0 <= j < |r| ==> r[j] < |rules|
  {
    VisitsReachable(rules, target);
    OrderOf(rules, Visit(rules, target, St([], [])).post)
  }

  lemma CycleUnordered(rules: seq<Rule>, target: string, c: seq<string>)
    requires IsCycle(rules, c) && Reaches(rules, target, c[0])
    ensures !RulesOrdered(rules, Order(rules, target))
  {
    var order, st := Order(rules, target), Visit(rules, target, St([], []));
    VisitsReachable(rules, target);
    ReachesVisited(rules, st.visited, c);
    forall i | 0 <= i < |c|
      ensures FindRule(rules, c[i]).Some? && FindRule(rules, c[i]).value in order
    {
      assert i < |c| - 1 ==> c[i + 1] in DepsOf(rules, c[i]);
      assert c[0 + 1] in DepsOf(rules, c[0]);
      assert c[i] in st.post;
      var k :| 0 <= k < |st.post| && st.post[k] == c[i];
      assert order[k] == FindRule(rules, c[i]).value;
    }
    if RulesOrdered(rules, order) {
      var i := 0;
      var j := FirstIndex(order, FindRule(rules, c[0]).value);
      // following the cycle, the first occurrence moves strictly towards the front
      while true
        invariant 0 <= i < |c| - 1 && 0 <= j < |order| && order[j] == FindRule(rules, c[i]).value
        decreases j
      {
        assert c[i + 1] in DepsOf(rules, c[i]);
        var r := FindRule(rules, c[i + 1]).value;
        assert r in order[..j];
        j := FirstIndex(order[..j], r);
        i := if i + 1 == |c| - 1 then 0 else i + 1;
      }
    }
  }

  lemma FirstIndex(s: seq<nat>, x: nat) returns (j: nat)
    requires x in s
    ensures j < |s| && s[j] == x
  {
    j :| 0 <= j < |s| && s[j] == x;
  }

  /** The order is a topological order if and only if no cycle of target names is reachable. */
  lemma TopologicalIff(rules: seq<Rule>, target: string)
    ensures RulesOrdered(rules, Order(rules, target)) <==> !CycleFrom(rules, target)
  {
    VisitsReachable(rules, target);
    var order, post := Order(rules, target), Visit(rules, target, St([], [])).post;
    if CycleFrom(rules, target) {
      var c :| IsCycle(rules, c) && Reaches(rules, target, c[0]);
      CycleUnordered(rules, target, c);
    }
  }

  /** A rule that depends on its own target runs before that dependency is made. */
  lemma SelfDependency()
    ensures var rules := [Rule(["a"], ["a"], [])];
      CycleFrom(rules, "a") && !RulesOrdered(rules, Order(rules, "a"))
  {
    var rules := [Rule(["a"], ["a"], [])];
    assert "a" in rules[0].targets && "a" in DepsOf(rules, "a");
    assert IsCycle(rules, ["a", "a"]) && PathFromTo(rules, ["a"], "a", "a");
    CycleUnordered(rules, "a", ["a", "a"]);
  }

  ghost function FoundFor(rules: seq<Rule>, post: seq<string>, r: nat): set<string> {
    set n | n in post && FindRule(rules, n) == Some(r)
  }

  lemma CountOne(rules: seq<Rule>, rest: seq<string>, t: string, r: nat)
    requires t !in rest
    ensures |FoundFor(rules, rest + [t], r)|
         == |FoundFor(rules, rest, r)| + if FindRule(rules, t) == Some(r) then 1 else 0
  {
    assert FoundFor(rules, rest + [t], r)
        == FoundFor(rules, rest, r) + if FindRule(rules, t) == Some(r) then {t} else {};
  }

  lemma {:induction false} CountNames(rules: seq<Rule>, post: seq<string>, r: nat)
    requires NoDup(post) && forall n :: n in post ==> FindRule(rules, n).Some?
    ensures multiset(OrderOf(rules, post))[r] == |FoundFor(rules, post, r)|
  {
    if post == [] {
      assert OrderOf(rules, post) == [];
    } else {
      var k := |post| - 1;
      var rest, t := post[..k], post[k];
      assert post == rest + [t];
      CountNames(rules, rest, r);
      CountOne(rules, rest, t, r);
      assert OrderOf(rules, post) == OrderOf(rules, rest) + [FindRule(rules, t).value];
    }
  }

  /** A rule is pushed once per reachable name it is found for: a rule found for a single
      reachable name runs once, a multi-target rule once per target reached. */
  lemma Multiplicity(rules: seq<Rule>, target: string, r: nat)
    ensures var names := FoundFor(rules, Visit(rules, target, St([], [])).post, r);
      && (forall n :: n in names <==> Reaches(rules, target, n) && FindRule(rules, n) == Some(r))
      && multiset(Order(rules, target))[r] == |names|
  {
    VisitsReachable(rules, target);
    CountNames(rules, Visit(rules, target, St([], [])).post, r);
  }

  /** A single-target rule whose target is reachable runs exactly once. */
  lemma SingleTargetOnce(rules: seq<Rule>, target: string, t: string, r: nat)
    requires r < |rules| && FindRule(rules, t) == Some(r) && Reaches(rules, target, t)
    requires forall n :: n in rules[r].targets ==> n == t
    ensures multiset(Order(rules, target))[r] == 1
  {
    Multiplicity(rules, target, r);
    assert FoundFor(rules, Visit(rules, target, St([], [])).post, r) == {t};
  }
}
