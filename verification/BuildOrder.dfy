/** kernel/src/build_sys.rs: dependencies are made in the order in which their rule lists them. */
module BuildOrder {
  import opened Prelude
  import opened BuildSys

  lemma {:induction false} DepsAreNames(rules: seq<Rule>, t: string)
    ensures Elems(DepsOf(rules, t)) <= Names(rules)
  {
    if FindRule(rules, t).Some? {
      var i := FindRule(rules, t).value;
      forall d | d in Elems(DepsOf(rules, t))
        ensures d in Names(rules)
      {
        assert d in rules[i].deps;
      }
    }
  }

  lemma {:induction false} Smaller(rules: seq<Rule>, t: string, st: St)
    requires t !in st.visited
    ensures |Unseen(rules, {}, St(st.visited + [t], st.post))| < |Unseen(rules, {t}, st)|
  {
    var st1 := St(st.visited + [t], st.post);
    assert t in Unseen(rules, {t}, st) && t !in Unseen(rules, {}, st1);
    SubsetSize(Unseen(rules, {}, st1), Unseen(rules, {t}, st));
  }

  // ----- Visits only push, and only visit what they reach -----------------------------------------

  lemma {:induction false} Extends(rules: seq<Rule>, a: string, b: string, c: string)
    requires b in DepsOf(rules, a) && Reaches(rules, b, c)
    ensures Reaches(rules, a, c)
  {
    var p :| PathFromTo(rules, p, b, c);
    assert PathFromTo(rules, [a] + p, a, c);
  }

  ghost predicate ReachedFrom(rules: seq<Rule>, deps: seq<string>, n: string) {
    exists i :: 0 <= i < |deps| && Reaches(rules, deps[i], n)
  }

  lemma {:induction false} ReachedTail(rules: seq<Rule>, deps: seq<string>, n: string)
    requires deps != []
    ensures ReachedFrom(rules, deps, n) <==> Reaches(rules, deps[0], n) || ReachedFrom(rules, deps[1..], n)
  {
    if ReachedFrom(rules, deps[1..], n) {
      var i :| 0 <= i < |deps| - 1 && Reaches(rules, deps[1..][i], n);
      assert deps[i + 1] == deps[1..][i];
    }
    if ReachedFrom(rules, deps, n) {
      var i :| 0 <= i < |deps| && Reaches(rules, deps[i], n);
      assert i > 0 ==> deps[1..][i - 1] == deps[i];
    }
  }

  lemma {:induction false} VisitOnly(rules: seq<Rule>, t: string, st: St, n: string)
    ensures st.post <= Visit(rules, t, st).post
    ensures n in Visit(rules, t, st).visited ==> n in st.visited || Reaches(rules, t, n)
    decreases |Unseen(rules, {t}, st)|, 0, 0
  {
    if t !in st.visited {
      var st1 := St(st.visited + [t], st.post);
      assert PathFromTo(rules, [t], t, t);
      if FindRule(rules, t).Some? {
        var deps := DepsOf(rules, t);
        Smaller(rules, t, st);
        DepsAreNames(rules, t);
        VisitAllOnly(rules, deps, st1, n);
        if ReachedFrom(rules, deps, n) {
          var i :| 0 <= i < |deps| && Reaches(rules, deps[i], n);
          Extends(rules, t, deps[i], n);
        }
      }
    }
  }

  lemma {:induction false} VisitAllOnly(rules: seq<Rule>, deps: seq<string>, st: St, n: string)
    requires Elems(deps) <= Names(rules)
    ensures st.post <= VisitAll(rules, deps, st).post
    ensures n in VisitAll(rules, deps, st).visited ==> n in st.visited || ReachedFrom(rules, deps, n)
    decreases |Unseen(rules, {}, st)|, 1, |deps|
  {
    if deps != [] {
      var st1 := Visit(rules, deps[0], st);
      Shrinks(rules, deps, st, st1);
      VisitOnly(rules, deps[0], st, n);
      VisitAllOnly(rules, deps[1..], st1, n);
      ReachedTail(rules, deps, n);
    }
  }

  // ----- The order of the list ------------------------------------------------------------------

  lemma {:induction false} VisitAllSplit(rules: seq<Rule>, a: seq<string>, b: seq<string>, st: St)
    requires Elems(a + b) <= Names(rules)
    ensures Elems(a) <= Names(rules) && Elems(b) <= Names(rules)
    ensures VisitAll(rules, a + b, st) == VisitAll(rules, b, VisitAll(rules, a, st))
    decreases |a|
  {
    forall d | d in a || d in b
      ensures d in Names(rules)
    {
      assert d in Elems(a + b);
    }
    if a == [] {
      assert a + b == b;
    } else {
      assert (a + b)[1..] == a[1..] + b && (a + b)[0] == a[0];
      assert Elems(a[1..] + b) <= Elems(a + b);
      VisitAllSplit(rules, a[1..], b, Visit(rules, a[0], st));
    }
  }

  /** `a` is made before `b`. */
  ghost predicate Before(post: seq<string>, a: string, b: string) {
    exists i, j :: 0 <= i < j < |post| && post[i] == a && post[j] == b
  }

  /** Of two dependencies of a rule the one listed first is made first, unless it or one listed
      before the other needs the other. */
  lemma {:induction false} ListedOrder(rules: seq<Rule>, t: string, j: nat, k: nat)
    requires j < k < |DepsOf(rules, t)|
    requires var deps := DepsOf(rules, t);
      && FindRule(rules, deps[j]).Some? && FindRule(rules, deps[k]).Some? && deps[j] != t && deps[k] != t
      && !ReachedFrom(rules, deps[..k], deps[k])
    ensures Before(Visit(rules, t, St([], [])).post, DepsOf(rules, t)[j], DepsOf(rules, t)[k])
  {
    var deps, st1 := DepsOf(rules, t), St([t], []);
    var early, late := deps[..k], deps[k..];
    assert deps == early + late;
    DepsAreNames(rules, t);
    VisitAllSplit(rules, early, late, st1);
    var mid := VisitAll(rules, early, st1);
    var post := Visit(rules, t, St([], [])).post;
    assert St([], []).visited + [t] == [t];
    assert post == VisitAll(rules, deps, st1).post + [t];
    VisitAllOnly(rules, late, mid, t);
    assert mid.post <= post;
    Finished(rules, t, early, deps[j]);
    VisitAllOnly(rules, early, st1, deps[k]);
    Unfinished(rules, t, early, deps[k]);
    Pushed(rules, t, deps[k]);
    assert forall i :: 0 <= i < |mid.post| ==> post[i] == mid.post[i];
    var a :| 0 <= a < |mid.post| && mid.post[a] == deps[j];
    var b :| 0 <= b < |post| && post[b] == deps[k];
  }

  lemma {:induction false} StartGood(rules: seq<Rule>, t: string, early: seq<string>)
    requires FindRule(rules, t).Some? && early <= DepsOf(rules, t)
    ensures Elems(early) <= Names(rules) && Good(rules, t, VisitAll(rules, early, St([t], [])), [t])
    ensures forall d :: d in early ==> d in VisitAll(rules, early, St([t], [])).visited
  {
    DepsAreNames(rules, t);
    var deps := DepsOf(rules, t);
    forall d | d in early
      ensures d in deps && d in Names(rules)
    {
      var i :| 0 <= i < |early| && early[i] == d;
      assert deps[i] == d && d in Elems(deps);
    }
    assert Good(rules, t, St([], []), []);
    PushGood(rules, t, St([], []), [], t);
    assert St([], []).visited + [t] == [t] && [] + [t] == [t];
    VisitAllGood(rules, t, early, St([t], []), [t]);
  }

  lemma {:induction false} Finished(rules: seq<Rule>, t: string, early: seq<string>, d: string)
    requires FindRule(rules, t).Some? && early <= DepsOf(rules, t) && d in early && d != t && FindRule(rules, d).Some?
    ensures Elems(early) <= Names(rules) && d in VisitAll(rules, early, St([t], [])).post
  {
    StartGood(rules, t, early);
  }

  lemma {:induction false} Unfinished(rules: seq<Rule>, t: string, early: seq<string>, d: string)
    requires FindRule(rules, t).Some? && early <= DepsOf(rules, t) && Elems(early) <= Names(rules)
    requires d !in VisitAll(rules, early, St([t], [])).visited
    ensures d !in VisitAll(rules, early, St([t], [])).post
  {
    StartGood(rules, t, early);
  }

  lemma {:induction false} Pushed(rules: seq<Rule>, t: string, d: string)
    requires d in DepsOf(rules, t) && FindRule(rules, d).Some?
    ensures d in Visit(rules, t, St([], [])).post
  {
    VisitsReachable(rules, t);
    assert PathFromTo(rules, [t, d], t, d);
  }
}
