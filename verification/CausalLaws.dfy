/** kernel/src/causal.rs: what the lists and counts of the wakeup queries mean. */
module CausalLaws {
  import opened Prelude
  import opened Causal

  /** How many edges from position `i` on, and before `n`, start or end at `pid`. */
  ghost function Involving(es: seq<Edge>, pid: nat, i: nat, n: nat): nat
    requires i <= n <= |es|
    decreases n - i
  {
    if i == n then 0
    else Involving(es, pid, i, n - 1) + if es[n - 1].waker == pid || es[n - 1].wakee == pid then 1 else 0
  }

  lemma {:induction false} InvolvingLength(es: seq<Edge>, pid: nat, n: nat)
    requires n <= |es|
    ensures |NewestOf(es, pid, n)| == Involving(es, pid, 0, n)
  {
    if n > 0 { InvolvingLength(es, pid, n - 1); }
  }

  /** The list of a process holds every edge that starts or ends there, each after exactly the newer
      ones, and nothing else. */
  lemma {:induction false} NewestFirst(es: seq<Edge>, pid: nat, n: nat, i: nat)
    requires i < n <= |es| && (es[i].waker == pid || es[i].wakee == pid)
    ensures var k := Involving(es, pid, i + 1, n);
      |NewestOf(es, pid, n)| == Involving(es, pid, 0, n) && k < |NewestOf(es, pid, n)| && NewestOf(es, pid, n)[k] == es[i]
  {
    InvolvingLength(es, pid, n);
    if i < n - 1 {
      NewestFirst(es, pid, n - 1, i);
    }
  }

  /** The positions of the edges from `pid` to `w`. */
  ghost function Positions(es: seq<Edge>, pid: nat, w: nat): set<nat> {
    set i: nat | i < |es| && es[i].waker == pid && es[i].wakee == w
  }

  /** The count of a habit is the number of those edges; process 0 is never counted. */
  lemma {:induction false} WokenCounts(es: seq<Edge>, pid: nat, w: nat)
    ensures Woken(es, pid, w) == if w == 0 then 0 else |Positions(es, pid, w)|
  {
    if es == [] {
      assert Positions(es, pid, w) == {};
    } else {
      WokenCounts(es[1..], pid, w);
      Shifted(es, pid, w);
    }
  }

  lemma {:induction false} Shifted(es: seq<Edge>, pid: nat, w: nat)
    requires es != []
    ensures |Positions(es, pid, w)| == |Positions(es[1..], pid, w)| + if es[0].waker == pid && es[0].wakee == w then 1 else 0
  {
    var later := Positions(es, pid, w) - {0};
    Renumbered(Positions(es[1..], pid, w), later);
    if es[0].waker == pid && es[0].wakee == w {
      assert Positions(es, pid, w) == later + {0};
    } else {
      assert Positions(es, pid, w) == later;
    }
  }

  lemma {:induction false} Renumbered(a: set<nat>, b: set<nat>)
    requires forall i :: i in a <==> i + 1 in b
    requires 0 !in b
    ensures |a| == |b|
  {
    assert forall i :: i in b ==> i > 0 && i - 1 in a;
    if a == {} {
      assert b == {};
    } else {
      var i :| i in a;
      assert a == (a - {i}) + {i} && b == (b - {i + 1}) + {i + 1};
      Renumbered(a - {i}, b - {i + 1});
    }
  }
}
