/** kernel/src/causal.rs: how one more wakeup changes the successors predicted for a process. */
module Habits {
  import opened Prelude
  import opened Causal

  function One(b: bool): nat { if b then 1 else 0 }

  // ----- Counts in the 64-edge window ---------------------------------------------------------

  lemma {:induction false} WokenAppend(es: seq<Edge>, e: Edge, pid: nat, w: nat)
    ensures Woken(es + [e], pid, w) == Woken(es, pid, w) + One(Wakes(e, pid, w))
  {
    if es == [] {
      assert ([] + [e])[1..] == [];
    } else {
      WokenAppend(es[1..], e, pid, w);
      assert (es + [e])[1..] == es[1..] + [e];
    }
  }

  /** The next wakeup pushes an edge of `pid` out of the window. */
  predicate Quits(log: seq<Edge>, pid: nat) { |log| >= RECENT && log[|log| - RECENT].waker == pid }

  lemma {:induction false} WokenNext(log: seq<Edge>, e: Edge, pid: nat, w: nat)
    ensures Woken(Last(log + [e], RECENT), pid, w)
         == Woken(Last(log, RECENT), pid, w) + One(Wakes(e, pid, w))
            - One(|log| >= RECENT && Wakes(log[|log| - RECENT], pid, w))
  {
    var es := Last(log, RECENT);
    if |log| < RECENT {
      assert Last(log + [e], RECENT) == es + [e];
      WokenAppend(es, e, pid, w);
    } else {
      assert Last(log + [e], RECENT) == es[1..] + [e];
      WokenAppend(es[1..], e, pid, w);
    }
  }

  // ----- Ranks ------------------------------------------------------------------------------

  ghost predicate Predicted(es: seq<Edge>, pid: nat, w: nat) {
    Woken(es, pid, w) >= 2 && |Rivals(es, pid, w)| < MAX_SUCCESSORS
  }

  lemma {:induction false} PredictedIff(log: seq<Edge>, pid: nat, w: nat)
    ensures w in Successors(log, pid) <==> Predicted(Last(log, RECENT), pid, w)
  {
    WokenByIff(Last(log, RECENT), pid, 2, w);
  }

  lemma {:induction false} RivalIff(es: seq<Edge>, pid: nat, v: nat, w: nat)
    ensures v in Rivals(es, pid, w) <==> Woken(es, pid, v) >= 2 && Likelier(es, pid, v, w)
  {
    WokenByIff(es, pid, 2, v);
  }

  /** Whoever beats a rival of `w` beats `w`. */
  lemma {:induction false} RivalsNest(es: seq<Edge>, pid: nat, v: nat, w: nat)
    requires v in Rivals(es, pid, w)
    ensures Rivals(es, pid, v) < Rivals(es, pid, w) && |Rivals(es, pid, v)| < |Rivals(es, pid, w)|
  {
    RivalIff(es, pid, v, w);
    RivalIff(es, pid, v, v);
    forall u | u in Rivals(es, pid, v)
      ensures u in Rivals(es, pid, w)
    {
      RivalIff(es, pid, u, v);
      RivalIff(es, pid, u, w);
    }
    SubsetSize(Rivals(es, pid, v) + {v}, Rivals(es, pid, w));
  }

  // ----- Equal counts, equal predictions ----------------------------------------------------------

  lemma {:induction false} SameRivals(es: seq<Edge>, es': seq<Edge>, pid: nat, w: nat)
    requires forall v :: Woken(es', pid, v) == Woken(es, pid, v)
    ensures Rivals(es', pid, w) == Rivals(es, pid, w)
  {
    forall v
      ensures v in Rivals(es', pid, w) <==> v in Rivals(es, pid, w)
    {
      RivalIff(es, pid, v, w);
      RivalIff(es', pid, v, w);
    }
  }

  /** A wakeup by somebody else that pushes no edge of `pid` out changes nothing for `pid`. */
  lemma {:induction false} OthersKeep(log: seq<Edge>, e: Edge, pid: nat)
    requires (e.waker != pid || e.wakee == 0) && !Quits(log, pid)
    ensures Successors(log + [e], pid) == Successors(log, pid)
  {
    var es, es' := Last(log, RECENT), Last(log + [e], RECENT);
    forall v
      ensures Woken(es', pid, v) == Woken(es, pid, v)
    {
      WokenNext(log, e, pid, v);
    }
    forall w
      ensures w in Successors(log + [e], pid) <==> w in Successors(log, pid)
    {
      SameRivals(es, es', pid, w);
      PredictedIff(log, pid, w);
      PredictedIff(log + [e], pid, w);
    }
  }

  // ----- One more wakeup of x --------------------------------------------------------------------

  ghost predicate OneMore(es: seq<Edge>, es': seq<Edge>, pid: nat, x: nat) {
    forall w :: Woken(es', pid, w) == Woken(es, pid, w) + One(w == x)
  }

  /** The habitual wakees that would still be likelier than `x` if `x` had been woken `n` times. */
  ghost function AheadOf(es: seq<Edge>, pid: nat, x: nat, n: nat): set<nat> {
    set v | v in WokenBy(es, pid, 2) && v != x && (Woken(es, pid, v) > n || (Woken(es, pid, v) == n && v < x))
  }

  /** `x` is not predicted, and one more wakeup would make it so. */
  ghost predicate Enters(es: seq<Edge>, pid: nat, x: nat) {
    var n := Woken(es, pid, x);
    && n >= 1 && |AheadOf(es, pid, x, n + 1)| < MAX_SUCCESSORS
    && (n == 1 || |AheadOf(es, pid, x, n)| >= MAX_SUCCESSORS)
  }

  /** The predicted process that `x` would push out: the last of four, once `x` is ahead of it. */
  ghost predicate PushedOut(es: seq<Edge>, pid: nat, x: nat, v: nat) {
    var n := Woken(es, pid, x) + 1;
    && v != x && Woken(es, pid, v) >= 2 && |Rivals(es, pid, v)| == MAX_SUCCESSORS - 1
    && (n > Woken(es, pid, v) || (n == Woken(es, pid, v) && x < v))
  }

  lemma {:induction false} RivalsOfX(es: seq<Edge>, es': seq<Edge>, pid: nat, x: nat)
    requires OneMore(es, es', pid, x)
    ensures Rivals(es, pid, x) == AheadOf(es, pid, x, Woken(es, pid, x))
    ensures Rivals(es', pid, x) == AheadOf(es, pid, x, Woken(es, pid, x) + 1)
  {
    forall v
      ensures v in Rivals(es, pid, x) <==> v in AheadOf(es, pid, x, Woken(es, pid, x))
      ensures v in Rivals(es', pid, x) <==> v in AheadOf(es, pid, x, Woken(es, pid, x) + 1)
    {
      RivalIff(es, pid, v, x);
      RivalIff(es', pid, v, x);
      WokenByIff(es, pid, 2, v);
    }
  }

  lemma {:induction false} EntersIff(es: seq<Edge>, es': seq<Edge>, pid: nat, x: nat)
    requires OneMore(es, es', pid, x)
    ensures Enters(es, pid, x) <==> !Predicted(es, pid, x) && Predicted(es', pid, x)
    ensures Predicted(es, pid, x) ==> Predicted(es', pid, x)
  {
    RivalsOfX(es, es', pid, x);
    SubsetSize(Rivals(es', pid, x), Rivals(es, pid, x));
  }

  lemma {:induction false} RivalsOfOther(es: seq<Edge>, es': seq<Edge>, pid: nat, x: nat, v: nat)
    requires OneMore(es, es', pid, x) && v != x
    ensures Rivals(es', pid, v) == Rivals(es, pid, v)
      + if x in Rivals(es', pid, v) then {x} else {}
  {
    forall u
      ensures u in Rivals(es, pid, v) ==> u in Rivals(es', pid, v)
      ensures u != x ==> (u in Rivals(es', pid, v) <==> u in Rivals(es, pid, v))
    {
      RivalIff(es, pid, u, v);
      RivalIff(es', pid, u, v);
    }
  }

  /** If `x` was predicted already, or still is not, nobody else's place depends on the new wakeup. */
  lemma {:induction false} OtherStays(es: seq<Edge>, es': seq<Edge>, pid: nat, x: nat, v: nat)
    requires OneMore(es, es', pid, x) && v != x && !Enters(es, pid, x)
    ensures Predicted(es', pid, v) <==> Predicted(es, pid, v)
  {
    RivalsOfOther(es, es', pid, x, v);
    EntersIff(es, es', pid, x);
    SubsetSize(Rivals(es, pid, v), Rivals(es', pid, v));
    if Predicted(es, pid, v) && x in Rivals(es', pid, v) && x !in Rivals(es, pid, v) {
      RivalIff(es', pid, x, v);
      RivalIff(es, pid, x, v);
      RivalsNest(es', pid, x, v);
      if Predicted(es, pid, x) {
        RivalIff(es, pid, v, x);
        RivalsNest(es, pid, v, x);
      }
    }
  }

  /** If `x` becomes predicted, exactly the process it pushes out loses its place. */
  lemma {:induction false} OtherPushed(es: seq<Edge>, es': seq<Edge>, pid: nat, x: nat, v: nat)
    requires OneMore(es, es', pid, x) && v != x && Enters(es, pid, x)
    ensures Predicted(es', pid, v) <==> Predicted(es, pid, v) && !PushedOut(es, pid, x, v)
  {
    RivalsOfOther(es, es', pid, x, v);
    EntersIff(es, es', pid, x);
    RivalIff(es', pid, x, v);
    SubsetSize(Rivals(es, pid, v), Rivals(es', pid, v));
    if Predicted(es, pid, v) && x in Rivals(es, pid, v) {
      RivalIff(es, pid, x, v);
      RivalsNest(es, pid, x, v);
    }
  }

  /** Both together: what one more wakeup of `x` does to any process `w`. */
  lemma {:induction false} PredictedNext(es: seq<Edge>, es': seq<Edge>, pid: nat, x: nat, w: nat)
    requires OneMore(es, es', pid, x)
    ensures Predicted(es', pid, w) <==>
      || (Predicted(es, pid, w) && !(Enters(es, pid, x) && PushedOut(es, pid, x, w)))
      || (w == x && Enters(es, pid, x))
  {
    EntersIff(es, es', pid, x);
    if w != x {
      if Enters(es, pid, x) { OtherPushed(es, es', pid, x, w); } else { OtherStays(es, es', pid, x, w); }
    }
  }

  lemma {:induction false} OneMoreNext(log: seq<Edge>, e: Edge)
    requires e.wakee != 0 && !Quits(log, e.waker)
    ensures OneMore(Last(log, RECENT), Last(log + [e], RECENT), e.waker, e.wakee)
  {
    forall w
      ensures Woken(Last(log + [e], RECENT), e.waker, w) == Woken(Last(log, RECENT), e.waker, w) + One(w == e.wakee)
    {
      WokenNext(log, e, e.waker, w);
    }
  }

  /** What a wakeup does to the waker's own predicted successors, from the counts before it. */
  lemma {:induction false} SuccessorsNext(log: seq<Edge>, e: Edge, w: nat)
    requires e.wakee != 0 && !Quits(log, e.waker)
    ensures var es := Last(log, RECENT);
      w in Successors(log + [e], e.waker) <==>
        || (w in Successors(log, e.waker) && !(Enters(es, e.waker, e.wakee) && PushedOut(es, e.waker, e.wakee, w)))
        || (w == e.wakee && Enters(es, e.waker, e.wakee))
  {
    OneMoreNext(log, e);
    PredictedIff(log, e.waker, w);
    PredictedIff(log + [e], e.waker, w);
    PredictedNext(Last(log, RECENT), Last(log + [e], RECENT), e.waker, e.wakee, w);
  }

  /** The waker's prediction changes exactly when the woken process enters it. */
  lemma {:induction false} SuccessorsKeptIff(log: seq<Edge>, e: Edge)
    requires e.wakee != 0 && !Quits(log, e.waker)
    ensures Successors(log + [e], e.waker) == Successors(log, e.waker)
        <==> !Enters(Last(log, RECENT), e.waker, e.wakee)
  {
    var es, pid, x := Last(log, RECENT), e.waker, e.wakee;
    OneMoreNext(log, e);
    EntersIff(es, Last(log + [e], RECENT), pid, x);
    PredictedIff(log, pid, x);
    SuccessorsNext(log, e, x);
    if !Enters(es, pid, x) {
      forall w
        ensures w in Successors(log + [e], pid) <==> w in Successors(log, pid)
      {
        SuccessorsNext(log, e, w);
      }
    }
  }

  /** When instead an edge of `pid` drops out of the window, its prediction changes exactly when
      the process that edge woke would enter it again. */
  lemma {:induction false} SuccessorsQuitIff(log: seq<Edge>, e: Edge, pid: nat)
    requires (e.waker != pid || e.wakee == 0) && Quits(log, pid) && log[|log| - RECENT].wakee != 0
    ensures Successors(log + [e], pid) == Successors(log, pid)
        <==> !Enters(Last(log + [e], RECENT), pid, log[|log| - RECENT].wakee)
  {
    var es, es', x := Last(log + [e], RECENT), Last(log, RECENT), log[|log| - RECENT].wakee;
    forall w
      ensures Woken(es', pid, w) == Woken(es, pid, w) + One(w == x)
    {
      WokenNext(log, e, pid, w);
    }
    EntersIff(es, es', pid, x);
    PredictedIff(log, pid, x);
    PredictedIff(log + [e], pid, x);
    if !Enters(es, pid, x) {
      forall w
        ensures w in Successors(log + [e], pid) <==> w in Successors(log, pid)
      {
        PredictedIff(log, pid, w);
        PredictedIff(log + [e], pid, w);
        PredictedNext(es, es', pid, x, w);
      }
    }
  }

  /** A process with fewer than four habits: its second wakeup of another process, and no other
      wakeup, makes a new one, and nobody is pushed out. */
  lemma {:induction false} FewHabits(es: seq<Edge>, pid: nat, x: nat)
    requires |WokenBy(es, pid, 2)| < MAX_SUCCESSORS
    ensures Enters(es, pid, x) <==> Woken(es, pid, x) == 1
    ensures forall v :: !PushedOut(es, pid, x, v)
  {
    var n := Woken(es, pid, x);
    SubsetSize(AheadOf(es, pid, x, n + 1), WokenBy(es, pid, 2));
    SubsetSize(AheadOf(es, pid, x, n), WokenBy(es, pid, 2));
    forall v
      ensures !PushedOut(es, pid, x, v)
    {
      if Woken(es, pid, v) >= 2 {
        WokenByIff(es, pid, 2, v);
        RivalIff(es, pid, v, v);
        SubsetSize(Rivals(es, pid, v) + {v}, WokenBy(es, pid, 2));
      }
    }
  }
}
