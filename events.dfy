/**
 * The choice of the next event in `World.evolve`: the two nested loops
 * visit, for every object i in turn, the collision with every other object
 * j and then the wall collision of i, and keep a candidate only when its
 * time is strictly below the best so far. Here that scan is a left fold
 * over the same sequence of candidate events, computed on the bodies of
 * the world's objects in their iteration order.
 */
module Events {
  import opened Numerics
  import opened Physics

  /** A candidate event: objects i and j meet, or object i reaches a wall. */
  datatype Event = Collide(i: nat, j: nat) | Wall(i: nat)

  /** The best candidate so far: its time, and which event it is (none at the start). */
  datatype Pick = Pick(t: Time, e: Option<Event>)

  /** The time of an event; an event naming an object that does not exist has no time. */
  function EventTime(bs: seq<Body>, width: real, height: real, sqrt: real -> real, e: Event): Time
  {
    match e
    case Collide(i, j) => if i < |bs| && j < |bs| then CollisionTime(bs[i], bs[j], sqrt) else Undefined
    case Wall(i) => if i < |bs| then BoundaryTime(bs[i], width, height) else Undefined
  }

  /** One comparison of the scan: `if (time < timeToFirstCollision)` take the candidate. */
  function Consider(p: Pick, t: Time, e: Event): (r: Pick)
    ensures Less(t, p.t) ==> r == Pick(t, Some(e))
    ensures !Less(t, p.t) ==> r == p
  {
    if Less(t, p.t) then Pick(t, Some(e)) else p
  }

  /** The collisions of object i with objects 0 .. j-1 other than itself, in loop order. */
  function PairRow(i: nat, j: nat): seq<Event>
  {
    if j == 0 then []
    else PairRow(i, j - 1) + (if j - 1 != i then [Collide(i, j - 1)] else [])
  }

  /** What one pass of the outer loop considers for object i among n objects. */
  function Row(n: nat, i: nat): seq<Event>
  {
    PairRow(i, n) + [Wall(i)]
  }

  /** The candidates of the first i passes of the outer loop. */
  function Rows(n: nat, i: nat): seq<Event>
  {
    if i == 0 then [] else Rows(n, i - 1) + Row(n, i - 1)
  }

  /** One more step of the inner loop appends the pair (i, j) when j is not i... */
  lemma InnerStep(front: seq<Event>, i: nat, j: nat)
    requires j != i
    ensures front + PairRow(i, j + 1) == (front + PairRow(i, j)) + [Collide(i, j)]
  {
  }

  /** ... and nothing when it is. */
  lemma InnerStepSkips(i: nat)
    ensures PairRow(i, i + 1) == PairRow(i, i)
  {
  }

  /** One more step of the outer loop appends object i's row. */
  lemma OuterStep(n: nat, i: nat)
    ensures Rows(n, i + 1) == Rows(n, i) + PairRow(i, n) + [Wall(i)]
  {
  }

  /** All candidates of one search, in the order the loops visit them. */
  function Schedule(n: nat): seq<Event>
  {
    Rows(n, n)
  }

  /** The scan over a sequence of candidates, starting from an infinite time and no event. */
  function Scan(bs: seq<Body>, width: real, height: real, sqrt: real -> real, es: seq<Event>): Pick
  {
    if |es| == 0 then Pick(Infinite, None)
    else
      var last := es[|es| - 1];
      Consider(Scan(bs, width, height, sqrt, es[..|es| - 1]), EventTime(bs, width, height, sqrt, last), last)
  }

  /** The event the search of `evolve` settles on. */
  function FirstEvent(bs: seq<Body>, width: real, height: real, sqrt: real -> real): Pick
  {
    Scan(bs, width, height, sqrt, Schedule(|bs|))
  }

  /**
   * The two nested loops of `evolve` over bodies bs: for every i, the
   * collision time with every j other than i, then the wall time of i,
   * each kept when it is strictly below the best so far.
   */
  method SearchFirstEvent(bs: seq<Body>, width: real, height: real, sqrt: real -> real) returns (p: Pick)
    ensures p == FirstEvent(bs, width, height, sqrt)
  {
    var n := |bs|;
    p := Pick(Infinite, None);
    for i := 0 to n
      invariant p == Scan(bs, width, height, sqrt, Rows(n, i))
    {
      p := SearchPairs(bs, width, height, sqrt, i, p);
      var tb := EventTime(bs, width, height, sqrt, Wall(i));
      ghost var es := Rows(n, i) + PairRow(i, n);
      ScanAppend(bs, width, height, sqrt, es, Wall(i));
      OuterStep(n, i);
      assert Rows(n, i + 1) == es + [Wall(i)];
      if Less(tb, p.t) {
        p := Pick(tb, Some(Wall(i)));
      }
    }
  }

  /** The inner loop: body i against every other body, in order. */
  method SearchPairs(bs: seq<Body>, width: real, height: real, sqrt: real -> real, i: nat, p0: Pick) returns (p: Pick)
    requires i < |bs|
    requires p0 == Scan(bs, width, height, sqrt, Rows(|bs|, i))
    ensures p == Scan(bs, width, height, sqrt, Rows(|bs|, i) + PairRow(i, |bs|))
  {
    var n := |bs|;
    ghost var front := Rows(n, i);
    p := p0;
    assert front + PairRow(i, 0) == front;
    for j := 0 to n
      invariant p == Scan(bs, width, height, sqrt, front + PairRow(i, j))
    {
      if i != j {
        var t := EventTime(bs, width, height, sqrt, Collide(i, j));
        ScanAppend(bs, width, height, sqrt, front + PairRow(i, j), Collide(i, j));
        InnerStep(front, i, j);
        if Less(t, p.t) {
          p := Pick(t, Some(Collide(i, j)));
        }
      } else {
        InnerStepSkips(i);
      }
    }
  }

  /** Extending the candidates by one is one more comparison. */
  lemma ScanAppend(bs: seq<Body>, width: real, height: real, sqrt: real -> real, es: seq<Event>, e: Event)
    ensures Scan(bs, width, height, sqrt, es + [e])
         == Consider(Scan(bs, width, height, sqrt, es), EventTime(bs, width, height, sqrt, e), e)
  {
    assert (es + [e])[..|es|] == es;
  }

  lemma LessIsTransitive(a: Time, b: Time, c: Time)
    requires Less(a, b) && Less(b, c)
    ensures Less(a, c)
  {
  }

  /** No candidate is strictly earlier than the one the scan keeps. */
  lemma {:induction false} ScanIsMinimal(bs: seq<Body>, width: real, height: real, sqrt: real -> real, es: seq<Event>)
    ensures forall k :: 0 <= k < |es| ==> !Less(EventTime(bs, width, height, sqrt, es[k]), Scan(bs, width, height, sqrt, es).t)
  {
    if |es| > 0 {
      var init, last := es[..|es| - 1], es[|es| - 1];
      ScanIsMinimal(bs, width, height, sqrt, init);
      var p := Scan(bs, width, height, sqrt, init);
      var tl := EventTime(bs, width, height, sqrt, last);
      forall k | 0 <= k < |es|
        ensures !Less(EventTime(bs, width, height, sqrt, es[k]), Scan(bs, width, height, sqrt, es).t)
      {
        if k < |es| - 1 {
          assert es[k] == init[k];
          if Less(tl, p.t) && Less(EventTime(bs, width, height, sqrt, es[k]), tl) {
            LessIsTransitive(EventTime(bs, width, height, sqrt, es[k]), tl, p.t);
          }
        }
      }
    }
  }

  /**
   * The scan keeps a candidate with a finite time and reports that time,
   * or keeps none and reports an infinite time: a NaN or infinite time is
   * never chosen.
   */
  lemma {:induction false} ScanPicksACandidate(bs: seq<Body>, width: real, height: real, sqrt: real -> real, es: seq<Event>)
    ensures Scan(bs, width, height, sqrt, es).e.None? ==> Scan(bs, width, height, sqrt, es).t == Infinite
    ensures Scan(bs, width, height, sqrt, es).e.Some? ==>
              Scan(bs, width, height, sqrt, es).e.value in es
              && Scan(bs, width, height, sqrt, es).t.Finite?
              && Scan(bs, width, height, sqrt, es).t == EventTime(bs, width, height, sqrt, Scan(bs, width, height, sqrt, es).e.value)
  {
    if |es| > 0 {
      ScanPicksACandidate(bs, width, height, sqrt, es[..|es| - 1]);
      assert es == es[..|es| - 1] + [es[|es| - 1]];
    }
  }

  /**
   * On a tie the candidate visited first stays: every candidate before the
   * kept one has a strictly later time, or none.
   */
  lemma {:induction false} ScanKeepsFirstOfTies(bs: seq<Body>, width: real, height: real, sqrt: real -> real, es: seq<Event>, k: nat)
    requires k < |es|
    requires Scan(bs, width, height, sqrt, es).e.Some?
    requires EventTime(bs, width, height, sqrt, es[k]) == Scan(bs, width, height, sqrt, es).t
    ensures Scan(bs, width, height, sqrt, es) == Scan(bs, width, height, sqrt, es[..k + 1])
  {
    var p := Scan(bs, width, height, sqrt, es);
    if k < |es| - 1 {
      var init, last := es[..|es| - 1], es[|es| - 1];
      var q := Scan(bs, width, height, sqrt, init);
      var tl := EventTime(bs, width, height, sqrt, last);
      ScanIsMinimal(bs, width, height, sqrt, init);
      assert es[k] == init[k];
      if Less(tl, q.t) {
        assert false;
      }
      assert p == q;
      ScanKeepsFirstOfTies(bs, width, height, sqrt, init, k);
      assert init[..k + 1] == es[..k + 1];
    } else {
      assert es[..k + 1] == es;
    }
  }

  // The schedule covers every pair of distinct objects and every wall time.

  lemma {:induction false} PairRowHasPairs(i: nat, j: nat, k: nat)
    requires k < j && k != i
    ensures Collide(i, k) in PairRow(i, j)
  {
    if k < j - 1 {
      PairRowHasPairs(i, j - 1, k);
    }
  }

  lemma {:induction false} PairRowHasOnlyPairsOfI(i: nat, j: nat)
    ensures forall e :: e in PairRow(i, j) ==> e.Collide? && e.i == i && e.j < j && e.j != i
  {
    if j > 0 {
      PairRowHasOnlyPairsOfI(i, j - 1);
    }
  }

  lemma {:induction false} RowsHaveRows(n: nat, i: nat, k: nat)
    requires k < i
    ensures forall e :: e in Row(n, k) ==> e in Rows(n, i)
  {
    if k < i - 1 {
      RowsHaveRows(n, i - 1, k);
    }
  }

  lemma {:induction false} RowsAreInRange(n: nat, i: nat)
    requires i <= n
    ensures forall e :: e in Rows(n, i) ==>
              (e.Collide? && e.i < i && e.j < n && e.i != e.j) || (e.Wall? && e.i < i)
  {
    if i > 0 {
      RowsAreInRange(n, i - 1);
      PairRowHasOnlyPairsOfI(i - 1, n);
      var front, row := Rows(n, i - 1), Row(n, i - 1);
      assert Rows(n, i) == front + row;
      forall e | e in Rows(n, i)
        ensures (e.Collide? && e.i < i && e.j < n && e.i != e.j) || (e.Wall? && e.i < i)
      {
        if e !in front {
          assert e in PairRow(i - 1, n) || e == Wall(i - 1);
        }
      }
    }
  }

  /** Every ordered pair of distinct objects and every object's wall are candidates, and nothing else. */
  lemma ScheduleIsComplete(n: nat)
    ensures forall i, j :: 0 <= i < n && 0 <= j < n && i != j ==> Collide(i, j) in Schedule(n)
    ensures forall i :: 0 <= i < n ==> Wall(i) in Schedule(n)
    ensures forall e :: e in Schedule(n) ==>
              (e.Collide? && e.i < n && e.j < n && e.i != e.j) || (e.Wall? && e.i < n)
  {
    forall i, j | 0 <= i < n && 0 <= j < n && i != j
      ensures Collide(i, j) in Schedule(n)
    {
      PairRowHasPairs(i, n, j);
      RowsHaveRows(n, n, i);
    }
    forall i | 0 <= i < n
      ensures Wall(i) in Schedule(n)
    {
      RowsHaveRows(n, n, i);
    }
    RowsAreInRange(n, n);
  }

  /**
   * The event `evolve` picks is not later than any collision between two
   * distinct objects or any wall collision: the strict minimum of all of them.
   */
  lemma FirstEventIsEarliest(bs: seq<Body>, width: real, height: real, sqrt: real -> real)
    ensures forall i, j :: 0 <= i < |bs| && 0 <= j < |bs| && i != j ==>
              !Less(CollisionTime(bs[i], bs[j], sqrt), FirstEvent(bs, width, height, sqrt).t)
    ensures forall i :: 0 <= i < |bs| ==>
              !Less(BoundaryTime(bs[i], width, height), FirstEvent(bs, width, height, sqrt).t)
  {
    var es := Schedule(|bs|);
    ScheduleIsComplete(|bs|);
    ScanIsMinimal(bs, width, height, sqrt, es);
    forall i, j | 0 <= i < |bs| && 0 <= j < |bs| && i != j
      ensures !Less(CollisionTime(bs[i], bs[j], sqrt), FirstEvent(bs, width, height, sqrt).t)
    {
      var k :| 0 <= k < |es| && es[k] == Collide(i, j);
      assert EventTime(bs, width, height, sqrt, es[k]) == CollisionTime(bs[i], bs[j], sqrt);
    }
    forall i | 0 <= i < |bs|
      ensures !Less(BoundaryTime(bs[i], width, height), FirstEvent(bs, width, height, sqrt).t)
    {
      var k :| 0 <= k < |es| && es[k] == Wall(i);
      assert EventTime(bs, width, height, sqrt, es[k]) == BoundaryTime(bs[i], width, height);
    }
  }

  /** The picked event names existing objects (two distinct ones for a collision) and has a finite time. */
  lemma FirstEventIsACandidate(bs: seq<Body>, width: real, height: real, sqrt: real -> real)
    ensures FirstEvent(bs, width, height, sqrt).e.None? ==> FirstEvent(bs, width, height, sqrt).t == Infinite
    ensures FirstEvent(bs, width, height, sqrt).e.Some? ==>
              var e := FirstEvent(bs, width, height, sqrt).e.value;
              FirstEvent(bs, width, height, sqrt).t.Finite?
              && (e.Collide? ==> e.i < |bs| && e.j < |bs| && e.i != e.j
                                 && FirstEvent(bs, width, height, sqrt).t == CollisionTime(bs[e.i], bs[e.j], sqrt))
              && (e.Wall? ==> e.i < |bs| && FirstEvent(bs, width, height, sqrt).t == BoundaryTime(bs[e.i], width, height))
  {
    ScheduleIsComplete(|bs|);
    ScanPicksACandidate(bs, width, height, sqrt, Schedule(|bs|));
  }
}
