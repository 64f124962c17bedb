/** When the firing loop of Advise comes to an end. */
module AdviseEnds {
  import opened AdviseList
  import opened Words

  const MIN_TIME := -0x8000_0000_0000_0000

  predicate Due(ps: seq<Item>, t: int) {
    ps != [] && ps[0].time <= t
  }

  /** The list after n turns of the loop, or fewer if nothing is due any more. */
  function Rounds(ps: seq<Item>, t: int, n: nat): seq<Item>
    decreases n
  {
    if n == 0 || !Due(ps, t) then ps else Rounds(Fired(ps), t, n - 1)
  }

  /** All times are 64-bit words below the time of the last sentinel. */
  ghost predicate InRange(ps: seq<Item>) {
    forall i :: 0 <= i < |ps| ==> MIN_TIME <= ps[i].time < MAX_TIME
  }

  /** The loop ends, and no time on the way leaves the 64-bit words or reaches the last sentinel. */
  ghost predicate EndsInRange(ps: seq<Item>, t: int) {
    exists n: nat :: !Due(Rounds(ps, t, n), t) && forall m: nat :: m <= n ==> InRange(Rounds(ps, t, m))
  }

  /** That is so exactly if no periodic packet that is due has a period of zero or less, and none is
      pushed to MAX_TIME by its firings. Packets that are not due do not matter. */
  lemma AdviseEndsIff(ps: seq<Item>, t: int)
    requires Sorted(ps) && InRange(ps)
    ensures EndsInRange(ps, t) <==> NoneStuck(ps, t) && NoneReachesMaxTime(ps, t)
  {
    if EndsInRange(ps, t) {
      var n: nat :| !Due(Rounds(ps, t, n), t) && forall m: nat :: m <= n ==> InRange(Rounds(ps, t, m));
      if i :| 0 <= i < |ps| && Stuck(ps[i], t) {
        StuckForever(ps, t, i, n);
      } else {
        assert InRange(Rounds(ps, t, n));
        LeftInRange(ps, t, n);
      }
    }
    if NoneStuck(ps, t) && NoneReachesMaxTime(ps, t) {
      var n := StaysInRange(ps, t);
    }
  }

  /** Under the same condition the loop with its 64-bit additions is this loop, and ends. */
  lemma EndsInWords(ps: seq<Item>, t: int)
    requires Sorted(ps) && InRange(ps) && NoneStuck(ps, t) && NoneReachesMaxTime(ps, t)
    ensures exists n: nat :: !Due(RoundsInWords(ps, t, n), t)
  {
    var n := StaysInRange(ps, t);
    SameInWords(ps, t, n);
  }

  // ----- It ends in range -----

  lemma {:induction false} StaysInRange(ps: seq<Item>, t: int) returns (n: nat)
    requires Sorted(ps) && InRange(ps) && NoneStuck(ps, t) && NoneReachesMaxTime(ps, t)
    ensures !Due(Rounds(ps, t, n), t) && forall m: nat :: m <= n ==> InRange(Rounds(ps, t, m))
    decreases DueTotal(ps, t)
  {
    n := 0;
    if Due(ps, t) {
      FiredDue(ps, t);
      FiredStaysBelowMaxTime(ps, t);
      FiredInRange(ps, t);
      n := StaysInRange(Fired(ps), t);
      n := n + 1;
      forall m: nat | m <= n
        ensures InRange(Rounds(ps, t, m))
      {
        if m > 0 {
          assert Rounds(ps, t, m) == Rounds(Fired(ps), t, m - 1);
        }
      }
    }
  }

  lemma FiredInRange(ps: seq<Item>, t: int)
    requires InRange(ps) && Due(ps, t) && !Stuck(ps[0], t)
    requires ps[0].periodic ==> ps[0].period < MAX_TIME - ps[0].time
    ensures InRange(Fired(ps))
  {
    if ps[0].periodic {
      InsertLateMembers(ps[1..], Next(ps[0]));
      forall i | 0 <= i < |Fired(ps)|
        ensures MIN_TIME <= Fired(ps)[i].time < MAX_TIME
      {
        assert Fired(ps)[i] in Fired(ps);
      }
    }
  }

  // ----- And only then -----

  lemma {:induction false} RoundsLeave(ps: seq<Item>, t: int, n: nat)
    requires Sorted(ps) && NoneStuck(ps, t) && !Due(Rounds(ps, t, n), t)
    ensures Rounds(ps, t, n) == FireAll(ps, t).1
    decreases n
  {
    if Due(ps, t) {
      FiredDue(ps, t);
      RoundsLeave(Fired(ps), t, n - 1);
    }
  }

  lemma {:induction false} SurvivorIsLeft(ps: seq<Item>, t: int, i: nat)
    requires NoneStuck(ps, t) && i < |ps| && ps[i].periodic
    ensures Advanced(ps[i], t) in Survivors(ps, t)
    decreases i
  {
    if i > 0 {
      SurvivorIsLeft(ps[1..], t, i - 1);
    }
  }

  lemma LeftInRange(ps: seq<Item>, t: int, n: nat)
    requires Sorted(ps) && NoneStuck(ps, t) && !Due(Rounds(ps, t, n), t) && InRange(Rounds(ps, t, n))
    ensures NoneReachesMaxTime(ps, t)
  {
    RoundsLeave(ps, t, n);
    FireAllLeaves(ps, t);
    var left := FireAll(ps, t).1;
    forall i | 0 <= i < |ps| && ps[i].periodic && ps[i].time <= t
      ensures Advanced(ps[i], t).time < MAX_TIME
    {
      SurvivorIsLeft(ps, t, i);
      assert Advanced(ps[i], t) in multiset(left);
      assert Advanced(ps[i], t) in left;
    }
  }

  lemma {:induction false} StuckForever(ps: seq<Item>, t: int, i: nat, n: nat)
    requires Sorted(ps) && i < |ps| && Stuck(ps[i], t)
    ensures Due(Rounds(ps, t, n), t)
    decreases n
  {
    if n > 0 {
      var j := StaysStuck(ps, t, i);
      StuckForever(Fired(ps), t, j, n - 1);
    }
  }

  lemma StaysStuck(ps: seq<Item>, t: int, i: nat) returns (j: nat)
    requires Sorted(ps) && i < |ps| && Stuck(ps[i], t)
    ensures Sorted(Fired(ps)) && j < |Fired(ps)| && Stuck(Fired(ps)[j], t)
  {
    hide InsertLate;
    var rest, p := ps[1..], if i == 0 then Next(ps[0]) else ps[i];
    if ps[0].periodic {
      InsertLateSorts(rest, Next(ps[0]));
      assert i > 0 ==> rest[i - 1] == p;
      assert p in multiset(InsertLate(rest, Next(ps[0])));
    } else {
      assert rest[i - 1] == p;
    }
    j :| 0 <= j < |Fired(ps)| && Fired(ps)[j] == p;
  }

  // ----- The additions of the source -----

  /** The list after its first packet has fired, with the new time in a 64-bit word. */
  function FiredInWords(ps: seq<Item>): seq<Item>
    requires ps != []
  {
    var p := ps[0];
    if p.periodic then InsertLate(ps[1..], p.(time := ToI64(p.time + p.period))) else ps[1..]
  }

  function RoundsInWords(ps: seq<Item>, t: int, n: nat): seq<Item>
    decreases n
  {
    if n == 0 || !Due(ps, t) then ps else RoundsInWords(FiredInWords(ps), t, n - 1)
  }

  /** A sum that stays in range is the same in a 64-bit word. */
  lemma SameStep(ps: seq<Item>)
    requires ps != [] && MIN_TIME <= ps[0].time
    requires ps[0].periodic ==> 0 < ps[0].period < MAX_TIME - ps[0].time
    ensures FiredInWords(ps) == Fired(ps)
  {
    hide InsertLate;
  }

  lemma {:induction false} SameInWords(ps: seq<Item>, t: int, n: nat)
    requires Sorted(ps) && InRange(ps) && NoneStuck(ps, t) && NoneReachesMaxTime(ps, t)
    ensures RoundsInWords(ps, t, n) == Rounds(ps, t, n)
    decreases n
  {
    hide Fired, FiredInWords, NoneReachesMaxTime, Sorted, DueTotal;
    if n > 0 && Due(ps, t) {
      FiredDue(ps, t);
      FiredStaysBelowMaxTime(ps, t);
      FiredInRange(ps, t);
      SameStep(ps);
      SameInWords(Fired(ps), t, n - 1);
    }
  }

  const QUARTER := 0x4000_0000_0000_0000

  function Wrapping(time: int): Item {
    Item(1, time, QUARTER, 0, true)
  }

  /** For example: a packet whose times wrap, 0, 2^62, -2^63, -2^62 and 0 again. No periodic packet
      has a period of zero or less, and still something is due after every turn. */
  lemma TimesWrap(n: nat)
    ensures var ps, t := [Wrapping(0)], MAX_TIME - 1;
      && InRange(ps) && NoneStuck(ps, t) && !NoneReachesMaxTime(ps, t)
      && Due(RoundsInWords(ps, t, n), t)
  {
    var p, t := Wrapping(0), MAX_TIME - 1;
    AdvancedIsFirstAfter(p, t);
    assert [p][0] == p;
    WrapsOn(0, n);
  }

  lemma {:induction false} WrapsOn(time: int, n: nat)
    requires time in {0, QUARTER, MIN_TIME, MIN_TIME + QUARTER}
    ensures Due(RoundsInWords([Wrapping(time)], MAX_TIME - 1, n), MAX_TIME - 1)
    decreases n
  {
    if n > 0 {
      var next := ToI64(time + QUARTER);
      assert FiredInWords([Wrapping(time)]) == [Wrapping(next)];
      WrapsOn(next, n - 1);
    }
  }
}
