/** The advise list as a value: where packets are inserted, and what firing them up to a time does. */
module AdviseList {
  import opened Words

  const MAX_TIME := 0x7FFF_FFFF_FFFF_FFFF

  /** An advise packet: its cookie, the time it is due, its period and what it notifies. */
  datatype Item = Item(cookie: nat, time: int, period: int, notify: int, periodic: bool)

  /** One notification: a semaphore release for a periodic packet, an event set for a one-shot. */
  datatype Firing = Firing(cookie: nat, time: int, notify: int, periodic: bool)

  ghost predicate Sorted(ps: seq<Item>) {
    forall i, j :: 0 <= i < j < |ps| ==> ps[i].time <= ps[j].time
  }

  ghost predicate DistinctCookies(ps: seq<Item>) {
    forall i, j :: 0 <= i < j < |ps| ==> ps[i].cookie != ps[j].cookie
  }

  // ----- Insertion -----

  /** A new packet goes before the first packet that is not due earlier. */
  function Insert(ps: seq<Item>, p: Item): seq<Item> {
    if ps == [] || ps[0].time >= p.time then [p] + ps else [ps[0]] + Insert(ps[1..], p)
  }

  /** A packet that has fired goes before the first packet that is due later. */
  function InsertLate(ps: seq<Item>, p: Item): seq<Item> {
    if ps == [] || ps[0].time > p.time then [p] + ps else [ps[0]] + InsertLate(ps[1..], p)
  }

  lemma {:induction false} InsertSplices(ps: seq<Item>, p: Item, i: nat)
    requires i <= |ps| && (forall j :: 0 <= j < i ==> ps[j].time < p.time)
    requires i < |ps| ==> ps[i].time >= p.time
    ensures Insert(ps, p) == ps[..i] + [p] + ps[i..]
  {
    if i > 0 {
      InsertSplices(ps[1..], p, i - 1);
      assert ps[..i] == [ps[0]] + ps[1..][..i - 1];
    }
  }

  lemma {:induction false} InsertLateSplices(ps: seq<Item>, p: Item, i: nat)
    requires i <= |ps| && (forall j :: 0 <= j < i ==> ps[j].time <= p.time)
    requires i < |ps| ==> ps[i].time > p.time
    ensures InsertLate(ps, p) == ps[..i] + [p] + ps[i..]
  {
    if i > 0 {
      InsertLateSplices(ps[1..], p, i - 1);
      assert ps[..i] == [ps[0]] + ps[1..][..i - 1];
    }
  }

  lemma SortedCons(x: Item, ps: seq<Item>, r: seq<Item>, p: Item)
    requires Sorted(r) && x.time <= p.time
    requires forall i :: 0 <= i < |ps| ==> x.time <= ps[i].time
    requires r == ps || multiset(r) == multiset(ps) + multiset{p}
    ensures Sorted([x] + r)
  {
    forall i | 0 <= i < |r|
      ensures x.time <= r[i].time
    {
      assert r[i] in multiset(r);
    }
  }

  /** Inserting into a sorted list keeps it sorted and adds exactly the packet. */
  lemma {:induction false} InsertSorts(ps: seq<Item>, p: Item)
    requires Sorted(ps)
    ensures Sorted(Insert(ps, p)) && multiset(Insert(ps, p)) == multiset(ps) + multiset{p}
  {
    if ps == [] {
    } else if ps[0].time < p.time {
      InsertSorts(ps[1..], p);
      assert ps == [ps[0]] + ps[1..];
      SortedCons(ps[0], ps[1..], Insert(ps[1..], p), p);
    } else {
      SortedCons(p, ps, ps, p);
    }
  }

  lemma {:induction false} InsertLateSorts(ps: seq<Item>, p: Item)
    requires Sorted(ps)
    ensures Sorted(InsertLate(ps, p)) && multiset(InsertLate(ps, p)) == multiset(ps) + multiset{p}
  {
    if ps == [] {
    } else if ps[0].time <= p.time {
      InsertLateSorts(ps[1..], p);
      assert ps == [ps[0]] + ps[1..];
      SortedCons(ps[0], ps[1..], InsertLate(ps[1..], p), p);
    } else {
      SortedCons(p, ps, ps, p);
    }
  }

  lemma {:induction false} InsertKeepsCookies(ps: seq<Item>, p: Item)
    requires DistinctCookies(ps) && forall i :: 0 <= i < |ps| ==> ps[i].cookie != p.cookie
    ensures DistinctCookies(Insert(ps, p))
    ensures forall q :: q in Insert(ps, p) <==> q == p || q in ps
  {
    if ps != [] && ps[0].time < p.time {
      InsertKeepsCookies(ps[1..], p);
      assert ps == [ps[0]] + ps[1..];
      forall q | q in Insert(ps[1..], p)
        ensures q.cookie != ps[0].cookie
      {
      }
    }
  }

  // ----- Firing -----

  /** A packet that is due and never gets past t, however often it fires. */
  predicate Stuck(p: Item, t: int) {
    p.periodic && p.time <= t && p.period <= 0
  }

  /** How often a packet is due up to t. */
  function DueCount(p: Item, t: int): nat
    requires !Stuck(p, t)
  {
    if p.time > t then 0 else if p.periodic then (t - p.time) / p.period + 1 else 1
  }

  ghost predicate NoneStuck(ps: seq<Item>, t: int) {
    forall i :: 0 <= i < |ps| ==> !Stuck(ps[i], t)
  }

  /** How many firings are still due up to t: the measure of the firing loop. */
  function DueTotal(ps: seq<Item>, t: int): nat
    requires NoneStuck(ps, t)
  {
    if ps == [] then 0 else DueCount(ps[0], t) + DueTotal(ps[1..], t)
  }

  /** The list after its first packet has fired. */
  function Fired(ps: seq<Item>): seq<Item>
    requires ps != []
  {
    if ps[0].periodic then InsertLate(ps[1..], Next(ps[0])) else ps[1..]
  }

  function Next(p: Item): Item {
    p.(time := p.time + p.period)
  }

  function FiringOf(p: Item): Firing {
    Firing(p.cookie, p.time, p.notify, p.periodic)
  }

  lemma {:induction false} FiredDue(ps: seq<Item>, t: int)
    requires ps != [] && ps[0].time <= t && NoneStuck(ps, t) && Sorted(ps)
    ensures NoneStuck(Fired(ps), t) && Sorted(Fired(ps))
    ensures DueTotal(Fired(ps), t) == DueTotal(ps, t) - 1
  {
    if ps[0].periodic {
      OneFewer(ps[0], t);
      InsertLateSorts(ps[1..], Next(ps[0]));
      DueInsertLate(ps[1..], Next(ps[0]), t);
    }
  }

  lemma OneFewer(p: Item, t: int)
    requires p.periodic && p.period > 0 && p.time <= t
    ensures DueCount(Next(p), t) == DueCount(p, t) - 1
  {
    var d, k := t - p.time, p.period;
    var q, r := d / k, d % k;
    assert d == q * k + r;
    if d >= k {
      assert d - k == (q - 1) * k + r;
      QuotientUnique(d - k, q - 1, k, r);
    } else {
      QuotientUnique(d, 0, k, d);
    }
  }

  lemma {:induction false} DueInsertLate(ps: seq<Item>, p: Item, t: int)
    requires NoneStuck(ps, t) && !Stuck(p, t)
    ensures NoneStuck(InsertLate(ps, p), t)
    ensures DueTotal(InsertLate(ps, p), t) == DueCount(p, t) + DueTotal(ps, t)
  {
    if ps == [] || ps[0].time > p.time {
      assert ([p] + ps)[1..] == ps;
    } else {
      DueInsertLate(ps[1..], p, t);
      assert ([ps[0]] + InsertLate(ps[1..], p))[1..] == InsertLate(ps[1..], p);
    }
  }

  /** What firing everything due up to t notifies, in order, and the list it leaves. */
  function FireAll(ps: seq<Item>, t: int): (seq<Firing>, seq<Item>)
    requires NoneStuck(ps, t) && Sorted(ps)
    decreases DueTotal(ps, t)
  {
    if ps == [] || ps[0].time > t then ([], ps)
    else
      FiredDue(ps, t);
      var r := FireAll(Fired(ps), t);
      ([FiringOf(ps[0])] + r.0, r.1)
  }

  /** The time Advise returns: the least time left, MAX_TIME when nothing is left. */
  function NextTime(ps: seq<Item>): int {
    if ps == [] then MAX_TIME else ps[0].time
  }

  // ----- What each packet gets -----

  /** The times a packet is due up to t, one period apart. */
  function Ticks(p: Item, t: int): seq<int>
    requires !Stuck(p, t)
    decreases DueCount(p, t)
  {
    if p.time > t then []
    else if !p.periodic then [p.time]
    else
      OneFewer(p, t);
      [p.time] + Ticks(Next(p), t)
  }

  /** The times at which the packet with a cookie fired. */
  function TimesOf(fs: seq<Firing>, cookie: nat): seq<int> {
    if fs == [] then []
    else (if fs[0].cookie == cookie then [fs[0].time] else []) + TimesOf(fs[1..], cookie)
  }

  /** There are exactly (t - time) / period + 1 ticks, the k-th of them at time + k * period. */
  lemma {:induction false} TicksAre(p: Item, t: int)
    requires !Stuck(p, t)
    ensures |Ticks(p, t)| == DueCount(p, t)
    ensures forall k :: 0 <= k < |Ticks(p, t)| ==> Ticks(p, t)[k] == p.time + k * p.period
    decreases DueCount(p, t)
  {
    if p.time <= t && p.periodic {
      OneFewer(p, t);
      TicksAre(Next(p), t);
    }
  }

  /** A packet after everything due up to t has fired: a periodic one at its first tick after t. */
  function Advanced(p: Item, t: int): Item
    requires !Stuck(p, t)
  {
    if p.periodic then p.(time := p.time + DueCount(p, t) * p.period) else p
  }

  lemma AdvancedIsFirstAfter(p: Item, t: int)
    requires p.periodic && p.period > 0 && p.time <= t
    ensures t < Advanced(p, t).time <= t + p.period
  {
    var d, k := t - p.time, p.period;
    assert d == (d / k) * k + d % k;
    assert (d / k + 1) * k == (d / k) * k + k;
  }

  /** The packets that outlive t: all but the one-shot packets due by t. */
  function Survivors(ps: seq<Item>, t: int): seq<Item>
    requires NoneStuck(ps, t)
  {
    if ps == [] then []
    else (if !ps[0].periodic && ps[0].time <= t then [] else [Advanced(ps[0], t)]) + Survivors(ps[1..], t)
  }

  lemma {:induction false} SurvivorsInsertLate(ps: seq<Item>, p: Item, t: int)
    requires NoneStuck(ps, t) && p.periodic && p.period > 0
    ensures NoneStuck(InsertLate(ps, p), t)
    ensures multiset(Survivors(InsertLate(ps, p), t)) == multiset(Survivors(ps, t)) + multiset{Advanced(p, t)}
  {
    if ps == [] || ps[0].time > p.time {
      assert ([p] + ps)[1..] == ps;
    } else {
      SurvivorsInsertLate(ps[1..], p, t);
      assert ([ps[0]] + InsertLate(ps[1..], p))[1..] == InsertLate(ps[1..], p);
    }
  }

  lemma SurvivorsFired(ps: seq<Item>, t: int)
    requires ps != [] && ps[0].time <= t && NoneStuck(ps, t)
    ensures NoneStuck(Fired(ps), t)
    ensures multiset(Survivors(Fired(ps), t)) == multiset(Survivors(ps, t))
  {
    if ps[0].periodic {
      var p := ps[0];
      OneFewer(p, t);
      assert Advanced(Next(p), t) == Advanced(p, t) by {
        assert p.time + p.period + (DueCount(p, t) - 1) * p.period == p.time + DueCount(p, t) * p.period;
      }
      SurvivorsInsertLate(ps[1..], Next(p), t);
    }
  }

  lemma {:induction false} NothingDue(ps: seq<Item>, t: int)
    requires NoneStuck(ps, t) && forall i :: 0 <= i < |ps| ==> ps[i].time > t
    ensures Survivors(ps, t) == ps
  {
    if ps != [] {
      NothingDue(ps[1..], t);
      assert ps == [ps[0]] + ps[1..];
    }
  }

  /** The list that is left is sorted, has nothing due, and consists of the survivors. */
  lemma {:induction false} FireAllLeaves(ps: seq<Item>, t: int)
    requires NoneStuck(ps, t) && Sorted(ps)
    ensures var left := FireAll(ps, t).1;
      && Sorted(left) && NoneStuck(left, t)
      && multiset(left) == multiset(Survivors(ps, t))
      && (t < MAX_TIME ==> t < NextTime(left))
      && (forall i :: 0 <= i < |left| ==> NextTime(left) <= left[i].time)
      && (left == [] ==> NextTime(left) == MAX_TIME)
      && (left != [] ==> exists i :: 0 <= i < |left| && NextTime(left) == left[i].time)
    decreases DueTotal(ps, t)
  {
    if ps == [] || ps[0].time > t {
      NothingDue(ps, t);
    } else {
      FiredDue(ps, t);
      SurvivorsFired(ps, t);
      FireAllLeaves(Fired(ps), t);
    }
  }

  /** The firings come in the order of their times, none before the first packet's. */
  lemma {:induction false} FireAllInOrder(ps: seq<Item>, t: int)
    requires NoneStuck(ps, t) && Sorted(ps)
    ensures var fs := FireAll(ps, t).0;
      && |fs| == DueTotal(ps, t)
      && (forall i, j :: 0 <= i < j < |fs| ==> fs[i].time <= fs[j].time)
      && forall i :: 0 <= i < |fs| ==> NextTime(ps) <= fs[i].time <= t
    decreases DueTotal(ps, t)
  {
    if ps == [] || ps[0].time > t {
      NoneDue(ps, t);
    } else {
      FiredDue(ps, t);
      FireAllInOrder(Fired(ps), t);
      FiredNotEarlier(ps, t);
    }
  }

  lemma {:induction false} NoneDue(ps: seq<Item>, t: int)
    requires NoneStuck(ps, t) && Sorted(ps) && (ps == [] || ps[0].time > t)
    ensures DueTotal(ps, t) == 0
  {
    if ps != [] {
      NoneDue(ps[1..], t);
    }
  }

  lemma FiredNotEarlier(ps: seq<Item>, t: int)
    requires ps != [] && ps[0].time <= t && NoneStuck(ps, t) && Sorted(ps)
    ensures Fired(ps) != [] ==> ps[0].time <= NextTime(Fired(ps))
  {
  }

  /** Each packet fires exactly at its ticks. */
  lemma {:induction false} FireAllTicks(ps: seq<Item>, t: int, cookie: nat)
    requires NoneStuck(ps, t) && Sorted(ps) && DistinctCookies(ps)
    ensures TimesOf(FireAll(ps, t).0, cookie) == TicksOf(ps, t, cookie)
    decreases DueTotal(ps, t)
  {
    if ps == [] || ps[0].time > t {
      NoTicks(ps, t, cookie);
    } else {
      FiredDue(ps, t);
      FiredKeepsCookies(ps);
      FireAllTicks(Fired(ps), t, cookie);
      FiredTicks(ps, t, cookie);
      var r := FireAll(Fired(ps), t).0;
      assert ([FiringOf(ps[0])] + r)[1..] == r;
    }
  }

  /** The ticks of the packet that has the cookie; none if there is no such packet. */
  function TicksOf(ps: seq<Item>, t: int, cookie: nat): seq<int>
    requires NoneStuck(ps, t)
  {
    if ps == [] then []
    else if ps[0].cookie == cookie then Ticks(ps[0], t)
    else TicksOf(ps[1..], t, cookie)
  }

  lemma {:induction false} NoTicks(ps: seq<Item>, t: int, cookie: nat)
    requires NoneStuck(ps, t) && Sorted(ps) && (ps == [] || ps[0].time > t)
    ensures TicksOf(ps, t, cookie) == []
  {
    if ps != [] {
      NoTicks(ps[1..], t, cookie);
    }
  }

  lemma {:induction false} TicksOfAt(ps: seq<Item>, t: int, i: nat)
    requires NoneStuck(ps, t) && DistinctCookies(ps) && i < |ps|
    ensures TicksOf(ps, t, ps[i].cookie) == Ticks(ps[i], t)
  {
    if i > 0 {
      TicksOfAt(ps[1..], t, i - 1);
    }
  }

  lemma {:induction false} NoTicksOfStranger(ps: seq<Item>, t: int, cookie: nat)
    requires NoneStuck(ps, t) && forall i :: 0 <= i < |ps| ==> ps[i].cookie != cookie
    ensures TicksOf(ps, t, cookie) == []
  {
    if ps != [] {
      NoTicksOfStranger(ps[1..], t, cookie);
    }
  }

  lemma {:induction false} TicksInsertLate(ps: seq<Item>, p: Item, t: int, cookie: nat)
    requires NoneStuck(ps, t) && p.periodic && p.period > 0
    requires forall i :: 0 <= i < |ps| ==> ps[i].cookie != p.cookie
    ensures NoneStuck(InsertLate(ps, p), t)
    ensures TicksOf(InsertLate(ps, p), t, cookie)
      == if cookie == p.cookie then Ticks(p, t) else TicksOf(ps, t, cookie)
  {
    if ps == [] || ps[0].time > p.time {
      assert ([p] + ps)[1..] == ps;
    } else {
      TicksInsertLate(ps[1..], p, t, cookie);
      assert ([ps[0]] + InsertLate(ps[1..], p))[1..] == InsertLate(ps[1..], p);
    }
  }

  lemma FiredTicks(ps: seq<Item>, t: int, cookie: nat)
    requires ps != [] && ps[0].time <= t && NoneStuck(ps, t) && Sorted(ps) && DistinctCookies(ps)
    ensures NoneStuck(Fired(ps), t)
    ensures TicksOf(ps, t, cookie)
         == (if ps[0].cookie == cookie then [ps[0].time] else []) + TicksOf(Fired(ps), t, cookie)
  {
    var p := ps[0];
    if p.periodic {
      OneFewer(p, t);
      TicksInsertLate(ps[1..], Next(p), t, cookie);
    } else if p.cookie == cookie {
      NoTicksOfStranger(ps[1..], t, cookie);
    }
  }

  lemma {:induction false} InsertLateKeepsCookies(ps: seq<Item>, p: Item)
    requires DistinctCookies(ps) && forall i :: 0 <= i < |ps| ==> ps[i].cookie != p.cookie
    ensures DistinctCookies(InsertLate(ps, p))
    ensures forall q :: q in InsertLate(ps, p) <==> q == p || q in ps
  {
    if ps != [] && ps[0].time <= p.time {
      InsertLateKeepsCookies(ps[1..], p);
      assert ps == [ps[0]] + ps[1..];
      forall q | q in InsertLate(ps[1..], p)
        ensures q.cookie != ps[0].cookie
      {
      }
    }
  }

  lemma FiredKeepsCookies(ps: seq<Item>)
    requires ps != [] && DistinctCookies(ps)
    ensures DistinctCookies(Fired(ps))
  {
    if ps[0].periodic {
      InsertLateKeepsCookies(ps[1..], Next(ps[0]));
    }
  }

  /** Advise, packet by packet: packet i fires exactly DueCount times, k periods after its time
      for each k, and nothing that is not on the list fires. */
  lemma AdviseFiresExactly(ps: seq<Item>, t: int)
    requires NoneStuck(ps, t) && Sorted(ps) && DistinctCookies(ps)
    ensures forall i :: 0 <= i < |ps| ==> TimesOf(FireAll(ps, t).0, ps[i].cookie) == Ticks(ps[i], t)
    ensures forall cookie :: (forall i :: 0 <= i < |ps| ==> ps[i].cookie != cookie) ==>
      TimesOf(FireAll(ps, t).0, cookie) == []
  {
    forall i | 0 <= i < |ps|
      ensures TimesOf(FireAll(ps, t).0, ps[i].cookie) == Ticks(ps[i], t)
    {
      FireAllTicks(ps, t, ps[i].cookie);
      TicksOfAt(ps, t, i);
    }
    forall cookie | forall i :: 0 <= i < |ps| ==> ps[i].cookie != cookie
      ensures TimesOf(FireAll(ps, t).0, cookie) == []
    {
      FireAllTicks(ps, t, cookie);
      NoTicksOfStranger(ps, t, cookie);
    }
  }

  /** The firing is one of that packet: its cookie, its handle, and the kind of its notification. */
  predicate FiringFrom(f: Firing, p: Item) {
    f.cookie == p.cookie && f.notify == p.notify && f.periodic == p.periodic
  }

  /** Every firing goes to the handle of the packet whose cookie it bears: a semaphore exactly if that
      packet is periodic, and an event otherwise. */
  lemma {:induction false} FiringsGoHome(ps: seq<Item>, t: int)
    requires NoneStuck(ps, t) && Sorted(ps)
    ensures forall f :: f in FireAll(ps, t).0 ==> exists p :: p in ps && FiringFrom(f, p)
    decreases DueTotal(ps, t)
  {
    if ps != [] && ps[0].time <= t {
      FiredDue(ps, t);
      FiringsGoHome(Fired(ps), t);
      var fs := FireAll(Fired(ps), t).0;
      assert FiringFrom(FiringOf(ps[0]), ps[0]) && ps[0] in ps;
      forall f | f in fs
        ensures exists p :: p in ps && FiringFrom(f, p)
      {
        var q :| q in Fired(ps) && FiringFrom(f, q);
        FiredMember(ps, q);
        if q !in ps {
          assert FiringFrom(f, ps[0]);
        }
      }
    }
  }

  lemma FiredMember(ps: seq<Item>, q: Item)
    requires ps != [] && q in Fired(ps)
    ensures q in ps || q == Next(ps[0])
  {
    InsertLateMembers(ps[1..], Next(ps[0]));
  }

  // ----- Staying below MAX_TIME -----

  /** No periodic packet due by t is pushed to MAX_TIME by its firings. */
  ghost predicate NoneReachesMaxTime(ps: seq<Item>, t: int)
    requires NoneStuck(ps, t)
  {
    forall i :: 0 <= i < |ps| && ps[i].periodic && ps[i].time <= t ==> Advanced(ps[i], t).time < MAX_TIME
  }

  lemma FiredStaysBelowMaxTime(ps: seq<Item>, t: int)
    requires ps != [] && ps[0].time <= t && NoneStuck(ps, t) && NoneReachesMaxTime(ps, t)
    ensures NoneStuck(Fired(ps), t) && NoneReachesMaxTime(Fired(ps), t)
    ensures ps[0].periodic ==> ps[0].period < MAX_TIME - ps[0].time
  {
    var p := ps[0];
    if p.periodic {
      OneFewer(p, t);
      MulMonotone(1, p.period, DueCount(p, t), p.period);
      assert p.time + p.period + (DueCount(p, t) - 1) * p.period == p.time + DueCount(p, t) * p.period;
      assert Advanced(Next(p), t).time == Advanced(p, t).time;
      var r := InsertLate(ps[1..], Next(p));
      InsertLateMembers(ps[1..], Next(p));
      forall i | 0 <= i < |r|
        ensures !Stuck(r[i], t)
        ensures r[i].periodic && r[i].time <= t ==> Advanced(r[i], t).time < MAX_TIME
      {
        assert r[i] in r;
      }
    }
  }

  lemma {:induction false} InsertLateMembers(ps: seq<Item>, p: Item)
    ensures forall q :: q in InsertLate(ps, p) ==> q == p || q in ps
  {
    if ps != [] && ps[0].time <= p.time {
      InsertLateMembers(ps[1..], p);
    }
  }
}
