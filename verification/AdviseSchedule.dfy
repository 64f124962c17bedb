/** CAMSchedule: a linked list of advise packets between two sentinels, and a cache of nodes. */
module AdviseSchedule {
  import opened AdviseList
  import opened Words

  const S_OK := 0
  const S_FALSE := 1
  const CACHE_MAX := 5

  /** CAdvisePacket. */
  class AdvisePacket {
    var next: AdvisePacket?
    var cookie: nat
    var eventTime: int
    var period: int
    var notify: int
    var periodic: bool

    constructor (time: int)
      ensures next == null && eventTime == time && cookie == 0
    {
      next, cookie, eventTime, period, notify, periodic := null, 0, time, 0, 0, false;
    }

    function Value(): Item
      reads `cookie, `eventTime, `period, `notify, `periodic
    {
      Item(cookie, eventTime, period, notify, periodic)
    }

    predicate IsZ()
      reads `next
    {
      next == null
    }

    method InsertAfter(p: AdvisePacket)
      modifies `next, p`next
      ensures next == p
      ensures p != this ==> p.next == old(next)
    {
      p.next := next;
      next := p;
    }

    method RemoveNext() returns (removed: AdvisePacket)
      requires next != null
      modifies `next
      ensures removed == old(next) && next == old(next.next)
    {
      removed := next;
      next := next.next;
    }
  }

  /** Each packet of the chain points to the one behind it. */
  ghost predicate Linked(chain: seq<AdvisePacket>)
    reads set i | 0 <= i < |chain| :: chain[i]`next
  {
    forall i :: 0 <= i < |chain| - 1 ==> chain[i].next == chain[i + 1]
  }

  ghost predicate Distinct(chain: seq<AdvisePacket>) {
    forall i, j :: 0 <= i < j < |chain| ==> chain[i] != chain[j]
  }

  /** The schedule: head -> packets -> z -> null. */
  class AmSchedule {
    const head: AdvisePacket
    const z: AdvisePacket
    var nextCookie: nat
    var adviseCount: nat
    var adviseCache: AdvisePacket?
    var cacheCount: nat
    /** m_ev: the waiting thread has to look at the next advise time again. */
    var reevaluate: bool
    /** The notifications made so far. */
    ghost var fired: seq<Firing>
    /** head, the live packets in order, z; and what the live packets hold. */
    ghost var chain: seq<AdvisePacket>
    ghost var list: seq<Item>
    ghost var cached: seq<AdvisePacket>

    ghost predicate Shape()
      reads `chain, `list, chain
    {
      && |chain| == |list| + 2 && chain[0] == head && chain[|chain| - 1] == z
      && Distinct(chain) && Linked(chain)
      && z.next == null && z.eventTime == MAX_TIME
      && forall i :: 0 <= i < |list| ==> chain[i + 1].Value() == list[i]
    }

    ghost predicate CacheShape()
      reads `cached, `adviseCache, `cacheCount, cached
    {
      && Distinct(cached) && Linked(cached)
      && adviseCache == (if cached == [] then null else cached[0])
      && (cached != [] ==> cached[|cached| - 1].next == null)
      && cacheCount == |cached| <= CACHE_MAX
    }

    ghost predicate Apart()
      reads `chain, `cached
    {
      forall p :: p in chain ==> p !in cached
    }

    /** What the source maintains: the list is sorted between its sentinels, live cookies are
        distinct and not above the last one given out, the counts are right, and the cache is
        short and apart from the list. */
    ghost predicate Valid()
      reads this, chain, cached
    {
      Shape() && CacheShape() && Apart() && Proper(list, nextCookie) && adviseCount == |list|
    }

    constructor ()
      ensures Valid() && list == [] && nextCookie == 0 && cached == [] && fired == []
      ensures fresh(chain)
    {
      head := new AdvisePacket(0);
      z := new AdvisePacket(MAX_TIME);
      nextCookie, adviseCount, adviseCache, cacheCount, reevaluate := 0, 0, null, 0, false;
      fired, cached, list := [], [], [];
      new;
      head.next := z;
      chain := [head, z];
    }

    // ----- AddAdvisePacket -----

    /** Adds a packet, in a node from the cache if there is one, and gives its cookie. */
    method AddAdvise(time1: int, time2: int, h: int, periodic: bool) returns (cookie: nat)
      requires Valid() && 0 <= time1 < MAX_TIME
      modifies this, chain, cached
      ensures Valid() && cookie == nextCookie == old(nextCookie) + 1
      ensures list == Insert(old(list), Item(cookie, time1, time2, h, periodic))
      ensures cached == if old(cached) == [] then [] else old(cached)[1..]
      ensures forall p :: p in chain ==> p in old(chain) || p in old(cached) || fresh(p)
      ensures fired == old(fired)
      ensures reevaluate == (old(reevaluate) || list[0].cookie == cookie)
    {
      hide Shape, CacheShape, Proper, Insert;
      var p := TakeNode();
      p.eventTime, p.period, p.notify, p.periodic := time1, time2, h, periodic;
      cookie := AddPacket(p);
    }

    /** A node from the cache, or a new one. */
    method TakeNode() returns (p: AdvisePacket)
      requires Valid()
      modifies `adviseCache, `cacheCount, `cached
      ensures Valid() && p !in chain && p !in cached
      ensures fresh(p) || p in old(cached)
      ensures cached == if old(cached) == [] then [] else old(cached)[1..]
    {
      hide Shape, Proper;
      if adviseCache != null {
        p := adviseCache;
        adviseCache := p.next;
        cacheCount := cacheCount - 1;
        cached := cached[1..];
      } else {
        p := new AdvisePacket(0);
      }
    }

    /** The private half: a new cookie, and a place before the first packet not due earlier. */
    method AddPacket(p: AdvisePacket) returns (cookie: nat)
      requires Valid() && 0 <= p.eventTime < MAX_TIME
      requires p !in chain && p !in cached
      modifies `nextCookie, `adviseCount, `reevaluate, `chain, `list, chain, p
      ensures Valid() && cookie == nextCookie == old(nextCookie) + 1
      ensures list == Insert(old(list), old(p.Value()).(cookie := cookie))
      ensures forall q :: q in chain ==> q in old(chain) || q == p
      ensures reevaluate == (old(reevaluate) || list[0].cookie == cookie)
    {
      hide CacheShape, Proper, Shape, Insert;
      nextCookie := nextCookie + 1;
      cookie := nextCookie;
      p.cookie := cookie;
      var prev, i := FindPlace(p.eventTime);
      PlaceOfInsert(list, p.Value(), i, nextCookie);
      LinkIn(prev, p, i);
      adviseCount := adviseCount + 1;
      if prev == head {
        reevaluate := true;
      }
    }

    /** The node behind which a packet due at a time belongs: the search of AddAdvisePacket, which
        relies on the time of z. */
    method FindPlace(eventTime: int) returns (prev: AdvisePacket, ghost i: nat)
      requires Shape() && eventTime < MAX_TIME
      ensures i <= |list| && i < |chain| && prev == chain[i] && (prev == head <==> i == 0)
      ensures prev in chain
      ensures forall j :: 0 <= j < i ==> list[j].time < eventTime
      ensures i < |list| ==> list[i].time >= eventTime
    {
      prev := head;
      i := 0;
      while true
        invariant 0 <= i <= |list| && prev == chain[i]
        invariant forall j :: 0 <= j < i ==> list[j].time < eventTime
        decreases |list| - i
      {
        var n := prev.next;
        assert n == chain[i + 1];
        if n.eventTime >= eventTime {
          break;
        }
        prev := n;
        i := i + 1;
      }
    }

    /** prev.InsertAfter(p), where prev is the i-th of the chain. */
    method LinkIn(prev: AdvisePacket, p: AdvisePacket, ghost i: nat)
      requires Shape() && p !in chain && i <= |list| && i < |chain| && prev == chain[i]
      modifies `chain, `list, prev`next, p`next
      ensures Shape()
      ensures chain == old(chain)[..i + 1] + [p] + old(chain)[i + 1..]
      ensures forall q :: q in chain <==> q in old(chain) || q == p
      ensures list == old(list)[..i] + [old(p.Value())] + old(list)[i..]
    {
      hide Distinct;
      ghost var c, ps := chain, list;
      ghost var d, qs := c[..i + 1] + [p] + c[i + 1..], ps[..i] + [p.Value()] + ps[i..];
      SplicedIn(c, d, p, i);
      ItemSplicedIn(ps, qs, p.Value(), i);
      OnlyAt(c, i);
      prev.InsertAfter(p);
      chain, list := d, qs;
    }

    // ----- Unadvise -----

    /** Removes the live packet that has the cookie; S_FALSE when there is none. */
    method Unadvise(cookie: nat) returns (hr: int)
      requires Valid()
      modifies this, chain, cached
      ensures Valid() && nextCookie == old(nextCookie) && fired == old(fired)
      ensures hr == S_OK <==> exists j :: 0 <= j < |old(list)| && old(list)[j].cookie == cookie
      ensures hr == S_OK || hr == S_FALSE
      ensures hr == S_FALSE ==> list == old(list)
      ensures hr == S_OK ==> exists j ::
        0 <= j < |old(list)| && old(list)[j].cookie == cookie && list == old(list)[..j] + old(list)[j + 1..]
      ensures forall p :: p in chain ==> p in old(chain)
    {
      hide CacheShape, Proper;
      hr := S_FALSE;
      var prev := head;
      ghost var i := 0;
      while true
        invariant 0 <= i <= |list| && i < |chain| && prev == chain[i]
        invariant Valid() && list == old(list) && chain == old(chain)
        invariant nextCookie == old(nextCookie) && fired == old(fired) && hr == S_FALSE
        invariant forall j :: 0 <= j < i ==> list[j].cookie != cookie
        decreases |list| - i
      {
        var n := prev.next;
        assert n == chain[i + 1];
        NoneIsZ(i);
        if n.IsZ() {
          assert i == |list|;
          break;
        }
        assert i < |list| && list[i].cookie == n.cookie;
        if n.cookie == cookie {
          RemovedIsProper(list, i, nextCookie);
          RemoveNode(prev, i);
          hr := S_OK;
          break;
        }
        prev := n;
        i := i + 1;
      }
    }

    lemma ApartAt()
      requires Apart()
      ensures forall i, j :: 0 <= i < |chain| && 0 <= j < |cached| ==> chain[i] != cached[j]
    {
      forall i, j | 0 <= i < |chain| && 0 <= j < |cached|
        ensures chain[i] != cached[j]
      {
        assert chain[i] in chain && cached[j] in cached;
      }
    }

    /** Only z points nowhere. */
    lemma NoneIsZ(i: nat)
      requires Shape() && i <= |list|
      ensures i < |list| ==> chain[i + 1].next != null
    {
      if i < |list| {
        assert chain[i + 1].next == chain[i + 2];
      }
    }

    /** Delete(prev->RemoveNext()) and the count, where prev is the i-th of the chain. */
    method RemoveNode(prev: AdvisePacket, ghost i: nat)
      requires Shape() && CacheShape() && Apart() && adviseCount == |list|
      requires i < |list| && i < |chain| && prev == chain[i] && prev in chain
      modifies `adviseCount, `adviseCache, `cacheCount, `chain, `list, `cached, chain
      ensures Shape() && CacheShape() && Apart() && adviseCount == |list|
      ensures list == old(list)[..i] + old(list)[i + 1..]
      ensures forall p :: p in chain ==> p in old(chain)
      ensures forall p :: p in cached ==> p in old(chain) || p in old(cached)
    {
      hide CacheShape, Shape;
      var removed := Unlink(prev, i);
      adviseCount := adviseCount - 1;
      Delete(removed);
    }

    /** prev->RemoveNext(). */
    method Unlink(prev: AdvisePacket, ghost i: nat) returns (removed: AdvisePacket)
      requires Shape() && i < |list| && i < |chain| && prev == chain[i]
      modifies `chain, `list, prev`next
      ensures Shape()
      ensures removed == old(chain)[i + 1] && removed !in chain && removed in old(chain)
      ensures forall p :: p in chain ==> p in old(chain)
      ensures list == old(list)[..i] + old(list)[i + 1..]
    {
      assert chain[i + 1].next == chain[i + 2];
      removed := prev.RemoveNext();
      chain := chain[..i + 1] + chain[i + 2..];
      list := list[..i] + list[i + 1..];
    }

    /** Keeps a removed node for later, unless the cache is full. */
    method Delete(p: AdvisePacket)
      requires CacheShape() && p !in cached
      modifies `adviseCache, `cacheCount, `cached, p`next
      ensures CacheShape()
      ensures cached == if |old(cached)| >= CACHE_MAX then old(cached) else [p] + old(cached)
    {
      if cacheCount < CACHE_MAX {
        p.next := adviseCache;
        adviseCache := p;
        cacheCount := cacheCount + 1;
        cached := [p] + cached;
      }
    }

    // ----- Advise -----

    /** Fires everything due up to t; gives the time of the next packet. */
    method Advise(t: int) returns (nextTime: int)
      requires Valid() && NoneStuck(list, t) && NoneReachesMaxTime(list, t)
      modifies this, chain, cached
      ensures Valid() && nextCookie == old(nextCookie) && reevaluate == old(reevaluate)
      ensures NoneStuck(old(list), t) && Sorted(old(list))
      ensures fired == old(fired) + FireAll(old(list), t).0
      ensures list == FireAll(old(list), t).1
      ensures nextTime == NextTime(list)
      ensures forall p :: p in chain ==> p in old(chain)
    {
      hide Shape, CacheShape, FireAll, DueTotal, NoneReachesMaxTime;
      ghost var list0, fired0 := list, fired;
      while true
        invariant Valid() && NoneStuck(list, t) && NoneReachesMaxTime(list, t)
        invariant nextCookie == old(nextCookie) && reevaluate == old(reevaluate)
        invariant forall k :: 0 <= k < |chain| ==> chain[k] in old(chain)
        invariant forall k :: 0 <= k < |cached| ==> cached[k] in old(chain) || cached[k] in old(cached)
        invariant fired0 + FireAll(list0, t).0 == fired + FireAll(list, t).0
        invariant FireAll(list0, t).1 == FireAll(list, t).1
        decreases DueTotal(list, t)
      {
        var isZ;
        nextTime, isZ := LookAhead();
        FireAllStep(list, t);
        if !(t >= nextTime && !isZ) {
          break;
        }
        FiredStaysBelowMaxTime(list, t);
        ghost var before, cachedBefore := chain, cached;
        FireHead();
        StillKnown(chain, before, [], old(chain), old(cached));
        StillKnown(cached, before, cachedBefore, old(chain), old(cached));
      }
    }

    method LookAhead() returns (nextTime: int, isZ: bool)
      requires Valid()
      ensures nextTime == NextTime(list) && (isZ <==> list == [])
    {
      hide CacheShape, Proper;
      assert head.next == chain[1];
      NoneIsZ(0);
      nextTime := head.next.eventTime;
      isZ := head.next.IsZ();
    }

    /** One round of the loop: the first packet fires. */
    method FireHead()
      requires Valid() && list != [] && (list[0].periodic ==> 0 < list[0].period < MAX_TIME - list[0].time)
      modifies this, chain, cached
      ensures Valid() && nextCookie == old(nextCookie) && reevaluate == old(reevaluate)
      ensures list == Fired(old(list))
      ensures fired == old(fired) + [FiringOf(old(list)[0])]
      ensures forall p :: p in chain ==> p in old(chain)
      ensures forall p :: p in cached ==> p in old(chain) || p in old(cached)
    {
      hide CacheShape, Proper, Shape, InsertLate;
      FiredIsProper(list, nextCookie);
      FirstOfChain();
      var p := head.next;
      fired := fired + [FiringOf(p.Value())];
      if p.periodic {
        Reschedule(p);
      } else {
        RemoveNode(head, 0);
        assert list == old(list)[1..];
      }
    }

    lemma FirstOfChain()
      requires Shape() && list != []
      ensures |chain| >= 3 && head == chain[0] && head in chain
      ensures head.next == chain[1] && chain[1] in chain && chain[1].Value() == list[0]
    {
    }

    /** The periodic half of a round: the next event time, and the place it belongs. */
    method Reschedule(p: AdvisePacket)
      requires Shape() && CacheShape() && Apart() && |chain| >= 2 && p == chain[1] && list != []
      requires list[0].time + list[0].period < MAX_TIME
      modifies `chain, `list, chain
      ensures Shape() && CacheShape() && Apart()
      ensures list == InsertLate(old(list)[1..], Next(old(list)[0])) && |list| == |old(list)|
      ensures forall q :: q in chain <==> q in old(chain)
    {
      hide CacheShape;
      assert p in chain;
      p.eventTime := p.eventTime + p.period;
      list := list[0 := Next(list[0])];
      assert list[1..] == old(list)[1..];
      assert Shape();
      hide Shape;
      ApartAt();
      ShuntHead();
    }

    /** Moves the first packet, whose time has changed, behind every packet not due later. */
    method ShuntHead()
      requires Shape() && list != [] && list[0].time < MAX_TIME
      modifies `chain, `list, chain
      ensures Shape()
      ensures list == InsertLate(old(list)[1..], old(list)[0]) && |list| == |old(list)|
      ensures forall p :: p in chain <==> p in old(chain)
    {
      var packet := head.next;
      assert packet == chain[1];
      var prev, n, i := FindLatePlace(packet);
      InsertLateSplices(list[1..], list[0], i - 1);
      assert list[1..][..i - 1] + [list[0]] + list[1..][i - 1..] == list[1..i] + [list[0]] + list[i..];
      hide InsertLate;
      if prev != packet {
        Relink(packet, prev, n, i);
      } else {
        assert i == 1;
        assert list == list[1..1] + [list[0]] + list[1..];
      }
    }

    /** The three assignments that move the first packet behind prev. */
    method Relink(packet: AdvisePacket, prev: AdvisePacket, n: AdvisePacket, ghost i: nat)
      requires Shape() && 2 <= i <= |list| && i + 1 < |chain|
      requires packet == chain[1] && prev == chain[i] && n == chain[i + 1]
      modifies `chain, `list, head`next, prev`next, packet`next
      ensures Shape()
      ensures list == old(list)[1..i] + [old(list)[0]] + old(list)[i..]
      ensures forall p :: p in chain <==> p in old(chain)
    {
      assert packet.next == chain[2];
      head.next := packet.next;
      prev.next := packet;
      packet.next := n;
      ghost var c := chain;
      chain := c[..1] + c[2..i + 1] + [c[1]] + c[i + 1..];
      list := list[1..i] + [list[0]] + list[i..];
      Rotated(c, chain, i);
    }

    method FindLatePlace(packet: AdvisePacket) returns (prev: AdvisePacket, n: AdvisePacket, ghost i: nat)
      requires Shape() && list != [] && packet == chain[1] && list[0].time < MAX_TIME
      ensures 1 <= i <= |list| && prev == chain[i] && n == chain[i + 1]
      ensures forall j :: 0 <= j < i ==> list[j].time <= list[0].time
      ensures i < |list| ==> list[i].time > list[0].time
    {
      prev := head;
      i := 0;
      while true
        invariant 0 <= i <= |list| && prev == chain[i]
        invariant forall j :: 0 <= j < i ==> list[j].time <= list[0].time
        decreases |list| - i
      {
        assert prev.next == chain[i + 1];
        n := prev.next;
        if n.eventTime > packet.eventTime {
          break;
        }
        prev := n;
        i := i + 1;
      }
    }
  }

  /** Nodes that come from known nodes are known. */
  lemma StillKnown(ps: seq<AdvisePacket>, chain: seq<AdvisePacket>, cached: seq<AdvisePacket>,
                   chain0: seq<AdvisePacket>, cached0: seq<AdvisePacket>)
    requires forall p :: p in ps ==> p in chain || p in cached
    requires forall k :: 0 <= k < |chain| ==> chain[k] in chain0
    requires forall k :: 0 <= k < |cached| ==> cached[k] in chain0 || cached[k] in cached0
    ensures forall k :: 0 <= k < |ps| ==> ps[k] in chain0 || ps[k] in cached0
    ensures cached == [] ==> forall k :: 0 <= k < |ps| ==> ps[k] in chain0
  {
    assert forall k :: 0 <= k < |ps| ==> ps[k] in ps;
  }

  /** The chain with p put in behind its packet i. */
  lemma SplicedIn(c: seq<AdvisePacket>, d: seq<AdvisePacket>, p: AdvisePacket, i: nat)
    requires Distinct(c) && p !in c && i < |c| - 1 && d == c[..i + 1] + [p] + c[i + 1..]
    ensures Distinct(d) && |d| == |c| + 1 && (forall q :: q in d <==> q in c || q == p)
    ensures d[i + 1] == p && (forall k :: 0 <= k <= i ==> d[k] == c[k])
    ensures forall k :: i + 1 < k < |d| ==> d[k] == c[k - 1]
  {
  }

  lemma ItemSplicedIn(ps: seq<Item>, qs: seq<Item>, x: Item, i: nat)
    requires i <= |ps| && qs == ps[..i] + [x] + ps[i..]
    ensures |qs| == |ps| + 1 && qs[i] == x && (forall k :: 0 <= k < i ==> qs[k] == ps[k])
    ensures forall k :: i < k < |qs| ==> qs[k] == ps[k - 1]
  {
  }

  lemma OnlyAt(c: seq<AdvisePacket>, i: nat)
    requires Distinct(c) && i < |c|
    ensures forall k :: 0 <= k < |c| && k != i ==> c[k] != c[i]
  {
  }

  /** The chain with its packet 1 moved behind its packet i. */
  lemma Rotated(c: seq<AdvisePacket>, d: seq<AdvisePacket>, i: nat)
    requires Distinct(c) && 2 <= i < |c| - 1 && d == c[..1] + c[2..i + 1] + [c[1]] + c[i + 1..]
    ensures Distinct(d) && |d| == |c| && (forall p :: p in d <==> p in c)
    ensures d[0] == c[0] && d[i] == c[1] && (forall k :: 1 <= k < i ==> d[k] == c[k + 1])
    ensures forall k :: i < k < |c| ==> d[k] == c[k]
  {
    forall p | p in c
      ensures p in d
    {
      var k :| 0 <= k < |c| && c[k] == p;
      if k == 0 { assert d[0] == p; }
      else if k == 1 { assert d[i] == p; }
      else if k <= i { assert d[k - 1] == p; }
      else { assert d[k] == p; }
    }
  }

  lemma FireAllStep(ps: seq<Item>, t: int)
    requires NoneStuck(ps, t) && Sorted(ps)
    ensures ps == [] || ps[0].time > t ==> FireAll(ps, t) == ([], ps)
    ensures ps != [] && ps[0].time <= t ==>
      && NoneStuck(Fired(ps), t) && Sorted(Fired(ps))
      && FireAll(ps, t).0 == [FiringOf(ps[0])] + FireAll(Fired(ps), t).0
      && FireAll(ps, t).1 == FireAll(Fired(ps), t).1
      && DueTotal(Fired(ps), t) < DueTotal(ps, t)
  {
    if ps != [] && ps[0].time <= t {
      FiredDue(ps, t);
    }
  }

  lemma RemovedIsProper(ps: seq<Item>, i: nat, lastCookie: nat)
    requires Proper(ps, lastCookie) && i < |ps|
    ensures Proper(ps[..i] + ps[i + 1..], lastCookie)
  {
  }

  lemma FiredIsProper(ps: seq<Item>, lastCookie: nat)
    requires Proper(ps, lastCookie) && ps != []
    requires ps[0].periodic ==> 0 < ps[0].period < MAX_TIME - ps[0].time
    ensures Proper(Fired(ps), lastCookie)
  {
    FiredKeepsCookies(ps);
    if ps[0].periodic {
      InsertLateSorts(ps[1..], Next(ps[0]));
      InsertLateMembers(ps[1..], Next(ps[0]));
      var r := Fired(ps);
      forall i | 0 <= i < |r|
        ensures 0 <= r[i].time < MAX_TIME && 1 <= r[i].cookie <= lastCookie
      {
        assert r[i] in r;
      }
    }
  }

  /** The order and the cookies of the live packets. */
  ghost predicate Proper(ps: seq<Item>, lastCookie: nat) {
    && Sorted(ps) && DistinctCookies(ps)
    && forall i :: 0 <= i < |ps| ==> 0 <= ps[i].time < MAX_TIME && 1 <= ps[i].cookie <= lastCookie
  }

  lemma PlaceOfInsert(ps: seq<Item>, p: Item, i: nat, lastCookie: nat)
    requires lastCookie >= 1 && Proper(ps, lastCookie - 1) && 0 <= p.time < MAX_TIME && p.cookie == lastCookie
    requires i <= |ps| && (forall j :: 0 <= j < i ==> ps[j].time < p.time)
    requires i < |ps| ==> ps[i].time >= p.time
    ensures Insert(ps, p) == ps[..i] + [p] + ps[i..] && Proper(Insert(ps, p), lastCookie)
    ensures Insert(ps, p)[0].cookie == p.cookie <==> i == 0
  {
    InsertSplices(ps, p, i);
    InsertedIsProper(ps, p, lastCookie);
  }

  lemma InsertedIsProper(ps: seq<Item>, p: Item, lastCookie: nat)
    requires lastCookie >= 1 && Proper(ps, lastCookie - 1) && 0 <= p.time < MAX_TIME && p.cookie == lastCookie
    ensures Proper(Insert(ps, p), lastCookie)
  {
    InsertSorts(ps, p);
    InsertKeepsCookies(ps, p);
    hide Insert, Sorted;
    var r := Insert(ps, p);
    forall i | 0 <= i < |r|
      ensures 0 <= r[i].time < MAX_TIME && 1 <= r[i].cookie <= lastCookie
    {
      assert r[i] in r;
    }
  }
}
