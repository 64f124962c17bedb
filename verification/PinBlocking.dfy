/** The blocking protocol of CDynamicOutputPin as a state machine: one step for each critical
    section of the block-state lock, and one for each wake-up of a thread that waits. */
module PinBlocking {
  import opened Wrappers

  datatype BlockState = NotBlocked | Pending | Blocked

  /** A SetEvent on the duplicated handle of an accepted block request. */
  datatype Signal = Signal(request: int, handle: int, completed: bool)

  /** notify is the held handle, 0 for none; caller the thread that asked for the block, 0 for
      none. waiting are the threads that wait in StartUsingOutputPin, woken those that have seen
      the unblock event and are still to take the lock. requests are the handles of the accepted
      block requests, and signals what was done with them. */
  datatype Pin = Pin(
    state: BlockState,
    users: nat,
    notify: int,
    caller: int,
    unblockEvent: bool,
    waiting: nat,
    woken: nat,
    requests: seq<int>,
    signals: seq<Signal>)

  datatype Act =
    | Block(handle: int, thread: int)
    | Unblock
    | StartUsing
    | SeeUnblock
    | TryAgain
    | SeeStop
    | StopUsing

  /** Handles and thread ids are not 0, and only a user stops using the pin. */
  predicate Enabled(p: Pin, a: Act) {
    match a
    case Block(handle, thread) => handle != 0 && thread != 0
    case Unblock => true
    case StartUsing => true
    case SeeUnblock => p.waiting > 0 && p.unblockEvent
    case TryAgain => p.woken > 0
    case SeeStop => p.waiting > 0
    case StopUsing => p.users > 0
  }

  /** BlockOutputPin. */
  function BlockedNow(p: Pin): Pin {
    p.(state := Blocked, unblockEvent := false, notify := 0,
       signals := p.signals + [Signal(|p.requests| - 1, p.notify, true)])
  }

  function AfterBlock(p: Pin, handle: int, thread: int): Pin {
    if p.state != NotBlocked then p
    else
      var q := p.(state := Pending, notify := handle, caller := thread, requests := p.requests + [handle]);
      if q.users == 0 then BlockedNow(q) else q
  }

  function AfterUnblock(p: Pin): Pin {
    if p.state == NotBlocked then p
    else
      p.(state := NotBlocked, caller := 0, notify := 0, unblockEvent := true,
         signals := p.signals + if p.notify != 0 then [Signal(|p.requests| - 1, p.notify, false)] else [])
  }

  function AfterTryToUse(p: Pin): Pin {
    if p.state == Blocked then p.(waiting := p.waiting + 1) else p.(users := p.users + 1)
  }

  function AfterStopUsing(p: Pin): Pin
    requires p.users > 0
  {
    var q := p.(users := p.users - 1);
    if q.users == 0 && q.state != NotBlocked then BlockedNow(q) else q
  }

  function After(p: Pin, a: Act): Pin
    requires Enabled(p, a)
  {
    match a
    case Block(handle, thread) => AfterBlock(p, handle, thread)
    case Unblock => AfterUnblock(p)
    case StartUsing => AfterTryToUse(p)
    case SeeUnblock => p.(waiting := p.waiting - 1, woken := p.woken + 1)
    case TryAgain => AfterTryToUse(p.(woken := p.woken - 1))
    case SeeStop => p.(waiting := p.waiting - 1)
    case StopUsing => AfterStopUsing(p)
  }

  predicate Initial(p: Pin) {
    p == Pin(NotBlocked, 0, 0, 0, true, 0, 0, [], [])
  }

  predicate Legal(p: Pin, acts: seq<Act>)
    decreases acts
  {
    acts != [] ==> Enabled(p, acts[0]) && Legal(After(p, acts[0]), acts[1..])
  }

  function Run(p: Pin, acts: seq<Act>): Pin
    requires Legal(p, acts)
    decreases acts
  {
    if acts == [] then p else Run(After(p, acts[0]), acts[1..])
  }

  // ----- What every step keeps -----

  /** The consistency that the source asserts about itself. */
  predicate AssertValid(p: Pin) {
    && ((p.notify == 0 && p.state != Pending) || (p.notify != 0 && p.state == Pending))
    && (p.caller == 0 || p.state != NotBlocked)
    && ((p.users != 0 && p.state != Blocked)
        || (p.users == 0 && p.state != NotBlocked)
        || (p.users == 0 && p.state == NotBlocked))
  }

  /** All of it: a block that is pending has users to wait for, the caller is known just as long as
      there is a block, the unblock event is set just when the pin is not blocked, and the requests
      are answered in turn: all of them, except that the last is not while it is pending. */
  predicate Sound(p: Pin) {
    && AssertValid(p)
    && (p.state == Pending ==> p.users > 0)
    && (p.caller == 0 <==> p.state == NotBlocked)
    && (p.unblockEvent <==> p.state != Blocked)
    && |p.signals| + (if p.state == Pending then 1 else 0) == |p.requests|
    && (forall i :: 0 <= i < |p.signals| ==> p.signals[i].request == i && p.signals[i].handle == p.requests[i])
    && (p.state == Pending ==> p.notify == p.requests[|p.requests| - 1])
    && (forall i :: 0 <= i < |p.requests| ==> p.requests[i] != 0)
    && (p.state == Blocked ==> p.signals != [] && p.signals[|p.signals| - 1].completed)
  }

  lemma StepKeeps(p: Pin, a: Act)
    requires Sound(p) && Enabled(p, a)
    ensures Sound(After(p, a))
  {
  }

  lemma {:induction false} RunKeeps(p: Pin, acts: seq<Act>)
    requires Sound(p) && Legal(p, acts)
    ensures Sound(Run(p, acts))
    decreases acts
  {
    if acts != [] {
      StepKeeps(p, acts[0]);
      RunKeeps(After(p, acts[0]), acts[1..]);
    }
  }

  lemma Reachable(p: Pin, acts: seq<Act>)
    requires Initial(p) && Legal(p, acts)
    ensures Sound(Run(p, acts))
  {
    RunKeeps(p, acts);
  }

  // ----- The same, told by the acts alone -----

  /** Who blocks the pin, how many use it, wait for it or have been woken, and the handles of the
      requests that were taken. */
  datatype Account = Account(owner: int, users: nat, waiting: nat, woken: nat, handles: seq<int>)

  /** The first to ask while nobody blocks the pin is its owner until the next unblock; a thread that
      comes gets the pin unless it has an owner and no users, and waits then. */
  function Told(t: Account, a: Act): Account {
    match a
    case Block(handle, thread) => if t.owner == 0 then t.(owner := thread, handles := t.handles + [handle]) else t
    case Unblock => t.(owner := 0)
    case StartUsing => Came(t)
    case TryAgain => Came(t.(woken := OneLess(t.woken)))
    case SeeUnblock => t.(waiting := OneLess(t.waiting), woken := t.woken + 1)
    case SeeStop => t.(waiting := OneLess(t.waiting))
    case StopUsing => t.(users := OneLess(t.users))
  }

  function OneLess(n: nat): nat {
    if n == 0 then 0 else n - 1
  }

  function Came(t: Account): Account {
    if t.owner != 0 && t.users == 0 then t.(waiting := t.waiting + 1) else t.(users := t.users + 1)
  }

  function AllTold(t: Account, acts: seq<Act>): Account
    decreases acts
  {
    if acts == [] then t else AllTold(Told(t, acts[0]), acts[1..])
  }

  predicate Matches(p: Pin, t: Account) {
    && p.caller == t.owner && p.users == t.users && p.waiting == t.waiting && p.woken == t.woken
    && p.requests == t.handles
    && p.state == (if t.owner == 0 then NotBlocked else if t.users == 0 then Blocked else Pending)
  }

  lemma StepMatches(p: Pin, t: Account, a: Act)
    requires Sound(p) && Matches(p, t) && Enabled(p, a)
    ensures Matches(After(p, a), Told(t, a))
  {
  }

  lemma {:induction false} RunMatches(p: Pin, t: Account, acts: seq<Act>)
    requires Sound(p) && Matches(p, t) && Legal(p, acts)
    ensures Matches(Run(p, acts), AllTold(t, acts))
    decreases acts
  {
    if acts != [] {
      StepMatches(p, t, acts[0]);
      StepKeeps(p, acts[0]);
      RunMatches(After(p, acts[0]), Told(t, acts[0]), acts[1..]);
    }
  }

  /** In every run the caller, the users, those who wait, the requests and the state are those that
      the order of the calls alone determines: each request that is taken is known by its own handle,
      and by its own thread until it is unblocked. */
  lemma BlockFollowsCalls(p: Pin, acts: seq<Act>)
    requires Initial(p) && Legal(p, acts)
    ensures var q, t := Run(p, acts), AllTold(Account(0, 0, 0, 0, []), acts);
      && q.caller == t.owner && q.users == t.users && q.requests == t.handles
      && q.waiting == t.waiting && q.woken == t.woken
      && (q.state == NotBlocked <==> t.owner == 0)
      && (q.state == Blocked <==> t.owner != 0 && t.users == 0)
      && forall i :: 0 <= i < |q.signals| ==> i < |t.handles| && q.signals[i].handle == t.handles[i]
  {
    RunMatches(p, Account(0, 0, 0, 0, []), acts);
    Reachable(p, acts);
  }

  // ----- What follows -----

  function TimesNotified(p: Pin, request: nat): nat {
    multiset(seq(|p.signals|, i requires 0 <= i < |p.signals| => p.signals[i].request))[request]
  }

  /** An accepted request has been notified once, unless it is the one that is pending, and then
      not at all. */
  lemma NotifiedOnce(p: Pin, acts: seq<Act>, request: nat)
    requires Initial(p) && Legal(p, acts) && request < |Run(p, acts).requests|
    ensures var q := Run(p, acts);
      TimesNotified(q, request) == if q.state == Pending && request == |q.requests| - 1 then 0 else 1
  {
    Reachable(p, acts);
    var q := Run(p, acts);
    var ids := seq(|q.signals|, i requires 0 <= i < |q.signals| => q.signals[i].request);
    CountOfRange(ids, request);
  }

  lemma {:induction false} CountOfRange(ids: seq<int>, x: nat)
    requires forall i :: 0 <= i < |ids| ==> ids[i] == i
    ensures multiset(ids)[x] == if x < |ids| then 1 else 0
  {
    if ids != [] {
      var n := |ids| - 1;
      assert ids == ids[..n] + [ids[n]];
      CountOfRange(ids[..n], x);
    }
  }

  /** How a pending request ends: completed when the last user stops before anyone unblocks,
      cancelled when the unblock comes first, and not at all if neither comes. */
  function Ending(users: nat, acts: seq<Act>): Option<bool>
    decreases acts
  {
    if acts == [] then None
    else
      match acts[0]
      case Unblock => Some(false)
      case StopUsing => if users <= 1 then Some(true) else Ending(users - 1, acts[1..])
      case StartUsing => Ending(users + 1, acts[1..])
      case TryAgain => Ending(users + 1, acts[1..])
      case _ => Ending(users, acts[1..])
  }

  lemma {:induction false} SignalsGrow(p: Pin, acts: seq<Act>)
    requires Legal(p, acts)
    ensures p.signals <= Run(p, acts).signals && p.requests <= Run(p, acts).requests
    decreases acts
  {
    if acts != [] {
      SignalsGrow(After(p, acts[0]), acts[1..]);
    }
  }

  lemma {:induction false} PendingEnds(p: Pin, acts: seq<Act>)
    requires Sound(p) && p.state == Pending && Legal(p, acts)
    ensures var q, last := Run(p, acts), |p.requests| - 1;
      match Ending(p.users, acts)
      case None => q.state == Pending && q.signals == p.signals && q.requests == p.requests
      case Some(completed) =>
        |q.signals| > last && q.signals[last] == Signal(last, p.notify, completed)
    decreases acts
  {
    if acts != [] {
      var q := After(p, acts[0]);
      StepKeeps(p, acts[0]);
      if q.state == Pending {
        PendingEnds(q, acts[1..]);
      } else {
        SignalsGrow(q, acts[1..]);
      }
    }
  }

  /** While a block is pending or in force every other request is turned away, so what its caller
      waits for can only come from the users or from an unblock. */
  lemma BlockIsExclusive(p: Pin, acts: seq<Act>, handle: int, thread: int)
    requires Initial(p) && Legal(p, acts)
    ensures var q := Run(p, acts);
      AfterBlock(q, handle, thread) == q <==> q.caller != 0
  {
    Reachable(p, acts);
    var q := Run(p, acts);
    if q.state == NotBlocked {
      assert |AfterBlock(q, handle, thread).requests| == |q.requests| + 1;
    }
  }

  /** A thread that waits for the pin is let through by the event just when it would get the pin
      once it holds the lock; a thread that is already awake gets it, or waits again. */
  lemma WaiterGetsPinIff(p: Pin, acts: seq<Act>)
    requires Initial(p) && Legal(p, acts)
    ensures var q := Run(p, acts);
      && (q.waiting > 0 ==>
            (Enabled(q, SeeUnblock) <==> q.caller == 0 || q.users > 0))
      && (q.waiting > 0 && Enabled(q, SeeUnblock) ==>
            After(After(q, SeeUnblock), TryAgain) == q.(waiting := q.waiting - 1, users := q.users + 1))
  {
    Reachable(p, acts);
  }

  /** Data is sent only between a start and a stop; in all that time the pin is not blocked. */
  lemma NeverBlockedInUse(p: Pin, acts: seq<Act>)
    requires Initial(p) && Legal(p, acts)
    ensures var q := Run(p, acts);
      && (q.users > 0 ==> q.state != Blocked && q.unblockEvent)
      && (q.state == Pending ==>
            q.users > 0 && q.notify != 0 && q.requests != [] && q.notify == q.requests[|q.requests| - 1])
      && AssertValid(q)
  {
    Reachable(p, acts);
  }
}
