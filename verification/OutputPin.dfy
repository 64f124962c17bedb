/** CDynamicOutputPin: the fields under the block-state lock, and each critical section tied to the
    step of PinBlocking that it is. */
module OutputPin {
  import opened PinBlocking

  datatype Outcome =
    | Ok
    | NothingToUnblock
    | AlreadyBlocked
    | AlreadyBlockedOnThisThread
    | NoHandle
    | InvalidArgument

  const AM_PIN_FLOW_CONTROL_BLOCK := 1

  class DynamicOutputPin {
    var blockState: BlockState
    var users: nat
    var notifyEvent: int
    var callerThread: int
    var unblockEvent: bool
    ghost var waiting: nat
    ghost var woken: nat
    ghost var requests: seq<int>
    ghost var signals: seq<Signal>

    ghost function Abs(): Pin
      reads this
    {
      Pin(blockState, users, notifyEvent, callerThread, unblockEvent, waiting, woken, requests, signals)
    }

    ghost predicate Valid()
      reads this
    {
      Sound(Abs())
    }

    constructor ()
      ensures Valid() && Initial(Abs())
    {
      blockState, users, notifyEvent, callerThread, unblockEvent := NotBlocked, 0, 0, 0, true;
      waiting, woken, requests, signals := 0, 0, [], [];
    }

    predicate StreamingThreadUsingOutputPin()
      reads `users
    {
      users > 0
    }

    /** duplicated tells whether the handle could be duplicated. */
    method AsynchronousBlockOutputPin(handle: int, thread: int, duplicated: bool) returns (hr: Outcome)
      requires Valid() && handle != 0 && thread != 0
      modifies this
      ensures Valid()
      ensures hr == (if old(callerThread) == thread then AlreadyBlockedOnThisThread
                     else if old(callerThread) != 0 then AlreadyBlocked
                     else if !duplicated then NoHandle
                     else Ok)
      ensures hr == Ok ==> Abs() == AfterBlock(old(Abs()), handle, thread)
      ensures hr == Ok ==> requests == old(requests) + [handle] && callerThread == thread
      ensures hr != Ok ==> unchanged(this)
    {
      if blockState != NotBlocked {
        hr := if callerThread == thread then AlreadyBlockedOnThisThread else AlreadyBlocked;
        return;
      }
      if !duplicated {
        hr := NoHandle;
        return;
      }
      StepKeeps(Abs(), Act.Block(handle, thread));
      notifyEvent := handle;
      requests := requests + [handle];
      blockState := Pending;
      callerThread := thread;
      if !StreamingThreadUsingOutputPin() {
        BlockOutputPin();
      }
      hr := Ok;
    }

    method BlockOutputPin()
      requires !StreamingThreadUsingOutputPin() && requests != []
      modifies `unblockEvent, `signals, `blockState, `notifyEvent
      ensures Abs() == BlockedNow(old(Abs()))
    {
      unblockEvent := false;
      signals := signals + [Signal(|requests| - 1, notifyEvent, true)];
      blockState := Blocked;
      notifyEvent := 0;
    }

    method UnblockOutputPin() returns (hr: Outcome)
      requires Valid()
      modifies this
      ensures Valid() && Abs() == AfterUnblock(old(Abs()))
      ensures hr == if old(blockState) == NotBlocked then NothingToUnblock else Ok
    {
      StepKeeps(Abs(), Act.Unblock);
      if blockState == NotBlocked {
        hr := NothingToUnblock;
        return;
      }
      unblockEvent := true;
      if notifyEvent != 0 {
        signals := signals + [Signal(|requests| - 1, notifyEvent, false)];
      }
      blockState := NotBlocked;
      callerThread := 0;
      notifyEvent := 0;
      hr := Ok;
    }

    /** IPinFlowControl::Block. Without a handle the call is synchronous: it makes an event of its own,
        created, which is 0 if that fails, and wait tells that it is to wait for it. */
    method Block(flags: int, handle: int, created: int, thread: int, duplicated: bool)
      returns (hr: Outcome, wait: bool)
      requires Valid() && thread != 0
      modifies this
      ensures Valid()
      ensures hr == (if flags != 0 && flags != AM_PIN_FLOW_CONTROL_BLOCK then InvalidArgument
                     else if flags == 0 then (if handle == 0 then Ok else InvalidArgument)
                     else if handle == 0 && created == 0 then NoHandle
                     else if old(callerThread) == thread then AlreadyBlockedOnThisThread
                     else if old(callerThread) != 0 then AlreadyBlocked
                     else if !duplicated then NoHandle
                     else Ok)
      ensures wait <==> hr == Ok && flags == AM_PIN_FLOW_CONTROL_BLOCK && handle == 0
      ensures hr == Ok ==>
        Abs() == if flags == 0 then AfterUnblock(old(Abs()))
                 else AfterBlock(old(Abs()), if handle == 0 then created else handle, thread)
      ensures hr != Ok ==> unchanged(this)
    {
      wait := false;
      if flags != 0 && flags != AM_PIN_FLOW_CONTROL_BLOCK {
        hr := InvalidArgument;
        return;
      }
      if flags == 0 && handle != 0 {
        hr := InvalidArgument;
        return;
      }
      if flags == AM_PIN_FLOW_CONTROL_BLOCK {
        if handle == 0 {
          hr, wait := SynchronousBlockOutputPin(created, thread, duplicated);
        } else {
          hr := AsynchronousBlockOutputPin(handle, thread, duplicated);
        }
      } else {
        hr := UnblockOutputPin();
      }
      if hr == NothingToUnblock {
        hr := Ok;
      }
    }

    /** Up to the wait. The event is signalled when the request is completed, or cancelled. */
    method SynchronousBlockOutputPin(created: int, thread: int, duplicated: bool) returns (hr: Outcome, wait: bool)
      requires Valid() && thread != 0
      modifies this
      ensures Valid()
      ensures hr == (if created == 0 then NoHandle
                     else if old(callerThread) == thread then AlreadyBlockedOnThisThread
                     else if old(callerThread) != 0 then AlreadyBlocked
                     else if !duplicated then NoHandle
                     else Ok)
      ensures wait <==> hr == Ok
      ensures hr == Ok ==> Abs() == AfterBlock(old(Abs()), created, thread)
      ensures hr != Ok ==> unchanged(this)
    {
      if created == 0 {
        hr, wait := NoHandle, false;
        return;
      }
      hr := AsynchronousBlockOutputPin(created, thread, duplicated);
      wait := hr == Ok;
    }

    /** One turn of the loop of StartUsingOutputPin, with the lock held; again tells whether the
        thread has been here before. It either gets the pin or goes to wait. */
    method TryToUse(ghost again: bool) returns (using: bool)
      requires Valid() && (again ==> woken > 0)
      modifies `users, `waiting, `woken
      ensures Valid()
      ensures Abs() == After(old(Abs()), if again then TryAgain else StartUsing)
      ensures using <==> users == old(users) + 1
    {
      StepKeeps(Abs(), if again then TryAgain else StartUsing);
      woken := if again then woken - 1 else woken;
      if blockState == Blocked {
        waiting := waiting + 1;
        using := false;
        return;
      }
      users := users + 1;
      using := true;
    }

    method StopUsingOutputPin()
      requires Valid() && users > 0
      modifies this
      ensures Valid() && Abs() == AfterStopUsing(old(Abs()))
    {
      StepKeeps(Abs(), Act.StopUsing);
      users := users - 1;
      if users == 0 && blockState != NotBlocked {
        BlockOutputPin();
      }
    }
  }
}
