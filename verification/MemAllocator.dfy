/** CBaseAllocator and CMemAllocator: each method is one critical section, tied to the step of
    SamplePool that it is. */
module MemAllocator {
  import opened MemLayout
  import opened SamplePool
  import opened Words
  import opened Wrappers

  datatype Outcome =
    | Done
    | NotCommitted
    | TimedOut
    | MustWait
    | BadAlign
    | AlreadyCommitted
    | BuffersOutstanding
    | SizeNotSet
    | OutOfMemory

  /** CMediaSample: where its buffer is and how long, and the link of the free list. */
  class MediaSample {
    const start: int
    const length: int
    var next: MediaSample?

    constructor (start: int, length: int)
      ensures this.start == start && this.length == length
    {
      this.start, this.length, next := start, length, null;
    }
  }

  /** CSampleList: a list linked through the samples. */
  class SampleList {
    var list: MediaSample?
    var nOnList: nat
    ghost var items: seq<MediaSample>

    ghost predicate Valid()
      reads this, items
    {
      && nOnList == |items|
      && NoDuplicates(items)
      && list == At(0)
      && forall i :: 0 <= i < |items| ==> items[i].next == At(i + 1)
    }

    ghost function At(i: nat): MediaSample?
      reads `items
    {
      if i < |items| then items[i] else null
    }

    function GetCount(): (n: nat)
      reads this, items
      requires Valid()
      ensures n == |items|
    {
      nOnList
    }

    lemma NoneTwice()
      requires Valid()
      ensures NoDuplicates(items)
    {
    }

    constructor ()
      ensures Valid() && items == []
    {
      list, nOnList, items := null, 0, [];
    }

    method Add(sample: MediaSample)
      requires Valid() && sample !in items
      modifies this, sample`next
      ensures Valid() && items == [sample] + old(items)
    {
      sample.next := list;
      list := sample;
      nOnList := nOnList + 1;
      items := [sample] + items;
      assert forall i :: 0 <= i < |old(items)| ==> items[i + 1] == old(items)[i];
    }

    method RemoveHead() returns (sample: MediaSample?)
      requires Valid()
      modifies this
      ensures Valid()
      ensures old(items) == [] ==> sample == null && items == []
      ensures old(items) != [] ==> sample == old(items)[0] && items == old(items)[1..]
    {
      sample := list;
      if sample != null {
        list := sample.next;
        nOnList := nOnList - 1;
        items := items[1..];
      }
    }

    /** Unlinks the sample wherever it is in the list. */
    method Remove(sample: MediaSample) returns (ghost k: nat)
      requires Valid()
      modifies this, items
      ensures Valid()
      ensures k == |old(items)| ==> sample !in old(items) && items == old(items)
      ensures k != |old(items)| ==>
        k < |old(items)| && old(items)[k] == sample && sample.next == null
        && items == Without(old(items), k)
    {
      var search: MediaSample? := null;
      var here := list;
      k := 0;
      while here != null
        invariant 0 <= k <= |items| && here == At(k)
        invariant search == if k == 0 then null else items[k - 1]
        invariant forall i :: 0 <= i < k ==> items[i] != sample
        decreases |items| - k
      {
        if here == sample {
          Unlink(search, sample, k);
          return;
        }
        search := here;
        here := here.next;
        k := k + 1;
      }
    }

    method Unlink(search: MediaSample?, sample: MediaSample, ghost k: nat)
      requires Valid() && k < |items| && items[k] == sample
      requires search == if k == 0 then null else items[k - 1]
      modifies this, sample`next, items
      ensures Valid() && sample.next == null
      ensures items == Without(old(items), k)
    {
      hide NoDuplicates;
      OnlyAt(items, k);
      if search == null {
        list := sample.next;
      } else {
        OnlyAt(items, k - 1);
        search.next := sample.next;
      }
      sample.next := null;
      nOnList := nOnList - 1;
      items := Without(items, k);
    }
  }

  function Without<T>(s: seq<T>, k: nat): (t: seq<T>)
    requires k < |s|
    ensures |t| == |s| - 1
    ensures forall i :: 0 <= i < k ==> t[i] == s[i]
    ensures forall i :: k <= i < |t| ==> t[i] == s[i + 1]
    ensures NoDuplicates(s) ==> NoDuplicates(t)
  {
    s[..k] + s[k + 1..]
  }

  lemma OnlyAt<T>(s: seq<T>, k: nat)
    requires NoDuplicates(s) && k < |s|
    ensures forall i :: 0 <= i < |s| && i != k ==> s[i] != s[k]
  {
  }

  /** Sample i of those made has its own region behind the prefix. */
  ghost predicate Laid(made: seq<MediaSample>, base: int, stride: int, prefix: int, size: int) {
    forall i :: 0 <= i < |made| ==>
      made[i].start == StartOf(base, i, stride) + prefix && made[i].length == size
  }

  /** Where region i begins. */
  function StartOf(base: int, i: int, stride: int): int {
    base + i * stride
  }

  lemma FirstStart(base: int, stride: int)
    ensures StartOf(base, 0, stride) == base
  {
  }

  lemma NextStart(base: int, i: int, stride: int)
    ensures StartOf(base, i + 1, stride) == StartOf(base, i, stride) + stride
  {
  }

  lemma NoneLaid(base: int, stride: int, prefix: int, size: int)
    ensures Laid([], base, stride, prefix, size) && Reversed<MediaSample>([]) == []
  {
  }

  lemma LaidFurther(made: seq<MediaSample>, sample: MediaSample, base: int, stride: int, prefix: int,
                    size: int)
    requires Laid(made, base, stride, prefix, size)
    requires sample.start == StartOf(base, |made|, stride) + prefix && sample.length == size
    ensures Laid(made + [sample], base, stride, prefix, size)
    ensures StartOf(base, |made| + 1, stride) == sample.start - prefix + stride
  {
  }

  /** The samples as a stack: the last made is the first. */
  function Reversed<T>(s: seq<T>): (r: seq<T>)
    ensures |r| == |s|
    ensures forall i :: 0 <= i < |s| ==> r[i] == s[|s| - 1 - i]
  {
    if s == [] then [] else [s[|s| - 1]] + Reversed(s[..|s| - 1])
  }

  lemma Stacked<T>(s: seq<T>, x: T)
    ensures Reversed(s + [x]) == [x] + Reversed(s)
  {
    assert (s + [x])[..|s|] == s;
  }

  class Allocator {
    const free: SampleList
    var waiting: nat
    var count: i32
    var total: nat
    var size: i32
    var alignment: i32
    var prefix: i32
    var changed: bool
    var committed: bool
    var decommitInProgress: bool
    /** m_pBuffer, 0 for none. */
    var buffer: nat
    /** m_hSem. */
    var semaphore: nat
    ghost var outstanding: set<MediaSample>
    ghost var waiters: nat
    ghost var timeouts: nat
    ghost var selfRefs: int
    ghost var owed: nat
    /** Every sample there is, in the order of the block, and the distance between two. */
    ghost var made: seq<MediaSample>
    ghost var stride: int
    /** What SetProperties was last asked for, and accepted. */
    ghost var asked: Properties

    ghost function Abs(): Pool<MediaSample>
      reads this, free`items
    {
      Pool(free.items, outstanding, total, committed, decommitInProgress, waiting, semaphore, waiters,
           timeouts, selfRefs, owed)
    }

    /** The properties are those the samples were made for. */
    ghost predicate UpToDate()
      reads `count, `size, `prefix, `alignment, `buffer, `made, `stride
    {
      && 0 < count && 0 < size && 0 <= prefix && 0 < alignment
      && buffer != 0 && |made| == count
      && AlignedSize(size, prefix, alignment) == Some(stride)
      && count * stride <= MAXLONG
      && Laid(made, buffer, stride, prefix, size)
    }

    /** The samples made, the block and the properties belong together. */
    ghost predicate Memory()
      reads `count, `size, `prefix, `alignment, `buffer, `made, `stride, `total, `changed
    {
      && |made| == total
      && (buffer == 0 ==> total == 0)
      && (!changed ==> UpToDate() || (count == 0 && size == 0))
    }

    /** While buffers are or have been handed out, they are the ones the properties describe. */
    ghost predicate Current()
      reads `count, `size, `prefix, `alignment, `buffer, `made, `stride, `changed, `committed,
        `decommitInProgress
    {
      committed || decommitInProgress ==> !changed && UpToDate()
    }

    ghost predicate Agreed()
      reads `asked, `count, `size, `alignment, `prefix
    {
      && asked.(cbBuffer := size) == Properties(count, size, alignment, prefix)
      && if alignment == 0 then size == 0 else size == SettledSize(asked)
    }

    ghost predicate AllMade()
      reads `made, `outstanding, free`items
    {
      && (forall s :: s in free.items ==> s in made)
      && (forall s :: s in outstanding ==> s in made)
    }

    ghost predicate Valid()
      reads this, free, free.items
    {
      free.Valid() && Memory() && Current() && Agreed() && AllMade() && Sound(Abs())
    }

    constructor ()
      ensures Valid() && fresh(free)
      ensures Initial(Abs())
    {
      free := new SampleList();
      waiting, count, total, size, alignment, prefix := 0, 0, 0, 0, 0, 0;
      changed, committed, decommitInProgress, buffer, semaphore := false, false, false, 0, 0;
      outstanding, waiters, timeouts, selfRefs, owed, made, stride := {}, 0, 0, 0, 0, [], 0;
      asked := Properties(0, 0, 0, 0);
    }

    method NotifySample()
      modifies `waiting, `semaphore
      ensures waiting == 0 && semaphore == old(semaphore) + old(waiting)
    {
      if waiting != 0 {
        semaphore := semaphore + waiting;
        waiting := 0;
      }
    }

    /** One turn of GetBuffer's loop up to its wait. A sample that is handed out has the size
        agreed on and lies in its own region of the block. */
    method TryGetBuffer(nowait: bool) returns (hr: Outcome, sample: MediaSample?)
      requires Valid()
      modifies `waiting, `timeouts, `waiters, `outstanding, free
      ensures Valid()
      ensures Abs() == AfterGet(old(Abs()), nowait)
      ensures hr == (if !committed then NotCommitted
                     else if old(free.items) != [] then Done
                     else if nowait then TimedOut
                     else MustWait)
      ensures hr == Done <==> sample != null
      ensures hr == Done ==> sample == old(free.items)[0] && sample.length == size
      ensures hr == Done ==>
        exists i :: 0 <= i < count && sample == made[i] && sample.start == StartOf(buffer, i, stride) + prefix
    {
      hide Agreed, Sound, SampleList.Valid, UpToDate, NoDuplicates, Memory;
      sample := null;
      if !committed {
        hr := NotCommitted;
        return;
      }
      GetKeeps(Abs(), nowait);
      sample := free.RemoveHead();
      if sample == null {
        waiting := waiting + 1;
        if nowait {
          hr := TimedOut;
          timeouts := timeouts + 1;
        } else {
          hr := MustWait;
          waiters := waiters + 1;
        }
        return;
      }
      outstanding := outstanding + {sample};
      hr := Done;
      OwnRegion(sample);
    }

    lemma OwnRegion(sample: MediaSample)
      requires UpToDate() && sample in made
      ensures sample.length == size
      ensures exists i :: 0 <= i < count && sample == made[i] && sample.start == StartOf(buffer, i, stride) + prefix
    {
      hide AlignedSize;
      var i :| 0 <= i < |made| && made[i] == sample;
      assert sample.start == StartOf(buffer, i, stride) + prefix;
    }

    /** While there are samples in use they lie side by side in the block, each behind its prefix and
        each at a multiple of the alignment from the start; and they are as long as was asked for
        exactly if what was asked for, with the prefix, fits in a LONG. */
    lemma SamplesTile()
      requires Valid() && (committed || decommitInProgress) && asked.cbBuffer > 0
      ensures stride == size + prefix && stride % alignment == 0 && |made| == count
      ensures forall i :: 0 <= i < count ==>
        made[i].start - prefix == StartOf(buffer, i, stride)
        && made[i].start + made[i].length == StartOf(buffer, i + 1, stride)
      ensures forall i, j :: 0 <= i < j < count ==> made[i].start + made[i].length <= made[j].start - prefix
      ensures StartOf(buffer, 0, stride) == buffer && StartOf(buffer, count, stride) <= buffer + MAXLONG
      ensures size >= asked.cbBuffer <==> asked.cbBuffer + asked.cbPrefix <= MAXLONG
    {
      hide Sound, SampleList.Valid, AlignedSize, SettledSize;
      LaidOutSizeIff(asked);
      forall i | 0 <= i < count
        ensures made[i].start + made[i].length == StartOf(buffer, i + 1, stride)
      {
        NextStart(buffer, i, stride);
      }
      forall i, j | 0 <= i < j < count
        ensures made[i].start + made[i].length <= made[j].start - prefix
      {
        MulMonotone(i + 1, stride, j, stride);
      }
    }

    /** The end of a wait on the semaphore. */
    method WaitSucceeds()
      requires Valid() && waiters > 0 && semaphore > 0
      modifies `semaphore, `waiters
      ensures Valid()
      ensures Abs() == After(old(Abs()), Act.Wake)
    {
      hide Agreed, SampleList.Valid, UpToDate, NoDuplicates, Memory, Current, AllMade;
      semaphore := semaphore - 1;
      waiters := waiters - 1;
    }

    /** The first half of ReleaseBuffer's critical section: the sample goes on the free list and
        whoever waits is told. */
    method PutBack(sample: MediaSample)
      requires Valid() && sample in outstanding
      modifies `waiting, `semaphore, `outstanding, free, sample`next
      ensures free.Valid() && AllMade()
      ensures Abs() == Notified(old(Abs()).(free := [sample] + old(free.items),
                                            outstanding := old(outstanding) - {sample}))
    {
      hide Agreed, Sound, SampleList.Valid, UpToDate, NoDuplicates, Memory, Current;
      OutIsNotFree(Abs(), sample);
      free.Add(sample);
      outstanding := outstanding - {sample};
      NotifySample();
    }

    /** The critical section of ReleaseBuffer; release tells whether Release is to be called. */
    method ReleaseBuffer(sample: MediaSample) returns (release: bool)
      requires Valid() && sample in outstanding
      modifies `waiting, `semaphore, `outstanding, `decommitInProgress, `owed, free, sample`next
      ensures Valid()
      ensures Abs() == AfterPut(old(Abs()), sample)
      ensures release <==> old(decommitInProgress) && old(outstanding) == {sample}
      ensures sample in free.items && outstanding == old(outstanding) - {sample}
    {
      hide Agreed, Sound, SampleList.Valid, UpToDate, NoDuplicates, Memory, AllMade;
      PutKeeps(Abs(), sample);
      OutIsNotFree(Abs(), sample);
      release := false;
      PutBack(sample);
      if decommitInProgress && free.GetCount() == total {
        decommitInProgress := false;
        release := true;
        owed := owed + 1;
      }
    }

    /** Release, called once a critical section has decided on it. */
    method PayRelease()
      requires Valid() && owed > 0
      modifies `owed, `selfRefs
      ensures Valid()
      ensures Abs() == After(old(Abs()), Act.PayRelease)
    {
      hide Agreed, SampleList.Valid, UpToDate, NoDuplicates, Memory, Current, AllMade;
      selfRefs := selfRefs - 1;
      owed := owed - 1;
    }

    method Decommit() returns (release: bool)
      requires Valid()
      modifies `waiting, `semaphore, `committed, `decommitInProgress, `owed
      ensures Valid()
      ensures Abs() == AfterDecommit(old(Abs()))
      ensures release <==> old(committed || decommitInProgress) && outstanding == {}
      ensures !committed && (decommitInProgress <==> outstanding != {})
    {
      hide Agreed, Sound, SampleList.Valid, UpToDate, NoDuplicates, Memory;
      StepKeeps(Abs(), Act.Decommit);
      NoneOutIff(Abs());
      WhenIdle(Abs());
      release := false;
      if !committed && !decommitInProgress {
        return;
      }
      committed := false;
      if free.GetCount() < total {
        decommitInProgress := true;
      } else {
        decommitInProgress := false;
        release := true;
        owed := owed + 1;
      }
      NotifySample();
    }

    /** CMemAllocator::SetProperties. */
    method SetProperties(request: Properties, granularity: u32) returns (hr: Outcome, actual: Properties)
      requires Valid()
      modifies `size, `count, `alignment, `prefix, `changed, `asked
      ensures Valid() && Abs() == old(Abs())
      ensures hr == (if !AlignmentAccepted(granularity, request.cbAlign) then BadAlign
                     else if committed then AlreadyCommitted
                     else if outstanding != {} then BuffersOutstanding
                     else Done)
      ensures hr == Done ==>
        && size == SettledSize(request)
        && actual == request.(cbBuffer := size)
        && Properties(count, size, alignment, prefix) == actual && changed && asked == request
      ensures hr != Done ==> unchanged(this)
    {
      hide SettledSize, AlignmentAccepted, Sound, SampleList.Valid, UpToDate, NoDuplicates, AllMade;
      NoneOutIff(Abs());
      WhenIdle(Abs());
      actual := Properties(0, 0, 0, 0);
      if !AlignmentAccepted(granularity, request.cbAlign) {
        hr := BadAlign;
        return;
      }
      if committed {
        hr := AlreadyCommitted;
        return;
      }
      if free.GetCount() < total {
        hr := BuffersOutstanding;
        return;
      }
      assert request.cbAlign != 0 by {
        NoZeroAlignment(granularity, request.cbAlign);
      }
      size := SettledSize(request);
      count, alignment, prefix := request.cBuffers, request.cbAlign, request.cbPrefix;
      actual := Properties(count, size, alignment, prefix);
      asked := request;
      changed := true;
      hr := Done;
    }

    /** ReallyFree: no sample and no block is left. */
    method ReallyFree()
      requires free.Valid() && total == |free.items|
      modifies free, `total, `buffer, `made
      ensures free.Valid() && free.items == [] && total == 0 && buffer == 0 && made == []
    {
      hide SampleList.Valid;
      while true
        invariant free.Valid()
        decreases |free.items|
      {
        var sample := free.RemoveHead();
        if sample == null {
          break;
        }
      }
      total, buffer, made := 0, 0, [];
    }

    /** What Alloc is bound to do, given the answers of the operating system: base is the block it
        gets, 0 for none, and canMake the number of samples there is memory for. */
    ghost predicate AllocSpec(a: Allocation<MediaSample>, wasChanged: bool, base: nat, canMake: nat)
      reads `count, `size, `alignment, `prefix, `made, `buffer
    {
      if count <= 0 || size <= 0 || alignment <= 0 then a == Failed
      else if !wasChanged then a == Kept
      else
        var stride := AlignedSize(size, prefix, alignment);
        if stride.None? || count * stride.value > MAXLONG || base == 0 then a == FailedWith([])
        else
          && (if canMake < count then |made| == canMake && a == FailedWith(Reversed(made))
              else |made| == count && a == Built(Reversed(made)))
          && buffer == base
          && Laid(made, base, stride.value, prefix, size)
    }

    /** What it takes for Alloc to succeed: nothing when nothing has changed, and otherwise a block of
        count strides and the memory for the samples. */
    ghost predicate Granted(base: nat, canMake: nat)
      reads `count, `size, `alignment, `prefix, `changed
    {
      && count > 0 && size > 0 && alignment > 0
      && (changed ==> Affordable(count, size, prefix, alignment) && base != 0 && canMake >= count)
    }

    /** CBaseAllocator::Alloc and CMemAllocator::Alloc. */
    method Alloc(base: nat, canMake: nat) returns (hr: Outcome, ghost a: Allocation<MediaSample>)
      requires free.Valid() && Memory() && total == |free.items|
      modifies free, `total, `buffer, `made, `changed, `stride
      ensures free.Valid() && Memory() && AllocSpec(a, old(changed), base, canMake)
      ensures hr == (match a
                     case Failed => SizeNotSet
                     case FailedWith(_) => OutOfMemory
                     case _ => Done)
      ensures hr == Done <==> old(Granted(base, canMake))
      ensures hr == Done && old(changed) ==>
        stride == LeastMultiple(size + prefix, alignment) && |made| == count && Laid(made, base, stride, prefix, size)
      ensures a.Kept? || a.Failed? ==> unchanged(this) && unchanged(free)
      ensures a.FailedWith? ==> free.items == a.samples && total == |free.items| && changed
      ensures a.Built? ==> free.items == a.samples && total == |free.items|
      ensures a.FailedWith? || a.Built? ==> forall s :: s in free.items ==> s in made
      ensures a.Kept? || a.Built? ==> !changed && UpToDate()
    {
      hide AlignedSize, Laid, SampleList.Valid, LeastMultiple;
      if count <= 0 || size <= 0 || alignment <= 0 {
        hr, a := SizeNotSet, Failed;
        return;
      }
      if !changed {
        hr, a := Done, Kept;
        return;
      }
      if buffer != 0 {
        ReallyFree();
      }
      assert free.items == [];
      hr, a := OutOfMemory, FailedWith([]);
      var alignedSize := AlignedSize(size, prefix, alignment);
      AlignedSizeIs(size, prefix, alignment);
      StrideFits(count, size, prefix, alignment);
      if alignedSize.None? || count * alignedSize.value > MAXLONG || base == 0 {
        return;
      }
      assert size >= 0 && prefix >= 0 by { NonNegative(size, prefix, alignment); }
      buffer := base;
      stride := alignedSize.value;
      MakeSamples(alignedSize.value, canMake);
      if total < count {
        a := FailedWith(Reversed(made));
        return;
      }
      changed := false;
      hr, a := Done, Built(Reversed(made));
    }

    /** The loop of Alloc: samples are put on the free list as they are made. */
    method MakeSamples(alignedSize: i32, canMake: nat)
      requires free.Valid() && free.items == [] && total == 0 && made == []
      requires count > 0
      modifies free, `total, `made
      ensures free.Valid() && free.items == Reversed(made) && |made| == total
      ensures total == if canMake < count then canMake else count
      ensures Laid(made, buffer, alignedSize, prefix, size)
      ensures fresh(free.items)
    {
      hide SampleList.Valid, Laid, Reversed, StartOf;
      assert StartOf(buffer, 0, alignedSize) == buffer by { FirstStart(buffer, alignedSize); }
      assert Laid(made, buffer, alignedSize, prefix, size) by { NoneLaid(buffer, alignedSize, prefix, size); }
      var next: int := buffer;
      while total < count
        invariant 0 <= total <= count && total <= canMake
        invariant free.Valid() && |made| == total && free.items == Reversed(made)
        invariant fresh(free.items)
        invariant next == StartOf(buffer, total, alignedSize)
        invariant Laid(made, buffer, alignedSize, prefix, size)
      {
        if total == canMake {
          return;
        }
        var sample := new MediaSample(next + prefix, size);
        assert sample !in free.items;
        Stacked(made, sample);
        LaidFurther(made, sample, buffer, alignedSize, prefix, size);
        free.Add(sample);
        made := made + [sample];
        total := total + 1;
        next := next + alignedSize;
      }
    }

    method Commit(base: nat, canMake: nat) returns (hr: Outcome, ghost a: Allocation<MediaSample>)
      requires Valid()
      modifies this, free
      ensures Valid()
      ensures Enabled(old(Abs()), Act.Commit(a)) && Abs() == AfterCommit(old(Abs()), a)
      ensures !old(committed || decommitInProgress) ==> AllocSpec(a, old(changed), base, canMake)
      ensures hr == Done <==> committed
      ensures committed <==> old(committed) || old(decommitInProgress) || old(Granted(base, canMake))
    {
      hide Agreed, Sound, SampleList.Valid, UpToDate, NoDuplicates, AllocSpec, Memory, AllMade, Granted;
      hr, a := Done, Kept;
      if committed {
        return;
      }
      if decommitInProgress {
        CommitKeeps(Abs(), a);
        committed := true;
        decommitInProgress := false;
        return;
      }
      hr, a := CommitAnew(base, canMake);
    }

    /** Commit when nothing is committed nor about to be decommitted. */
    method CommitAnew(base: nat, canMake: nat) returns (hr: Outcome, ghost a: Allocation<MediaSample>)
      requires Valid() && !committed && !decommitInProgress
      modifies `committed, `selfRefs, `total, `buffer, `made, `changed, `stride, free
      ensures Valid()
      ensures Enabled(old(Abs()), Act.Commit(a)) && Abs() == AfterCommit(old(Abs()), a)
      ensures AllocSpec(a, old(changed), base, canMake)
      ensures hr == Done <==> committed
      ensures committed <==> old(Granted(base, canMake))
    {
      hide Agreed, Sound, SampleList.Valid, UpToDate, NoDuplicates, AllocSpec, Memory, Granted;
      ghost var was := Abs();
      NoneOutIff(Abs());
      WhenIdle(Abs());
      committed := true;
      hr, a := Alloc(base, canMake);
      free.NoneTwice();
      CommitKeeps(was, a);
      if hr != Done {
        committed := false;
        return;
      }
      selfRefs := selfRefs + 1;
    }
  }

  // ----- What a sound pool tells -----

  lemma OutIsNotFree(p: Pool<MediaSample>, sample: MediaSample)
    requires Sound(p) && sample in p.outstanding
    ensures sample !in p.free
    ensures |p.free| + 1 == p.total <==> p.outstanding == {sample}
  {
    assert |p.outstanding - {sample}| == |p.outstanding| - 1;
    if |p.outstanding| == 1 {
      assert p.outstanding - {sample} == {};
    }
  }

  lemma NoneOutIff(p: Pool<MediaSample>)
    requires Sound(p)
    ensures |p.free| < p.total <==> p.outstanding != {}
    ensures |p.free| <= p.total
  {
    if p.outstanding == {} {
      assert |p.outstanding| == 0;
    }
  }

  lemma WhenIdle(p: Pool<MediaSample>)
    requires Sound(p)
    ensures p.decommitting ==> p.outstanding != {}
    ensures !p.committed && !p.decommitting ==> p.outstanding == {}
  {
  }

  lemma NoZeroAlignment(granularity: u32, align: i32)
    requires AlignmentAccepted(granularity, align)
    ensures align != 0
  {
  }

  /** A product that fits has factors that fit. */
  lemma StrideFits(count: i32, size: i32, prefix: i32, align: i32)
    requires count > 0 && size > 0 && align > 0
    ensures prefix >= 0 && count * LeastMultiple(size + prefix, align) <= MAXLONG ==>
      LeastMultiple(size + prefix, align) <= MAXLONG
  {
    hide LeastMultiple;
    if prefix >= 0 {
      var m := LeastMultiple(size + prefix, align);
      MulMonotone(1, m, count, m);
    }
  }

  lemma NonNegative(size: i32, prefix: i32, align: i32)
    requires align > 0 && AlignedSize(size, prefix, align).Some?
    ensures size >= 0 && prefix >= 0
  {
  }
}
