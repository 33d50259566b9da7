/** The three queues of lib/circular_queue.cpp: what each push writes into its reused slot, what pop
    reads and cleans up, and that a slot never leaks a field of an earlier tenant. */
module CircularQueues {
  import opened Frames
  import opened InternalQueue

  // ---- stack queue ----

  const ZERO_FRAME := CallFrame(0, false)

  datatype StackElement = STACK_TRACE | THREAD

  datatype StackItem =
    | Trace(frames: seq<CallFrame>, numFrames: int, traceThread: int,
            sec: int, nsec: int, signum: int, threadState: int, tsc: nat)
    | ThreadName(name: string, threadId: int)

  /** A StackHolder together with the frame buffer of its slot. */
  datatype StackSlot = StackSlot(
    elementType: StackElement,
    frames: seq<CallFrame>, traceThread: int, numFrames: int,
    sec: int, nsec: int, signum: int, threadState: int, tsc: nat,
    name: string, threadId: int)

  /** What the listener is called with; a trace carries the whole frame buffer. */
  datatype StackDelivery =
    | TraceDelivered(buffer: seq<CallFrame>, numFrames: int, traceThread: int,
                     sec: int, nsec: int, signum: int, threadState: int, tsc: nat)
    | ThreadDelivered(name: string, threadId: int)

  /** Number of iterations of a loop from 0 while frame_num < num_frames. */
  function FrameCount(numFrames: int): nat
  {
    if numFrames < 0 then 0 else numFrames
  }

  function StackSteps(item: StackItem): nat
  {
    match item
    case Trace(_, _, _, _, _, _, _, _) => FrameCount(item.numFrames) + 8
    case ThreadName(_, _) => 3
  }

  function WriteStack(h: StackSlot, item: StackItem, n: nat): StackSlot
  {
    match item
    case Trace(frames, numFrames, traceThread, sec, nsec, signum, threadState, tsc) =>
      var f := FrameCount(numFrames);
      if n < f then (if n < |h.frames| && n < |frames| then h.(frames := h.frames[n := frames[n]]) else h)
      else if n == f then h.(traceThread := traceThread)
      else if n == f + 1 then h.(numFrames := numFrames)
      else if n == f + 2 then h.(elementType := STACK_TRACE)
      else if n == f + 3 then h.(sec := sec)
      else if n == f + 4 then h.(nsec := nsec)
      else if n == f + 5 then h.(signum := signum)
      else if n == f + 6 then h.(threadState := threadState)
      else h.(tsc := tsc)
    case ThreadName(name, threadId) =>
      if n == 0 then h.(elementType := THREAD)
      else if n == 1 then h.(name := name)
      else h.(threadId := threadId)
  }

  function ReadStack(h: StackSlot): StackDelivery
  {
    match h.elementType
    case STACK_TRACE =>
      TraceDelivered(h.frames, h.numFrames, h.traceThread, h.sec, h.nsec, h.signum, h.threadState, h.tsc)
    case THREAD => ThreadDelivered(h.name, h.threadId)
  }

  /** The frames that were pushed, then zeros: nothing of an earlier trace. */
  function ViewStack(maxFrames: nat, item: StackItem): StackDelivery
  {
    match item
    case Trace(frames, numFrames, traceThread, sec, nsec, signum, threadState, tsc) =>
      var f := FrameCount(numFrames);
      TraceDelivered(seq(maxFrames, i requires 0 <= i => if i < f && i < |frames| then frames[i] else ZERO_FRAME),
                     numFrames, traceThread, sec, nsec, signum, threadState, tsc)
    case ThreadName(name, threadId) => ThreadDelivered(name, threadId)
  }

  /** pop zeroes the frames of a trace; a thread entry leaves the frame buffer alone. */
  function ReleaseStack(h: StackSlot): StackSlot
  {
    match h.elementType
    case STACK_TRACE =>
      h.(frames := seq(|h.frames|, i requires 0 <= i < |h.frames| =>
                       if i < h.numFrames then ZERO_FRAME else h.frames[i]))
    case THREAD => h
  }

  predicate AllZero(maxFrames: nat, h: StackSlot)
  {
    |h.frames| == maxFrames && forall i :: 0 <= i < maxFrames ==> h.frames[i] == ZERO_FRAME
  }

  predicate Fits(maxFrames: nat, item: StackItem)
  {
    item.Trace? ==> item.numFrames <= maxFrames && FrameCount(item.numFrames) <= |item.frames|
  }

  function StackCodec(maxFrames: nat): Codec<StackSlot, StackItem, StackDelivery>
  {
    Codec(StackSteps, WriteStack, ReadStack, item => ViewStack(maxFrames, item), ReleaseStack,
          h => AllZero(maxFrames, h), item => Fits(maxFrames, item))
  }

  lemma OneMoreStored<T>(from: seq<T>, under: seq<T>, n: nat)
    requires n < |from| && n < |under|
    ensures (from[..n] + under[n..])[n := from[n]] == from[..n + 1] + under[n + 1..]
  {
  }

  /** After n stores of a trace, n <= num_frames: the first n frames are in, and nothing else has changed. */
  lemma {:induction false} FramesWritten(maxFrames: nat, base: StackSlot, item: StackItem, n: nat)
    requires item.Trace? && Fits(maxFrames, item) && |base.frames| == maxFrames
    requires n <= FrameCount(item.numFrames)
    ensures Written(StackCodec(maxFrames), base, item, n) == base.(frames := item.frames[..n] + base.frames[n..])
  {
    if n > 0 {
      FramesWritten(maxFrames, base, item, n - 1);
      OneMoreStored(item.frames, base.frames, n - 1);
    } else {
      assert item.frames[..0] + base.frames[0..] == base.frames;
    }
  }

  /** The slot after all stores of a trace. */
  function TraceStored(base: StackSlot, item: StackItem): StackSlot
    requires item.Trace? && FrameCount(item.numFrames) <= |item.frames| && FrameCount(item.numFrames) <= |base.frames|
  {
    var f := FrameCount(item.numFrames);
    StackSlot(STACK_TRACE, item.frames[..f] + base.frames[f..], item.traceThread, item.numFrames,
              item.sec, item.nsec, item.signum, item.threadState, item.tsc, base.name, base.threadId)
  }

  lemma TraceWritten(maxFrames: nat, base: StackSlot, item: StackItem)
    requires item.Trace? && Fits(maxFrames, item) && |base.frames| == maxFrames
    ensures Written(StackCodec(maxFrames), base, item, StackSteps(item)) == TraceStored(base, item)
  {
    hide Written, WriteStack, FrameCount;
    var c, f := StackCodec(maxFrames), FrameCount(item.numFrames);
    FramesWritten(maxFrames, base, item, f);
    for k := 0 to 8
      invariant Written(c, base, item, f + k) == TraceFields(Written(c, base, item, f), item, k)
    {
      WrittenOneMore(maxFrames, base, item, f + k);
      TraceFieldWritten(Written(c, base, item, f), item, k);
    }
  }

  lemma WrittenOneMore(maxFrames: nat, base: StackSlot, item: StackItem, n: nat)
    ensures Written(StackCodec(maxFrames), base, item, n + 1)
         == WriteStack(Written(StackCodec(maxFrames), base, item, n), item, n)
  {
  }

  /** The first k fields of a trace, after its frames. */
  function TraceFields(h: StackSlot, item: StackItem, k: nat): StackSlot
    requires item.Trace?
  {
    var h1 := if k > 0 then h.(traceThread := item.traceThread) else h;
    var h2 := if k > 1 then h1.(numFrames := item.numFrames) else h1;
    var h3 := if k > 2 then h2.(elementType := STACK_TRACE) else h2;
    var h4 := if k > 3 then h3.(sec := item.sec) else h3;
    var h5 := if k > 4 then h4.(nsec := item.nsec) else h4;
    var h6 := if k > 5 then h5.(signum := item.signum) else h5;
    var h7 := if k > 6 then h6.(threadState := item.threadState) else h6;
    if k > 7 then h7.(tsc := item.tsc) else h7
  }

  lemma TraceFieldWritten(h: StackSlot, item: StackItem, k: nat)
    requires item.Trace? && k < 8
    ensures WriteStack(TraceFields(h, item, k), item, FrameCount(item.numFrames) + k) == TraceFields(h, item, k + 1)
  {
  }

  lemma ThreadWritten(maxFrames: nat, base: StackSlot, item: StackItem)
    requires item.ThreadName?
    ensures Written(StackCodec(maxFrames), base, item, StackSteps(item))
         == base.(elementType := THREAD, name := item.name, threadId := item.threadId)
  {
    var c := StackCodec(maxFrames);
    assert Written(c, base, item, 1) == WriteStack(base, item, 0);
    assert Written(c, base, item, 2) == WriteStack(Written(c, base, item, 1), item, 1);
    assert Written(c, base, item, 3) == WriteStack(Written(c, base, item, 2), item, 2);
  }

  /** The stack queue delivers what was pushed, and an unowned slot's frame buffer is all zero: also after a
      trace with a negative frame count, and after a thread entry. */
  lemma StackCodecLawful(maxFrames: nat)
    ensures Lawful(StackCodec(maxFrames))
  {
    var c := StackCodec(maxFrames);
    forall base, item | c.clean(base) && c.accepts(item)
      ensures var h := Written(c, base, item, c.steps(item)); c.read(h) == c.view(item) && c.clean(c.release(h))
    {
      if item.Trace? {
        TraceWritten(maxFrames, base, item);
        assert TraceStored(base, item).frames == ViewStack(maxFrames, item).buffer;
      } else {
        ThreadWritten(maxFrames, base, item);
      }
    }
  }

  // ---- the same stores as the source makes them, on the holder and the frame buffer ----

  class StackHolder {
    const frameBuffer: array<CallFrame>
    var elementType: StackElement
    var traceThread: int
    var numFrames: int
    var sec: int
    var nsec: int
    var signum: int
    var threadState: int
    var tsc: nat
    var name: string
    var threadId: int

    ghost function Slot(): StackSlot
      reads this, frameBuffer
    {
      StackSlot(elementType, frameBuffer[..], traceThread, numFrames, sec, nsec, signum, threadState, tsc,
                name, threadId)
    }

    constructor (maxFrames: nat)
      ensures fresh(frameBuffer) && AllZero(maxFrames, Slot())
    {
      elementType := STACK_TRACE;
      traceThread, numFrames, sec, nsec, signum, threadState, tsc, threadId := 0, 0, 0, 0, 0, 0, 0, 0;
      name := "";
      frameBuffer := new CallFrame[maxFrames](_ => ZERO_FRAME);
    }

    /** Copies frame by frame, because memcpy is not safe in the signal handler. */
    method Write(item: StackItem)
      requires item.Trace? && Fits(frameBuffer.Length, item)
      modifies this, frameBuffer
      ensures Slot() == Written(StackCodec(frameBuffer.Length), old(Slot()), item, FrameCount(item.numFrames) + 2)
    {
      ghost var c := StackCodec(frameBuffer.Length);
      ghost var base := Slot();
      var frameNum := 0;
      while frameNum < item.numFrames
        invariant 0 <= frameNum <= FrameCount(item.numFrames)
        invariant Slot() == Written(c, base, item, frameNum)
      {
        ghost var before := frameBuffer[..];
        frameBuffer[frameNum] := item.frames[frameNum];
        assert frameBuffer[..] == before[frameNum := item.frames[frameNum]];
        frameNum := frameNum + 1;
      }
      traceThread := item.traceThread;
      assert Slot() == Written(c, base, item, frameNum + 1);
      numFrames := item.numFrames;
    }

    /** pushStackTrace and pushThread between acquireWrite and commitWrite. */
    method Fill(item: StackItem)
      requires Fits(frameBuffer.Length, item)
      modifies this, frameBuffer
      ensures Slot() == Written(StackCodec(frameBuffer.Length), old(Slot()), item, StackSteps(item))
    {
      ghost var base := Slot();
      match item
      case Trace(_, _, _, _, _, _, _, _) =>
        TraceWritten(frameBuffer.Length, base, item);
        FramesWritten(frameBuffer.Length, base, item, FrameCount(item.numFrames));
        Write(item);
        elementType := STACK_TRACE;
        sec := item.sec;
        nsec := item.nsec;
        signum := item.signum;
        threadState := item.threadState;
        tsc := item.tsc;
      case ThreadName(_, _) =>
        ThreadWritten(frameBuffer.Length, base, item);
        elementType := THREAD;
        name := item.name;
        threadId := item.threadId;
    }

    /** The part of pop between the listener call and commitRead. */
    method ZeroFrames()
      requires numFrames <= frameBuffer.Length
      modifies frameBuffer
      ensures Slot() == ReleaseStack(old(Slot()))
    {
      ghost var base := frameBuffer[..];
      if elementType == STACK_TRACE {
        var frameNum := 0;
        while frameNum < numFrames
          invariant 0 <= frameNum <= FrameCount(numFrames)
          invariant forall i :: 0 <= i < frameBuffer.Length ==>
                      frameBuffer[i] == if i < frameNum then ZERO_FRAME else base[i]
        {
          frameBuffer[frameNum] := ZERO_FRAME;
          frameNum := frameNum + 1;
        }
      }
    }
  }

  // ---- main queue ----

  datatype MetricInfo = MetricInfo(name: string, id: nat, variability: int, dataType: int, unit: int)

  datatype MetricSample = MetricSample(id: nat, dataType: int, valueString: string, valueLong: int)

  datatype MainElement = NOTIFICATION | METRIC_INFORMATION | METRIC_SAMPLES | CONSTANT_METRICS_COMPLETE

  datatype MainItem =
    | Notification(category: int, payload: string, value: int)
    | MetricInformation(info: MetricInfo)
    | MetricSamples(samples: seq<MetricSample>, timeEpochMillis: int)
    | ConstantMetricsComplete

  datatype Holder = Holder(
    elementType: MainElement,
    category: int, payload: string, value: int,
    info: MetricInfo,
    timeEpochMillis: int, samples: seq<MetricSample>)

  function WriteMain(h: Holder, item: MainItem, n: nat): Holder
  {
    match item
    case Notification(category, payload, value) =>
      if n == 0 then h.(elementType := NOTIFICATION)
      else if n == 1 then h.(category := category)
      else if n == 2 then h.(payload := payload)
      else h.(value := value)
    case MetricInformation(info) =>
      if n == 0 then h.(elementType := METRIC_INFORMATION) else h.(info := info)
    case MetricSamples(samples, time) =>
      if n == 0 then h.(elementType := METRIC_SAMPLES)
      else if n == 1 then h.(samples := samples)
      else h.(timeEpochMillis := time)
    case ConstantMetricsComplete => h.(elementType := CONSTANT_METRICS_COMPLETE)
  }

  function MainSteps(item: MainItem): nat
  {
    match item
    case Notification(_, _, _) => 4
    case MetricInformation(_) => 2
    case MetricSamples(_, _) => 3
    case ConstantMetricsComplete => 1
  }

  /** The dispatch of pop on the element type. */
  function ReadMain(h: Holder): MainItem
  {
    match h.elementType
    case NOTIFICATION => Notification(h.category, h.payload, h.value)
    case METRIC_INFORMATION => MetricInformation(h.info)
    case METRIC_SAMPLES => MetricSamples(h.samples, h.timeEpochMillis)
    case CONSTANT_METRICS_COMPLETE => ConstantMetricsComplete
  }

  function MainCodec(): Codec<Holder, MainItem, MainItem>
  {
    Codec(MainSteps, WriteMain, ReadMain, item => item, h => h, h => true, item => true)
  }

  /** The listener is called with exactly what was pushed, whatever the slot held before. */
  lemma MainCodecLawful()
    ensures Lawful(MainCodec())
  {
    var c := MainCodec();
    forall base, item | c.clean(base) && c.accepts(item)
      ensures var h := Written(c, base, item, c.steps(item)); c.read(h) == c.view(item) && c.clean(c.release(h))
    {
      assert Written(c, base, item, 1) == WriteMain(base, item, 0);
      assert Written(c, base, item, 2) == WriteMain(Written(c, base, item, 1), item, 1);
      assert Written(c, base, item, 3) == WriteMain(Written(c, base, item, 2), item, 2);
    }
  }

  // ---- allocation queue ----

  datatype Symbol = NullSymbol | SymbolAt(address: nat)

  datatype Allocation = Allocation(size: nat, outsideTlab: bool, symbol: Symbol)

  function WriteAllocation(h: Allocation, item: Allocation, n: nat): Allocation
  {
    if n == 0 then h.(size := item.size)
    else if n == 1 then h.(outsideTlab := item.outsideTlab)
    else h.(symbol := item.symbol)
  }

  function AllocationCodec(): Codec<Allocation, Allocation, Allocation>
  {
    Codec(_ => 3, WriteAllocation, h => h, item => item, (h: Allocation) => h.(symbol := NullSymbol),
          h => true, item => true)
  }

  lemma AllocationCodecLawful()
    ensures Lawful(AllocationCodec())
  {
    var c := AllocationCodec();
    forall base, item | c.clean(base) && c.accepts(item)
      ensures var h := Written(c, base, item, c.steps(item)); c.read(h) == c.view(item) && c.clean(c.release(h))
    {
      assert Written(c, base, item, 1) == WriteAllocation(base, item, 0);
      assert Written(c, base, item, 2) == WriteAllocation(Written(c, base, item, 1), item, 1);
    }
  }

  // ---- the queues of the profiler ----

  const MAIN_CAPACITY: nat := 2048 + 1
  const ALLOCATION_CAPACITY: nat := 32768 + 1
  const STACK_CAPACITY: nat := 2048 + 1

  /** What the listener gets for an entry, field by field: of a trace the frames that were pushed and then
      zeros, with everything else as pushed. */
  predicate IsDelivery(maxFrames: nat, item: StackItem, d: StackDelivery)
  {
    match item
    case Trace(frames, numFrames, traceThread, sec, nsec, signum, threadState, tsc) =>
      && d.TraceDelivered? && |d.buffer| == maxFrames
      && (forall i :: 0 <= i < maxFrames ==>
            d.buffer[i] == if i < numFrames && i < |frames| then frames[i] else ZERO_FRAME)
      && d.numFrames == numFrames && d.traceThread == traceThread && d.sec == sec && d.nsec == nsec
      && d.signum == signum && d.threadState == threadState && d.tsc == tsc
    case ThreadName(name, threadId) => d == ThreadDelivered(name, threadId)
  }

  /** Over any run of any number of signal handlers and the processor thread, every trace and thread entry
      is delivered once, in order, as it was pushed, and unowned frame buffers are all zero. */
  lemma StackQueueDelivers(maxFrames: nat, blank: StackSlot, events: seq<Event<StackItem>>)
    requires AllZero(maxFrames, blank) && Possible(StackCodec(maxFrames), STACK_CAPACITY, blank, events)
    ensures var s := After(StackCodec(maxFrames), STACK_CAPACITY, blank, events);
      && |s.delivered| <= |s.log| && |s.holders| == STACK_CAPACITY
      && (forall n :: 0 <= n < |s.delivered| ==> IsDelivery(maxFrames, s.log[n].item, s.delivered[n]))
      && (forall i: nat :: i < STACK_CAPACITY && !InUse(STACK_CAPACITY, s, i) ==> AllZero(maxFrames, s.holders[i]))
  {
    StackCodecLawful(maxFrames);
    RunIsSafe(StackCodec(maxFrames), STACK_CAPACITY, blank, events);
  }

  lemma MainQueueDelivers(blank: Holder, events: seq<Event<MainItem>>)
    requires Possible(MainCodec(), MAIN_CAPACITY, blank, events)
    ensures var s := After(MainCodec(), MAIN_CAPACITY, blank, events);
      && |s.delivered| <= |s.log| < s.head + MAIN_CAPACITY
      && (forall n :: 0 <= n < |s.delivered| ==> s.delivered[n] == s.log[n].item)
  {
    MainCodecLawful();
    RunIsSafe(MainCodec(), MAIN_CAPACITY, blank, events);
  }

  /** Every allocation is delivered once as pushed, or is still in flight, or has been counted as a failure. */
  lemma AllocationQueueAccounts(blank: Allocation, events: seq<Event<Allocation>>)
    requires Possible(AllocationCodec(), ALLOCATION_CAPACITY, blank, events)
    ensures var s := After(AllocationCodec(), ALLOCATION_CAPACITY, blank, events);
      && |s.delivered| <= |s.log|
      && (forall n :: 0 <= n < |s.delivered| ==> s.delivered[n] == s.log[n].item)
      && s.attempts == |s.delivered| + (|s.log| - |s.delivered| + |Trying(s)|) + s.failures
  {
    AllocationCodecLawful();
    RunIsSafe(AllocationCodec(), ALLOCATION_CAPACITY, blank, events);
    RunIsAccounted(AllocationCodec(), ALLOCATION_CAPACITY, blank, events);
  }
}
