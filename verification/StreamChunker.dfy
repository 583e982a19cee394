/** The converting stream source of cmds/stagefright/stream.cpp: a writer thread splits
    arbitrary writes into fixed buffers that circulate between it and a listener.

    Every region of the original that holds the lock is one atomic event of a state machine,
    so the runs below are exactly the interleavings of the two threads. */
module StreamChunker {

  /** What the source sends to its listener. */
  datatype Command = QueueBuffer(index: nat, bytes: seq<bv8>) | EndOfStream

  datatype State = State(
    memory: seq<seq<bv8>>,       // contents of the shared buffers
    current: int,                // buffer being filled, or -1
    offset: nat,                 // bytes filled in it
    queue: seq<nat>,             // empty buffers waiting to be filled
    lent: map<nat, seq<bv8>>,    // buffers in the listener's hands, with the bytes it was given
    log: seq<Command>,           // everything sent so far
    pending: seq<bv8>,           // rest of the write in progress
    total: nat)                  // bytes of that write already copied

  datatype Event =
    | Write(data: seq<bv8>)                // writeData is called
    | Iterate                              // one iteration of its loop, under the lock
    | Available(index: nat, eos: bool)     // onBufferAvailable; eos is the writer's reachedEOS()

  function Payload(log: seq<Command>): seq<bv8> {
    if log == [] then []
    else Payload(log[..|log| - 1]) + (match log[|log| - 1] case QueueBuffer(_, b) => b case EndOfStream => [])
  }

  function Filled(s: State): seq<bv8>
    requires 0 <= s.current ==> s.current < |s.memory| && s.offset <= |s.memory[s.current]|
  {
    if s.current < 0 then [] else s.memory[s.current][..s.offset]
  }

  function AllWrites(events: seq<Event>): seq<bv8> {
    if events == [] then []
    else AllWrites(events[..|events| - 1]) + (var e := events[|events| - 1]; if e.Write? then e.data else [])
  }

  function Iterations(events: seq<Event>): nat {
    if events == [] then 0
    else Iterations(events[..|events| - 1]) + (if events[|events| - 1].Iterate? then 1 else 0)
  }

  // ---- Transitions -------------------------------------------------------------------------

  predicate CanProceed(s: State) {
    s.current >= 0 || s.queue != []
  }

  predicate Enabled(s: State, e: Event) {
    match e
    case Write(_) => s.pending == []
    case Iterate => s.pending != [] && CanProceed(s)
    case Available(i, _) => i in s.lent
  }

  ghost predicate InRange(s: State) {
    && -1 <= s.current < |s.memory|
    && (0 <= s.current ==> s.offset <= |s.memory[s.current]|)
    && (forall k :: 0 <= k < |s.queue| ==> s.queue[k] < |s.memory|)
  }

  /** The buffer being filled, after a new one has been taken from the queue if needed. */
  function Taken(s: State): (t: State)
    requires CanProceed(s)
  {
    if s.current < 0 then s.(current := s.queue[0], offset := 0, queue := s.queue[1..]) else s
  }

  function CopyCount(t: State): nat
    requires 0 <= t.current < |t.memory| && t.offset <= |t.memory[t.current]|
  {
    if |t.pending| + t.offset > |t.memory[t.current]| then |t.memory[t.current]| - t.offset else |t.pending|
  }

  function Overwrite(m: seq<bv8>, at: nat, bytes: seq<bv8>): seq<bv8>
    requires at + |bytes| <= |m|
  {
    m[..at] + bytes + m[at + |bytes|..]
  }

  function Copied(t: State): State
    requires 0 <= t.current < |t.memory| && t.offset <= |t.memory[t.current]|
  {
    var n := CopyCount(t);
    t.(memory := t.memory[t.current := Overwrite(t.memory[t.current], t.offset, t.pending[..n])],
       offset := t.offset + n, pending := t.pending[n..], total := t.total + n)
  }

  /** queueBuffer: the buffer being filled goes to the listener. */
  function Delivered(s: State): State
    requires 0 <= s.current < |s.memory| && s.offset <= |s.memory[s.current]|
  {
    s.(current := -1, log := s.log + [QueueBuffer(s.current, Filled(s))], lent := s.lent[s.current := Filled(s)])
  }

  function IterateNext(s: State): State
    requires InRange(s) && CanProceed(s)
  {
    var u := Copied(Taken(s));
    if u.offset == |u.memory[u.current]| then Delivered(u) else u
  }

  function Returned(s: State, i: nat): State {
    s.(queue := s.queue + [i], lent := s.lent - {i})
  }

  function AvailableNext(s: State, i: nat, eos: bool): State
    requires InRange(s)
  {
    var r := Returned(s, i);
    if !eos then r
    else
      var d := if r.current >= 0 then Delivered(r) else r;
      d.(log := d.log + [EndOfStream])
  }

  function Next(s: State, e: Event): State
    requires InRange(s) && Enabled(s, e)
  {
    match e
    case Write(data) => s.(pending := data, total := 0)
    case Iterate => IterateNext(s)
    case Available(i, eos) => AvailableNext(s, i, eos)
  }

  // ---- Invariant ---------------------------------------------------------------------------

  /** setBuffers has handed the source its buffers; all of them are still with the listener. */
  ghost predicate Init(s: State) {
    && (forall i :: 0 <= i < |s.memory| ==> |s.memory[i]| > 0)
    && s.current == -1 && s.queue == [] && s.log == [] && s.pending == [] && s.total == 0
    && (forall i :: i in s.lent <==> 0 <= i < |s.memory|)
    && (forall i :: i in s.lent ==> s.lent[i] == [])
  }

  /** Each buffer is in exactly one of: the listener's hands, the queue, the writer's hands. */
  ghost predicate Partitioned(s: State) {
    && (forall i :: i in s.lent ==> i < |s.memory| && i !in s.queue && i != s.current)
    && (forall k :: 0 <= k < |s.queue| ==> s.queue[k] != s.current)
    && (forall j, k :: 0 <= j < k < |s.queue| ==> s.queue[j] != s.queue[k])
    && (forall i :: 0 <= i < |s.memory| ==> i in s.lent || i in s.queue || i == s.current)
  }

  /** What holds at every point, also inside a locked region. */
  ghost predicate Sound(s: State) {
    && InRange(s)
    && (forall i :: 0 <= i < |s.memory| ==> |s.memory[i]| > 0)
    && Partitioned(s)
    // What the listener was given is still in the buffer it was given.
    && (forall i :: i in s.lent ==> s.lent[i] <= s.memory[i])
  }

  /** What holds whenever the lock is free. */
  ghost predicate Inv(s: State) {
    Sound(s) && (0 <= s.current ==> 0 < s.offset < |s.memory[s.current]|)
  }

  ghost predicate FullBuffersOnly(s: State) {
    forall k :: 0 <= k < |s.log| ==>
      s.log[k].QueueBuffer? && s.log[k].index < |s.memory| && |s.log[k].bytes| == |s.memory[s.log[k].index]|
  }

  // ---- One step ----------------------------------------------------------------------------

  lemma PayloadSnoc(log: seq<Command>, c: Command)
    ensures Payload(log + [c]) == Payload(log) + (match c case QueueBuffer(_, b) => b case EndOfStream => [])
  {
    assert (log + [c])[..|log|] == log;
  }

  lemma TakeStep(s: State)
    requires Inv(s) && CanProceed(s)
    ensures var t := Taken(s);
            && Sound(t) && 0 <= t.current && t.current !in t.lent
            && t.offset < |t.memory[t.current]|
            && Filled(t) == Filled(s)
  {
    var t := Taken(s);
    if s.current < 0 {
      assert s.queue[0] in s.queue;
      assert s.queue == [s.queue[0]] + t.queue;
    }
  }

  lemma CopyStep(t: State)
    requires Sound(t) && 0 <= t.current && t.offset < |t.memory[t.current]| && t.pending != []
    ensures var u := Copied(t);
            && Sound(u)
            && |u.memory| == |t.memory| && (forall i :: 0 <= i < |t.memory| ==> |u.memory[i]| == |t.memory[i]|)
            && t.offset < u.offset
            && |u.pending| < |t.pending|
            && u.total + |u.pending| == t.total + |t.pending|
            && Filled(u) + u.pending == Filled(t) + t.pending
            && (u.pending == [] || u.offset == |u.memory[u.current]|)
  {
    var u := Copied(t);
    var n := CopyCount(t);
    assert Filled(u) == Filled(t) + t.pending[..n];
    assert t.pending == t.pending[..n] + t.pending[n..];
    assert forall i :: 0 <= i < |t.memory| && i != t.current ==> u.memory[i] == t.memory[i];
  }

  lemma DeliverStep(u: State)
    requires Sound(u) && 0 <= u.current
    ensures Sound(Delivered(u)) && Payload(Delivered(u).log) == Payload(u.log) + Filled(u)
  {
    PayloadSnoc(u.log, QueueBuffer(u.current, Filled(u)));
  }

  lemma {:induction false} IterateStep(s: State)
    requires Inv(s) && Enabled(s, Iterate)
    ensures var t := IterateNext(s);
            && Inv(t)
            && |t.memory| == |s.memory| && (forall i :: 0 <= i < |s.memory| ==> |t.memory[i]| == |s.memory[i]|)
            && |t.pending| < |s.pending|
            && t.total + |t.pending| == s.total + |s.pending|
            && Payload(t.log) + Filled(t) + t.pending == Payload(s.log) + Filled(s) + s.pending
            && (t.pending == [] || t.current < 0)
  {
    TakeStep(s);
    var a := Taken(s);
    CopyStep(a);
    var u := Copied(a);
    DeliverStep(u);
    SplitPayload(s, u);
  }

  lemma SplitPayload(s: State, u: State)
    requires InRange(s) && InRange(u) && u.log == s.log && Filled(u) + u.pending == Filled(s) + s.pending
    ensures Payload(u.log) + Filled(u) + u.pending == Payload(s.log) + Filled(s) + s.pending
    ensures Payload(u.log) + Filled(u) + [] + u.pending == Payload(s.log) + Filled(s) + s.pending
  {
    assert Payload(u.log) + Filled(u) + u.pending == Payload(u.log) + (Filled(u) + u.pending);
    assert Payload(s.log) + Filled(s) + s.pending == Payload(s.log) + (Filled(s) + s.pending);
    assert Payload(u.log) + Filled(u) + [] == Payload(u.log) + Filled(u);
  }

  lemma IterateKeepsFull(s: State)
    requires Inv(s) && Enabled(s, Iterate) && FullBuffersOnly(s)
    ensures FullBuffersOnly(IterateNext(s))
  {
    TakeStep(s);
    CopyStep(Taken(s));
  }

  lemma ReturnStep(s: State, i: nat)
    requires Inv(s) && i in s.lent
    ensures Inv(Returned(s, i)) && Filled(Returned(s, i)) == Filled(s)
  {
    var t := Returned(s, i);
    assert t.queue[|s.queue|] == i && t.queue[..|s.queue|] == s.queue;
    assert forall j :: j in t.queue <==> j in s.queue || j == i;
  }

  lemma {:induction false} AvailableStep(s: State, i: nat, eos: bool)
    requires Inv(s) && Enabled(s, Available(i, eos))
    ensures var t := AvailableNext(s, i, eos);
            && Inv(t)
            && t.memory == s.memory && t.pending == s.pending && t.total == s.total
            && CanProceed(t)
            && Payload(t.log) + Filled(t) == Payload(s.log) + Filled(s)
            // The end-of-stream command goes out after every accepted byte.
            && (eos ==>
                  t.log[|t.log| - 1] == EndOfStream && Filled(t) == [] && Payload(t.log) == Payload(s.log) + Filled(s))
  {
    ReturnStep(s, i);
    var r := Returned(s, i);
    if eos {
      EndStep(r);
    }
  }

  /** The end of the stream: what is in the buffer being filled goes out first. */
  lemma EndStep(r: State)
    requires Inv(r) && r.queue != []
    ensures var d := if r.current >= 0 then Delivered(r) else r;
            var t := d.(log := d.log + [EndOfStream]);
            Inv(t) && Filled(t) == [] && Payload(t.log) == Payload(r.log) + Filled(r)
  {
    var d := if r.current >= 0 then Delivered(r) else r;
    if r.current >= 0 { DeliverStep(r); }
    PayloadSnoc(d.log, EndOfStream);
  }

  // ---- Runs --------------------------------------------------------------------------------

  /** s leads to t by the given events, each enabled when it happens. */
  ghost predicate Reaches(s: State, events: seq<Event>, t: State)
    decreases |events|
  {
    if events == [] then s == t
    else exists mid :: StepsTo(s, events, mid, t)
  }

  ghost predicate StepsTo(s: State, events: seq<Event>, mid: State, t: State)
    requires events != []
    decreases |events|, 0
  {
    var e := events[|events| - 1];
    Reaches(s, events[..|events| - 1], mid) && InRange(mid) && Enabled(mid, e) && t == Next(mid, e)
  }

  lemma ReachesSnoc(s: State, events: seq<Event>, mid: State, e: Event)
    requires Reaches(s, events, mid) && InRange(mid) && Enabled(mid, e)
    ensures Reaches(s, events + [e], Next(mid, e))
  {
    assert (events + [e])[..|events|] == events;
    assert StepsTo(s, events + [e], mid, Next(mid, e));
  }

  /** The bytes accepted for delivery, in the order in which the listener gets them. */
  function Accepted(s: State): seq<bv8>
    requires InRange(s)
  {
    Payload(s.log) + Filled(s) + s.pending
  }

  lemma StepConserves(s: State, e: Event)
    requires Inv(s) && Enabled(s, e)
    ensures Inv(Next(s, e))
    ensures Accepted(Next(s, e)) == Accepted(s) + (if e.Write? then e.data else [])
    ensures |Next(s, e).pending| + (if e.Iterate? then 1 else 0) <= |s.pending| + (if e.Write? then |e.data| else 0)
  {
    match e {
      case Write(data) =>
      case Iterate => IterateStep(s);
      case Available(i, eos) => AvailableStep(s, i, eos);
    }
  }

  /** For every interleaving: nothing is lost, duplicated or reordered, buffers are never shared,
      and loop iterations are bounded by the bytes asked for. */
  lemma {:induction false} ConservationOverRuns(s: State, events: seq<Event>, t: State)
    requires Init(s) && Reaches(s, events, t)
    ensures Inv(t)
    ensures Payload(t.log) + Filled(t) + t.pending == AllWrites(events)
    ensures Iterations(events) + |t.pending| <= |AllWrites(events)|
    decreases |events|
  {
    if events != [] {
      var mid :| StepsTo(s, events, mid, t);
      ConservationOverRuns(s, events[..|events| - 1], mid);
      StepConserves(mid, events[|events| - 1]);
    }
  }

  /** Only an end-of-stream notice can send a partly filled buffer. */
  lemma {:induction false} PartialBuffersOnlyAtEos(s: State, events: seq<Event>, t: State)
    requires Init(s) && Reaches(s, events, t)
    requires forall k :: 0 <= k < |events| ==> !(events[k].Available? && events[k].eos)
    ensures FullBuffersOnly(t)
    decreases |events|
  {
    if events != [] {
      var mid :| StepsTo(s, events, mid, t);
      var before := events[..|events| - 1];
      PartialBuffersOnlyAtEos(s, before, mid);
      ConservationOverRuns(s, before, mid);
      match events[|events| - 1] {
        case Write(_) =>
        case Iterate => IterateStep(mid); IterateKeepsFull(mid);
        case Available(i, eos) => AvailableStep(mid, i, eos);
      }
    }
  }

  /** The buffers that the listener has returned, in order. */
  function Returns(events: seq<Event>): seq<nat> {
    if events == [] then []
    else
      var e := events[|events| - 1];
      Returns(events[..|events| - 1]) + (if e.Available? then [e.index] else [])
  }

  /** The buffers sent to the listener, in order. */
  function Sent(log: seq<Command>): seq<nat> {
    if log == [] then []
    else
      var c := log[|log| - 1];
      Sent(log[..|log| - 1]) + (if c.QueueBuffer? then [c.index] else [])
  }

  function InUse(s: State): seq<nat> { if s.current >= 0 then [s.current] else [] }

  function EosNotices(events: seq<Event>): nat {
    if events == [] then 0
    else
      var e := events[|events| - 1];
      EosNotices(events[..|events| - 1]) + (if e.Available? && e.eos then 1 else 0)
  }

  function Ends(log: seq<Command>): nat {
    if log == [] then 0 else Ends(log[..|log| - 1]) + (if log[|log| - 1].EndOfStream? then 1 else 0)
  }

  lemma SentSnoc(log: seq<Command>, c: Command)
    ensures Sent(log + [c]) == Sent(log) + (if c.QueueBuffer? then [c.index] else [])
    ensures Ends(log + [c]) == Ends(log) + (if c.EndOfStream? then 1 else 0)
  {
    assert (log + [c])[..|log|] == log;
  }

  /** A buffer that is not full when it is sent is the last thing before the end of the stream. */
  ghost predicate PartialThenEnd(s: State) {
    forall k: nat :: k < |s.log| ==> FullOrLast(s, k)
  }

  ghost predicate FullOrLast(s: State, k: nat)
    requires k < |s.log|
  {
    s.log[k].QueueBuffer? ==>
      && s.log[k].index < |s.memory|
      && (|s.log[k].bytes| < |s.memory[s.log[k].index]| ==> k + 1 < |s.log| && s.log[k + 1] == EndOfStream)
  }

  /** The buffers sent, the one in use and those queued. */
  function Used(s: State): seq<nat> { Sent(s.log) + (InUse(s) + s.queue) }

  lemma UsedAgain(s: State, t: State)
    requires t.log == s.log && InUse(t) + t.queue == InUse(s) + s.queue
    ensures Used(t) == Used(s) && Ends(t.log) == Ends(s.log)
  {
  }

  lemma DeliveredUsed(s: State)
    requires 0 <= s.current < |s.memory| && s.offset <= |s.memory[s.current]|
    ensures Used(Delivered(s)) == Used(s) && Ends(Delivered(s).log) == Ends(s.log)
  {
    SentSnoc(s.log, QueueBuffer(s.current, Filled(s)));
    assert Sent(s.log) + [s.current] + ([] + s.queue) == Sent(s.log) + ([s.current] + s.queue);
  }

  lemma IterateUsed(s: State)
    requires Inv(s) && Enabled(s, Iterate)
    ensures Used(IterateNext(s)) == Used(s) && Ends(IterateNext(s).log) == Ends(s.log)
  {
    TakeStep(s);
    var a := Taken(s);
    CopyStep(a);
    hide Sound, Used;
    UsedAgain(s, a);
    UsedAgain(a, Copied(a));
    DeliveredUsed(Copied(a));
  }

  lemma AvailableUsed(s: State, i: nat, eos: bool)
    requires InRange(s)
    ensures Used(AvailableNext(s, i, eos)) == Used(s) + [i]
    ensures Ends(AvailableNext(s, i, eos).log) == Ends(s.log) + (if eos then 1 else 0)
  {
    var r := Returned(s, i);
    assert InUse(s) + (s.queue + [i]) == InUse(s) + s.queue + [i];
    assert Sent(s.log) + (InUse(s) + s.queue + [i]) == Used(s) + [i];
    assert Used(r) == Used(s) + [i];
    hide Sent, Used, Filled;
    if eos {
      if r.current >= 0 { DeliveredUsed(r); }
      SentSnoc((if r.current >= 0 then Delivered(r) else r).log, EndOfStream);
    }
  }

  lemma UsedStep(s: State, e: Event)
    requires Inv(s) && Enabled(s, e)
    ensures Used(Next(s, e)) == Used(s) + (if e.Available? then [e.index] else [])
    ensures Ends(Next(s, e).log) == Ends(s.log) + (if e.Available? && e.eos then 1 else 0)
  {
    hide AvailableNext, IterateNext;
    match e {
      case Write(_) => hide Inv;
      case Iterate => IterateUsed(s);
      case Available(i, eos) => AvailableUsed(s, i, eos);
    }
  }

  lemma PartialStep(s: State, e: Event)
    requires Inv(s) && PartialThenEnd(s) && Enabled(s, e)
    ensures PartialThenEnd(Next(s, e))
  {
    match e {
      case Write(_) => SamePartial(s, Next(s, e));
      case Iterate =>
        TakeStep(s);
        CopyStep(Taken(s));
        var u := Copied(Taken(s));
        SamePartial(s, u);
        if u.offset == |u.memory[u.current]| { FullDelivered(u); }
      case Available(i, eos) =>
        var r := Returned(s, i);
        SamePartial(s, r);
        if eos { EndedAfter(if r.current >= 0 then Delivered(r) else r, r); }
    }
  }

  lemma SamePartial(s: State, t: State)
    requires PartialThenEnd(s) && t.log == s.log && |t.memory| == |s.memory|
    requires forall i :: 0 <= i < |s.memory| ==> |t.memory[i]| == |s.memory[i]|
    ensures PartialThenEnd(t)
  {
    forall k: nat | k < |t.log| ensures FullOrLast(t, k) { assert FullOrLast(s, k); }
  }

  lemma FullDelivered(u: State)
    requires PartialThenEnd(u) && 0 <= u.current < |u.memory| && u.offset == |u.memory[u.current]|
    ensures PartialThenEnd(Delivered(u))
  {
    var t := Delivered(u);
    forall k: nat | k < |t.log| ensures FullOrLast(t, k) {
      if k < |u.log| { assert FullOrLast(u, k); }
    }
  }

  /** d is r with at most one more command. */
  lemma EndedAfter(d: State, r: State)
    requires PartialThenEnd(r) && d.memory == r.memory && InRange(r)
    requires d.log == r.log || (r.current >= 0 && d.log == r.log + [QueueBuffer(r.current, Filled(r))])
    ensures PartialThenEnd(d.(log := d.log + [EndOfStream]))
  {
    var t := d.(log := d.log + [EndOfStream]);
    forall k: nat | k < |t.log| ensures FullOrLast(t, k) {
      if k < |r.log| { assert FullOrLast(r, k); }
    }
  }

  /** For every interleaving: buffers are filled and sent in the order in which the listener returned them,
      the end of the stream is announced once for each notice of it, and only right before that is a
      buffer sent that is not full. */
  lemma {:induction false} BuffersInOrder(s: State, events: seq<Event>, t: State)
    requires Init(s) && Reaches(s, events, t)
    ensures Sent(t.log) + (InUse(t) + t.queue) == Returns(events)
    ensures Ends(t.log) == EosNotices(events) && PartialThenEnd(t)
    decreases |events|
  {
    hide Next, Inv, Enabled;
    if events != [] {
      var mid :| StepsTo(s, events, mid, t);
      var e := events[|events| - 1];
      BuffersInOrder(s, events[..|events| - 1], mid);
      ConservationOverRuns(s, events[..|events| - 1], mid);
      UsedStep(mid, e);
      PartialStep(mid, e);
    }
  }

  /** A writer that cannot proceed has lent every buffer out, and any returned buffer frees it. */
  lemma {:induction false} BlockedOnlyByListener(s: State, events: seq<Event>, t: State, i: nat, eos: bool)
    requires Init(s) && Reaches(s, events, t) && t.pending != [] && i < |t.memory|
    ensures Enabled(t, Iterate) <==> exists j :: 0 <= j < |t.memory| && j !in t.lent
    ensures !Enabled(t, Iterate) ==>
            InRange(t) && Enabled(t, Available(i, eos)) && Enabled(AvailableNext(t, i, eos), Iterate)
  {
    ConservationOverRuns(s, events, t);
    if t.current >= 0 {
      assert t.current !in t.lent;
    } else if t.queue != [] {
      assert t.queue[0] in t.queue;
    }
    if i in t.lent { AvailableStep(t, i, eos); }
  }

  /** events is an interleaving that starts one write of data and leads from s to t. */
  ghost predicate Trace(s: State, events: seq<Event>, t: State, data: seq<bv8>) {
    events != [] && events[0] == Write(data) && AllWrites(events) == data && Reaches(s, events, t)
  }

  lemma TraceStart(s: State, data: seq<bv8>)
    requires Inv(s) && s.pending == []
    ensures Trace(s, [Write(data)], Next(s, Write(data)), data) && Inv(Next(s, Write(data)))
  {
    var e := Write(data);
    assert Reaches(s, [], s);
    ReachesSnoc(s, [], s, e);
    assert [] + [e] == [e];
    StepConserves(s, e);
    OneWrite(e);
  }

  lemma OneWrite(e: Event)
    requires e.Write?
    ensures AllWrites([e]) == e.data
  {
    assert [e][..0] == [];
  }

  lemma TraceStep(s: State, events: seq<Event>, t: State, data: seq<bv8>, e: Event)
    requires Trace(s, events, t, data) && InRange(t) && Enabled(t, e) && !e.Write?
    ensures Trace(s, events + [e], Next(t, e), data)
  {
    ReachesSnoc(s, events, t, e);
    assert (events + [e])[..|events|] == events;
  }

  // ---- One call of writeData -----------------------------------------------------------------

  /** One onBufferAvailable call the other thread makes between two loop iterations. */
  datatype Notice = Notice(index: nat, eos: bool)

  /** The state after a batch of notices. One for a buffer that the listener does not hold cannot
      occur and is passed over. */
  ghost function Noticed(s: State, batch: seq<Notice>): (t: State)
    requires Inv(s)
    ensures Inv(t) && t.pending == s.pending && t.total == s.total && t.memory == s.memory
    ensures CanProceed(s) ==> CanProceed(t)
  {
    if batch == [] then s
    else
      var m := Noticed(s, batch[..|batch| - 1]);
      var n := batch[|batch| - 1];
      if n.index in m.lent then
        AvailableStep(m, n.index, n.eos);
        AvailableNext(m, n.index, n.eos)
      else m
  }

  /** One attempt of the writer after a batch: it copies, or it waits. */
  ghost function Attempted(s: State, batch: seq<Notice>): (t: State)
    requires Inv(s) && s.pending != []
    ensures Inv(t) && |t.memory| == |s.memory|
    ensures t.total + |t.pending| == s.total + |s.pending|
    ensures if CanProceed(Noticed(s, batch)) then |t.pending| < |s.pending| else t == Noticed(s, batch)
  {
    var m := Noticed(s, batch);
    if CanProceed(m) then
      IterateStep(m);
      IterateNext(m)
    else m
  }

  /** The attempts of one call, until everything is written or the schedule ends. */
  ghost function Session(s: State, schedule: seq<seq<Notice>>): (t: State)
    requires Inv(s)
    ensures Inv(t) && |t.memory| == |s.memory| && t.total + |t.pending| == s.total + |s.pending|
  {
    if schedule == [] then s
    else
      var m := Session(s, schedule[..|schedule| - 1]);
      if m.pending == [] then m else Attempted(m, schedule[|schedule| - 1])
  }

  /** How many of these attempts wait: those that find every buffer lent after their batch. */
  ghost function Waits(s: State, schedule: seq<seq<Notice>>): nat
    requires Inv(s)
  {
    if schedule == [] then 0
    else
      var m := Session(s, schedule[..|schedule| - 1]);
      Waits(s, schedule[..|schedule| - 1]) +
      (if m.pending != [] && !CanProceed(Noticed(m, schedule[|schedule| - 1])) then 1 else 0)
  }

  lemma NoticedSnoc(s: State, batch: seq<Notice>, n: Notice)
    requires Inv(s)
    ensures var m := Noticed(s, batch);
            Noticed(s, batch + [n]) == if n.index in m.lent then AvailableNext(m, n.index, n.eos) else m
  {
    assert (batch + [n])[..|batch|] == batch;
  }

  lemma SessionStarts(s: State)
    requires Inv(s)
    ensures Session(s, []) == s && Waits(s, []) == 0 && InRange(s)
  {
  }

  lemma SessionSnoc(s: State, schedule: seq<seq<Notice>>, batch: seq<Notice>)
    requires Inv(s) && Session(s, schedule).pending != []
    ensures var m := Session(s, schedule);
            && Session(s, schedule + [batch]) == Attempted(m, batch)
            && Waits(s, schedule + [batch]) == Waits(s, schedule) + (if CanProceed(Noticed(m, batch)) then 0 else 1)
  {
    assert (schedule + [batch])[..|schedule|] == schedule;
  }

  /** Once everything is written the rest of the schedule does not matter. */
  lemma {:induction false} SessionEnds(s: State, schedule: seq<seq<Notice>>, k: nat)
    requires Inv(s) && k <= |schedule| && (k < |schedule| ==> Session(s, schedule[..k]).pending == [])
    ensures Session(s, schedule) == Session(s, schedule[..k]) && Waits(s, schedule) == Waits(s, schedule[..k])
  {
    if k < |schedule| {
      var init := schedule[..|schedule| - 1];
      assert init[..k] == schedule[..k];
      SessionEnds(s, init, k);
    } else {
      assert schedule[..k] == schedule;
    }
  }

  /** Every attempt that does not wait moves at least one byte. */
  lemma {:induction false} AttemptsMoveBytes(s: State, schedule: seq<seq<Notice>>)
    requires Inv(s)
    ensures var t := Session(s, schedule);
            |t.pending| <= |s.pending|
              && (t.pending != [] ==> |schedule| <= Waits(s, schedule) + (|s.pending| - |t.pending|))
  {
    if schedule != [] {
      AttemptsMoveBytes(s, schedule[..|schedule| - 1]);
    }
  }

  ghost predicate NamesABuffer(batch: seq<Notice>, count: nat) {
    exists j :: 0 <= j < |batch| && batch[j].index < count
  }

  /** After a batch that names a buffer the writer can go on: the listener returned that buffer, or did
      not hold it. */
  lemma {:induction false} NoticedProceeds(s: State, batch: seq<Notice>)
    requires Inv(s) && NamesABuffer(batch, |s.memory|)
    ensures CanProceed(Noticed(s, batch))
  {
    var init, n := batch[..|batch| - 1], batch[|batch| - 1];
    var m := Noticed(s, init);
    var j :| 0 <= j < |batch| && batch[j].index < |s.memory|;
    if j < |init| {
      assert init[j].index < |s.memory|;
      NoticedProceeds(s, init);
      if n.index in m.lent { AvailableStep(m, n.index, n.eos); }
    } else if n.index in m.lent {
      AvailableStep(m, n.index, n.eos);
    } else {
      assert n.index in m.queue || n.index == m.current;
    }
  }

  lemma {:induction false} NoWaits(s: State, schedule: seq<seq<Notice>>)
    requires Inv(s) && forall k :: 0 <= k < |schedule| ==> NamesABuffer(schedule[k], |s.memory|)
    ensures Waits(s, schedule) == 0
  {
    if schedule != [] {
      var init, batch := schedule[..|schedule| - 1], schedule[|schedule| - 1];
      NoWaits(s, init);
      NoticedProceeds(Session(s, init), batch);
    }
  }

  /** writeData writes everything when a buffer comes back before each attempt and there are as many
      attempts as bytes. */
  lemma SessionCompletes(s: State, schedule: seq<seq<Notice>>)
    requires Inv(s) && forall k :: 0 <= k < |schedule| ==> NamesABuffer(schedule[k], |s.memory|)
    requires |s.pending| <= |schedule|
    ensures Session(s, schedule).pending == [] && Waits(s, schedule) == 0
  {
    NoWaits(s, schedule);
    AttemptsMoveBytes(s, schedule);
  }

  // ---- The object --------------------------------------------------------------------------

  class ConvertingStreamSource {
    const buffers: seq<array<bv8>>
    var currentBufferIndex: int
    var currentBufferOffset: nat
    var bufferQueue: seq<nat>
    ghost var state: State

    /** The fields and the buffers are those of the abstract state. */
    ghost predicate Linked()
      reads this, buffers
    {
      && state.current == currentBufferIndex
      && state.offset == currentBufferOffset
      && state.queue == bufferQueue
      && |state.memory| == |buffers|
      && (forall i :: 0 <= i < |buffers| ==> buffers[i][..] == state.memory[i])
      && (forall i, j :: 0 <= i < j < |buffers| ==> buffers[i] != buffers[j])
    }

    ghost predicate Valid()
      reads this, buffers
    {
      Linked() && Inv(state)
    }

    constructor (mem: seq<array<bv8>>)
      requires forall i :: 0 <= i < |mem| ==> mem[i].Length > 0
      requires forall i, j :: 0 <= i < j < |mem| ==> mem[i] != mem[j]
      ensures Valid() && Init(state) && buffers == mem
    {
      buffers := mem;
      currentBufferIndex, currentBufferOffset, bufferQueue := -1, 0, [];
      new;
      ghost var contents: seq<seq<bv8>> := [];
      ghost var lent: map<nat, seq<bv8>> := map[];
      for i := 0 to |mem|
        invariant |contents| == i && forall j :: 0 <= j < i ==> contents[j] == mem[j][..]
        invariant forall j :: j in lent <==> 0 <= j < i
        invariant forall j :: j in lent ==> lent[j] == []
      {
        contents, lent := contents + [mem[i][..]], lent[i := []];
      }
      state := State(contents, -1, 0, [], lent, [], [], 0);
    }

    method OnBufferAvailable(index: nat, reachedEos: bool)
      requires Valid() && index in state.lent
      modifies this
      ensures Valid() && state == Next(old(state), Available(index, reachedEos))
    {
      AvailableStep(state, index, reachedEos);
      state := AvailableNext(state, index, reachedEos);
      bufferQueue := bufferQueue + [index];
      if reachedEos {
        if currentBufferIndex >= 0 {
          currentBufferIndex := -1;
        }
      }
    }

    /** memcpy into the buffer being filled. */
    static method CopyInto(mem: array<bv8>, at: nat, bytes: seq<bv8>)
      requires at + |bytes| <= mem.Length
      modifies mem
      ensures mem[..] == Overwrite(old(mem[..]), at, bytes)
      ensures forall k :: 0 <= k < mem.Length ==>
                mem[k] == if at <= k < at + |bytes| then bytes[k - at] else old(mem[k])
    {
      forall k | 0 <= k < |bytes| {
        mem[at + k] := bytes[k];
      }
    }

    /** Copies as much as fits into the buffer being filled. */
    method Fill(data: seq<bv8>) returns (copy: nat)
      requires Linked() && InRange(state) && 0 <= state.current && data == state.pending
      modifies this`currentBufferOffset, this`state, buffers
      ensures Linked() && state == Copied(old(state)) && copy == CopyCount(old(state))
    {
      var mem := buffers[currentBufferIndex];
      assert mem[..] == state.memory[state.current];
      copy := |data|;
      if copy + currentBufferOffset > mem.Length {
        copy := mem.Length - currentBufferOffset;
      }
      CopyInto(mem, currentBufferOffset, data[..copy]);
      currentBufferOffset := currentBufferOffset + copy;
      state := Copied(state);
      assert forall i :: 0 <= i < |buffers| && i != currentBufferIndex ==> buffers[i][..] == old(buffers[i][..]);
    }

    /** Takes the first queued buffer unless one is being filled already. */
    method Take()
      requires Linked() && CanProceed(state)
      modifies this
      ensures Linked() && state == Taken(old(state))
    {
      state := Taken(state);
      if currentBufferIndex < 0 {
        currentBufferIndex := bufferQueue[0];
        currentBufferOffset := 0;
        bufferQueue := bufferQueue[1..];
      }
    }

    /** Queues the buffer being filled with the listener once it is full. */
    method DeliverIfFull()
      requires Linked() && InRange(state) && 0 <= state.current
      modifies this
      ensures Linked()
      ensures state == if old(state).offset == |old(state).memory[old(state).current]| then Delivered(old(state))
                       else old(state)
    {
      assert buffers[currentBufferIndex][..] == state.memory[currentBufferIndex];
      if currentBufferOffset == buffers[currentBufferIndex].Length {
        state := Delivered(state);
        currentBufferIndex := -1;
      }
    }

    /** One pass through the loop of writeData, with the lock held. */
    method WriteIteration(data: seq<bv8>) returns (copy: nat)
      requires Valid() && Enabled(state, Iterate) && data == state.pending
      modifies this, buffers
      ensures Valid() && state == Next(old(state), Iterate)
      ensures 0 < copy <= |data| && state.pending == data[copy..] && state.total == old(state.total) + copy
    {
      ghost var s := state;
      TakeStep(s);
      CopyStep(Taken(s));
      Take();
      copy := Fill(data);
      DeliverIfFull();
      IterateStep(s);
    }

    /** The listener holds exactly the buffers that are neither queued nor being filled. */
    predicate HeldByListener(index: nat)
      reads this
    {
      index < |buffers| && index !in bufferQueue && index != currentBufferIndex
    }

    lemma HeldIffLent(index: nat)
      requires Valid()
      ensures HeldByListener(index) <==> index in state.lent
      ensures InRange(state)
    {
    }

    /** What the other thread does while the lock is free. */
    method RunNotices(batch: seq<Notice>, ghost start: State, ghost before: seq<Event>, ghost data: seq<bv8>)
        returns (ghost events: seq<Event>)
      requires Valid() && Trace(start, before, state, data)
      modifies this
      ensures Valid() && Trace(start, events, state, data)
      ensures state == Noticed(old(state), batch)
    {
      hide Trace, Inv, Linked;
      events := before;
      for j := 0 to |batch|
        invariant Valid() && Trace(start, events, state, data)
        invariant state == Noticed(old(state), batch[..j])
      {
        var n := batch[j];
        NoticedSnoc(old(state), batch[..j], n);
        assert batch[..j + 1] == batch[..j] + [n];
        HeldIffLent(n.index);
        if HeldByListener(n.index) {
          TraceStep(start, events, state, data, Available(n.index, n.eos));
          events := events + [Available(n.index, n.eos)];
          OnBufferAvailable(n.index, n.eos);
        }
      }
      assert batch[..|batch|] == batch;
    }

    /** One attempt of writeData to make progress, after the other thread's notices: it waits when
        there is no buffer to fill, and copies otherwise. */
    method Attempt(rest: seq<bv8>, batch: seq<Notice>, ghost start: State, ghost before: seq<Event>,
                   ghost data: seq<bv8>)
        returns (copy: nat, ghost events: seq<Event>)
      requires Valid() && Trace(start, before, state, data)
      requires rest != [] && state.pending == rest
      modifies this, buffers
      ensures Valid() && Trace(start, events, state, data)
      ensures state == Attempted(old(state), batch)
      ensures copy <= |rest| && state.pending == rest[copy..] && state.total == old(state.total) + copy
      ensures copy == 0 <==> !CanProceed(Noticed(old(state), batch))
    {
      events := RunNotices(batch, start, before, data);
      copy := 0;
      if currentBufferIndex >= 0 || bufferQueue != [] {
        TraceStep(start, events, state, data, Iterate);
        events := events + [Iterate];
        copy := WriteIteration(rest);
      }
    }

    /** writeData is called with data. */
    ghost method Begin(data: seq<bv8>) returns (events: seq<Event>)
      requires Valid() && state.pending == []
      modifies this`state
      ensures Valid() && state == Next(old(state), Write(data)) && Trace(old(state), events, state, data)
      ensures |state.memory| == |buffers|
    {
      TraceStart(state, data);
      events := [Write(data)];
      state := Next(state, Write(data));
    }

    /** writeData, interleaved with the other thread: schedule[k] is what that thread does while
        the lock is free before the k-th attempt. An attempt waits exactly when it finds every
        buffer lent; the size asked for is returned once enough attempts have found one. */
    method WriteData(data: seq<bv8>, schedule: seq<seq<Notice>>)
        returns (totalWritten: nat, waits: nat, ghost events: seq<Event>)
      requires Valid() && state.pending == []
      modifies this, buffers
      ensures Valid() && Trace(old(state), events, state, data)
      ensures var begun := Next(old(state), Write(data));
              && Inv(begun)
              && state == Session(begun, schedule) && waits == Waits(begun, schedule)
      ensures totalWritten + |state.pending| == |data| && totalWritten == state.total
      ensures totalWritten < |data| ==> |schedule| <= waits + totalWritten
      ensures (forall k :: 0 <= k < |schedule| ==> NamesABuffer(schedule[k], |buffers|)) ==>
                waits == 0 && (|data| <= |schedule| ==> totalWritten == |data|)
    {
      hide Trace, Inv, Linked, Session, Waits, Attempted, Noticed, NamesABuffer;
      var size := |data|;
      totalWritten, waits := 0, 0;
      events := Begin(data);
      ghost var begun := state;
      SessionStarts(begun);
      var k := 0;
      assert schedule[..0] == [];
      while size > 0 && k < |schedule|
        invariant Valid() && k <= |schedule|
        invariant Trace(old(state), events, state, data)
        invariant totalWritten <= |data| && size == |data| - totalWritten
        invariant state.pending == data[totalWritten..] && totalWritten == state.total
        invariant state == Session(begun, schedule[..k]) && waits == Waits(begun, schedule[..k])
      {
        SessionSnoc(begun, schedule[..k], schedule[k]);
        assert schedule[..k + 1] == schedule[..k] + [schedule[k]];
        var copy;
        copy, events := Attempt(data[totalWritten..], schedule[k], old(state), events, data);
        if copy == 0 {
          waits := waits + 1;
        }
        assert data[totalWritten..][copy..] == data[totalWritten + copy..];
        totalWritten, size := totalWritten + copy, size - copy;
        k := k + 1;
      }
      SessionEnds(begun, schedule, k);
      AttemptsMoveBytes(begun, schedule);
      if forall k :: 0 <= k < |schedule| ==> NamesABuffer(schedule[k], |buffers|) {
        NoWaits(begun, schedule);
      }
    }
  }
}
