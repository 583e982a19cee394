/** The monitor of camera/ProCamera.cpp: frames and results counted by callbacks, and taken by threads
    that wait for them. Every event is one critical section of mWaitMutex; a waiting thread gives the
    mutex up until waitRelative returns. */
module FrameMonitor {
  import opened Wrappers

  datatype Call = ForFrame(stream: nat) | ForMetadata

  datatype Event =
    | FrameAvailable(stream: nat)
    | ResultReceived
    /** A thread calls waitForFrameBuffer or waitForFrameMetadata. */
    | Enter(thread: nat, call: Call)
    /** waitRelative returns to a thread: OK, or an error such as a timeout. */
    | Wake(thread: nat, ok: bool)

  /** What happened, in order. */
  datatype Entry =
    | Frame(stream: nat)
    | Result
    | Took(stream: nat, count: nat)
    | GotMetadata(waited: bool)
    | Failed(call: Call)

  /** waiting: the threads inside waitRelative and why; signalled: those that a broadcast has reached
      since they last looked. */
  datatype State = State(
    frameReady: map<nat, nat>,
    metadataReady: bool,
    waiting: map<nat, Call>,
    signalled: set<nat>,
    log: seq<Entry>)

  function Ready(s: State, stream: nat): nat { if stream in s.frameReady then s.frameReady[stream] else 0 }

  predicate Enabled(s: State, e: Event) {
    match e
    case Enter(t, _) => t !in s.waiting
    case Wake(t, _) => t in s.waiting
    case _ => true
  }

  function Broadcast(s: State): State { s.(signalled := s.waiting.Keys) }

  function Log(s: State, entry: Entry): State { s.(log := s.log + [entry]) }

  /** A thread takes the mutex and looks: it leaves with what it waits for, or goes (back) to wait. */
  function Look(s: State, thread: nat, call: Call, waited: bool): State {
    var rest := s.waiting - {thread};
    match call
    case ForFrame(id) =>
      if Ready(s, id) > 0 then
        Log(s.(frameReady := s.frameReady[id := 0], waiting := rest, signalled := s.signalled - {thread}),
          Took(id, Ready(s, id)))
      else
        s.(waiting := s.waiting[thread := call], signalled := s.signalled - {thread})
    case ForMetadata =>
      if s.metadataReady then
        Log(s.(metadataReady := !waited, waiting := rest, signalled := s.signalled - {thread}), GotMetadata(waited))
      else
        s.(waiting := s.waiting[thread := call], signalled := s.signalled - {thread})
  }

  function Next(s: State, e: Event): State
    requires Enabled(s, e)
  {
    match e
    case FrameAvailable(id) => Log(Broadcast(s.(frameReady := s.frameReady[id := Ready(s, id) + 1])), Frame(id))
    case ResultReceived => Log(Broadcast(s.(metadataReady := true)), Result)
    case Enter(t, call) => Look(s, t, call, false)
    case Wake(t, ok) =>
      var call := s.waiting[t];
      if ok then Look(s, t, call, true)
      else Log(s.(waiting := s.waiting - {t}, signalled := s.signalled - {t}), Failed(call))
  }

  /** The constructor leaves mMetadataReady uninitialized, so its value is any. */
  function Init(metadataReady: bool): State { State(map[], metadataReady, map[], {}, []) }

  /** An interleaving; an event that is not enabled does not happen. */
  function Run(init: State, events: seq<Event>): State {
    if events == [] then init
    else
      var before := Run(init, events[..|events| - 1]);
      var e := events[|events| - 1];
      if Enabled(before, e) then Next(before, e) else before
  }

  /** What an entry of the log says about the state before and after it. */
  ghost predicate Explains(entry: Entry, before: State, after: State) {
    match entry
    case Frame(id) =>
      after.frameReady == before.frameReady[id := Ready(before, id) + 1] && after.metadataReady == before.metadataReady
    case Took(id, count) =>
      && count == Ready(before, id) > 0 && after.frameReady == before.frameReady[id := 0]
      && after.metadataReady == before.metadataReady
    case Result => after.frameReady == before.frameReady && after.metadataReady
    case GotMetadata(waited) =>
      after.frameReady == before.frameReady && before.metadataReady && after.metadataReady == !waited
    case Failed(_) => after.frameReady == before.frameReady && after.metadataReady == before.metadataReady
  }

  /** Every event that changes something is logged. */
  lemma Effect(s: State, e: Event) returns (entry: Option<Entry>)
    requires Enabled(s, e)
    ensures var next := Next(s, e);
            match entry
            case None => next.log == s.log && next.frameReady == s.frameReady && next.metadataReady == s.metadataReady
            case Some(what) => next.log == s.log + [what] && Explains(what, s, next)
  {
    var next := Next(s, e);
    entry := if |next.log| > |s.log| then Some(next.log[|s.log|]) else None;
  }

  /** What one event does to the counters, the flag and the threads that wait. Frames are taken by the call
      that finds some, and the flag is cleared only by a thread that had to wait for it. */
  lemma StepIs(s: State, e: Event, id: nat, t: nat)
    requires Enabled(s, e)
    ensures var next := Next(s, e);
            && Ready(next, id) ==
               (if e == FrameAvailable(id) then Ready(s, id) + 1
                else if Looks(s, e) == Some(ForFrame(id)) then 0
                else Ready(s, id))
            && (next.metadataReady <==>
                  e.ResultReceived? || (s.metadataReady && !(e.Wake? && Looks(s, e) == Some(ForMetadata))))
            && (t in next.waiting <==>
                  if IsOf(e, t) then Looks(s, e).Some? && !Finds(s, Looks(s, e).value) else t in s.waiting)
            && (t in s.waiting && t in next.waiting ==> next.waiting[t] == s.waiting[t])
  {
  }

  /** What the thread of an event looks for: nothing when its wait has failed. */
  function Looks(s: State, e: Event): Option<Call>
    requires Enabled(s, e)
  {
    match e
    case Enter(_, call) => Some(call)
    case Wake(t, ok) => if ok then Some(s.waiting[t]) else None
    case _ => None
  }

  predicate Finds(s: State, call: Call) {
    match call case ForFrame(id) => Ready(s, id) > 0 case ForMetadata => s.metadataReady
  }

  // ---- Frames are conserved ----------------------------------------------------------------------

  function Frames(log: seq<Entry>, stream: nat): nat {
    if log == [] then 0
    else Frames(log[..|log| - 1], stream) + (if log[|log| - 1] == Frame(stream) then 1 else 0)
  }

  function Returned(log: seq<Entry>, stream: nat): nat {
    if log == [] then 0
    else
      var last := log[|log| - 1];
      Returned(log[..|log| - 1], stream) + (if last.Took? && last.stream == stream then last.count else 0)
  }

  ghost predicate Conserved(s: State) {
    && (forall id: nat :: Returned(s.log, id) + Ready(s, id) == Frames(s.log, id))
    && (forall k :: 0 <= k < |s.log| && s.log[k].Took? ==> s.log[k].count > 0)
  }

  lemma LogSnoc(log: seq<Entry>, entry: Entry, id: nat)
    ensures Frames(log + [entry], id) == Frames(log, id) + (if entry == Frame(id) then 1 else 0)
    ensures Returned(log + [entry], id) ==
            Returned(log, id) + (if entry.Took? && entry.stream == id then entry.count else 0)
  {
    assert (log + [entry])[..|log|] == log;
  }

  lemma ConservedStep(s: State, e: Event)
    requires Conserved(s) && Enabled(s, e)
    ensures Conserved(Next(s, e))
  {
    var entry := Effect(s, e);
    hide Next, Enabled;
    var next := Next(s, e);
    forall id: nat ensures Returned(next.log, id) + Ready(next, id) == Frames(next.log, id) {
      if entry.Some? { LogSnoc(s.log, entry.value, id); }
    }
  }

  /** In every interleaving, the frames returned by successful waits and those still counted are the
      frames that arrived, stream by stream; and a successful wait returns at least one. */
  lemma {:induction false} FramesAreConserved(metadataReady: bool, events: seq<Event>)
    ensures Conserved(Run(Init(metadataReady), events))
  {
    hide Next, Enabled;
    if events != [] {
      var before, e := Run(Init(metadataReady), events[..|events| - 1]), events[|events| - 1];
      FramesAreConserved(metadataReady, events[..|events| - 1]);
      if Enabled(before, e) { ConservedStep(before, e); }
    }
  }

  // ---- No wakeup is lost -------------------------------------------------------------------------

  ghost predicate CanProceed(s: State, t: nat)
    requires t in s.waiting
  {
    match s.waiting[t]
    case ForFrame(id) => Ready(s, id) > 0
    case ForMetadata => s.metadataReady
  }

  ghost predicate NoneLost(s: State) {
    && s.signalled <= s.waiting.Keys
    && forall t :: t in s.waiting && CanProceed(s, t) ==> t in s.signalled
  }

  lemma NoneLostStep(s: State, e: Event)
    requires NoneLost(s) && Enabled(s, e)
    ensures NoneLost(Next(s, e))
  {
    var next := Next(s, e);
    forall t | t in next.waiting && CanProceed(next, t) ensures t in next.signalled {
      if (e.Enter? || e.Wake?) && t != e.thread {
        assert t in s.waiting && s.waiting[t] == next.waiting[t];
        assert CanProceed(s, t);
      }
    }
  }

  /** A thread whose frame or result is there has been signalled since it last looked: with broadcasts
      delivered, nobody sleeps beside what it waits for. */
  lemma {:induction false} NoWakeupIsLost(metadataReady: bool, events: seq<Event>)
    ensures NoneLost(Run(Init(metadataReady), events))
  {
    hide Next, Enabled;
    if events != [] {
      var before, e := Run(Init(metadataReady), events[..|events| - 1]), events[|events| - 1];
      NoWakeupIsLost(metadataReady, events[..|events| - 1]);
      if Enabled(before, e) { NoneLostStep(before, e); }
    }
  }

  // ---- Failed calls leave no trace -----------------------------------------------------------------

  predicate IsOf(e: Event, t: nat) { (e.Enter? || e.Wake?) && e.thread == t }

  /** The events without those of a thread. */
  function Without(events: seq<Event>, t: nat): seq<Event> {
    if events == [] then []
    else
      var e := events[|events| - 1];
      Without(events[..|events| - 1], t) + (if IsOf(e, t) then [] else [e])
  }

  /** The thread waits all along, also after every return of waitRelative. */
  ghost predicate KeepsWaiting(s: State, events: seq<Event>, t: nat) {
    t in Run(s, events).waiting && (events == [] || KeepsWaiting(s, events[..|events| - 1], t))
  }

  /** The two states differ only in that t waits in the first one. */
  ghost predicate SameButWaiting(s: State, other: State, t: nat, call: Call) {
    && t !in other.waiting && other.signalled <= other.waiting.Keys
    && s == other.(waiting := other.waiting[t := call], signalled := s.signalled)
    && s.signalled - {t} == other.signalled
  }

  lemma SameButWaitingStep(s: State, other: State, t: nat, call: Call, e: Event)
    requires SameButWaiting(s, other, t, call) && Enabled(s, e) && t in Next(s, e).waiting
    ensures IsOf(e, t) ==> SameButWaiting(Next(s, e), other, t, call)
    ensures !IsOf(e, t) ==> Enabled(other, e) && SameButWaiting(Next(s, e), Next(other, e), t, call)
  {
    if !IsOf(e, t) && (e.Enter? || e.Wake?) {
      var u: nat := e.thread;
      assert s.waiting - {u} == (other.waiting - {u})[t := call];
      var c := if e.Enter? then e.call else s.waiting[u];
      assert s.waiting[u := c] == other.waiting[u := c][t := call];
      assert s.signalled - {u} - {t} == other.signalled - {u};
    }
  }

  lemma {:induction false} SameButWaitingRuns(s: State, other: State, t: nat, call: Call, events: seq<Event>)
    requires SameButWaiting(s, other, t, call) && KeepsWaiting(s, events, t)
    ensures SameButWaiting(Run(s, events), Run(other, Without(events, t)), t, call)
  {
    hide Next, Enabled, SameButWaiting;
    if events != [] {
      var init, e := events[..|events| - 1], events[|events| - 1];
      SameButWaitingRuns(s, other, t, call, init);
      var before, without := Run(s, init), Run(other, Without(init, t));
      assert Run(s, events) == if Enabled(before, e) then Next(before, e) else before;
      if IsOf(e, t) {
        assert Without(events, t) == Without(init, t);
      } else {
        assert Without(events, t) == Without(init, t) + [e];
        assert (Without(init, t) + [e])[..|Without(init, t)|] == Without(init, t);
        assert Run(other, Without(events, t)) == if Enabled(without, e) then Next(without, e) else without;
      }
      if Enabled(before, e) {
        SameButWaitingStep(before, without, t, call, e);
      } else if !IsOf(e, t) {
        NotEnabledEither(before, without, t, call, e);
      }
    }
  }

  lemma NotEnabledEither(s: State, other: State, t: nat, call: Call, e: Event)
    requires SameButWaiting(s, other, t, call) && !Enabled(s, e) && !IsOf(e, t)
    ensures !Enabled(other, e)
  {
  }

  /** A call that has to wait and fails in the end, after any events of other threads and any number of
      wakeups that found nothing, leaves what would be there had it never been made: the same frames and
      flag, the same waiting threads and the same results of all others. */
  lemma FailureConsumesNothing(metadataReady: bool, events: seq<Event>, t: nat, call: Call, between: seq<Event>)
    requires var s := Run(Init(metadataReady), events);
             t !in s.waiting && KeepsWaiting(Next(s, Enter(t, call)), between, t)
    ensures var s := Run(Init(metadataReady), events);
            var other := Run(s, Without(between, t));
            Next(Run(Next(s, Enter(t, call)), between), Wake(t, false)) == Log(other, Failed(call))
  {
    var s := Run(Init(metadataReady), events);
    NoWakeupIsLost(metadataReady, events);
    var waits := Next(s, Enter(t, call));
    StartsWaiting(waits, between, t);
    assert SameButWaiting(waits, s, t, call);
    SameButWaitingRuns(waits, s, t, call, between);
    hide Run, KeepsWaiting, Look;
    var last, other := Run(waits, between), Run(s, Without(between, t));
    assert last.waiting - {t} == other.waiting;
  }

  lemma {:induction false} StartsWaiting(s: State, events: seq<Event>, t: nat)
    requires KeepsWaiting(s, events, t)
    ensures t in s.waiting
  {
    if events != [] { StartsWaiting(s, events[..|events| - 1], t); }
  }

  // ---- The metadata flag -------------------------------------------------------------------------

  /** The flag is cleared only by a thread that had to wait. */
  function Flag(init: bool, log: seq<Entry>): bool {
    if log == [] then init
    else if log[|log| - 1] == Result then true
    else if log[|log| - 1] == GotMetadata(true) then false
    else Flag(init, log[..|log| - 1])
  }

  lemma FlagSnoc(init: bool, log: seq<Entry>, entry: Entry)
    ensures Flag(init, log + [entry]) ==
            if entry == Result then true else if entry == GotMetadata(true) then false else Flag(init, log)
  {
    assert (log + [entry])[..|log|] == log;
  }

  lemma {:induction false} FlagIsOfLastResult(init: bool, events: seq<Event>)
    ensures var s := Run(Init(init), events);
            s.metadataReady == Flag(init, s.log)
  {
    hide Next, Enabled;
    if events != [] {
      var before, e := Run(Init(init), events[..|events| - 1]), events[|events| - 1];
      FlagIsOfLastResult(init, events[..|events| - 1]);
      if Enabled(before, e) {
        var entry := Effect(before, e);
        if entry.Some? { FlagSnoc(init, before.log, entry.value); }
      }
    }
  }

  function Asked(s: State, t: nat, n: nat): State
    requires t !in s.waiting && s.metadataReady
    ensures Asked(s, t, n).metadataReady && t !in Asked(s, t, n).waiting
  {
    if n == 0 then s else Next(Asked(s, t, n - 1), Enter(t, ForMetadata))
  }

  function Metadatas(log: seq<Entry>): nat {
    if log == [] then 0 else Metadatas(log[..|log| - 1]) + (if log[|log| - 1].GotMetadata? then 1 else 0)
  }

  /** So one result satisfies any number of calls that do not have to wait. */
  lemma {:induction false} OneResultManyReturns(s: State, t: nat, n: nat)
    requires t !in s.waiting && s.metadataReady
    ensures Metadatas(Asked(s, t, n).log) == Metadatas(s.log) + n
  {
    if n > 0 {
      OneResultManyReturns(s, t, n - 1);
      var before := Asked(s, t, n - 1);
      assert (before.log + [GotMetadata(false)])[..|before.log|] == before.log;
    }
  }

  // ---- The class ---------------------------------------------------------------------------------

  class ProCamera {
    var frameReady: map<nat, nat>
    var mMetadataReady: bool
    ghost var state: State

    ghost predicate Valid() reads this { frameReady == state.frameReady && mMetadataReady == state.metadataReady }

    constructor (uninitialized: bool)
      ensures Valid() && state == Init(uninitialized)
    {
      frameReady, mMetadataReady := map[], uninitialized;
      state := Init(uninitialized);
    }

    method OnFrameAvailable(stream: nat)
      requires Valid()
      modifies this
      ensures Valid() && state == Next(old(state), FrameAvailable(stream))
    {
      frameReady := frameReady[stream := (if stream in frameReady then frameReady[stream] else 0) + 1];
      state := Next(state, FrameAvailable(stream));
    }

    method OnResultReceived()
      requires Valid()
      modifies this
      ensures Valid() && state == Next(old(state), ResultReceived)
    {
      mMetadataReady := true;
      state := Next(state, ResultReceived);
    }

    /** The test at the head of waitForFrameBuffer and after each return of waitRelative: the frames
        taken, or 0 to wait. */
    method TakeFrames(stream: nat) returns (numFrames: nat)
      modifies `frameReady
      ensures numFrames == (if stream in old(frameReady) then old(frameReady)[stream] else 0)
      ensures frameReady == if numFrames > 0 then old(frameReady)[stream := 0] else old(frameReady)
    {
      numFrames := if stream in frameReady then frameReady[stream] else 0;
      if numFrames > 0 {
        frameReady := frameReady[stream := 0];
      }
    }

    /** waitForFrameBuffer until it returns or waits. */
    method WaitForFrameBuffer(thread: nat, stream: nat) returns (numFrames: nat)
      requires Valid() && thread !in state.waiting
      modifies this
      ensures Valid() && state == Next(old(state), Enter(thread, ForFrame(stream)))
      ensures numFrames == Ready(old(state), stream) && (numFrames == 0 <==> thread in state.waiting)
    {
      numFrames := TakeFrames(stream);
      state := Next(state, Enter(thread, ForFrame(stream)));
    }

    /** The rest of its loop after a return of waitRelative: None is the error returned. */
    method FrameBufferWoken(thread: nat, stream: nat, ok: bool) returns (result: Option<nat>)
      requires Valid() && thread in state.waiting && state.waiting[thread] == ForFrame(stream)
      modifies this
      ensures Valid() && state == Next(old(state), Wake(thread, ok))
      ensures result == if ok then Some(Ready(old(state), stream)) else None
      ensures thread in state.waiting <==> result == Some(0)
    {
      if !ok {
        state := Next(state, Wake(thread, false));
        return None;
      }
      var numFrames := TakeFrames(stream);
      state := Next(state, Wake(thread, true));
      result := Some(numFrames);
    }

    /** waitForFrameMetadata until it returns or waits: the flag stays set. */
    method WaitForFrameMetadata(thread: nat) returns (returned: bool)
      requires Valid() && thread !in state.waiting
      modifies this
      ensures Valid() && state == Next(old(state), Enter(thread, ForMetadata))
      ensures returned == old(mMetadataReady) && mMetadataReady == old(mMetadataReady)
      ensures returned <==> thread !in state.waiting
    {
      returned := mMetadataReady;
      state := Next(state, Enter(thread, ForMetadata));
    }

    method MetadataWoken(thread: nat, ok: bool) returns (returned: bool)
      requires Valid() && thread in state.waiting && state.waiting[thread] == ForMetadata
      modifies this
      ensures Valid() && state == Next(old(state), Wake(thread, ok))
      ensures returned == (!ok || old(mMetadataReady)) && mMetadataReady == (!ok && old(mMetadataReady))
      ensures returned <==> thread !in state.waiting
    {
      returned := !ok || mMetadataReady;
      if ok && mMetadataReady {
        mMetadataReady := false;
      }
      state := Next(state, Wake(thread, ok));
    }
  }
}
