/** The overlay thread of cmds/screenrecord/Overlay.cpp: one mutex, two condition variables, and
    three kinds of caller. Every locked region of the original is one atomic event, ending where
    the region waits or unlocks. */
module OverlayThread {
  import opened Arithmetic
  import opened Wrappers

  /** mState; its values are meant to advance from left to right. */
  datatype Phase = Uninitialized | Init | Running | Stopping | Stopped

  function Rank(p: Phase): nat {
    match p case Uninitialized => 0 case Init => 1 case Running => 2 case Stopping => 3 case Stopped => 4
  }

  /** Where a thread is: a waiting one has been signalled or not. */
  datatype Waiter = Absent | Ready | Waiting(signalled: bool) | Done

  datatype State = State(
    phase: Phase,
    frameAvailable: bool,
    threadFailed: bool,          // mThreadResult != NO_ERROR
    starter: Waiter,             // the caller of start, waiting on mStartCond
    overlay: Waiter,             // the overlay thread, waiting on mEventCond
    listening: bool,             // setup_l has registered the frame listener
    resources: bool,             // held from setup_l until release_l
    arrived: nat,                // frame callbacks so far
    seen: nat,                   // frame callbacks that had happened when the last frame was processed
    processed: nat)              // processFrame_l calls so far

  datatype Event =
    | Start                      // start, up to its first wait
    | StarterWakes               // start, after a wait
    | ThreadSetup(fails: bool)   // threadLoop, up to its first wait or its early return
    | ThreadWakes                // threadLoop, from one wait to the next or to its end
    | FrameAvailable             // onFrameAvailable
    | Stop                       // stop

  const FRESH := State(Uninitialized, false, true, Absent, Absent, false, false, 0, 0, 0)

  function Signal(w: Waiter): Waiter {
    if w.Waiting? then Waiting(true) else w
  }

  /** Condition variables may wake a thread that was not signalled, so a waiting thread can
      always run. Frames are announced only once setup_l has registered the listener. */
  predicate Enabled(s: State, e: Event) {
    match e
    case Start => s.starter.Absent?
    case StarterWakes => s.starter.Waiting?
    case ThreadSetup(_) => s.overlay.Ready?
    case ThreadWakes => s.overlay.Waiting?
    case FrameAvailable => s.listening
    case Stop => true
  }

  function Next(s: State, e: Event): State
    requires Enabled(s, e)
  {
    match e
    case Start => s.(overlay := Ready, phase := Init, starter := Waiting(false))
    case StarterWakes => if s.phase == Init then s.(starter := Waiting(false)) else s.(starter := Done)
    case ThreadSetup(fails) =>
      if fails then
        s.(threadFailed := true, phase := Stopped, resources := false, starter := Signal(s.starter), overlay := Done)
      else
        s.(threadFailed := false, phase := Running, resources := true, listening := true,
           starter := Signal(s.starter), overlay := Waiting(false))
    case ThreadWakes =>
      var t := if s.frameAvailable
               then s.(processed := s.processed + 1, seen := s.arrived, frameAvailable := false)
               else s;
      if t.phase == Running then t.(overlay := Waiting(false))
      else t.(resources := false, phase := Stopped, overlay := Done)
    case FrameAvailable => s.(frameAvailable := true, arrived := s.arrived + 1, overlay := Signal(s.overlay))
    case Stop => s.(phase := Stopping, overlay := Signal(s.overlay))
  }

  predicate ValidRun(s: State, events: seq<Event>)
    decreases |events|, 0
  {
    events == [] ||
    (ValidRun(s, events[..|events| - 1]) && Enabled(Run(s, events[..|events| - 1]), events[|events| - 1]))
  }

  function Run(s: State, events: seq<Event>): State
    requires ValidRun(s, events)
    decreases |events|, 1
  {
    if events == [] then s else Next(Run(s, events[..|events| - 1]), events[|events| - 1])
  }

  // ---- Runs with any number of stops, at any time --------------------------------------------

  /** What every run keeps, however stop is used. */
  ghost predicate Inv(s: State) {
    && (s.starter.Absent? <==> s.overlay.Absent?)
    && (s.starter.Absent? ==> s.phase in {Uninitialized, Stopping} && !s.listening)
    && (s.phase == Uninitialized ==> s.starter.Absent?)
    && (s.overlay.Ready? ==> s.phase in {Init, Stopping} && !s.listening)
    && (s.overlay.Waiting? ==> s.phase in {Running, Stopping} && s.listening)
    && (s.overlay.Done? ==> s.phase in {Stopped, Stopping})
    // Frames are processed only by a waiting thread, which holds the resources until it ends.
    && (s.resources <==> s.overlay.Waiting?)
    // No wakeup is lost.
    && (s.overlay.Waiting? && !s.overlay.signalled ==> s.phase == Running && !s.frameAvailable)
    && (s.starter.Waiting? && !s.starter.signalled ==> s.overlay.Ready?)
    && !s.starter.Ready?
    // A pending frame is one the thread has not seen yet.
    && (s.frameAvailable <==> s.seen < s.arrived)
    && s.processed <= s.seen <= s.arrived
    && (s.phase == Init ==> s.overlay.Ready? && s.starter.Waiting?)
    && (!s.listening ==> s.arrived == 0)
  }

  lemma {:induction false} InvOverRuns(events: seq<Event>)
    requires ValidRun(FRESH, events)
    ensures Inv(Run(FRESH, events))
    decreases |events|
  {
    if events != [] { InvOverRuns(events[..|events| - 1]); }
  }

  /** The header promises that states advance from left to right. A step breaks that promise
      exactly when stop comes after the thread has ended, or when an earlier stop is overwritten
      by start or by the end of the setup. */
  lemma {:induction false} BackwardStepIff(events: seq<Event>, e: Event)
    requires ValidRun(FRESH, events) && Enabled(Run(FRESH, events), e)
    ensures var s := Run(FRESH, events);
            Rank(Next(s, e).phase) < Rank(s.phase) <==>
              || (e == Stop && s.phase == Stopped)
              || (e == Start && s.phase == Stopping)
              || (e == ThreadSetup(false) && s.phase == Stopping)
  {
    InvOverRuns(events);
  }

  /** Each kind of backward step happens: start after a stop, the end of the setup after a stop, and stop
      after the end. */
  lemma BackwardRuns()
    ensures ValidRun(FRESH, [Stop, Start])
    ensures Run(FRESH, [Stop]).phase == Stopping && Run(FRESH, [Stop, Start]).phase == Init
    ensures ValidRun(FRESH, [Start, Stop, ThreadSetup(false)])
    ensures Run(FRESH, [Start, Stop]).phase == Stopping
    ensures Run(FRESH, [Start, Stop, ThreadSetup(false)]).phase == Running
    ensures ValidRun(FRESH, [Start, ThreadSetup(true), Stop])
    ensures Run(FRESH, [Start, ThreadSetup(true)]).phase == Stopped
    ensures Run(FRESH, [Start, ThreadSetup(true), Stop]).phase == Stopping
  {
    assert [] + [Stop] == [Stop] && [] + [Start] == [Start];
    assert [Stop] + [Start] == [Stop, Start] && [Start] + [Stop] == [Start, Stop];
    assert [Start, Stop] + [ThreadSetup(false)] == [Start, Stop, ThreadSetup(false)];
    assert [Start] + [ThreadSetup(true)] == [Start, ThreadSetup(true)];
    assert [Start, ThreadSetup(true)] + [Stop] == [Start, ThreadSetup(true), Stop];
    var stopped := RunOn([], Stop);
    var restarted := RunOn([Stop], Start);
    var started := RunOn([], Start);
    var stoppedEarly := RunOn([Start], Stop);
    var overwritten := RunOn([Start, Stop], ThreadSetup(false));
    var failed := RunOn([Start], ThreadSetup(true));
    var stoppedLate := RunOn([Start, ThreadSetup(true)], Stop);
  }

  lemma RunOn(events: seq<Event>, e: Event) returns (t: State)
    requires ValidRun(FRESH, events) && Enabled(Run(FRESH, events), e)
    ensures ValidRun(FRESH, events + [e]) && t == Run(FRESH, events + [e]) == Next(Run(FRESH, events), e)
  {
    assert (events + [e])[..|events|] == events;
    t := Run(FRESH, events + [e]);
  }

  /** Stopping an overlay that has not been started leaves it Stopping, and it stays so for as long as
      start is not called: no thread exists that could end it. The header allows such a stop, and the
      destructor asserts Uninitialized or Stopped. */
  lemma {:induction false} StopWithoutStart(events: seq<Event>)
    requires ValidRun(FRESH, events) && Start !in events
    ensures forall e :: e in events ==> e == Stop
    ensures var s := Run(FRESH, events);
            && s.overlay.Absent? && s.phase == (if events == [] then Uninitialized else Stopping)
            && forall e :: Enabled(s, e) ==> e == Start || e == Stop
    decreases |events|
  {
    if events != [] {
      var before, e := events[..|events| - 1], events[|events| - 1];
      assert events == before + [e];
      StopWithoutStart(before);
      InvOverRuns(before);
    }
    InvOverRuns(events);
  }

  // ---- What the events alone say ---------------------------------------------------------------

  const SETUPS := {ThreadSetup(true), ThreadSetup(false)}

  /** Events of these kinds have happened in this order, with anything in between. */
  ghost predicate InOrder(events: seq<Event>, kinds: seq<set<Event>>)
    decreases |kinds|
  {
    kinds == [] ||
    exists j :: 0 <= j < |events| && events[j] in kinds[|kinds| - 1] && InOrder(events[..j], kinds[..|kinds| - 1])
  }

  /** The last event among some. */
  function LastOf(events: seq<Event>, among: set<Event>): Option<Event> {
    if events == [] then None
    else if events[|events| - 1] in among then Some(events[|events| - 1])
    else LastOf(events[..|events| - 1], among)
  }

  /** The wakeups of the thread that find a frame which has arrived since the wakeup before. */
  function Processing(events: seq<Event>): nat {
    if events == [] then 0
    else
      var init := events[..|events| - 1];
      Processing(init) +
      (if events[|events| - 1] == ThreadWakes && LastOf(init, {FrameAvailable, ThreadWakes}) == Some(FrameAvailable)
       then 1 else 0)
  }

  /** A setup or a stop has come since start: start has nothing to wait for any more. */
  ghost predicate SetUpOrStopped(events: seq<Event>) { InOrder(events, [{Start}, SETUPS + {Stop}]) }

  ghost predicate StartReturned(events: seq<Event>) { InOrder(events, [{Start}, SETUPS + {Stop}, {StarterWakes}]) }

  /** A stop has come after the setup has succeeded. */
  ghost predicate StoppedAfterSetup(events: seq<Event>) { InOrder(events, [{ThreadSetup(false)}, {Stop}]) }

  /** The setup has failed, or the thread has woken after such a stop. */
  ghost predicate ThreadEnded(events: seq<Event>) {
    ThreadSetup(true) in events || InOrder(events, [{ThreadSetup(false)}, {Stop}, {ThreadWakes}])
  }

  /** The phase, as the events tell it. */
  ghost predicate PhaseTold(phase: Phase, events: seq<Event>) {
    && (phase == Uninitialized <==> Start !in events && Stop !in events)
    && (phase == Init <==> Start in events && !SetUpOrStopped(events))
    && (phase == Running <==> ThreadSetup(false) in events && !StoppedAfterSetup(events))
    && (phase == Stopping <==> LastOf(events, SETUPS + {Start, Stop, ThreadWakes}) == Some(Stop))
  }

  /** Where the two threads are. */
  ghost predicate ThreadsTold(s: State, events: seq<Event>) {
    && (s.starter.Absent? <==> Start !in events) && (s.overlay.Absent? <==> Start !in events)
    && (s.starter.Done? <==> StartReturned(events))
    && (s.overlay.Ready? <==> Start in events && ThreadSetup(true) !in events && ThreadSetup(false) !in events)
    && (s.overlay.Done? <==> ThreadEnded(events))
    && (s.threadFailed <==> ThreadSetup(false) !in events) && (s.listening <==> ThreadSetup(false) in events)
    && !s.starter.Ready? && (ThreadSetup(true) in events || ThreadSetup(false) in events ==> Start in events)
  }

  /** What has been signalled to them, and the frames. */
  ghost predicate SignalsTold(s: State, events: seq<Event>) {
    && (s.starter.Waiting? ==>
          var last := LastOf(events, SETUPS + {Start, StarterWakes});
          s.starter.signalled <==> last == Some(ThreadSetup(true)) || last == Some(ThreadSetup(false)))
    && (s.overlay.Waiting? ==>
          var last := LastOf(events, SETUPS + {ThreadWakes, FrameAvailable, Stop});
          s.overlay.signalled <==> last == Some(FrameAvailable) || last == Some(Stop))
    && (s.frameAvailable <==> LastOf(events, {FrameAvailable, ThreadWakes}) == Some(FrameAvailable))
    && s.arrived == Count(events, FrameAvailable) && s.processed == Processing(events)
  }

  lemma InOrderSnoc(events: seq<Event>, e: Event, kinds: seq<set<Event>>, last: set<Event>)
    ensures InOrder(events + [e], kinds + [last]) <==>
            InOrder(events, kinds + [last]) || (e in last && InOrder(events, kinds))
  {
    var more, all := events + [e], kinds + [last];
    assert all[|all| - 1] == last && all[..|all| - 1] == kinds;
    if InOrder(more, all) {
      var j :| 0 <= j < |more| && more[j] in last && InOrder(more[..j], kinds);
      if j < |events| { assert more[..j] == events[..j] && events[j] in last; }
      else { assert more[..j] == events; }
    }
    if InOrder(events, all) {
      var j :| 0 <= j < |events| && events[j] in last && InOrder(events[..j], kinds);
      assert more[..j] == events[..j] && more[j] in last;
    }
    if e in last && InOrder(events, kinds) {
      assert more[..|events|] == events && more[|events|] in last;
    }
  }

  lemma InOrderOne(events: seq<Event>, kind: set<Event>)
    ensures InOrder(events, [kind]) <==> exists e :: e in events && e in kind
  {
    assert [kind][..0] == [];
    if e :| e in events && e in kind {
      var j :| 0 <= j < |events| && events[j] == e;
      assert InOrder(events[..j], []);
    }
  }

  lemma FirstHappened(events: seq<Event>)
    ensures SetUpOrStopped(events) ==> Start in events
    ensures StoppedAfterSetup(events) ==> ThreadSetup(false) in events
  {
    if SetUpOrStopped(events) { InOrderPrefix(events, {Start}, SETUPS + {Stop}); }
    if StoppedAfterSetup(events) { InOrderPrefix(events, {ThreadSetup(false)}, {Stop}); }
  }

  lemma InOrderPrefix(events: seq<Event>, first: set<Event>, second: set<Event>)
    requires InOrder(events, [first, second])
    ensures exists e :: e in events && e in first
  {
    assert [first, second][..1] == [first];
    var j :| 0 <= j < |events| && events[j] in second && InOrder(events[..j], [first]);
    InOrderOne(events[..j], first);
    var e :| e in events[..j] && e in first;
    assert e in events;
  }

  /** How the histories used above grow. */
  lemma HistoryGrows(events: seq<Event>, e: Event)
    ensures var more := events + [e];
            && (SetUpOrStopped(more) <==> SetUpOrStopped(events) || (e in SETUPS + {Stop} && Start in events))
            && (StartReturned(more) <==> StartReturned(events) || (e == StarterWakes && SetUpOrStopped(events)))
            && (StoppedAfterSetup(more) <==> StoppedAfterSetup(events) || (e == Stop && ThreadSetup(false) in events))
            && (ThreadEnded(more) <==>
                  ThreadEnded(events) || e == ThreadSetup(true) || (e == ThreadWakes && StoppedAfterSetup(events)))
  {
    hide InOrder;
    InOrderOne(events, {Start});
    InOrderOne(events, {ThreadSetup(false)});
    InOrderSnoc(events, e, [{Start}], SETUPS + {Stop});
    InOrderSnoc(events, e, [{Start}, SETUPS + {Stop}], {StarterWakes});
    InOrderSnoc(events, e, [{ThreadSetup(false)}], {Stop});
    InOrderSnoc(events, e, [{ThreadSetup(false)}, {Stop}], {ThreadWakes});
    assert [{Start}] + [SETUPS + {Stop}] == [{Start}, SETUPS + {Stop}];
    assert [{Start}, SETUPS + {Stop}] + [{StarterWakes}] == [{Start}, SETUPS + {Stop}, {StarterWakes}];
    assert [{ThreadSetup(false)}] + [{Stop}] == [{ThreadSetup(false)}, {Stop}];
    assert [{ThreadSetup(false)}, {Stop}] + [{ThreadWakes}] == [{ThreadSetup(false)}, {Stop}, {ThreadWakes}];
  }

  lemma LastOfSnoc(events: seq<Event>, e: Event, among: set<Event>)
    ensures LastOf(events + [e], among) == if e in among then Some(e) else LastOf(events, among)
  {
    assert (events + [e])[..|events|] == events;
  }

  lemma CountSnoc(events: seq<Event>, e: Event)
    ensures Count(events + [e], FrameAvailable) ==
            Count(events, FrameAvailable) + (if e == FrameAvailable then 1 else 0)
    ensures var pending := LastOf(events, {FrameAvailable, ThreadWakes}) == Some(FrameAvailable);
            Processing(events + [e]) == Processing(events) + (if e == ThreadWakes && pending then 1 else 0)
  {
    assert (events + [e])[..|events|] == events;
  }

  lemma NothingTold()
    ensures PhaseTold(Uninitialized, []) && ThreadsTold(FRESH, []) && SignalsTold(FRESH, [])
  {
    var none: seq<Event> := [];
    assert !InOrder(none, [{Start}, SETUPS + {Stop}]) && !InOrder(none, [{Start}, SETUPS + {Stop}, {StarterWakes}]);
    assert !InOrder(none, [{ThreadSetup(false)}, {Stop}]);
    assert !InOrder(none, [{ThreadSetup(false)}, {Stop}, {ThreadWakes}]);
  }

  lemma ThreadsStep(s: State, events: seq<Event>, e: Event)
    requires ThreadsTold(s, events) && PhaseTold(s.phase, events) && Inv(s) && Enabled(s, e)
    ensures ThreadsTold(Next(s, e), events + [e])
  {
    hide SetUpOrStopped, StartReturned, StoppedAfterSetup, ThreadEnded;
    HistoryGrows(events, e);
    FirstHappened(events);
    assert forall f :: f in events + [e] <==> f in events || f == e;
  }

  lemma PhaseStep(s: State, events: seq<Event>, e: Event)
    requires ThreadsTold(s, events) && PhaseTold(s.phase, events) && Inv(s) && Enabled(s, e)
    ensures PhaseTold(Next(s, e).phase, events + [e])
  {
    hide SetUpOrStopped, StartReturned, StoppedAfterSetup, ThreadEnded;
    HistoryGrows(events, e);
    FirstHappened(events);
    assert forall f :: f in events + [e] <==> f in events || f == e;
    LastOfSnoc(events, e, SETUPS + {Start, Stop, ThreadWakes});
  }

  lemma SignalsStep(s: State, events: seq<Event>, e: Event)
    requires SignalsTold(s, events) && Inv(s) && Enabled(s, e)
    ensures SignalsTold(Next(s, e), events + [e])
  {
    hide Count, Processing, LastOf;
    LastOfSnoc(events, e, SETUPS + {Start, StarterWakes});
    LastOfSnoc(events, e, SETUPS + {ThreadWakes, FrameAvailable, Stop});
    LastOfSnoc(events, e, {FrameAvailable, ThreadWakes});
    CountSnoc(events, e);
  }

  /** In every run, with stop at any time, the phase, the place of both threads, what they have been
      signalled and the frames processed are what the events so far say. */
  lemma {:induction false} HistoryTells(events: seq<Event>)
    requires ValidRun(FRESH, events)
    ensures var s := Run(FRESH, events);
            PhaseTold(s.phase, events) && ThreadsTold(s, events) && SignalsTold(s, events)
    decreases |events|
  {
    hide PhaseTold, ThreadsTold, SignalsTold, Inv;
    if events == [] {
      NothingTold();
    } else {
      var init, e := events[..|events| - 1], events[|events| - 1];
      assert events == init + [e];
      HistoryTells(init);
      InvOverRuns(init);
      ThreadsStep(Run(FRESH, init), init, e);
      PhaseStep(Run(FRESH, init), init, e);
      SignalsStep(Run(FRESH, init), init, e);
    }
  }

  /** start returns at the first wakeup after a setup or a stop has come since it was called, and at no
      other; it returns an error exactly when no setup has succeeded. */
  lemma StarterReturnsIff(events: seq<Event>)
    requires ValidRun(FRESH, events) && Enabled(Run(FRESH, events), StarterWakes)
    ensures var t := Next(Run(FRESH, events), StarterWakes);
            && (t.starter.Done? <==> SetUpOrStopped(events))
            && (t.threadFailed <==> ThreadSetup(false) !in events)
  {
    var all := events + [StarterWakes];
    assert all[..|events|] == events;
    HistoryTells(events);
    HistoryTells(all);
    hide SetUpOrStopped, StartReturned;
    HistoryGrows(events, StarterWakes);
  }

  // ---- Runs that stop a running overlay ------------------------------------------------------

  /** Each stop is called while the thread runs or is being stopped; a caller that keeps to
      stopping once, after start has returned NO_ERROR, does this (see StopOnceIsDisciplined). */
  predicate Disciplined(s: State, events: seq<Event>)
    requires ValidRun(s, events)
    decreases |events|
  {
    events == [] ||
    (var before := events[..|events| - 1];
     Disciplined(s, before) && (events[|events| - 1] == Stop ==> Run(s, before).phase in {Running, Stopping}))
  }

  ghost predicate DisciplinedInv(s: State) {
    && Inv(s)
    && (s.starter.Absent? ==> s.phase == Uninitialized)
    && (s.phase == Stopping ==> s.overlay.Waiting?)
    && (s.overlay.Ready? ==> s.phase == Init)
    && (s.overlay.Done? <==> s.phase == Stopped)
    && (s.phase in {Running, Stopping} ==> !s.threadFailed)
  }

  lemma {:induction false} DisciplinedRuns(events: seq<Event>)
    requires ValidRun(FRESH, events) && Disciplined(FRESH, events)
    ensures DisciplinedInv(Run(FRESH, events))
    decreases |events|
  {
    if events != [] { DisciplinedRuns(events[..|events| - 1]); }
    InvOverRuns(events);
  }

  /** Every prefix of a run is a run. */
  lemma {:induction false} PrefixRun(s: State, events: seq<Event>, k: nat)
    requires k <= |events| && ValidRun(s, events)
    ensures ValidRun(s, events[..k])
    ensures Disciplined(s, events) ==> Disciplined(s, events[..k])
    decreases |events|
  {
    if k == |events| {
      assert events[..k] == events;
    } else {
      var before := events[..|events| - 1];
      PrefixRun(s, before, k);
      assert before[..k] == events[..k];
    }
  }

  /** The promise of the header, for every pair of moments of every disciplined run. */
  lemma {:induction false} ForwardOnly(events: seq<Event>, j: nat, k: nat)
    requires j <= k <= |events| && ValidRun(FRESH, events) && Disciplined(FRESH, events)
    ensures ValidRun(FRESH, events[..j]) && ValidRun(FRESH, events[..k])
    ensures Rank(Run(FRESH, events[..j]).phase) <= Rank(Run(FRESH, events[..k]).phase)
    decreases k
  {
    PrefixRun(FRESH, events, j);
    PrefixRun(FRESH, events, k);
    if j < k {
      ForwardOnly(events, j, k - 1);
      assert events[..k][..k - 1] == events[..k - 1];
      PrefixRun(FRESH, events, k - 1);
      DisciplinedRuns(events[..k - 1]);
    }
  }

  function Count(events: seq<Event>, e: Event): nat {
    if events == [] then 0 else Count(events[..|events| - 1], e) + (if events[|events| - 1] == e then 1 else 0)
  }

  /** Once stop has been called, the next time the overlay thread is scheduled it processes a
      pending frame, releases everything and ends; until then it stays signalled. So a run that
      keeps scheduling the thread reaches Stopped, whatever else happens in it. */
  lemma {:induction false} StoppedOnceScheduled(events: seq<Event>, more: seq<Event>)
    requires ValidRun(FRESH, events) && ValidRun(Run(FRESH, events), more)
    requires Disciplined(FRESH, events) && Disciplined(Run(FRESH, events), more)
    requires Run(FRESH, events).phase == Stopping
    ensures var t := Run(Run(FRESH, events), more);
            if Count(more, ThreadWakes) == 0
            then t.phase == Stopping && t.overlay == Waiting(true)
            else t.phase == Stopped && t.overlay == Done && !t.resources
    decreases |more|
  {
    var s := Run(FRESH, events);
    if more == [] {
      DisciplinedRuns(events);
    } else {
      var before := more[..|more| - 1];
      StoppedOnceScheduled(events, before);
      Concat(FRESH, events, before);
      DisciplinedRuns(events + before);
    }
  }

  /** A frame that arrives before the thread is scheduled again is not lost: the next wakeup
      processes it, also when a stop has come in between. */
  lemma FrameIsProcessed(events: seq<Event>)
    requires ValidRun(FRESH, events) && Run(FRESH, events).overlay.Waiting?
    ensures var s := Run(FRESH, events); var t := Next(s, ThreadWakes);
            t.seen == t.arrived == s.arrived && !t.frameAvailable
            && t.processed == s.processed + (if s.seen < s.arrived then 1 else 0)
  {
    InvOverRuns(events);
  }

  lemma {:induction false} Concat(s: State, a: seq<Event>, b: seq<Event>)
    requires ValidRun(s, a) && ValidRun(Run(s, a), b)
    ensures ValidRun(s, a + b) && Run(s, a + b) == Run(Run(s, a), b)
    ensures Disciplined(s, a) && Disciplined(Run(s, a), b) ==> Disciplined(s, a + b)
    decreases |b|
  {
    if b == [] {
      assert a + b == a;
    } else {
      var c := b[..|b| - 1];
      Concat(s, a, c);
      assert (a + b)[..|a + b| - 1] == a + c;
    }
  }

  /** start has returned: NO_ERROR when the setup succeeded. */
  predicate StartSucceeded(s: State) {
    s.starter.Done? && !s.threadFailed
  }

  /** At most one stop, and only after start has returned NO_ERROR: the use the program makes. */
  predicate StopsOnceAfterStart(s: State, events: seq<Event>)
    requires ValidRun(s, events)
    decreases |events|
  {
    events == [] ||
    (var before := events[..|events| - 1];
     StopsOnceAfterStart(s, before)
     && (events[|events| - 1] == Stop ==> StartSucceeded(Run(s, before)) && Count(before, Stop) == 0))
  }

  lemma {:induction false} StopOnceIsDisciplined(events: seq<Event>)
    requires ValidRun(FRESH, events) && StopsOnceAfterStart(FRESH, events)
    ensures Disciplined(FRESH, events)
    ensures var s := Run(FRESH, events);
            && (Count(events, Stop) == 0 ==> s.phase != Stopping && (s.phase == Stopped ==> s.threadFailed))
            // The assertion of start after a successful setup.
            && (StartSucceeded(s) && Count(events, Stop) == 0 ==> s.phase == Running)
    decreases |events|
  {
    if events != [] {
      StopOnceIsDisciplined(events[..|events| - 1]);
      DisciplinedRuns(events[..|events| - 1]);
    }
  }

  // ---- Dropped frames ------------------------------------------------------------------------

  const SIZE_T_RANGE := 0x1_0000_0000_0000_0000

  datatype Tally = Tally(last: int, dropped: nat)

  /** The accounting of processFrame_l, with size_t arithmetic. */
  function Account(t: Tally, frameNumber: int): Tally {
    Tally(frameNumber, if t.last > 0 then (t.dropped + (frameNumber - t.last) - 1) % SIZE_T_RANGE else t.dropped)
  }

  function AccountAll(frames: seq<int>): Tally {
    if frames == [] then Tally(-1, 0) else Account(AccountAll(frames[..|frames| - 1]), frames[|frames| - 1])
  }

  /** The differences less one between neighbouring frame numbers, where the first of the two is positive. */
  function Gaps(frames: seq<int>): int {
    var n := |frames|;
    if n < 2 then 0
    else Gaps(frames[..n - 1]) + (if frames[n - 2] > 0 then frames[n - 1] - frames[n - 2] - 1 else 0)
  }

  /** For every list of frame numbers the counter is the sum of these, modulo its width. */
  lemma {:induction false} DroppedIsGaps(frames: seq<int>)
    ensures AccountAll(frames).dropped == Gaps(frames) % SIZE_T_RANGE
    ensures frames != [] ==> AccountAll(frames).last == frames[|frames| - 1]
    ensures frames == [] ==> AccountAll(frames).last == -1
  {
    var n := |frames|;
    if n > 0 {
      var before := frames[..n - 1];
      DroppedIsGaps(before);
      if n > 1 { ModuloAdd(Gaps(before), frames[n - 1] - frames[n - 2] - 1, SIZE_T_RANGE); }
    }
  }

  /** For all positive frame numbers, in any order, the counter telescopes modulo its width. */
  lemma {:induction false} DroppedTelescopes(frames: seq<int>)
    requires frames != [] && forall k :: 0 <= k < |frames| ==> frames[k] > 0
    ensures AccountAll(frames) ==
            Tally(frames[|frames| - 1], (frames[|frames| - 1] - frames[0] - (|frames| - 1)) % SIZE_T_RANGE)
  {
    var n := |frames|;
    var before := frames[..n - 1];
    if n == 1 {
      assert before == [];
    } else {
      DroppedTelescopes(before);
      var x := frames[n - 2] - frames[0] - (n - 2);
      ModuloAdd(x, frames[n - 1] - frames[n - 2] - 1, SIZE_T_RANGE);
    }
  }

  ghost predicate Increasing(frames: seq<int>) {
    && (forall k :: 0 <= k < |frames| ==> 0 < frames[k] < 0x8000_0000_0000_0000)
    && (forall j, k :: 0 <= j < k < |frames| ==> frames[j] < frames[k])
  }

  /** The frame numbers from the first processed frame up to bound that were never processed. */
  ghost function Skipped(frames: seq<int>, bound: int): set<int>
    requires frames != []
  {
    set x | frames[0] <= x < bound && x !in frames
  }

  /** What the counter means: with increasing 64-bit frame numbers, it is the number of frames
      between the first and the last processed one that were skipped. */
  lemma {:induction false} DroppedCountsSkipped(frames: seq<int>)
    requires frames != [] && Increasing(frames)
    ensures AccountAll(frames).dropped == |Skipped(frames, frames[|frames| - 1])|
  {
    SkippedSize(frames);
    DroppedTelescopes(frames);
  }

  lemma {:induction false} SkippedSize(frames: seq<int>)
    requires frames != [] && Increasing(frames)
    ensures |Skipped(frames, frames[|frames| - 1])| == frames[|frames| - 1] - frames[0] - (|frames| - 1)
  {
    var n := |frames|;
    if n == 1 {
      assert Skipped(frames, frames[0]) == {};
    } else {
      var before := frames[..n - 1];
      SkippedSize(before);
      SkippedGrows(before, frames[n - 1]);
      assert frames == before + [frames[n - 1]];
    }
  }

  lemma SkippedGrows(before: seq<int>, next: int)
    requires before != [] && Increasing(before + [next])
    ensures var last := before[|before| - 1];
            && last < next
            && Skipped(before + [next], next) == Skipped(before, last) + Between(last, next)
            && Skipped(before, last) !! Between(last, next)
  {
    var frames, last := before + [next], before[|before| - 1];
    assert frames[|before| - 1] == last && frames[|before|] == next && frames[0] == before[0];
    assert last < next;
    assert before[0] <= last by { assert frames[0] <= frames[|before| - 1]; }
    forall x | x in before ensures x <= last {
      var k :| 0 <= k < |before| && before[k] == x;
      assert frames[k] <= frames[|before| - 1];
    }
    SkippedExtends(before, next);
  }

  lemma SkippedExtends(before: seq<int>, next: int)
    requires before != []
    requires var last := before[|before| - 1];
             before[0] <= last < next && forall x :: x in before ==> x <= last
    ensures var last := before[|before| - 1];
            Skipped(before + [next], next) == Skipped(before, last) + Between(last, next)
  {
    var last := before[|before| - 1];
    assert forall x :: x in before + [next] <==> x in before || x == next;
    assert last in before;
  }

  function Between(lo: int, hi: int): (r: set<int>)
    requires lo < hi
    ensures forall x :: x in r <==> lo < x < hi
    ensures |r| == hi - lo - 1
    decreases hi - lo
  {
    if lo + 1 < hi then Between(lo, hi - 1) + {hi - 1} else {}
  }

  ghost predicate Traced(s: State, events: seq<Event>, t: State) {
    ValidRun(s, events) && Run(s, events) == t
  }

  lemma TracedNothing(s: State)
    ensures Traced(s, [], s) && Count([], ThreadWakes) == 0
  {
  }

  lemma TracedSnoc(s: State, events: seq<Event>, t: State, e: Event)
    requires Traced(s, events, t) && Enabled(t, e)
    ensures Traced(s, events + [e], Next(t, e))
    ensures forall f :: Count(events + [e], f) == Count(events, f) + (if e == f then 1 else 0)
  {
    assert (events + [e])[..|events|] == events;
  }

  // ---- The object ----------------------------------------------------------------------------

  /** A call another thread makes while the overlay thread waits. */
  datatype Call = Frame | StopCall | StarterRuns

  class Overlay {
    var phase: Phase
    var frameAvailable: bool
    var threadFailed: bool
    var startWaiting: bool        // start has been called and has not returned
    var lastFrameNumber: int
    var totalDroppedFrames: nat
    ghost var state: State
    ghost var frames: seq<int>    // numbers of the frames processed so far

    ghost predicate Valid()
      reads this
    {
      && state.phase == phase && state.frameAvailable == frameAvailable && state.threadFailed == threadFailed
      && (startWaiting <==> state.starter.Waiting?)
      && AccountAll(frames) == Tally(lastFrameNumber, totalDroppedFrames)
      && |frames| == state.processed
    }

    constructor ()
      ensures Valid() && state == FRESH && frames == []
    {
      phase, frameAvailable, threadFailed, startWaiting := Uninitialized, false, true, false;
      lastFrameNumber, totalDroppedFrames := -1, 0;
      state, frames := FRESH, [];
    }

    /** start, up to its first wait. */
    method Start()
      requires Valid() && Enabled(state, Event.Start)
      modifies this
      ensures Valid() && state == Next(old(state), Event.Start) && frames == old(frames)
    {
      phase, startWaiting := Init, true;
      state := Next(state, Event.Start);
    }

    /** start, after a wait: it returns unless the thread is still being set up. */
    method StarterWake() returns (returned: bool, failed: bool)
      requires Valid() && Enabled(state, StarterWakes)
      modifies this
      ensures Valid() && state == Next(old(state), StarterWakes) && frames == old(frames)
      ensures returned <==> state.starter.Done?
      ensures failed == state.threadFailed
    {
      returned, failed := phase != Init, threadFailed;
      if returned {
        startWaiting := false;
      }
      state := Next(state, StarterWakes);
    }

    method Stop()
      requires Valid()
      modifies this
      ensures Valid() && state == Next(old(state), Event.Stop) && frames == old(frames)
    {
      phase := Stopping;
      state := Next(state, Event.Stop);
    }

    method OnFrameAvailable()
      requires Valid() && Enabled(state, Event.FrameAvailable)
      modifies this
      ensures Valid() && state == Next(old(state), Event.FrameAvailable) && frames == old(frames)
    {
      frameAvailable := true;
      state := Next(state, Event.FrameAvailable);
    }

    /** The bookkeeping of processFrame_l for the frame the consumer reports. */
    method ProcessFrame(frameNumber: int)
      requires AccountAll(frames) == Tally(lastFrameNumber, totalDroppedFrames)
      modifies this`lastFrameNumber, this`totalDroppedFrames, this`frames
      ensures frames == old(frames) + [frameNumber]
      ensures AccountAll(frames) == Tally(lastFrameNumber, totalDroppedFrames)
    {
      if lastFrameNumber > 0 {
        totalDroppedFrames := (totalDroppedFrames + (frameNumber - lastFrameNumber) - 1) % SIZE_T_RANGE;
      }
      lastFrameNumber := frameNumber;
      assert (frames + [frameNumber])[..|frames|] == frames;
      frames := frames + [frameNumber];
    }

    /** What other threads do while the overlay thread waits. */
    method Others(calls: seq<Call>, ghost start: State, ghost before: seq<Event>) returns (ghost events: seq<Event>)
      requires Valid() && state.overlay.Waiting? && state.listening && Traced(start, before, state)
      modifies this
      ensures Valid() && state.overlay.Waiting? && state.listening && Traced(start, events, state)
      ensures frames == old(frames) && Count(events, ThreadWakes) == Count(before, ThreadWakes)
    {
      hide Traced, Count, AccountAll;
      events := before;
      for j := 0 to |calls|
        invariant Valid() && state.overlay.Waiting? && state.listening && Traced(start, events, state)
        invariant frames == old(frames) && Count(events, ThreadWakes) == Count(before, ThreadWakes)
      {
        match calls[j] {
          case Frame =>
            TracedSnoc(start, events, state, Event.FrameAvailable);
            events := events + [Event.FrameAvailable];
            OnFrameAvailable();
          case StopCall =>
            TracedSnoc(start, events, state, Event.Stop);
            events := events + [Event.Stop];
            Stop();
          case StarterRuns =>
            if startWaiting {
              TracedSnoc(start, events, state, StarterWakes);
              events := events + [StarterWakes];
              var returned, failed := StarterWake();
            }
        }
      }
    }

    /** The first locked region of threadLoop: setup_l, then the state is announced. */
    method Setup(fails: bool)
      requires Valid() && Enabled(state, ThreadSetup(fails))
      modifies this
      ensures Valid() && state == Next(old(state), ThreadSetup(fails)) && frames == old(frames)
    {
      threadFailed := fails;
      phase := if fails then Stopped else Running;
      state := Next(state, ThreadSetup(fails));
    }

    /** From one wait of threadLoop to the next, or to its end. */
    method Wake(frameNumber: int)
      requires Valid() && Enabled(state, ThreadWakes)
      modifies this
      ensures Valid() && state == Next(old(state), ThreadWakes)
      ensures frames == old(frames) + (if old(frameAvailable) then [frameNumber] else [])
      ensures phase == Running || state.overlay.Done?
    {
      if frameAvailable {
        ProcessFrame(frameNumber);
        frameAvailable := false;
      } else {
        assert frames == frames + [];
      }
      if phase != Running {
        phase := Stopped;
      }
      state := Next(state, ThreadWakes);
    }

    /** threadLoop, interleaved with the other threads: schedule[k] is what they do during the
        k-th wait, after which the thread is woken, signalled or not, and finds numbers[k] to be
        the frame number of the consumer. */
    method ThreadLoop(setupFails: bool, schedule: seq<seq<Call>>, numbers: seq<int>)
        returns (ended: bool, ghost events: seq<Event>)
      requires Valid() && state.overlay.Ready? && |numbers| == |schedule|
      modifies this
      ensures Valid() && Traced(old(state), events, state)
      ensures ended <==> state.overlay.Done?
      ensures ended || Count(events, ThreadWakes) == |schedule|
    {
      hide Traced, Count, AccountAll;
      TracedNothing(state);
      TracedSnoc(state, [], state, ThreadSetup(setupFails));
      events := [] + [ThreadSetup(setupFails)];
      Setup(setupFails);
      if setupFails {
        return true, events;
      }
      var k := 0;
      while phase == Running && k < |schedule|
        invariant k <= |schedule| && Valid() && Traced(old(state), events, state)
        invariant Count(events, ThreadWakes) == k
        invariant if phase == Running then state.overlay.Waiting? && state.listening else state.overlay.Done?
      {
        events := Others(schedule[k], old(state), events);
        TracedSnoc(old(state), events, state, ThreadWakes);
        events := events + [ThreadWakes];
        Wake(numbers[k]);
        k := k + 1;
      }
      ended := phase != Running;
    }
  }
}
