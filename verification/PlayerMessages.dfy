/** The message handler of cmds/stagefright/SimplePlayer.cpp: a looper delivers messages one at a
    time, and the player keeps itself going by posting DoMoreStuff messages stamped with a
    generation that start and stop advance. */
module PlayerMessages {
  import opened Arithmetic

  datatype Phase = Uninitialized | Unprepared | Stopped | Started

  datatype Status = Ok | InvalidOperation | Failure(code: int)

  const INT32_RANGE := 0x1_0000_0000

  /** The value an int32_t counter holds after g increments from zero. */
  function Wrap(g: nat): int {
    (g + 0x8000_0000) % INT32_RANGE - 0x8000_0000
  }

  /** generation and the stamps in posted count increments without wrapping; the program sees
      them through Wrap. */
  datatype State = State(
    phase: Phase,
    generation: nat,
    posted: multiset<nat>,     // stamps of the DoMoreStuff messages not yet delivered
    prepared: bool)            // extractor and codecs exist

  const FRESH := State(Uninitialized, 0, multiset{}, false)

  datatype Event =
    | SetDataSource
    | SetSurface
    | Prepare(result: Status)       // result is what onPrepare returns, if it is called
    | Start(result: Status)
    | Stop
    | Reset
    | Deliver(stamp: nat)           // a DoMoreStuff message comes out of the looper

  predicate Enabled(s: State, e: Event) {
    e.Deliver? ==> e.stamp in s.posted
  }

  /** Whether a delivered DoMoreStuff message is acted upon. */
  predicate ActsOn(s: State, stamp: nat) {
    Wrap(stamp) == Wrap(s.generation)
  }

  function Prepared(s: State, result: Status): State {
    if s.phase == Unprepared && result == Ok then s.(phase := Stopped, prepared := true) else s
  }

  function Next(s: State, e: Event): State
    requires Enabled(s, e)
  {
    match e
    case SetDataSource => if s.phase == Uninitialized then s.(phase := Unprepared) else s
    case SetSurface => s
    case Prepare(result) => Prepared(s, result)
    case Start(result) =>
      var p := Prepared(s, result);
      if p.phase == Stopped then
        p.(phase := Started, generation := p.generation + 1, posted := p.posted + multiset{p.generation + 1})
      else p
    case Stop => if s.phase == Started then s.(phase := Stopped, generation := s.generation + 1) else s
    case Reset =>
      var p := if s.phase == Started then s.(phase := Stopped, generation := s.generation + 1) else s;
      if p.phase == Stopped then p.(phase := Uninitialized, prepared := false) else p
    case Deliver(stamp) =>
      var p := s.(posted := s.posted - multiset{stamp});
      // onDoMoreStuff always succeeds, and the same message is posted again.
      if ActsOn(s, stamp) then p.(posted := p.posted + multiset{stamp}) else p
  }

  predicate ValidRun(events: seq<Event>)
    decreases |events|, 0
  {
    events == [] ||
    (ValidRun(events[..|events| - 1]) && Enabled(Run(events[..|events| - 1]), events[|events| - 1]))
  }

  function Run(events: seq<Event>): State
    requires ValidRun(events)
    decreases |events|, 1
  {
    if events == [] then FRESH else Next(Run(events[..|events| - 1]), events[|events| - 1])
  }

  // ---- What every run keeps ------------------------------------------------------------------

  /** One live DoMoreStuff message while started and none otherwise; all others are older. */
  ghost predicate Inv(s: State) {
    && (forall g :: g in s.posted ==> g <= s.generation)
    && s.posted[s.generation] == (if s.phase == Started then 1 else 0)
    && (s.prepared <==> s.phase in {Stopped, Started})
  }

  lemma DeliverStep(s: State, stamp: nat)
    requires Inv(s) && stamp in s.posted
    ensures Inv(Next(s, Deliver(stamp)))
  {
    var t := Next(s, Deliver(stamp));
    if ActsOn(s, stamp) {
      assert t.posted == s.posted;
    } else {
      assert stamp != s.generation;
      assert forall g :: g in t.posted ==> g in s.posted;
    }
  }

  lemma AdvanceStep(s: State, live: bool)
    requires forall g :: g in s.posted ==> g <= s.generation
    ensures var posted := if live then s.posted + multiset{s.generation + 1} else s.posted;
            && (forall g :: g in posted ==> g <= s.generation + 1)
            && posted[s.generation + 1] == (if live then 1 else 0)
  {
    assert s.generation + 1 !in s.posted;
  }

  lemma InvStep(s: State, e: Event)
    requires Inv(s) && Enabled(s, e)
    ensures Inv(Next(s, e))
  {
    if e.Deliver? {
      DeliverStep(s, e.stamp);
    } else {
      AdvanceStep(s, e.Start?);
    }
  }

  lemma {:induction false} InvOverRuns(events: seq<Event>)
    requires ValidRun(events)
    ensures Inv(Run(events))
    decreases |events|
  {
    if events != [] {
      var before := events[..|events| - 1];
      InvOverRuns(before);
      InvStep(Run(before), events[|events| - 1]);
    }
  }

  lemma WrapAgrees(g: nat, h: nat)
    requires g <= h
    ensures Wrap(g) == Wrap(h) <==> (h - g) % INT32_RANGE == 0
    ensures h - g < INT32_RANGE ==> (Wrap(g) == Wrap(h) <==> g == h)
  {
    ModuloDifference(g + 0x8000_0000, h + 0x8000_0000, INT32_RANGE);
  }

  /** The generation is odd exactly while started, and every message was posted by a start. */
  ghost predicate Parity(s: State) {
    (s.phase == Started <==> s.generation % 2 == 1) && forall g :: g in s.posted ==> g % 2 == 1
  }

  lemma {:induction false} ParityOverRuns(events: seq<Event>)
    requires ValidRun(events)
    ensures Parity(Run(events))
    decreases |events|
  {
    if events != [] {
      var before, e := Run(events[..|events| - 1]), events[|events| - 1];
      ParityOverRuns(events[..|events| - 1]);
      ParityStep(before, e);
    }
  }

  lemma ParityStep(s: State, e: Event)
    requires Parity(s) && Enabled(s, e)
    ensures Parity(Next(s, e))
  {
    match e {
      case Deliver(stamp) => ParityDeliver(s, stamp);
      case Start(_) => ParityFlips(s.generation);
      case Stop => ParityFlips(s.generation);
      case Reset => ParityFlips(s.generation);
      case _ =>
    }
  }

  lemma ParityFlips(g: nat)
    ensures g % 2 == 1 <==> (g + 1) % 2 == 0
  {
  }

  lemma ParityDeliver(s: State, stamp: nat)
    requires Parity(s) && stamp in s.posted
    ensures Parity(Next(s, Deliver(stamp)))
  {
    hide ActsOn;
    var t := Next(s, Deliver(stamp));
    assert forall g :: g in t.posted ==> g in s.posted;
  }

  lemma EvenMultiple(d: nat)
    requires d % INT32_RANGE == 0
    ensures d % 2 == 0
  {
  }

  lemma ActsWhenOdd(s: State, stamp: nat)
    requires Parity(s) && stamp in s.posted && stamp <= s.generation && ActsOn(s, stamp)
    ensures s.phase == Started
  {
    hide Wrap;
    WrapAgrees(stamp, s.generation);
    EvenMultiple(s.generation - stamp);
  }

  /** onDoMoreStuff runs only in the state Started, in every run of any length, although the counter
      wraps: a counter that has gone round has advanced an even number of times. */
  lemma OnlyWhileStarted(events: seq<Event>, stamp: nat)
    requires ValidRun(events) && Enabled(Run(events), Deliver(stamp))
    ensures ActsOn(Run(events), stamp) ==> Run(events).phase == Started
  {
    InvOverRuns(events);
    ParityOverRuns(events);
    if ActsOn(Run(events), stamp) { ActsWhenOdd(Run(events), stamp); }
  }

  /** Which delivered messages are acted upon, for every run: those of a started player whose stamp is
      a whole number of turns of the counter old. */
  lemma ActsOnIff(events: seq<Event>, stamp: nat)
    requires ValidRun(events) && Enabled(Run(events), Deliver(stamp))
    ensures var s := Run(events);
            ActsOn(s, stamp) <==> s.phase == Started && (s.generation - stamp) % INT32_RANGE == 0
  {
    InvOverRuns(events);
    OnlyWhileStarted(events, stamp);
    hide Wrap, Run;
    WrapAgrees(stamp, Run(events).generation);
  }

  /** How often the generation has been advanced is at most the number of start, stop and reset
      messages. */
  function Turns(events: seq<Event>): nat {
    if events == [] then 0
    else
      var e := events[|events| - 1];
      Turns(events[..|events| - 1]) + (if e.Start? || e.Stop? || e.Reset? then 1 else 0)
  }

  lemma {:induction false} GenerationBound(events: seq<Event>)
    requires ValidRun(events)
    ensures Run(events).generation <= Turns(events)
    decreases |events|
  {
    if events != [] { GenerationBound(events[..|events| - 1]); }
  }

  /** In every run with fewer start, stop and reset messages than the counter has values, only the live
      message of a started player is acted upon. */
  lemma OnlyTheLiveMessage(events: seq<Event>, stamp: nat)
    requires ValidRun(events) && Enabled(Run(events), Deliver(stamp)) && Turns(events) < INT32_RANGE
    ensures var s := Run(events);
            ActsOn(s, stamp) <==> s.phase == Started && stamp == s.generation
  {
    InvOverRuns(events);
    GenerationBound(events);
    WrapAgrees(stamp, Run(events).generation);
    if Run(events).phase == Started { assert Run(events).generation in Run(events).posted; }
  }

  /** n times start and stop, from a prepared player. */
  function Rounds(n: nat): seq<Event> {
    if n == 0 then [SetDataSource, Prepare(Ok)] else Rounds(n - 1) + [Start(Ok), Stop]
  }

  lemma RunSnoc(events: seq<Event>, e: Event)
    requires ValidRun(events) && Enabled(Run(events), e)
    ensures ValidRun(events + [e]) && Run(events + [e]) == Next(Run(events), e)
  {
    assert (events + [e])[..|events|] == events;
  }

  lemma RunOfPrepare()
    ensures ValidRun([SetDataSource, Prepare(Ok)])
    ensures Run([SetDataSource, Prepare(Ok)]) == State(Stopped, 0, multiset{}, true)
  {
    assert [] + [SetDataSource] == [SetDataSource];
    RunSnoc([], SetDataSource);
    RunSnoc([SetDataSource], Prepare(Ok));
    assert [SetDataSource] + [Prepare(Ok)] == [SetDataSource, Prepare(Ok)];
  }

  lemma OneRound(before: seq<Event>, n: nat)
    requires n > 0 && ValidRun(before)
    requires var s := Run(before); s.phase == Stopped && s.generation == 2 * (n - 1) && (n > 1 ==> 1 in s.posted)
    ensures var events := before + [Start(Ok)] + [Stop];
            && ValidRun(events)
            && var s := Run(events);
               s.phase == Stopped && s.generation == 2 * n && 1 in s.posted
  {
    hide Run, ValidRun;
    RunSnoc(before, Start(Ok));
    RunSnoc(before + [Start(Ok)], Stop);
  }

  lemma {:induction false} RunOfRounds(n: nat)
    ensures ValidRun(Rounds(n))
    ensures var s := Run(Rounds(n));
            s.phase == Stopped && s.generation == 2 * n && (n > 0 ==> 1 in s.posted)
  {
    hide Run, ValidRun;
    if n == 0 {
      RunOfPrepare();
    } else {
      var before := Rounds(n - 1);
      RunOfRounds(n - 1);
      OneRound(before, n);
      assert Rounds(n) == before + [Start(Ok)] + [Stop];
    }
  }

  /** The bound is needed: with 2^31 starts and stops between them, the messages of the first start and
      of the last are both acted upon, and each is posted again: two chains at once. */
  lemma TwoChains()
    ensures var events := Rounds(0x8000_0000) + [Start(Ok)];
            && ValidRun(events)
            && var s := Run(events);
               && s.phase == Started && s.generation == INT32_RANGE + 1
               && 1 in s.posted && s.generation in s.posted
               && ActsOn(s, 1) && ActsOn(s, s.generation)
               && Next(s, Deliver(1)) == s && Next(s, Deliver(s.generation)) == s
  {
    hide Run, ValidRun, Rounds, Wrap;
    var n := 0x8000_0000;
    RunOfRounds(n);
    RunSnoc(Rounds(n), Start(Ok));
    var s := Run(Rounds(n) + [Start(Ok)]);
    assert s.generation in s.posted;
    WrapAgrees(1, s.generation);
    assert s.posted - multiset{1} + multiset{1} == s.posted;
    assert s.posted - multiset{s.generation} + multiset{s.generation} == s.posted;
  }

  /** Delivering a stale message discards it for good; delivering the live one changes nothing. */
  lemma DeliveryEffect(events: seq<Event>, stamp: nat)
    requires ValidRun(events) && Enabled(Run(events), Deliver(stamp)) && Turns(events) < INT32_RANGE
    ensures var s := Run(events);
            Next(s, Deliver(stamp)) ==
              if s.phase == Started && stamp == s.generation then s else s.(posted := s.posted - multiset{stamp})
  {
    OnlyTheLiveMessage(events, stamp);
    var s := Run(events);
    if s.phase == Started && stamp == s.generation {
      assert s.posted - multiset{stamp} + multiset{stamp} == s.posted;
    }
  }

  // ---- What the messages alone say -------------------------------------------------------------

  /** A data source is set: reset takes it away only from a prepared player. */
  predicate HasSource(events: seq<Event>) {
    events != [] &&
    var init, e := events[..|events| - 1], events[|events| - 1];
    if e.Reset? then HasSource(init) && !IsPrepared(init) else e.SetDataSource? || HasSource(init)
  }

  /** An attempt to prepare has succeeded, by prepare or by start, with a data source set. */
  predicate IsPrepared(events: seq<Event>) {
    events != [] &&
    var init, e := events[..|events| - 1], events[|events| - 1];
    !e.Reset? && (IsPrepared(init) || ((e.Prepare? || e.Start?) && e.result == Ok && HasSource(init)))
  }

  /** A start has come after that and neither a stop nor a reset since. */
  predicate IsPlaying(events: seq<Event>) {
    events != [] &&
    var init, e := events[..|events| - 1], events[|events| - 1];
    !e.Stop? && !e.Reset? && (IsPlaying(init) || (e.Start? && IsPrepared(events)))
  }

  /** How often playing has begun or ended. */
  function Changes(events: seq<Event>): nat {
    if events == [] then 0
    else
      var init := events[..|events| - 1];
      Changes(init) + (if IsPlaying(events) != IsPlaying(init) then 1 else 0)
  }

  /** In every run the phase, the codecs and the generation are what the messages so far say. */
  lemma {:induction false} HistoryTells(events: seq<Event>)
    requires ValidRun(events)
    ensures (IsPlaying(events) ==> IsPrepared(events)) && (IsPrepared(events) ==> HasSource(events))
    ensures var s := Run(events);
            && (s.phase == Started <==> IsPlaying(events))
            && (s.phase in {Stopped, Started} <==> IsPrepared(events)) && (s.prepared <==> IsPrepared(events))
            && (s.phase == Uninitialized <==> !HasSource(events))
            && s.generation == Changes(events)
    decreases |events|
  {
    if events != [] { HistoryTells(events[..|events| - 1]); }
  }

  /** What a start does in every run: the player is started afterwards unless it has no data source or
      cannot be prepared, and if it was not started before, a message of a new generation is posted. */
  lemma StartEffect(events: seq<Event>, result: Status)
    requires ValidRun(events)
    ensures var s, t := Run(events), Next(Run(events), Start(result));
            && (t.phase == Started <==> s.phase in {Stopped, Started} || (s.phase == Unprepared && result == Ok))
            && (t.phase == Started != s.phase ==>
                  t.generation == s.generation + 1 && t.posted == s.posted + multiset{s.generation + 1})
            && (t.phase != Started || s.phase == Started ==> t == s)
  {
  }

  // ---- The object ----------------------------------------------------------------------------

  newtype int32 = x: int | -0x8000_0000 <= x < 0x8000_0000

  /** ++ on an int32_t, which wraps round. */
  function Increment(x: int32): int32 {
    if x == 0x7fff_ffff then -0x8000_0000 else x + 1
  }

  lemma IncrementWraps(g: nat)
    ensures -0x8000_0000 <= Wrap(g) < 0x8000_0000
    ensures Increment(Wrap(g) as int32) as int == Wrap(g + 1)
  {
    var a := g + 0x8000_0000;
    var r := a % INT32_RANGE;
    if r == INT32_RANGE - 1 {
      DivideUnique(a + 1, INT32_RANGE, a / INT32_RANGE + 1, 0);
    } else {
      DivideUnique(a + 1, INT32_RANGE, a / INT32_RANGE, r + 1);
    }
  }

  /** A reply; the handler of SetDataSource leaves its error code unassigned on success. */
  datatype Reply = Code(status: Status) | Unassigned

  class SimplePlayer {
    var phase: Phase
    var doMoreStuffGeneration: int32
    var prepared: bool
    ghost var state: State

    ghost predicate Valid()
      reads this
    {
      && Inv(state)
      && state.phase == phase && state.prepared == prepared
      && Wrap(state.generation) == doMoreStuffGeneration as int
    }

    constructor ()
      ensures Valid() && state == FRESH
    {
      phase, doMoreStuffGeneration, prepared := Uninitialized, 0, false;
      state := FRESH;
    }

    method OnSetDataSource() returns (reply: Reply)
      requires Valid()
      modifies this
      ensures Valid() && state == Next(old(state), SetDataSource)
      ensures reply == if old(phase) == Uninitialized then Unassigned else Code(InvalidOperation)
      ensures phase == if old(phase) == Uninitialized then Unprepared else old(phase)
    {
      state := Next(state, SetDataSource);
      if phase != Uninitialized {
        reply := Code(InvalidOperation);
      } else {
        phase := Unprepared;
        reply := Unassigned;
      }
    }

    /** onPrepare, whose outcome depends on the media file. */
    method OnPrepare(result: Status) returns (err: Status)
      requires phase == Unprepared
      modifies this`prepared
      ensures err == result && prepared == (old(prepared) || result == Ok)
    {
      if result == Ok {
        prepared := true;
      }
      err := result;
    }

    method OnPrepareMessage(result: Status) returns (err: Status)
      requires Valid()
      modifies this
      ensures Valid() && state == Next(old(state), Prepare(result))
      ensures err == if old(phase) == Unprepared then result else InvalidOperation
      ensures phase == if err == Ok then Stopped else old(phase)
    {
      state := Next(state, Prepare(result));
      if phase != Unprepared {
        err := InvalidOperation;
      } else {
        err := OnPrepare(result);
        if err == Ok {
          phase := Stopped;
        }
      }
    }

    /** onStart: posts the first message of a new generation. */
    method OnStart()
      requires phase == Stopped && Wrap(state.generation) == doMoreStuffGeneration as int
      modifies this`doMoreStuffGeneration, this`state
      ensures Wrap(state.generation) == doMoreStuffGeneration as int
      ensures state == old(state).(generation := old(state).generation + 1,
                                   posted := old(state).posted + multiset{old(state).generation + 1})
    {
      IncrementWraps(state.generation);
      doMoreStuffGeneration := Increment(doMoreStuffGeneration);
      state := state.(generation := state.generation + 1, posted := state.posted + multiset{state.generation + 1});
    }

    method OnStop()
      requires phase == Started && Wrap(state.generation) == doMoreStuffGeneration as int
      modifies this`doMoreStuffGeneration, this`state
      ensures Wrap(state.generation) == doMoreStuffGeneration as int
      ensures state == old(state).(generation := old(state).generation + 1)
    {
      IncrementWraps(state.generation);
      doMoreStuffGeneration := Increment(doMoreStuffGeneration);
      state := state.(generation := state.generation + 1);
    }

    method OnStartMessage(result: Status) returns (err: Status)
      requires Valid()
      modifies this
      ensures Valid() && state == Next(old(state), Start(result))
      ensures err == match old(phase)
                     case Unprepared => result
                     case Stopped => Ok
                     case _ => InvalidOperation
      ensures err == Ok ==> phase == Started && state.generation == old(state.generation) + 1
      ensures err != Ok ==> phase == old(phase) && state == old(state)
    {
      err := Ok;
      if phase == Unprepared {
        err := OnPrepare(result);
        if err == Ok {
          phase := Stopped;
          state := state.(phase := Stopped, prepared := true);
        }
      }
      if err == Ok {
        if phase != Stopped {
          err := InvalidOperation;
        } else {
          OnStart();
          phase := Started;
          state := state.(phase := Started);
        }
      }
    }

    method OnStopMessage() returns (err: Status)
      requires Valid()
      modifies this
      ensures Valid() && state == Next(old(state), Stop)
      ensures err == if old(phase) == Started then Ok else InvalidOperation
      ensures phase == if err == Ok then Stopped else old(phase)
    {
      if phase != Started {
        err := InvalidOperation;
      } else {
        OnStop();
        err := Ok;
        phase := Stopped;
        state := state.(phase := Stopped);
      }
    }

    method OnResetMessage() returns (err: Status)
      requires Valid()
      modifies this
      ensures Valid() && state == Next(old(state), Reset) && err == Ok
      ensures phase == if old(phase) == Unprepared then Unprepared else Uninitialized
    {
      err := Ok;
      if phase == Started {
        OnStop();
        phase := Stopped;
        state := state.(phase := Stopped);
      }
      if phase == Stopped {
        prepared := false;
        phase := Uninitialized;
        state := state.(phase := Uninitialized, prepared := false);
      }
    }

    /** Handles a DoMoreStuff message; acted is whether onDoMoreStuff ran. The stamp as the
        program sees it is generation. */
    method OnDoMoreStuffMessage(generation: int32, ghost stamp: nat) returns (acted: bool)
      requires Valid() && Enabled(state, Deliver(stamp)) && generation as int == Wrap(stamp)
      modifies this`state
      ensures Valid() && state == Next(old(state), Deliver(stamp))
      ensures acted <==> ActsOn(old(state), stamp)
    {
      state := Next(state, Deliver(stamp));
      acted := generation == doMoreStuffGeneration;
    }
  }
}
