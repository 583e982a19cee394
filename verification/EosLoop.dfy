/** The main loop of decode in cmds/stagefright/codec.cpp: one codec for each selected track, fed from
    one extractor until its end, then told the end of its stream. The codecs answer as they like. */
module EosLoop {

  /** What a codec was given: a sample, by its number in the extractor's order, or the end. */
  datatype Item = Data(sample: nat) | Eos

  /** What a codec answers to a request for output. */
  datatype Output = Buffer(size: nat, eos: bool) | BuffersChanged | FormatChanged | TryAgain

  /** CodecState, with everything queued to the codec and everything drained from it. */
  datatype Track = Track(
    queued: seq<Item>,
    signalledInputEOS: bool,
    sawOutputEOS: bool,
    numBuffersDecoded: nat,
    numBytesDecoded: nat,
    drained: seq<Output>)

  /** The answers of the codecs in one iteration, by track: whether an input buffer is free, and the
      output. */
  datatype Answers = Answers(input: seq<bool>, output: seq<Output>)

  datatype State = State(next: nat, sawInputEOS: bool, tracks: seq<Track>, finished: bool)

  ghost predicate ForTracks(a: Answers, count: nat) { |a.input| == |a.output| == count }

  /** The track of every sample is selected. */
  ghost predicate Selected(samples: seq<nat>, count: nat) { forall t :: t in samples ==> t < count }

  // ---- One iteration ---------------------------------------------------------------------------

  function SignalEos(t: Track, free: bool): Track {
    if !t.signalledInputEOS && free then t.(queued := t.queued + [Eos], signalledInputEOS := true) else t
  }

  function QueueSample(t: Track, sample: nat): Track { t.(queued := t.queued + [Data(sample)]) }

  function Drain(t: Track, output: Output): Track {
    if t.sawOutputEOS || !output.Buffer? then t
    else t.(numBuffersDecoded := t.numBuffersDecoded + 1,
            numBytesDecoded := t.numBytesDecoded + output.size,
            drained := t.drained + [output],
            sawOutputEOS := output.eos)
  }

  predicate AllSawOutputEOS(tracks: seq<Track>) { forall i :: 0 <= i < |tracks| ==> tracks[i].sawOutputEOS }

  function Input(samples: seq<nat>, s: State, a: Answers): (r: State)
    requires Selected(samples, |s.tracks|) && ForTracks(a, |s.tracks|) && s.next <= |samples|
    ensures |r.tracks| == |s.tracks| && r.next <= |samples|
  {
    if s.sawInputEOS then
      s.(tracks := seq(|s.tracks|, i requires 0 <= i < |s.tracks| => SignalEos(s.tracks[i], a.input[i])))
    else if s.next == |samples| then
      s.(sawInputEOS := true)
    else
      var t := samples[s.next];
      assert t in samples;
      if a.input[t] then s.(next := s.next + 1, tracks := s.tracks[t := QueueSample(s.tracks[t], s.next)]) else s
  }

  function Round(samples: seq<nat>, s: State, a: Answers): (r: State)
    requires Selected(samples, |s.tracks|) && ForTracks(a, |s.tracks|) && s.next <= |samples|
    ensures |r.tracks| == |s.tracks| && r.next <= |samples|
  {
    var b := Input(samples, s, a);
    if AllSawOutputEOS(b.tracks) then b.(finished := true)
    else b.(tracks := seq(|b.tracks|, i requires 0 <= i < |b.tracks| => Drain(b.tracks[i], a.output[i])))
  }

  function Start(count: nat): State {
    State(0, false, seq(count, i => Track([], false, false, 0, 0, [])), false)
  }

  ghost predicate AnswersFor(answers: seq<Answers>, count: nat) {
    forall k :: 0 <= k < |answers| ==> ForTracks(answers[k], count)
  }

  /** The loop while the codecs give these answers. */
  function Run(samples: seq<nat>, count: nat, answers: seq<Answers>): (s: State)
    requires Selected(samples, count) && AnswersFor(answers, count)
    ensures |s.tracks| == count && s.next <= |samples|
  {
    if answers == [] then Start(count)
    else
      var before := Run(samples, count, answers[..|answers| - 1]);
      if before.finished then before else Round(samples, before, answers[|answers| - 1])
  }

  // ---- What every iteration keeps --------------------------------------------------------------

  /** The samples of a track among the first n, in order. */
  function SamplesOf(samples: seq<nat>, t: nat, n: nat): seq<Item>
    requires n <= |samples|
  {
    if n == 0 then []
    else SamplesOf(samples, t, n - 1) + (if samples[n - 1] == t then [Data(n - 1)] else [])
  }

  function Bytes(drained: seq<Output>): nat {
    if drained == [] then 0
    else Bytes(drained[..|drained| - 1]) + (if drained[|drained| - 1].Buffer? then drained[|drained| - 1].size else 0)
  }

  /** A codec was given each sample of its track read so far once and in order, and then at most one
      end; the counters are those of the buffers drained; nothing was drained after an end. */
  ghost predicate TrackInv(samples: seq<nat>, t: nat, next: nat, track: Track)
    requires next <= |samples|
  {
    && track.queued == SamplesOf(samples, t, next) + (if track.signalledInputEOS then [Eos] else [])
    && track.numBuffersDecoded == |track.drained| && track.numBytesDecoded == Bytes(track.drained)
    && (forall k :: 0 <= k < |track.drained| ==> track.drained[k].Buffer?)
    && (forall k :: 0 <= k < |track.drained| - 1 ==> !track.drained[k].eos)
    && (track.sawOutputEOS <==> track.drained != [] && track.drained[|track.drained| - 1].eos)
  }

  ghost predicate Inv(samples: seq<nat>, s: State) {
    && s.next <= |samples| && (s.sawInputEOS ==> s.next == |samples|)
    && (s.finished ==> AllSawOutputEOS(s.tracks))
    && forall t: nat :: t < |s.tracks| ==>
         TrackInv(samples, t, s.next, s.tracks[t]) && (s.tracks[t].signalledInputEOS ==> s.sawInputEOS)
  }

  lemma DrainKeeps(samples: seq<nat>, t: nat, next: nat, track: Track, output: Output)
    requires next <= |samples| && TrackInv(samples, t, next, track)
    ensures TrackInv(samples, t, next, Drain(track, output))
  {
    var after := Drain(track, output);
    if after != track {
      assert after.drained[..|track.drained|] == track.drained;
    }
  }

  lemma SignalKeeps(samples: seq<nat>, t: nat, next: nat, track: Track, free: bool)
    requires next <= |samples| && TrackInv(samples, t, next, track)
    ensures TrackInv(samples, t, next, SignalEos(track, free))
  {
  }

  lemma QueueKeeps(samples: seq<nat>, t: nat, next: nat, track: Track)
    requires next < |samples| && TrackInv(samples, t, next, track) && !track.signalledInputEOS
    ensures TrackInv(samples, t, next + 1, if samples[next] == t then QueueSample(track, next) else track)
  {
  }

  lemma InputKeeps(samples: seq<nat>, s: State, a: Answers)
    requires Selected(samples, |s.tracks|) && ForTracks(a, |s.tracks|) && Inv(samples, s)
    requires !s.finished
    ensures Inv(samples, Input(samples, s, a))
  {
    hide TrackInv, SignalEos;
    var b := Input(samples, s, a);
    forall t: nat | t < |s.tracks|
      ensures TrackInv(samples, t, b.next, b.tracks[t]) && (b.tracks[t].signalledInputEOS ==> b.sawInputEOS)
    {
      if s.sawInputEOS { SignalKeeps(samples, t, s.next, s.tracks[t], a.input[t]); }
      if !s.sawInputEOS && s.next < |samples| { QueueKeeps(samples, t, s.next, s.tracks[t]); }
    }
  }

  lemma RoundKeeps(samples: seq<nat>, s: State, a: Answers)
    requires Selected(samples, |s.tracks|) && ForTracks(a, |s.tracks|) && Inv(samples, s)
    requires !s.finished
    ensures Inv(samples, Round(samples, s, a))
  {
    hide TrackInv, Input;
    InputKeeps(samples, s, a);
    var b := Input(samples, s, a);
    forall t: nat | t < |s.tracks| ensures TrackInv(samples, t, b.next, Drain(b.tracks[t], a.output[t])) {
      DrainKeeps(samples, t, b.next, b.tracks[t], a.output[t]);
    }
  }

  /** Whatever the codecs answer, the invariant holds after every number of iterations; in particular
      the loop is left only when every track has reported the end of its output. */
  lemma {:induction false} InvOverRuns(samples: seq<nat>, count: nat, answers: seq<Answers>)
    requires Selected(samples, count) && AnswersFor(answers, count)
    ensures Inv(samples, Run(samples, count, answers))
  {
    hide Round, TrackInv;
    if answers == [] {
      StartInv(samples, count);
    } else {
      var before := Run(samples, count, answers[..|answers| - 1]);
      InvOverRuns(samples, count, answers[..|answers| - 1]);
      if !before.finished { RoundKeeps(samples, before, answers[|answers| - 1]); }
    }
  }

  lemma StartInv(samples: seq<nat>, count: nat)
    ensures Inv(samples, Start(count))
  {
  }

  // ---- When the loop is left ---------------------------------------------------------------------

  lemma {:induction false} NoEosAmongSamples(samples: seq<nat>, t: nat, n: nat)
    requires n <= |samples|
    ensures Eos !in SamplesOf(samples, t, n)
  {
    if n > 0 { NoEosAmongSamples(samples, t, n - 1); }
  }

  lemma TrackCompleteIff(samples: seq<nat>, s: State, t: nat)
    requires Inv(samples, s) && t < |s.tracks|
    ensures s.tracks[t].queued == SamplesOf(samples, t, |samples|) + [Eos] <==> s.tracks[t].signalledInputEOS
  {
    var queued := s.tracks[t].queued;
    assert TrackInv(samples, t, s.next, s.tracks[t]);
    NoEosAmongSamples(samples, t, s.next);
    var all := SamplesOf(samples, t, |samples|) + [Eos];
    assert all[|all| - 1] == Eos && Eos in all;
    assert SamplesOf(samples, t, s.next) + [] == SamplesOf(samples, t, s.next);
  }

  // The same from the codecs' answers alone, without the loop's flags.

  /** How many samples are read: each is read as soon as the codec of its track has an input buffer. */
  function Delivered(samples: seq<nat>, count: nat, answers: seq<Answers>): (n: nat)
    requires Selected(samples, count) && AnswersFor(answers, count)
    ensures n <= |samples|
  {
    if answers == [] then 0
    else
      var n := Delivered(samples, count, answers[..|answers| - 1]);
      if n == |samples| then n
      else
        assert samples[n] in samples;
        if answers[|answers| - 1].input[samples[n]] then n + 1 else n
  }

  ghost predicate EndsAt(answers: seq<Answers>, count: nat, k: nat, t: nat)
    requires AnswersFor(answers, count) && k < |answers| && t < count
  {
    answers[k].output[t].Buffer? && answers[k].output[t].eos
  }

  ghost predicate Ended(answers: seq<Answers>, count: nat, t: nat)
    requires AnswersFor(answers, count) && t < count
  {
    exists k: nat :: k < |answers| && EndsAt(answers, count, k, t)
  }

  ghost predicate AllEnded(answers: seq<Answers>, count: nat)
    requires AnswersFor(answers, count)
  {
    forall t: nat :: t < count ==> Ended(answers, count, t)
  }

  /** The exit test has succeeded: it comes before the output of its iteration is asked for. */
  ghost predicate Left(answers: seq<Answers>, count: nat)
    requires AnswersFor(answers, count)
  {
    answers != [] && AllEnded(answers[..|answers| - 1], count)
  }

  /** Iteration k takes place, the extractor was found at its end in an earlier one, and the codec of t
      has an input buffer. */
  ghost predicate TellsAt(samples: seq<nat>, count: nat, answers: seq<Answers>, k: nat, t: nat)
    requires Selected(samples, count) && AnswersFor(answers, count) && t < count
  {
    && 0 < k < |answers| && !Left(answers[..k], count)
    && Delivered(samples, count, answers[..k - 1]) == |samples|
    && answers[k].input[t]
  }

  /** The state told from the answers. */
  ghost predicate Answered(samples: seq<nat>, count: nat, answers: seq<Answers>, s: State)
    requires Selected(samples, count) && AnswersFor(answers, count) && |s.tracks| == count
  {
    && (s.finished <==> Left(answers, count))
    && (!s.finished ==> s.next == Delivered(samples, count, answers))
    && (!s.finished ==>
          (s.sawInputEOS <==> answers != [] && Delivered(samples, count, answers[..|answers| - 1]) == |samples|))
    && (!s.finished ==> forall t: nat :: t < count ==> (s.tracks[t].sawOutputEOS <==> Ended(answers, count, t)))
    && (forall t: nat :: t < count ==>
          (s.tracks[t].signalledInputEOS <==> exists k: nat :: TellsAt(samples, count, answers, k, t)))
  }

  lemma EndedSnoc(answers: seq<Answers>, count: nat, t: nat)
    requires AnswersFor(answers, count) && t < count && answers != []
    ensures Ended(answers, count, t) <==>
            Ended(answers[..|answers| - 1], count, t) || EndsAt(answers, count, |answers| - 1, t)
  {
    var init := answers[..|answers| - 1];
    if Ended(init, count, t) {
      var k: nat :| k < |init| && EndsAt(init, count, k, t);
      assert EndsAt(answers, count, k, t);
    }
    if Ended(answers, count, t) {
      var k: nat :| k < |answers| && EndsAt(answers, count, k, t);
      if k < |init| { assert EndsAt(init, count, k, t); }
    }
  }

  lemma LeftStays(answers: seq<Answers>, count: nat)
    requires AnswersFor(answers, count) && answers != [] && Left(answers[..|answers| - 1], count)
    ensures Left(answers, count)
  {
    var init := answers[..|answers| - 1];
    forall t: nat | t < count ensures Ended(init, count, t) { EndedSnoc(init, count, t); }
  }

  lemma TellsSnoc(samples: seq<nat>, count: nat, answers: seq<Answers>, t: nat)
    requires Selected(samples, count) && AnswersFor(answers, count) && t < count && answers != []
    ensures var init := answers[..|answers| - 1];
            (exists k: nat :: TellsAt(samples, count, answers, k, t)) <==>
            (exists k: nat :: TellsAt(samples, count, init, k, t)) || TellsAt(samples, count, answers, |init|, t)
  {
    hide Left, Delivered;
    var init := answers[..|answers| - 1];
    forall k: nat | k < |init|
      ensures TellsAt(samples, count, answers, k, t) <==> TellsAt(samples, count, init, k, t)
    {
      assert answers[..k] == init[..k];
      if k > 0 { assert answers[..k - 1] == init[..k - 1]; }
    }
  }

  lemma {:induction false} AnsweredOverRuns(samples: seq<nat>, count: nat, answers: seq<Answers>)
    requires Selected(samples, count) && AnswersFor(answers, count)
    ensures Answered(samples, count, answers, Run(samples, count, answers))
  {
    hide Answered, Round, Inv;
    if answers == [] {
      AnsweredStart(samples, count);
    } else {
      var init := answers[..|answers| - 1];
      AnsweredOverRuns(samples, count, init);
      InvOverRuns(samples, count, init);
      var before := Run(samples, count, init);
      if before.finished { AnsweredAfterExit(samples, count, answers, before); }
      else { AnsweredRound(samples, count, answers, before); }
    }
  }

  lemma AnsweredStart(samples: seq<nat>, count: nat)
    requires Selected(samples, count)
    ensures Answered(samples, count, [], Start(count))
  {
  }

  lemma AnsweredAfterExit(samples: seq<nat>, count: nat, answers: seq<Answers>, s: State)
    requires Selected(samples, count) && AnswersFor(answers, count) && answers != [] && |s.tracks| == count
    requires Answered(samples, count, answers[..|answers| - 1], s) && s.finished
    ensures Answered(samples, count, answers, s)
  {
    hide Left, Delivered;
    LeftStays(answers, count);
    forall t: nat | t < count
      ensures s.tracks[t].signalledInputEOS <==> exists k: nat :: TellsAt(samples, count, answers, k, t)
    {
      TellsSnoc(samples, count, answers, t);
    }
  }

  lemma AnsweredRound(samples: seq<nat>, count: nat, answers: seq<Answers>, s: State)
    requires Selected(samples, count) && AnswersFor(answers, count) && answers != [] && |s.tracks| == count
    requires Answered(samples, count, answers[..|answers| - 1], s) && !s.finished && Inv(samples, s)
    ensures Answered(samples, count, answers, Round(samples, s, answers[|answers| - 1]))
  {
    hide TellsAt, TrackInv, Ended, EndsAt;
    var init, a := answers[..|answers| - 1], answers[|answers| - 1];
    var b, r := Input(samples, s, a), Round(samples, s, a);
    forall t: nat | t < count
      ensures b.tracks[t].sawOutputEOS == s.tracks[t].sawOutputEOS
      ensures r.tracks[t].signalledInputEOS <==> exists k: nat :: TellsAt(samples, count, answers, k, t)
      ensures !r.finished ==> (r.tracks[t].sawOutputEOS <==> Ended(answers, count, t))
    {
      TellsSnoc(samples, count, answers, t);
      TellsNow(samples, count, answers, s, t);
      EndedSnoc(answers, count, t);
      EndsNow(answers, count, b.tracks[t], t);
    }
  }

  /** An iteration tells a codec of its end when it does, from the flags and from the answers. */
  lemma TellsNow(samples: seq<nat>, count: nat, answers: seq<Answers>, s: State, t: nat)
    requires Selected(samples, count) && AnswersFor(answers, count) && answers != [] && |s.tracks| == count && t < count
    requires Answered(samples, count, answers[..|answers| - 1], s) && !s.finished && s.next <= |samples|
    ensures Input(samples, s, answers[|answers| - 1]).tracks[t].signalledInputEOS <==>
            s.tracks[t].signalledInputEOS || TellsAt(samples, count, answers, |answers| - 1, t)
  {
    hide Left, Ended, EndsAt, Delivered;
    var n := |answers| - 1;
    if n > 0 { assert answers[..n][..n - 1] == answers[..n - 1]; }
  }

  lemma EndsNow(answers: seq<Answers>, count: nat, track: Track, t: nat)
    requires AnswersFor(answers, count) && answers != [] && t < count
    ensures Drain(track, answers[|answers| - 1].output[t]).sawOutputEOS <==>
            track.sawOutputEOS || EndsAt(answers, count, |answers| - 1, t)
  {
  }

  /** After every number of iterations, and so when the loop is left: a track was given all its samples
      once and in order and then one end exactly when, in some iteration up to the exit test, its codec
      had an input buffer after the end of the samples was found. So a codec that ends early, or one that
      frees no buffer while the others end, leaves its track incomplete. */
  lemma CompleteIff(samples: seq<nat>, count: nat, answers: seq<Answers>, t: nat)
    requires Selected(samples, count) && AnswersFor(answers, count) && t < count
    ensures Run(samples, count, answers).tracks[t].queued == SamplesOf(samples, t, |samples|) + [Eos]
            <==> exists k: nat :: TellsAt(samples, count, answers, k, t)
  {
    hide Run, Inv, TellsAt;
    InvOverRuns(samples, count, answers);
    AnsweredOverRuns(samples, count, answers);
    TrackCompleteIff(samples, Run(samples, count, answers), t);
  }

  /** And the loop is left exactly when every codec has reported its end in an earlier iteration. */
  lemma LeftIff(samples: seq<nat>, count: nat, answers: seq<Answers>)
    requires Selected(samples, count) && AnswersFor(answers, count)
    ensures Run(samples, count, answers).finished <==> Left(answers, count)
  {
    AnsweredOverRuns(samples, count, answers);
  }

  // ---- What is drained -----------------------------------------------------------------------------

  /** The output buffers that the codec of t answers with, in order. */
  function Buffers(answers: seq<Answers>, count: nat, t: nat): seq<Output>
    requires AnswersFor(answers, count) && t < count
  {
    if answers == [] then []
    else
      var o := answers[|answers| - 1].output[t];
      Buffers(answers[..|answers| - 1], count, t) + (if o.Buffer? then [o] else [])
  }

  /** Those up to the first that ends the output. */
  function ThroughEos(outputs: seq<Output>): seq<Output> {
    if outputs == [] then []
    else [outputs[0]] + (if outputs[0].Buffer? && outputs[0].eos then [] else ThroughEos(outputs[1..]))
  }

  ghost predicate HasEos(outputs: seq<Output>) {
    exists k :: 0 <= k < |outputs| && outputs[k].Buffer? && outputs[k].eos
  }

  lemma {:induction false} ThroughEosSnoc(outputs: seq<Output>, o: Output)
    ensures ThroughEos(outputs + [o]) == if HasEos(outputs) then ThroughEos(outputs) else ThroughEos(outputs) + [o]
  {
    if outputs != [] {
      assert (outputs + [o])[1..] == outputs[1..] + [o];
      var first := outputs[0];
      if !(first.Buffer? && first.eos) {
        ThroughEosSnoc(outputs[1..], o);
        if HasEos(outputs) {
          var k :| 0 <= k < |outputs| && outputs[k].Buffer? && outputs[k].eos;
          assert outputs[1..][k - 1] == outputs[k];
        }
        if HasEos(outputs[1..]) {
          var k :| 0 <= k < |outputs| - 1 && outputs[1..][k].Buffer? && outputs[1..][k].eos;
          assert outputs[k + 1] == outputs[1..][k];
        }
      }
    }
  }

  lemma HasEosSnoc(outputs: seq<Output>, o: Output)
    ensures HasEos(outputs + [o]) <==> HasEos(outputs) || (o.Buffer? && o.eos)
  {
    if HasEos(outputs) {
      var k :| 0 <= k < |outputs| && outputs[k].Buffer? && outputs[k].eos;
      assert (outputs + [o])[k] == outputs[k];
    }
    if o.Buffer? && o.eos { assert (outputs + [o])[|outputs|] == o; }
  }

  ghost predicate DrainedIs(track: Track, buffers: seq<Output>) {
    track.drained == ThroughEos(buffers) && (track.sawOutputEOS <==> HasEos(buffers))
  }

  lemma DrainStep(answers: seq<Answers>, count: nat, t: nat, track: Track)
    requires AnswersFor(answers, count) && answers != [] && t < count
    requires DrainedIs(track, Buffers(answers[..|answers| - 1], count, t))
    ensures DrainedIs(Drain(track, answers[|answers| - 1].output[t]), Buffers(answers, count, t))
    ensures track.sawOutputEOS ==> DrainedIs(track, Buffers(answers, count, t))
  {
    var before, o := Buffers(answers[..|answers| - 1], count, t), answers[|answers| - 1].output[t];
    if o.Buffer? {
      ThroughEosSnoc(before, o);
      HasEosSnoc(before, o);
    } else {
      assert before + [] == before;
    }
  }

  lemma InputKeepsDrained(samples: seq<nat>, s: State, a: Answers, t: nat)
    requires Selected(samples, |s.tracks|) && ForTracks(a, |s.tracks|) && s.next <= |samples| && t < |s.tracks|
    ensures var after := Input(samples, s, a).tracks[t];
            after.drained == s.tracks[t].drained && after.sawOutputEOS == s.tracks[t].sawOutputEOS
  {
  }

  lemma {:induction false} DrainedOverRuns(samples: seq<nat>, count: nat, answers: seq<Answers>, t: nat)
    requires Selected(samples, count) && AnswersFor(answers, count) && t < count
    ensures DrainedIs(Run(samples, count, answers).tracks[t], Buffers(answers, count, t))
  {
    if answers != [] {
      var init, a := answers[..|answers| - 1], answers[|answers| - 1];
      DrainedOverRuns(samples, count, init, t);
      InvOverRuns(samples, count, init);
      var before := Run(samples, count, init);
      hide DrainedIs, Drain, Input;
      DrainStep(answers, count, t, before.tracks[t]);
      if !before.finished {
        InputKeepsDrained(samples, before, a, t);
        var b := Input(samples, before, a).tracks[t];
        SameDrained(before.tracks[t], b, Buffers(init, count, t));
        DrainStep(answers, count, t, b);
      }
    }
  }

  lemma SameDrained(track: Track, other: Track, buffers: seq<Output>)
    requires DrainedIs(track, buffers)
    requires other.drained == track.drained && other.sawOutputEOS == track.sawOutputEOS
    ensures DrainedIs(other, buffers)
  {
  }

  /** For every run: what was drained from a track are the buffers its codec has answered with, in order,
      through the first that ends the output, and the counters are their number and their bytes. */
  lemma DecodedIs(samples: seq<nat>, count: nat, answers: seq<Answers>, t: nat)
    requires Selected(samples, count) && AnswersFor(answers, count) && t < count
    ensures var track, out := Run(samples, count, answers).tracks[t], ThroughEos(Buffers(answers, count, t));
            track.drained == out && track.numBuffersDecoded == |out| && track.numBytesDecoded == Bytes(out)
  {
    DrainedOverRuns(samples, count, answers, t);
    InvOverRuns(samples, count, answers);
  }

  // ---- Codecs that end after their input -----------------------------------------------------------

  /** No codec reports the end of its output in this iteration before it was told the end of its
      input. */
  ghost predicate EndsAfterInput(samples: seq<nat>, s: State, a: Answers)
    requires Selected(samples, |s.tracks|) && ForTracks(a, |s.tracks|) && s.next <= |samples|
  {
    var b := Input(samples, s, a);
    forall t: nat :: t < |s.tracks| && a.output[t].Buffer? && a.output[t].eos ==> b.tracks[t].signalledInputEOS
  }

  ghost predicate AllEndAfterInput(samples: seq<nat>, count: nat, answers: seq<Answers>)
    requires Selected(samples, count) && AnswersFor(answers, count)
  {
    answers == [] ||
    var init := answers[..|answers| - 1];
    AllEndAfterInput(samples, count, init) &&
    EndsAfterInput(samples, Run(samples, count, init), answers[|answers| - 1])
  }

  ghost predicate Told(s: State) {
    forall t: nat :: t < |s.tracks| && s.tracks[t].sawOutputEOS ==> s.tracks[t].signalledInputEOS
  }

  lemma {:induction false} ToldOverRuns(samples: seq<nat>, count: nat, answers: seq<Answers>)
    requires Selected(samples, count) && AnswersFor(answers, count) && AllEndAfterInput(samples, count, answers)
    ensures Told(Run(samples, count, answers))
  {
    if answers != [] {
      var init, a := answers[..|answers| - 1], answers[|answers| - 1];
      ToldOverRuns(samples, count, init);
      ToldStep(samples, Run(samples, count, init), a);
    }
  }

  lemma ToldStep(samples: seq<nat>, s: State, a: Answers)
    requires Selected(samples, |s.tracks|) && ForTracks(a, |s.tracks|) && s.next <= |samples|
    requires Told(s) && EndsAfterInput(samples, s, a)
    ensures Told(Round(samples, s, a))
  {
    var b := Input(samples, s, a);
    forall t: nat | t < |s.tracks| && b.tracks[t].sawOutputEOS ensures b.tracks[t].signalledInputEOS {
      assert s.tracks[t].sawOutputEOS;
    }
  }

  /** With such codecs, when the loop is left every track was given all its samples once and in order,
      and then exactly one end. */
  lemma CompleteWhenFinished(samples: seq<nat>, count: nat, answers: seq<Answers>, t: nat)
    requires Selected(samples, count) && AnswersFor(answers, count) && AllEndAfterInput(samples, count, answers)
    requires t < count && Run(samples, count, answers).finished
    ensures Run(samples, count, answers).tracks[t].queued == SamplesOf(samples, t, |samples|) + [Eos]
  {
    hide Run, AllEndAfterInput;
    InvOverRuns(samples, count, answers);
    TrackCompleteIff(samples, Run(samples, count, answers), t);
    ToldOverRuns(samples, count, answers);
    assert Run(samples, count, answers).tracks[t].sawOutputEOS;
  }

  /** A codec that ends by itself makes the loop stop with samples undelivered, and without ever being
      told the end of its input. */
  lemma EarlyEndStopsTheLoop(answers: seq<Answers>)
    requires answers == [Answers([true], [Buffer(5, true)]), Answers([false], [TryAgain])]
    ensures AnswersFor(answers, 1) && Selected([0, 0, 0], 1)
    ensures var s := Run([0, 0, 0], 1, answers);
            s.finished && s.tracks[0].queued == [Data(0)] && !s.tracks[0].signalledInputEOS
  {
    var samples := [0, 0, 0];
    var first := answers[..1];
    assert first[..0] == [] && answers[..1] == first;
    var s0 := Run(samples, 1, first[..0]);
    var s1 := Run(samples, 1, first);
    assert s1 == Round(samples, s0, answers[0]);
    assert s1.tracks[0].sawOutputEOS && s1.next == 1;
    assert Run(samples, 1, answers) == Round(samples, s1, answers[1]);
  }

  /** A free input buffer for every track, and the end of the output as soon as the end of the input
      was signalled. */
  ghost predicate Eager(samples: seq<nat>, s: State, a: Answers)
    requires Selected(samples, |s.tracks|) && ForTracks(a, |s.tracks|) && s.next <= |samples|
  {
    var b := Input(samples, s, a);
    forall t: nat :: t < |s.tracks| ==>
      a.input[t] && (b.tracks[t].signalledInputEOS ==> a.output[t].Buffer? && a.output[t].eos)
  }

  ghost predicate AllEager(samples: seq<nat>, count: nat, answers: seq<Answers>)
    requires Selected(samples, count) && AnswersFor(answers, count)
  {
    answers == [] ||
    var init := answers[..|answers| - 1];
    AllEager(samples, count, init) && Eager(samples, Run(samples, count, init), answers[|answers| - 1])
  }

  /** How far the loop is at least after k iterations with eager codecs. */
  ghost predicate Reached(samples: seq<nat>, s: State, k: nat) {
    s.finished ||
    if k <= |samples| then s.next == k && !s.sawInputEOS
    else
      && s.sawInputEOS && k <= |samples| + 2
      && (k == |samples| + 2 ==> AllSawOutputEOS(s.tracks))
  }

  lemma EagerStep(samples: seq<nat>, s: State, a: Answers, k: nat)
    requires Selected(samples, |s.tracks|) && ForTracks(a, |s.tracks|) && s.next <= |samples|
    requires Reached(samples, s, k) && !s.finished && Eager(samples, s, a)
    ensures Reached(samples, Round(samples, s, a), k + 1)
  {
    if k < |samples| { assert samples[s.next] in samples; }
    if k == |samples| + 1 {
      var b := Input(samples, s, a);
      forall t: nat | t < |s.tracks| ensures b.tracks[t].signalledInputEOS { assert a.input[t]; }
    }
  }

  lemma {:induction false} EagerReach(samples: seq<nat>, count: nat, answers: seq<Answers>)
    requires Selected(samples, count) && AnswersFor(answers, count) && AllEager(samples, count, answers)
    ensures Reached(samples, Run(samples, count, answers), |answers|)
  {
    hide Round, Eager;
    if answers != [] {
      var init := answers[..|answers| - 1];
      var before := Run(samples, count, init);
      EagerReach(samples, count, init);
      if !before.finished { EagerStep(samples, before, answers[|answers| - 1], |init|); }
    }
  }

  /** With eager codecs the loop is left after at most three iterations more than there are samples. */
  lemma EagerCodecsFinish(samples: seq<nat>, count: nat, answers: seq<Answers>)
    requires Selected(samples, count) && AnswersFor(answers, count) && AllEager(samples, count, answers)
    requires |answers| >= |samples| + 3
    ensures Run(samples, count, answers).finished
  {
    EagerReach(samples, count, answers);
  }

  // ---- The method ------------------------------------------------------------------------------

  /** decode, until the loop is left or the list of answers is used up. */
  method Decode(samples: seq<nat>, count: nat, answers: seq<Answers>)
    returns (next: nat, sawInputEOS: bool, finished: bool, tracks: seq<Track>)
    requires Selected(samples, count) && AnswersFor(answers, count)
    ensures State(next, sawInputEOS, tracks, finished) == Run(samples, count, answers)
    ensures Inv(samples, State(next, sawInputEOS, tracks, finished))
    ensures forall t: nat :: t < count ==>
              var out := ThroughEos(Buffers(answers, count, t));
              && tracks[t].drained == out
              && tracks[t].numBuffersDecoded == |out| && tracks[t].numBytesDecoded == Bytes(out)
  {
    hide Round, Inv, Bytes;
    var state := new Track[count](i => Track([], false, false, 0, 0, []));
    next, sawInputEOS, finished := 0, false, false;
    var k := 0;
    assert state[..] == Start(count).tracks;
    assert answers[..0] == [];
    while k < |answers| && !finished
      invariant 0 <= k <= |answers|
      invariant State(next, sawInputEOS, state[..], finished) == Run(samples, count, answers[..k])
    {
      assert answers[..k + 1][..k] == answers[..k];
      next, sawInputEOS, finished := Iterate(samples, next, sawInputEOS, state, answers[k]);
      k := k + 1;
    }
    tracks := state[..];
    RunStops(samples, count, answers, k);
    InvOverRuns(samples, count, answers);
    forall t: nat | t < count
      ensures var out := ThroughEos(Buffers(answers, count, t));
              && tracks[t].drained == out
              && tracks[t].numBuffersDecoded == |out| && tracks[t].numBytesDecoded == Bytes(out)
    {
      DecodedIs(samples, count, answers, t);
    }
  }

  lemma {:induction false} RunStops(samples: seq<nat>, count: nat, answers: seq<Answers>, k: nat)
    requires Selected(samples, count) && AnswersFor(answers, count) && k <= |answers|
    requires k < |answers| ==> Run(samples, count, answers[..k]).finished
    ensures Run(samples, count, answers) == Run(samples, count, answers[..k])
  {
    if k < |answers| {
      var init := answers[..|answers| - 1];
      assert init[..k] == answers[..k];
      RunStops(samples, count, init, k);
    } else {
      assert answers[..k] == answers;
    }
  }

  /** One iteration of the loop. */
  method Iterate(samples: seq<nat>, oldNext: nat, oldSawInputEOS: bool, state: array<Track>, a: Answers)
    returns (next: nat, sawInputEOS: bool, finished: bool)
    requires Selected(samples, state.Length) && ForTracks(a, state.Length) && oldNext <= |samples|
    modifies state
    ensures State(next, sawInputEOS, state[..], finished) ==
            Round(samples, State(oldNext, oldSawInputEOS, old(state[..]), false), a)
  {
    next, sawInputEOS := FeedInput(samples, oldNext, oldSawInputEOS, state, a);
    ghost var b := Input(samples, State(oldNext, oldSawInputEOS, old(state[..]), false), a);
    finished := true;
    for i := 0 to state.Length
      invariant finished && forall j :: 0 <= j < i ==> state[j].sawOutputEOS
    {
      if !state[i].sawOutputEOS {
        finished := false;
        break;
      }
    }
    assert finished <==> AllSawOutputEOS(b.tracks);
    if finished { return; }
    for i := 0 to state.Length
      invariant forall j :: 0 <= j < i ==> state[j] == Drain(b.tracks[j], a.output[j])
      invariant forall j :: i <= j < state.Length ==> state[j] == b.tracks[j]
    {
      state[i] := Drain(state[i], a.output[i]);
    }
    assert state[..] == Round(samples, State(oldNext, oldSawInputEOS, old(state[..]), false), a).tracks;
  }

  method FeedInput(samples: seq<nat>, oldNext: nat, oldSawInputEOS: bool, state: array<Track>, a: Answers)
    returns (next: nat, sawInputEOS: bool)
    requires Selected(samples, state.Length) && ForTracks(a, state.Length) && oldNext <= |samples|
    modifies state
    ensures State(next, sawInputEOS, state[..], false) ==
            Input(samples, State(oldNext, oldSawInputEOS, old(state[..]), false), a)
  {
    next, sawInputEOS := oldNext, oldSawInputEOS;
    if !sawInputEOS {
      if next == |samples| {
        sawInputEOS := true;
      } else {
        var t := samples[next];
        assert t in samples;
        if a.input[t] {
          state[t] := QueueSample(state[t], next);
          next := next + 1;
        }
      }
    } else {
      for i := 0 to state.Length
        invariant forall j :: 0 <= j < i ==> state[j] == SignalEos(old(state[j]), a.input[j])
        invariant forall j :: i <= j < state.Length ==> state[j] == old(state[j])
      {
        if !state[i].signalledInputEOS && a.input[i] {
          state[i] := state[i].(queued := state[i].queued + [Eos], signalledInputEOS := true);
        }
      }
      assert state[..] == Input(samples, State(oldNext, oldSawInputEOS, old(state[..]), false), a).tracks;
    }
  }
}
