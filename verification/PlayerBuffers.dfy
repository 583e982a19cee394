/** onDoMoreStuff of cmds/stagefright/SimplePlayer.cpp: buffers travel between each track's codec
    and the player's two lists, samples travel from the extractor to the codecs, and decoded
    buffers are dropped, rendered or kept for later. */
module PlayerBuffers {
  import opened Sequences
  import AudioRing

  /** Which decoded buffer it is, and when it is to be presented. */
  datatype Ticket = Ticket(index: nat, timeUs: int)

  /** The part of a decoded buffer that is still to be rendered: all of it when the codec offers it. */
  datatype BufferInfo = BufferInfo(ticket: Ticket, offset: nat, size: nat)

  /** A decoded buffer going back to its codec; left is the part of it never written to audio. */
  datatype Release = Release(ticket: Ticket, left: nat, lateUs: int, dropped: bool)

  /** Bytes given to the audio track: of the nth buffer offered, from this position on. */
  datatype Write = Write(nth: nat, from: nat, size: nat)

  datatype Sink = NoAudio | Audio(ring: AudioRing.Ring)

  datatype Track = Track(
    availInput: seq<nat>,            // mAvailInputBufferIndices
    availOutput: seq<BufferInfo>,    // mAvailOutputBufferInfos
    sink: Sink,                      // mAudioTrack
    inputs: set<nat>, inCodec: set<nat>,      // all input buffers; those the codec owns
    outputs: set<nat>, outCodec: set<nat>,    // the same for output buffers
    dequeued: seq<BufferInfo>,       // every output buffer as the codec has offered it
    released: seq<Release>,          // every one handed back
    writes: seq<Write>)              // everything given to the audio tracks

  datatype Sample = Sample(track: nat, timeUs: int, data: seq<bv8>)

  /** A sample queued with the codec of its track. */
  datatype Fed = Fed(sample: Sample, index: nat)

  /** What dequeueOutputBuffer reports, until it reports that there is nothing left. */
  datatype Output =
    | Buffer(info: BufferInfo)
    | FormatChanged(audio: bool, frameCount: nat, frameSize: nat)
    | BuffersChanged

  /** What one track's codec offers during one call of onDoMoreStuff. */
  datatype Offer = Offer(inputs: seq<nat>, outputs: seq<Output>)

  // ---- Ownership -----------------------------------------------------------------------------

  function Indices(s: seq<BufferInfo>): seq<nat> { seq(|s|, k requires 0 <= k < |s| => s[k].ticket.index) }

  /** How many bytes of the nth buffer these are. */
  function Heard(writes: seq<Write>, nth: nat): nat {
    if writes == [] then 0
    else
      var w := writes[|writes| - 1];
      Heard(writes[..|writes| - 1], nth) + (if w.nth == nth then w.size else 0)
  }

  function Total(writes: seq<Write>): nat {
    if writes == [] then 0 else Total(writes[..|writes| - 1]) + writes[|writes| - 1].size
  }

  /** Every input buffer is owned by exactly one of the codec and the list. */
  ghost predicate InputsOwned(t: Track) {
    NoRepeats(t.availInput) && t.inCodec !! Elements(t.availInput) && t.inCodec + Elements(t.availInput) == t.inputs
  }

  /** The same for output buffers. */
  ghost predicate OutputsOwned(t: Track) {
    && NoRepeats(Indices(t.availOutput))
    && t.outCodec !! Elements(Indices(t.availOutput))
    && t.outCodec + Elements(Indices(t.availOutput)) == t.outputs
  }

  /** What is listed of a buffer after that many bytes of it have been written: the rest. */
  predicate IsRest(info: BufferInfo, offered: BufferInfo, heard: nat) {
    && info.ticket == offered.ticket && heard <= offered.size
    && info.offset == offered.offset + heard && info.size == offered.size - heard
  }

  /** Every buffer offered is handed back exactly once, in the order offered, or still listed. What was
      written of it and what was left add up to its size. */
  ghost predicate InOrder(t: Track) {
    && |t.dequeued| == |t.released| + |t.availOutput|
    && (forall k: nat :: k < |t.released| ==>
          t.released[k].ticket == t.dequeued[k].ticket && Heard(t.writes, k) + t.released[k].left == t.dequeued[k].size)
    && (forall k: nat :: k < |t.availOutput| ==>
          IsRest(t.availOutput[k], t.dequeued[|t.released| + k], Heard(t.writes, |t.released| + k)))
  }

  /** The bytes of each buffer are written once and in order, from the offset offered on, and those of one
      buffer after those of the buffers before it. */
  ghost predicate Consecutive(t: Track) {
    && (forall j: nat :: j < |t.writes| ==>
          && t.writes[j].nth < |t.dequeued| && t.writes[j].nth <= |t.released| && t.writes[j].size > 0
          && t.writes[j].from == t.dequeued[t.writes[j].nth].offset + Heard(t.writes[..j], t.writes[j].nth))
    && (forall i: nat, j: nat :: i < j < |t.writes| ==> t.writes[i].nth <= t.writes[j].nth)
  }

  ghost predicate TrackInv(t: Track) {
    && InputsOwned(t) && OutputsOwned(t) && InOrder(t) && Consecutive(t)
    && (t.sink.Audio? ==> AudioRing.Valid(t.sink.ring))
  }

  /** A codec offers only buffers it owns, each once, and audio tracks start out empty. */
  ghost predicate Fair(t: Track, o: Offer) {
    && NoRepeats(o.inputs) && Elements(o.inputs) <= t.inCodec
    && FairOutputs(t, o.outputs)
  }

  ghost predicate FairOutputs(t: Track, outputs: seq<Output>) {
    && (forall k :: 0 <= k < |outputs| && outputs[k].Buffer? ==> outputs[k].info.ticket.index in t.outCodec)
    && (forall j, k :: 0 <= j < k < |outputs| && outputs[j].Buffer? && outputs[k].Buffer? ==>
          outputs[j].info.ticket.index != outputs[k].info.ticket.index)
    && (forall k :: 0 <= k < |outputs| && outputs[k].FormatChanged? ==>
          0 < outputs[k].frameSize && outputs[k].frameCount < 0x1_0000_0000)
  }

  function OfferedBuffers(outputs: seq<Output>): seq<BufferInfo> {
    if outputs == [] then []
    else
      var o := outputs[|outputs| - 1];
      OfferedBuffers(outputs[..|outputs| - 1]) + (if o.Buffer? then [o.info] else [])
  }

  predicate NewTrack(o: Output) { o.FormatChanged? && o.audio }

  /** The audio track is the one made for the last audio format reported, empty and with its counters at
      zero, or the one there was. */
  ghost predicate SinkTold(before: Sink, outputs: seq<Output>, after: Sink) {
    || (after == before && forall k :: 0 <= k < |outputs| ==> !NewTrack(outputs[k]))
    || exists k :: 0 <= k < |outputs| && IsLastTrack(outputs, k)
                   && after == Audio(AudioRing.Ring(outputs[k].frameCount, outputs[k].frameSize, 0, 0, 0, 0))
  }

  ghost predicate IsLastTrack(outputs: seq<Output>, k: nat)
    requires k < |outputs|
  {
    NewTrack(outputs[k]) && forall j :: k < j < |outputs| ==> !NewTrack(outputs[j])
  }

  lemma SinkSnoc(before: Sink, outputs: seq<Output>, o: Output, sink: Sink)
    requires SinkTold(before, outputs, sink)
    ensures SinkTold(before, outputs + [o],
                     if NewTrack(o) then Audio(AudioRing.Ring(o.frameCount, o.frameSize, 0, 0, 0, 0)) else sink)
  {
    var more := outputs + [o];
    if NewTrack(o) {
      assert IsLastTrack(more, |outputs|);
    } else if k: nat :| k < |outputs| && IsLastTrack(outputs, k)
                        && sink == Audio(AudioRing.Ring(outputs[k].frameCount, outputs[k].frameSize, 0, 0, 0, 0)) {
      assert more[k] == outputs[k];
      assert IsLastTrack(more, k);
    }
  }

  /** No buffer appeared or disappeared. */
  ghost predicate SameBuffers(before: Track, after: Track) {
    after.inputs == before.inputs && after.outputs == before.outputs
  }

  /** What listing the offers of a codec does to a track. */
  ghost predicate Collected(before: Track, after: Track, offer: Offer) {
    && SameBuffers(before, after)
    && after.availInput == before.availInput + offer.inputs
    && after.dequeued == before.dequeued + OfferedBuffers(offer.outputs)
    && after.released == before.released && after.writes == before.writes
    && SinkTold(before.sink, offer.outputs, after.sink)
  }

  // ---- Steps on one track ----------------------------------------------------------------------

  function TakeInput(t: Track, index: nat): Track {
    t.(availInput := t.availInput + [index], inCodec := t.inCodec - {index})
  }

  lemma TakeInputStep(t: Track, index: nat)
    requires TrackInv(t) && index in t.inCodec
    ensures TrackInv(TakeInput(t, index))
    ensures Elements(TakeInput(t, index).availInput) == Elements(t.availInput) + {index}
  {
  }

  function FeedInput(t: Track): Track
    requires t.availInput != []
  {
    t.(availInput := t.availInput[1..], inCodec := t.inCodec + {t.availInput[0]})
  }

  /** Nothing but the input list and its counterpart at the codec differs. */
  ghost predicate OnlyFed(before: Track, after: Track) {
    after == before.(availInput := after.availInput, inCodec := after.inCodec)
  }

  lemma FeedInputStep(t: Track)
    requires TrackInv(t) && t.availInput != []
    ensures TrackInv(FeedInput(t)) && t.availInput[0] !in t.inCodec
    ensures t.availInput == [t.availInput[0]] + FeedInput(t).availInput
    ensures FeedInput(t).inCodec == t.inCodec + {t.availInput[0]}
  {
    assert t.availInput == [t.availInput[0]] + t.availInput[1..];
    assert t.availInput[0] in t.availInput;
  }

  function TakeOutput(t: Track, o: Output): Track {
    match o
    case Buffer(info) =>
      t.(availOutput := t.availOutput + [info], outCodec := t.outCodec - {info.ticket.index},
         dequeued := t.dequeued + [info])
    case FormatChanged(audio, frameCount, frameSize) =>
      if audio then t.(sink := Audio(AudioRing.New(frameCount, frameSize))) else t
    case BuffersChanged => t
  }

  lemma {:induction false} HeardNone(writes: seq<Write>, nth: nat)
    requires forall j: nat :: j < |writes| ==> writes[j].nth != nth
    ensures Heard(writes, nth) == 0
  {
    if writes != [] { HeardNone(writes[..|writes| - 1], nth); }
  }

  lemma TakeOutputStep(t: Track, o: Output)
    requires TrackInv(t) && FairOutputs(t, [o])
    ensures TrackInv(TakeOutput(t, o))
  {
    assert [o][0] == o;
    hide InOrder, Consecutive, InputsOwned;
    var u := TakeOutput(t, o);
    if !o.Buffer? {
      SameOrder(t, u);
    } else {
      SameInputs(t, u);
      var i := o.info.ticket.index;
      assert u.availOutput[..|t.availOutput|] == t.availOutput;
      assert Indices(u.availOutput) == Indices(t.availOutput) + [i];
      assert Elements(Indices(u.availOutput)) == Elements(Indices(t.availOutput)) + {i};
      TakeOutputInOrder(t, u, o.info);
    }
  }

  lemma SameOrder(t: Track, u: Track)
    requires u == t.(sink := u.sink)
    ensures InOrder(t) ==> InOrder(u)
    ensures Consecutive(t) ==> Consecutive(u)
    ensures InputsOwned(t) ==> InputsOwned(u)
  {
  }

  lemma SameInputs(t: Track, u: Track)
    requires u.availInput == t.availInput && u.inCodec == t.inCodec && u.inputs == t.inputs
    ensures InputsOwned(t) ==> InputsOwned(u)
  {
  }

  lemma TakeOutputInOrder(t: Track, u: Track, info: BufferInfo)
    requires InOrder(t) && Consecutive(t) && u.writes == t.writes && u.released == t.released
    requires u.dequeued == t.dequeued + [info] && u.availOutput == t.availOutput + [info]
    ensures InOrder(u) && Consecutive(u)
  {
    hide Heard;
    HeardNone(t.writes, |t.dequeued|);
    forall k: nat | k < |u.availOutput|
      ensures IsRest(u.availOutput[k], u.dequeued[|u.released| + k], Heard(u.writes, |u.released| + k))
    {
      if k < |t.availOutput| {
        assert IsRest(t.availOutput[k], t.dequeued[|t.released| + k], Heard(t.writes, |t.released| + k));
      }
    }
  }

  /** The first listed output buffer goes back to the codec. */
  function GiveBack(t: Track, lateUs: int, dropped: bool): Track
    requires t.availOutput != []
  {
    var info := t.availOutput[0];
    t.(availOutput := t.availOutput[1..], outCodec := t.outCodec + {info.ticket.index},
       released := t.released + [Release(info.ticket, info.size, lateUs, dropped)])
  }

  lemma GiveBackStep(t: Track, lateUs: int, dropped: bool)
    requires TrackInv(t) && t.availOutput != []
    ensures TrackInv(GiveBack(t, lateUs, dropped)) && t.availOutput[0].ticket.index !in t.outCodec
  {
    var u := GiveBack(t, lateUs, dropped);
    var info := t.availOutput[0];
    assert Indices(t.availOutput) == [info.ticket.index] + Indices(u.availOutput);
    assert Indices(t.availOutput)[0] == info.ticket.index;
    assert forall k :: 0 <= k < |Indices(u.availOutput)| ==> Indices(u.availOutput)[k] == Indices(t.availOutput)[k + 1];
    assert Elements(Indices(t.availOutput)) == {info.ticket.index} + Elements(Indices(u.availOutput));
    GiveBackInOrder(t, lateUs, dropped);
  }

  lemma GiveBackInOrder(t: Track, lateUs: int, dropped: bool)
    requires InOrder(t) && t.availOutput != []
    ensures InOrder(GiveBack(t, lateUs, dropped))
  {
    var u := GiveBack(t, lateUs, dropped);
    var n := |t.released|;
    assert IsRest(t.availOutput[0], t.dequeued[n + 0], Heard(t.writes, n + 0));
    forall k: nat | k < |u.availOutput|
      ensures IsRest(u.availOutput[k], u.dequeued[|u.released| + k], Heard(u.writes, |u.released| + k))
    {
      assert IsRest(t.availOutput[k + 1], t.dequeued[n + (k + 1)], Heard(t.writes, n + (k + 1)));
    }
  }

  /** renderAudio on the first listed buffer: as many bytes as fit are written. */
  function PlayHead(t: Track): Track
    requires t.availOutput != [] && t.sink.Audio? && AudioRing.Valid(t.sink.ring)
    requires AudioRing.Passes(t.sink.ring, t.availOutput[0].size)
  {
    var info := t.availOutput[0];
    var copy := AudioRing.Copied(t.sink.ring, info.size);
    t.(availOutput := t.availOutput[0 := info.(offset := info.offset + copy, size := info.size - copy)],
       sink := Audio(AudioRing.RenderNext(t.sink.ring, info.size)),
       writes := t.writes + (if copy > 0 then [Write(|t.released|, info.offset, copy)] else []))
  }

  lemma HeardSnoc(writes: seq<Write>, w: Write, nth: nat)
    ensures Heard(writes + [w], nth) == Heard(writes, nth) + (if w.nth == nth then w.size else 0)
    ensures Total(writes + [w]) == Total(writes) + w.size
  {
    assert (writes + [w])[..|writes|] == writes;
  }

  lemma PlayHeadInOrder(t: Track)
    requires TrackInv(t) && t.availOutput != [] && t.sink.Audio?
    requires AudioRing.Passes(t.sink.ring, t.availOutput[0].size)
    ensures InOrder(PlayHead(t)) && Consecutive(PlayHead(t))
  {
    hide AudioRing.Passes, AudioRing.Copied, AudioRing.RenderNext, Heard, InputsOwned, OutputsOwned;
    var u, n := PlayHead(t), |t.released|;
    var info, copy := t.availOutput[0], AudioRing.Copied(t.sink.ring, t.availOutput[0].size);
    assert IsRest(info, t.dequeued[n + 0], Heard(t.writes, n + 0));
    if copy > 0 {
      var w := Write(n, info.offset, copy);
      forall k: nat ensures Heard(u.writes, k) == Heard(t.writes, k) + (if n == k then copy else 0) {
        HeardSnoc(t.writes, w, k);
      }
      WriteKeepsOrder(t, u, w);
    } else {
      assert u.writes == t.writes;
    }
    assert IsRest(u.availOutput[0], u.dequeued[n + 0], Heard(u.writes, n + 0));
  }

  lemma WriteKeepsOrder(t: Track, u: Track, w: Write)
    requires Consecutive(t) && u.writes == t.writes + [w] && u.dequeued == t.dequeued && u.released == t.released
    requires w.nth == |t.released| < |t.dequeued| && w.size > 0
    requires w.from == t.dequeued[w.nth].offset + Heard(t.writes, w.nth)
    ensures Consecutive(u)
  {
    forall j: nat | j < |u.writes|
      ensures u.writes[j].nth < |u.dequeued| && u.writes[j].nth <= |u.released| && u.writes[j].size > 0
      ensures u.writes[j].from == u.dequeued[u.writes[j].nth].offset + Heard(u.writes[..j], u.writes[j].nth)
    {
      assert u.writes[..j] == t.writes[..j];
      assert t.writes[..|t.writes|] == t.writes;
    }
  }

  lemma PlayHeadStep(t: Track)
    requires TrackInv(t) && t.availOutput != [] && t.sink.Audio?
    requires AudioRing.Passes(t.sink.ring, t.availOutput[0].size)
    ensures TrackInv(PlayHead(t)) && SinkKept(t, PlayHead(t))
    // What is left of the buffer is left because the audio track is full.
    ensures PlayHead(t).availOutput[0].size > 0 ==> AudioRing.Space(PlayHead(t).sink.ring) == 0
  {
    var u := PlayHead(t);
    AudioRing.RenderStep(t.sink.ring, t.availOutput[0].size);
    AudioRing.FullAfterPartial(t.sink.ring, t.availOutput[0].size);
    assert Indices(u.availOutput) == Indices(t.availOutput);
    PlayHeadInOrder(t);
    PlayHeadSink(t);
  }

  lemma PlayHeadSink(t: Track)
    requires t.availOutput != [] && t.sink.Audio? && AudioRing.Valid(t.sink.ring)
    requires AudioRing.Passes(t.sink.ring, t.availOutput[0].size)
    ensures SinkKept(t, PlayHead(t))
  {
    hide AudioRing.Passes, AudioRing.Copied;
    var info, copy := t.availOutput[0], AudioRing.Copied(t.sink.ring, t.availOutput[0].size);
    if copy > 0 {
      HeardSnoc(t.writes, Write(|t.released|, info.offset, copy), 0);
    } else {
      assert PlayHead(t).writes == t.writes;
    }
  }

  /** The audio track is the same one, and the bytes it took in between are those written. */
  ghost predicate SinkKept(before: Track, after: Track) {
    && before.writes <= after.writes && (before.sink.Audio? <==> after.sink.Audio?)
    && (before.sink.NoAudio? ==> after.writes == before.writes)
    && (before.sink.Audio? ==>
          && after.sink.ring.frameCount == before.sink.ring.frameCount
          && after.sink.ring.frameSize == before.sink.ring.frameSize
          && after.sink.ring.bytes - before.sink.ring.bytes == Total(after.writes) - Total(before.writes))
  }

  // ---- The object ------------------------------------------------------------------------------

  const EARLY_US := -10000
  const LATE_US := 30000
  const START_DELAY_US := 1000000

  function LateBy(ticket: Ticket, nowUs: int, startUs: int): int { nowUs - (ticket.timeUs + startUs) }

  /** Whether a release made at nowUs is the one the source makes: late buffers are dropped, the
      others are rendered, and audio is released only when all of it has been written. */
  ghost predicate ProperRelease(r: Release, t: Track, nowUs: int, startUs: int) {
    && r.lateUs == LateBy(r.ticket, nowUs, startUs) > EARLY_US
    && (r.dropped <==> r.lateUs > LATE_US)
    && (!r.dropped && t.sink.Audio? ==> r.left == 0)
  }

  /** What was handed back between two moments was handed back properly. */
  ghost predicate ReleasedProperly(before: Track, after: Track, nowUs: int, startUs: int) {
    && before.released <= after.released
    && forall k :: |before.released| <= k < |after.released| ==> ProperRelease(after.released[k], after, nowUs, startUs)
  }

  /** What rendering does to a track: no buffer is lost, nothing more is offered, and what goes back goes
      back properly. */
  ghost predicate Rendered(before: Track, after: Track, nowUs: int, startUs: int) {
    && SameBuffers(before, after)
    && after.dequeued == before.dequeued && after.availInput == before.availInput && after.inCodec == before.inCodec
    && SinkKept(before, after)
    && ReleasedProperly(before, after, nowUs, startUs)
  }

  /** So a buffer goes back only later than 10 ms before its time, and dropped exactly when later than 30 ms
      after it. */
  lemma ReleaseTimes(before: Track, after: Track, nowUs: int, startUs: int, k: nat)
    requires ReleasedProperly(before, after, nowUs, startUs) && |before.released| <= k < |after.released|
    ensures var r := after.released[k];
            var whenUs := startUs + r.ticket.timeUs;
            whenUs - 10_000 < nowUs && (r.dropped <==> whenUs + 30_000 < nowUs)
  {
    assert ProperRelease(after.released[k], after, nowUs, startUs);
  }

  /** The first buffer is due, and renderAudio's CHECK on writing it fails: it ends in a partial frame for
      which there is room. The process ends there. */
  ghost predicate FailsCheck(t: Track, nowUs: int, startUs: int) {
    && t.availOutput != [] && t.sink.Audio? && AudioRing.Valid(t.sink.ring)
    && EARLY_US < LateBy(t.availOutput[0].ticket, nowUs, startUs) <= LATE_US
    && t.availOutput[0].size % t.sink.ring.frameSize != 0
    && t.availOutput[0].size < AudioRing.Space(t.sink.ring) * t.sink.ring.frameSize
  }

  /** Every listed buffer of an audio track holds whole frames. */
  ghost predicate WholeFrames(t: Track) {
    t.sink.Audio? ==>
      && 0 < t.sink.ring.frameSize
      && forall k :: 0 <= k < |t.availOutput| ==> t.availOutput[k].size % t.sink.ring.frameSize == 0
  }

  lemma WholeFramesDoNotFail(t: Track, nowUs: int, startUs: int)
    requires WholeFrames(t)
    ensures !FailsCheck(t, nowUs, startUs)
  {
  }

  lemma WholeFramesPlayed(t: Track)
    requires TrackInv(t) && t.availOutput != [] && t.sink.Audio? && WholeFrames(t)
    ensures AudioRing.Passes(t.sink.ring, t.availOutput[0].size) && WholeFrames(PlayHead(t))
  {
    hide AudioRing.Passes, AudioRing.Copied;
    AudioRing.RestIsWhole(t.sink.ring, t.availOutput[0].size);
  }

  /** Why rendering stops: nothing is listed, the first buffer is early, or it waits for space in
      the audio track. */
  ghost predicate Rests(t: Track, nowUs: int, startUs: int) {
    || t.availOutput == []
    || LateBy(t.availOutput[0].ticket, nowUs, startUs) <= EARLY_US
    || (&& LateBy(t.availOutput[0].ticket, nowUs, startUs) <= LATE_US
        && t.availOutput[0].size > 0 && t.sink.Audio? && AudioRing.Space(t.sink.ring) == 0)
  }

  function TotalAvail(tracks: seq<Track>): nat {
    if tracks == [] then 0 else TotalAvail(tracks[..|tracks| - 1]) + |tracks[|tracks| - 1].availInput|
  }

  lemma {:induction false} TotalAvailUpdate(tracks: seq<Track>, i: nat, t: Track)
    requires i < |tracks|
    ensures TotalAvail(tracks[i := t]) == TotalAvail(tracks) - |tracks[i].availInput| + |t.availInput|
    decreases |tracks|
  {
    var n := |tracks|;
    if i == n - 1 {
      assert tracks[i := t][..n - 1] == tracks[..n - 1];
    } else {
      TotalAvailUpdate(tracks[..n - 1], i, t);
      assert tracks[i := t][..n - 1] == tracks[..n - 1][i := t];
    }
  }

  /** The input buffers that track i's samples were put in, in order. */
  function FedTo(fed: seq<Fed>, i: nat): seq<nat> {
    if fed == [] then []
    else
      var f := fed[|fed| - 1];
      FedTo(fed[..|fed| - 1], i) + (if f.sample.track == i then [f.index] else [])
  }

  lemma FedSnoc(fed: seq<Fed>, f: Fed, i: nat)
    ensures FedTo(fed + [f], i) == FedTo(fed, i) + (if f.sample.track == i then [f.index] else [])
  {
    assert (fed + [f])[..|fed|] == fed;
  }

  lemma FedNothing(fed: seq<Fed>)
    requires fed == []
    ensures forall i: nat :: FedTo(fed, i) == []
  {
  }

  lemma FedOn(start: seq<Track>, before: seq<Track>, after: seq<Track>, fed: seq<Fed>, f: Fed)
    requires f.sample.track < |start| == |before| && before[f.sample.track].availInput != []
    requires f.index == before[f.sample.track].availInput[0]
    requires after == before[f.sample.track := FeedInput(before[f.sample.track])]
    requires forall i: nat :: i < |start| ==> start[i].availInput == FedTo(fed, i) + before[i].availInput
    ensures forall i: nat :: i < |start| ==> start[i].availInput == FedTo(fed + [f], i) + after[i].availInput
  {
    hide FedTo;
    forall i: nat | i < |start| ensures start[i].availInput == FedTo(fed + [f], i) + after[i].availInput {
      FedSnoc(fed, f, i);
      var rest := before[i].availInput;
      if i == f.sample.track {
        assert rest == [f.index] + rest[1..];
        assert FedTo(fed, i) + ([f.index] + rest[1..]) == FedTo(fed, i) + [f.index] + rest[1..];
      }
    }
  }

  function TotalOffered(offers: seq<Offer>): nat {
    if offers == [] then 0 else TotalOffered(offers[..|offers| - 1]) + |offers[|offers| - 1].inputs|
  }

  lemma {:induction false} TotalCollected(before: seq<Track>, after: seq<Track>, offers: seq<Offer>)
    requires |before| == |after| == |offers|
    requires forall i :: 0 <= i < |before| ==> after[i].availInput == before[i].availInput + offers[i].inputs
    ensures TotalAvail(after) == TotalAvail(before) + TotalOffered(offers)
    decreases |before|
  {
    if before != [] {
      var n := |before| - 1;
      TotalCollected(before[..n], after[..n], offers[..n]);
    }
  }

  lemma {:induction false} TotalSame(before: seq<Track>, after: seq<Track>)
    requires |before| == |after| && forall i :: 0 <= i < |before| ==> after[i].availInput == before[i].availInput
    ensures TotalAvail(after) == TotalAvail(before)
    decreases |before|
  {
    if before != [] {
      var n := |before| - 1;
      TotalSame(before[..n], after[..n]);
    }
  }

  class Player {
    var tracks: seq<Track>
    const samples: seq<Sample>     // what the extractor delivers, in order
    var pos: nat                   // the extractor's position
    var startTimeRealUs: int
    ghost var fed: seq<Fed>

    ghost predicate Valid()
      reads this
    {
      && (forall i :: 0 <= i < |tracks| ==> TrackInv(tracks[i]))
      && (forall k :: 0 <= k < |samples| ==> samples[k].track < |tracks|)
      && pos <= |samples|
      // The codecs have been given the samples read so far, each once and in order.
      && |fed| == pos && (forall k :: 0 <= k < pos ==> fed[k].sample == samples[k])
    }

    constructor (tracks: seq<Track>, samples: seq<Sample>)
      requires forall i :: 0 <= i < |tracks| ==> TrackInv(tracks[i])
      requires forall k :: 0 <= k < |samples| ==> samples[k].track < |tracks|
      ensures Valid() && this.tracks == tracks && pos == 0 && startTimeRealUs == -1
    {
      this.tracks, this.samples, pos, startTimeRealUs, fed := tracks, samples, 0, -1, [];
    }

    /** onStart: the presentation times count from a new moment. */
    method RestartClock()
      requires Valid()
      modifies this`startTimeRealUs
      ensures Valid() && startTimeRealUs == -1
    {
      startTimeRealUs := -1;
    }

    /** The first loop, on one track: everything the codec offers is listed. */
    static method Collect(track: Track, offer: Offer) returns (t: Track)
      requires TrackInv(track) && Fair(track, offer)
      ensures TrackInv(t) && Collected(track, t, offer)
    {
      t := CollectInputs(track, offer.inputs);
      t := CollectOutputs(t, offer.outputs);
    }

    static method CollectInputs(track: Track, inputs: seq<nat>) returns (t: Track)
      requires TrackInv(track) && NoRepeats(inputs) && Elements(inputs) <= track.inCodec
      ensures TrackInv(t)
      ensures t == track.(availInput := track.availInput + inputs, inCodec := track.inCodec - Elements(inputs))
    {
      t := track;
      var j := 0;
      while j < |inputs|
        invariant j <= |inputs| && TrackInv(t)
        invariant t == track.(availInput := track.availInput + inputs[..j],
                              inCodec := track.inCodec - Elements(inputs[..j]))
      {
        assert inputs[j] in Elements(inputs);
        assert inputs[..j + 1] == inputs[..j] + [inputs[j]];
        TakeInputStep(t, inputs[j]);
        t := TakeInput(t, inputs[j]);
        j := j + 1;
      }
      assert inputs[..j] == inputs;
    }

    static method CollectOutput(track: Track, o: Output, ghost rest: seq<Output>) returns (t: Track)
      requires TrackInv(track) && FairOutputs(track, [o] + rest)
      ensures TrackInv(t) && FairOutputs(t, rest)
      ensures t.dequeued == track.dequeued + (if o.Buffer? then [o.info] else [])
      ensures t.sink == if NewTrack(o) then Audio(AudioRing.Ring(o.frameCount, o.frameSize, 0, 0, 0, 0)) else track.sink
      ensures t.released == track.released && t.availInput == track.availInput && t.writes == track.writes
      ensures t.inputs == track.inputs && t.outputs == track.outputs
    {
      FairTail(track, o, rest);
      TakeOutputStep(track, o);
      t := TakeOutput(track, o);
    }

    static method CollectOutputs(track: Track, outputs: seq<Output>) returns (t: Track)
      requires TrackInv(track) && FairOutputs(track, outputs)
      ensures TrackInv(t)
      ensures t.dequeued == track.dequeued + OfferedBuffers(outputs) && SinkTold(track.sink, outputs, t.sink)
      ensures t.released == track.released && t.availInput == track.availInput && t.writes == track.writes
      ensures t.inputs == track.inputs && t.outputs == track.outputs
    {
      t := track;
      var j := 0;
      while j < |outputs|
        invariant j <= |outputs| && TrackInv(t) && FairOutputs(t, outputs[j..])
        invariant t.availInput == track.availInput && t.released == track.released && t.writes == track.writes
        invariant t.inputs == track.inputs && t.outputs == track.outputs
        invariant t.dequeued == track.dequeued + OfferedBuffers(outputs[..j])
        invariant SinkTold(track.sink, outputs[..j], t.sink)
      {
        var o := outputs[j];
        SinkSnoc(track.sink, outputs[..j], o, t.sink);
        assert outputs[..j + 1] == outputs[..j] + [o];
        assert outputs[j..] == [o] + outputs[j + 1..];
        assert outputs[..j + 1][..j] == outputs[..j];
        t := CollectOutput(t, o, outputs[j + 1..]);
        j := j + 1;
      }
      assert outputs[..j] == outputs;
    }

    static lemma FairTail(t: Track, o: Output, rest: seq<Output>)
      requires FairOutputs(t, [o] + rest)
      ensures FairOutputs(t, [o]) && FairOutputs(TakeOutput(t, o), rest)
    {
      var all := [o] + rest;
      assert all[0] == o;
      assert forall k :: 0 <= k < |rest| ==> rest[k] == all[k + 1];
    }

    /** readSampleData, queueInputBuffer and advance. */
    method FeedOne()
      requires Valid() && pos < |samples| && tracks[samples[pos].track].availInput != []
      modifies this`tracks, this`pos, this`fed
      ensures Valid() && pos == old(pos) + 1
      ensures var i := samples[old(pos)].track; tracks == old(tracks)[i := FeedInput(old(tracks)[i])]
      ensures fed == old(fed) + [Fed(samples[old(pos)], old(tracks)[samples[old(pos)].track].availInput[0])]
      ensures var i := samples[old(pos)].track;
              old(tracks)[i].availInput == [fed[old(pos)].index] + tracks[i].availInput
      ensures TotalAvail(tracks) == TotalAvail(old(tracks)) - 1
    {
      var i := samples[pos].track;
      FeedInputStep(tracks[i]);
      TotalAvailUpdate(tracks, i, FeedInput(tracks[i]));
      fed := fed + [Fed(samples[pos], tracks[i].availInput[0])];
      tracks := tracks[i := FeedInput(tracks[i])];
      pos := pos + 1;
    }

    /** The second loop: each sample goes to its track's codec in the oldest listed input buffer,
        until the extractor ends or the next sample's track has no buffer. The number of samples
        moved is the number of listed buffers used up, so it is bounded by them. */
    method Feed()
      requires Valid()
      modifies this`tracks, this`pos, this`fed
      ensures Valid() && |tracks| == |old(tracks)|
      ensures old(pos) <= pos && fed[..old(pos)] == old(fed)
      ensures TotalAvail(tracks) + (pos - old(pos)) == TotalAvail(old(tracks))
      ensures pos < |samples| ==> tracks[samples[pos].track].availInput == []
      ensures forall i :: 0 <= i < |tracks| ==> OnlyFed(old(tracks)[i], tracks[i])
      // The buffers of each track are used in the order in which they are listed.
      ensures forall i :: 0 <= i < |tracks| ==>
                old(tracks)[i].availInput == FedTo(fed[old(pos)..], i) + tracks[i].availInput
    {
      hide TrackInv, TotalAvail, FedTo;
      FedNothing(fed[old(pos)..]);
      while pos < |samples| && tracks[samples[pos].track].availInput != []
        invariant Valid() && |tracks| == |old(tracks)|
        invariant old(pos) <= pos && fed[..old(pos)] == old(fed)
        invariant TotalAvail(tracks) + (pos - old(pos)) == TotalAvail(old(tracks))
        invariant forall i :: 0 <= i < |tracks| ==> OnlyFed(old(tracks)[i], tracks[i])
        invariant forall i :: 0 <= i < |tracks| ==>
                    old(tracks)[i].availInput == FedTo(fed[old(pos)..], i) + tracks[i].availInput
        decreases |samples| - pos
      {
        ghost var before, so := tracks, fed[old(pos)..];
        FeedOne();
        ghost var f := fed[|fed| - 1];
        assert fed[old(pos)..] == so + [f];
        FedOn(old(tracks), before, tracks, so, f);
      }
    }

    /** One listed buffer that is due, on an audio track: playback moves on, then renderAudio. */
    static method PlayDue(track: Track, frames: nat, nowUs: int, startUs: int) returns (t: Track, checked: bool)
      requires TrackInv(track) && track.availOutput != [] && track.sink.Audio?
      requires EARLY_US < LateBy(track.availOutput[0].ticket, nowUs, startUs) <= LATE_US
      ensures TrackInv(t) && t.availOutput != [] && t.availOutput[0].ticket == track.availOutput[0].ticket
      ensures |t.availOutput| == |track.availOutput| && t.sink.Audio?
      ensures t == track.(availOutput := t.availOutput, sink := t.sink, writes := t.writes)
      ensures SinkKept(track, t)
      ensures checked && t.availOutput[0].size > 0 ==> AudioRing.Space(t.sink.ring) == 0
      ensures checked <==> !FailsCheck(t, nowUs, startUs)
      ensures WholeFrames(track) ==> checked && WholeFrames(t)
    {
      t := track.(sink := Audio(AudioRing.PlayUpTo(track.sink.ring, frames)));
      AudioRing.PassesIff(t.sink.ring, t.availOutput[0].size);
      checked := AudioRing.Passes(t.sink.ring, t.availOutput[0].size);
      if checked {
        if WholeFrames(track) { WholeFramesPlayed(t); }
        PlayHeadStep(t);
        t := PlayHead(t);
        FullDoesNotFail(t, nowUs, startUs);
      }
    }

    static lemma FullDoesNotFail(t: Track, nowUs: int, startUs: int)
      requires t.availOutput != [] && t.sink.Audio? && AudioRing.Valid(t.sink.ring)
      requires t.availOutput[0].size > 0 ==> AudioRing.Space(t.sink.ring) == 0
      ensures !FailsCheck(t, nowUs, startUs)
    {
      if t.availOutput[0].size == 0 { AudioRing.NothingPasses(t.sink.ring.frameSize); }
    }

    /** The third loop, on one track. playback(k) is how many frames the audio track plays before
        the k-th buffer is looked at; the play position never passes what was written. Unless a CHECK
        fails it goes on until nothing more can be done. */
    static method RenderTrack(track: Track, nowUs: int, startUs: int, playback: nat -> nat)
      returns (t: Track, checked: bool)
      requires TrackInv(track)
      ensures TrackInv(t) && Rendered(track, t, nowUs, startUs)
      ensures if checked then Rests(t, nowUs, startUs) else FailsCheck(t, nowUs, startUs)
      ensures WholeFrames(track) ==> checked
    {
      hide TrackInv, SinkKept, ProperRelease, FailsCheck, WholeFrames;
      t, checked := track, true;
      RenderedNothing(track, nowUs, startUs);
      var k := 0;
      while t.availOutput != []
        invariant checked && TrackInv(t) && Rendered(track, t, nowUs, startUs)
        invariant WholeFrames(track) ==> WholeFrames(t)
        decreases |t.availOutput|
      {
        var lateByUs := LateBy(t.availOutput[0].ticket, nowUs, startUs);
        if lateByUs > EARLY_US {
          if lateByUs > LATE_US {
            GiveBackStep(t, lateByUs, true);
            RenderedGivesBack(track, t, nowUs, startUs, true);
            t := GiveBack(t, lateByUs, true);
          } else {
            if t.sink.Audio? {
              var played;
              played, checked := PlayDue(t, playback(k), nowUs, startUs);
              RenderedPlays(track, t, played, nowUs, startUs);
              t := played;
              if !checked { return; }
              if t.availOutput[0].size > 0 {
                break;
              }
            }
            GiveBackStep(t, lateByUs, false);
            RenderedGivesBack(track, t, nowUs, startUs, false);
            t := GiveBack(t, lateByUs, false);
          }
        } else {
          break;
        }
        k := k + 1;
      }
    }

    static lemma RenderedNothing(track: Track, nowUs: int, startUs: int)
      ensures Rendered(track, track, nowUs, startUs)
    {
    }

    static lemma RenderedPlays(track: Track, t: Track, played: Track, nowUs: int, startUs: int)
      requires Rendered(track, t, nowUs, startUs) && SinkKept(t, played)
      requires played == t.(availOutput := played.availOutput, sink := played.sink, writes := played.writes)
      ensures Rendered(track, played, nowUs, startUs)
    {
    }

    static lemma RenderedGivesBack(track: Track, t: Track, nowUs: int, startUs: int, dropped: bool)
      requires Rendered(track, t, nowUs, startUs) && t.availOutput != []
      requires var late := LateBy(t.availOutput[0].ticket, nowUs, startUs);
               late > EARLY_US && (dropped <==> late > LATE_US)
                 && (!dropped && t.sink.Audio? ==> t.availOutput[0].size == 0)
      ensures var late := LateBy(t.availOutput[0].ticket, nowUs, startUs);
              Rendered(track, GiveBack(t, late, dropped), nowUs, startUs)
      ensures WholeFrames(t) ==> WholeFrames(GiveBack(t, LateBy(t.availOutput[0].ticket, nowUs, startUs), dropped))
    {
    }

    /** The first loop, over all tracks. */
    method CollectAll(offers: seq<Offer>)
      requires Valid() && |offers| == |tracks|
      requires forall i :: 0 <= i < |tracks| ==> Fair(tracks[i], offers[i])
      modifies this`tracks
      ensures Valid() && |tracks| == |old(tracks)|
      ensures forall i :: 0 <= i < |tracks| ==> Collected(old(tracks)[i], tracks[i], offers[i])
    {
      var i := 0;
      while i < |tracks|
        invariant i <= |tracks| == |old(tracks)| && Valid()
        invariant forall j :: i <= j < |tracks| ==> tracks[j] == old(tracks)[j]
        invariant forall j :: 0 <= j < i ==> Collected(old(tracks)[j], tracks[j], offers[j])
      {
        var t := Collect(tracks[i], offers[i]);
        tracks := tracks[i := t];
        i := i + 1;
      }
    }

    /** The third loop, over all tracks, up to a CHECK that fails. */
    method RenderAll(nowUs: int, playback: (nat, nat) -> nat) returns (checked: bool)
      requires Valid()
      modifies this`tracks
      ensures Valid() && |tracks| == |old(tracks)|
      ensures forall i :: 0 <= i < |tracks| ==> Rendered(old(tracks)[i], tracks[i], nowUs, startTimeRealUs)
      ensures if checked then forall i :: 0 <= i < |tracks| ==> Rests(tracks[i], nowUs, startTimeRealUs)
              else exists i :: 0 <= i < |tracks| && FailsCheck(tracks[i], nowUs, startTimeRealUs)
      ensures (forall i :: 0 <= i < |tracks| ==> WholeFrames(old(tracks)[i])) ==> checked
    {
      hide TrackInv, Rests, FailsCheck, WholeFrames, ProperRelease;
      checked := true;
      var i := 0;
      while i < |tracks|
        invariant i <= |tracks| == |old(tracks)| && Valid() && checked
        invariant forall j :: i <= j < |tracks| ==> tracks[j] == old(tracks)[j]
        invariant forall j :: 0 <= j < i ==>
                    Rendered(old(tracks)[j], tracks[j], nowUs, startTimeRealUs)
                      && Rests(tracks[j], nowUs, startTimeRealUs)
      {
        var t;
        t, checked := RenderTrack(tracks[i], nowUs, startTimeRealUs, k => playback(i, k));
        tracks := tracks[i := t];
        if !checked {
          assert FailsCheck(tracks[i], nowUs, startTimeRealUs);
          return;
        }
        i := i + 1;
      }
    }

    /** onDoMoreStuff: nothing is lost or duplicated on any track, the samples go out in order, and
        every track ends with nothing more to do at nowUs, unless the CHECK in renderAudio fails. */
    method DoMoreStuff(offers: seq<Offer>, nowUs: int, playback: (nat, nat) -> nat) returns (checked: bool)
      requires Valid() && |offers| == |tracks|
      requires forall i :: 0 <= i < |tracks| ==> Fair(tracks[i], offers[i])
      modifies this
      ensures Valid() && |tracks| == |old(tracks)|
      ensures old(pos) <= pos && fed[..old(pos)] == old(fed)
      ensures startTimeRealUs == if old(startTimeRealUs) < 0 then nowUs + 1_000_000 else old(startTimeRealUs)
      ensures forall i :: 0 <= i < |tracks| ==>
                && SameBuffers(old(tracks)[i], tracks[i])
                && tracks[i].dequeued == old(tracks)[i].dequeued + OfferedBuffers(offers[i].outputs)
                && ReleasedProperly(old(tracks)[i], tracks[i], nowUs, startTimeRealUs)
                && old(tracks)[i].writes <= tracks[i].writes
                && old(tracks)[i].availInput + offers[i].inputs == FedTo(fed[old(pos)..], i) + tracks[i].availInput
      ensures if checked then forall i :: 0 <= i < |tracks| ==> Rests(tracks[i], nowUs, startTimeRealUs)
              else exists i :: 0 <= i < |tracks| && FailsCheck(tracks[i], nowUs, startTimeRealUs)
      ensures TotalAvail(tracks) + (pos - old(pos)) == TotalAvail(old(tracks)) + TotalOffered(offers)
      ensures pos < |samples| ==> tracks[samples[pos].track].availInput == []
    {
      hide TrackInv, Rests, FailsCheck, ProperRelease, Fair, OfferedBuffers, TotalAvail, TotalOffered;
      CollectAll(offers);
      TotalCollected(old(tracks), tracks, offers);
      Feed();
      if startTimeRealUs < 0 {
        startTimeRealUs := nowUs + START_DELAY_US;
      }
      ghost var fedTracks := tracks;
      checked := RenderAll(nowUs, playback);
      TotalSame(fedTracks, tracks);
    }
  }
}
