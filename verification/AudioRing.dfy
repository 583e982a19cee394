/** renderAudio of cmds/stagefright/SimplePlayer.cpp: how much of a decoded buffer fits into the
    audio track, computed with 32-bit frame counters that wrap round. The track, AudioTrack::write of
    media/libmedia/AudioTrack.cpp, takes whole frames only, and renderAudio checks that it took all. */
module AudioRing {
  import opened Arithmetic

  const UINT32_RANGE := 0x1_0000_0000

  function Fits(size: nat, space: nat, frameSize: nat): (copy: nat)
    ensures copy <= size
  {
    if size > space * frameSize then space * frameSize else size
  }

  /** += on the uint32_t counter, with a uint32_t number of frames. */
  function AddFrames(framesWritten: nat, frames: nat): nat {
    (framesWritten + frames % UINT32_RANGE) % UINT32_RANGE
  }

  function Available(frameCount: nat, framesWritten: nat, framesPlayed: nat): nat {
    (frameCount - (framesWritten - framesPlayed)) % UINT32_RANGE
  }

  /** What AudioTrack::write takes of a number of bytes. */
  function Taken(size: nat, frameSize: nat): nat
    requires 0 < frameSize
  {
    size / frameSize * frameSize
  }

  /** The counters as the program holds them, next to the frames really written and played and the
      bytes really handed over. */
  datatype Ring = Ring(
    frameCount: nat, frameSize: nat,
    framesWritten: nat,          // mNumFramesWritten
    written: nat, played: nat,   // the same counts without wrapping
    bytes: nat)                  // bytes the track took

  ghost predicate Valid(r: Ring) {
    && 0 < r.frameSize
    && r.frameCount < UINT32_RANGE
    && r.framesWritten == r.written % UINT32_RANGE
    && r.played <= r.written <= r.played + r.frameCount
  }

  /** A track that has just been made. */
  function New(frameCount: nat, frameSize: nat): Ring { Ring(frameCount, frameSize, 0, 0, 0, 0) }

  function Space(r: Ring): int { r.frameCount - (r.written - r.played) }

  /** The bytes that renderAudio wants to write, from the counters the program has. */
  function Copied(r: Ring, size: nat): (copy: nat)
    ensures copy <= size
  {
    Fits(size, Available(r.frameCount, r.framesWritten, r.played % UINT32_RANGE), r.frameSize)
  }

  /** Whether the CHECK after the write holds; the process ends where it does not. */
  predicate Passes(r: Ring, size: nat)
    requires 0 < r.frameSize
  {
    Taken(Copied(r, size), r.frameSize) == Copied(r, size)
  }

  /** The counters after a call that returns. */
  function RenderNext(r: Ring, size: nat): Ring
    requires 0 < r.frameSize && Passes(r, size)
  {
    var frames := Copied(r, size) / r.frameSize;
    r.(framesWritten := AddFrames(r.framesWritten, frames), written := r.written + frames,
      bytes := r.bytes + Copied(r, size))
  }

  // ---- The code --------------------------------------------------------------------------------

  /** The loop of AudioTrack::write, blocking: obtained(k) is how many frames the k-th obtainBuffer
      grants, at least one and at most those asked for. */
  method Write(userSize: nat, frameSize: nat, obtained: nat -> nat) returns (written: nat)
    requires 0 < frameSize
    ensures written == Taken(userSize, frameSize)
  {
    written := 0;
    var size: nat, k := userSize, 0;
    ghost var frames := 0;
    while size >= frameSize
      invariant written == frames * frameSize && size + written == userSize
      decreases size
    {
      var frameCount := size / frameSize;
      DivideTimes(size, frameSize);
      AtLeastOne(size, frameSize);
      var granted := if obtained(k) < 1 then 1 else if obtained(k) > frameCount then frameCount else obtained(k);
      var toWrite := granted * frameSize;
      GrantedFits(granted, frameCount, frameSize, size);
      Distribute(frames, granted, frameSize);
      frames := frames + granted;
      size, written, k := size - toWrite, written + toWrite, k + 1;
    }
    DivideUnique(userSize, frameSize, frames, size);
  }

  lemma AtLeastOne(size: nat, frameSize: nat)
    requires 0 < frameSize <= size
    ensures size / frameSize >= 1
  {
    var q, rest := (size - frameSize) / frameSize, (size - frameSize) % frameSize;
    Distribute(q, 1, frameSize);
    DivideUnique(size, frameSize, q + 1, rest);
  }

  lemma GrantedFits(granted: nat, frameCount: nat, frameSize: nat, size: nat)
    requires 0 < frameSize && 1 <= granted <= frameCount && frameCount * frameSize <= size
    ensures frameSize <= granted * frameSize <= size
  {
    Distribute(granted, 1, frameSize);
    Distribute(frameCount, granted, frameSize);
    assert (granted - 1) * frameSize >= 0 && (frameCount - granted) * frameSize >= 0;
  }

  lemma NothingPasses(frameSize: nat)
    requires 0 < frameSize
    ensures 0 / frameSize == 0 && Taken(0, frameSize) == 0
  {
    DivideUnique(0, frameSize, 0, 0);
  }

  lemma NothingChanges(r: Ring, size: nat)
    requires Valid(r) && Copied(r, size) == 0
    ensures Passes(r, size) && RenderNext(r, size) == r
  {
    hide Copied;
    NothingPasses(r.frameSize);
    AddFramesWraps(r.written, 0);
  }

  /** renderAudio on a ring and a buffer of some size: whether the CHECK holds, and what it leaves. */
  method RenderAudio(r: Ring, size: nat, obtained: nat -> nat) returns (checked: bool, next: Ring, rest: nat)
    requires Valid(r)
    ensures checked <==> Passes(r, size)
    ensures checked ==> next == RenderNext(r, size) && rest == size - Copied(r, size)
  {
    var copy := CopySize(r, size);
    hide Taken, AddFrames, Copied, Valid;
    if copy == 0 {
      NothingChanges(r, size);
      return true, r, size;
    }
    var nbytes := Write(copy, r.frameSize, obtained);
    if nbytes != copy { return false, r, size; }
    var numFramesWritten := nbytes / r.frameSize;
    next := r.(framesWritten := AddFrames(r.framesWritten, numFramesWritten), written := r.written + numFramesWritten,
               bytes := r.bytes + nbytes);
    checked, rest := true, size - nbytes;
  }

  method CopySize(r: Ring, size: nat) returns (copy: nat)
    requires Valid(r)
    ensures copy == Copied(r, size) && 0 < r.frameSize
  {
    var numFramesAvailableToWrite := (r.frameCount - (r.framesWritten - r.played % UINT32_RANGE)) % UINT32_RANGE;
    var numBytesAvailableToWrite := numFramesAvailableToWrite * r.frameSize;
    copy := size;
    if copy > numBytesAvailableToWrite { copy := numBytesAvailableToWrite; }
  }

  // ---- One call --------------------------------------------------------------------------------

  /** The free space computed from the wrapped counters is the real one. */
  lemma SpaceSurvivesWrapping(r: Ring)
    requires Valid(r)
    ensures Available(r.frameCount, r.framesWritten, r.played % UINT32_RANGE) == Space(r)
  {
    var q := r.written / UINT32_RANGE - r.played / UINT32_RANGE;
    assert r.frameCount - (r.framesWritten - r.played % UINT32_RANGE) == Space(r) + q * UINT32_RANGE;
    ModuloShift(Space(r), q, UINT32_RANGE);
  }

  lemma FramesFit(size: nat, space: nat, frameSize: nat)
    requires 0 < frameSize
    ensures Fits(size, space, frameSize) / frameSize <= space
  {
    var copy := Fits(size, space, frameSize);
    DivideTimes(copy, frameSize);
    CancelFactor(copy / frameSize, space, frameSize);
  }

  lemma AddFramesWraps(written: nat, frames: nat)
    requires frames < UINT32_RANGE
    ensures AddFrames(written % UINT32_RANGE, frames) == (written + frames) % UINT32_RANGE
  {
    ModuloAdd(written, frames, UINT32_RANGE);
  }

  lemma WholeFramesIff(size: nat, space: nat, frameSize: nat)
    requires 0 < frameSize
    ensures var copy := Fits(size, space, frameSize);
            Taken(copy, frameSize) == copy <==> size % frameSize == 0 || size >= space * frameSize
  {
    MultipleModulo(space, frameSize);
    if size <= space * frameSize {
      assert size == size / frameSize * frameSize + size % frameSize;
    }
  }

  /** The CHECK holds exactly when the buffer holds whole frames or fills the track: a buffer that ends
      in a partial frame, with room for it, ends the process. */
  lemma PassesIff(r: Ring, size: nat)
    requires Valid(r)
    ensures Passes(r, size) <==> size % r.frameSize == 0 || size >= Space(r) * r.frameSize
  {
    SpaceSurvivesWrapping(r);
    WholeFramesIff(size, Space(r), r.frameSize);
  }

  /** Wrapping does no harm: what is copied is exactly what fits into the real free space, the counter
      stays within the track, and every byte taken is counted as part of a frame. */
  lemma RenderStep(r: Ring, size: nat)
    requires Valid(r)
    ensures Copied(r, size) == Fits(size, Space(r), r.frameSize)
    ensures Passes(r, size) ==>
              && Valid(RenderNext(r, size))
              && RenderNext(r, size).bytes - r.bytes == (RenderNext(r, size).written - r.written) * r.frameSize
  {
    SpaceSurvivesWrapping(r);
    var copy := Fits(size, Space(r), r.frameSize);
    FramesFit(size, Space(r), r.frameSize);
    AddFramesWraps(r.written, copy / r.frameSize);
  }

  /** Playback moves on, but never past what was written. */
  function PlayUpTo(r: Ring, frames: nat): (t: Ring)
    requires Valid(r)
    ensures Valid(t)
  {
    r.(played := if r.played + frames <= r.written then r.played + frames else r.written)
  }

  /** If not all of a buffer fits, the CHECK holds and the track is full afterwards. */
  lemma FullAfterPartial(r: Ring, size: nat)
    requires Valid(r)
    ensures Copied(r, size) < size ==> Passes(r, size) && Space(RenderNext(r, size)) == 0
  {
    RenderStep(r, size);
    MultipleModulo(Space(r), r.frameSize);
  }

  lemma RestIsWhole(r: Ring, size: nat)
    requires Valid(r) && size % r.frameSize == 0
    ensures Passes(r, size) && (size - Copied(r, size)) % r.frameSize == 0
  {
    PassesIff(r, size);
    WholeDifference(size, Copied(r, size), r.frameSize);
  }

  lemma WholeDifference(size: nat, copy: nat, frameSize: nat)
    requires 0 < frameSize && size % frameSize == 0 && Taken(copy, frameSize) == copy <= size
    ensures (size - copy) % frameSize == 0
  {
    var a, b := size / frameSize, copy / frameSize;
    assert size == a * frameSize;
    Distribute(a, b, frameSize);
    MultipleModulo(a - b, frameSize);
  }

  // ---- Runs ------------------------------------------------------------------------------------

  datatype Event = Render(size: nat) | Play(frames: nat)

  /** The play position never passes the frames written, and a call returns only if its CHECK holds. */
  predicate Enabled(r: Ring, e: Event)
    requires 0 < r.frameSize
  {
    match e
    case Render(size) => Passes(r, size)
    case Play(frames) => r.played + frames <= r.written
  }

  function Next(r: Ring, e: Event): Ring
    requires 0 < r.frameSize && Enabled(r, e)
  {
    match e
    case Render(size) => RenderNext(r, size)
    case Play(frames) => r.(played := r.played + frames)
  }

  ghost predicate Reaches(r: Ring, events: seq<Event>, t: Ring)
    decreases |events|
  {
    if events == [] then r == t
    else 0 < r.frameSize && Enabled(r, events[0]) && Reaches(Next(r, events[0]), events[1..], t)
  }

  lemma WrappedDifference(t: Ring)
    requires Valid(t)
    ensures (t.framesWritten - t.played % UINT32_RANGE) % UINT32_RANGE == t.written - t.played
  {
    var q := t.played / UINT32_RANGE - t.written / UINT32_RANGE;
    assert t.framesWritten - t.played % UINT32_RANGE == (t.written - t.played) + q * UINT32_RANGE;
    ModuloShift(t.written - t.played, q, UINT32_RANGE);
  }

  /** Over every sequence of calls that return, with buffers of any size and interleaved with playback:
      what is in the track is within [0, frameCount], is what the 32-bit counters say, and every byte
      the track took is part of a counted frame. */
  lemma {:induction false} RingBounded(r: Ring, events: seq<Event>, t: Ring)
    requires Valid(r) && r.bytes == r.written * r.frameSize && Reaches(r, events, t)
    ensures Valid(t) && t.frameCount == r.frameCount && t.frameSize == r.frameSize
    ensures (t.framesWritten - t.played % UINT32_RANGE) % UINT32_RANGE == t.written - t.played <= t.frameCount
    ensures t.bytes == t.written * t.frameSize
    decreases |events|
  {
    if events == [] {
      WrappedDifference(t);
    } else {
      var u := Next(r, events[0]);
      if events[0].Render? {
        RenderStep(r, events[0].size);
        Distribute(r.written, u.written - r.written, r.frameSize);
      }
      RingBounded(u, events[1..], t);
    }
  }

  /** With buffers of whole frames no CHECK fails: after every run, every such call can return. */
  lemma WholeFramesPass(r: Ring, events: seq<Event>, t: Ring, size: nat)
    requires Valid(r) && r.bytes == r.written * r.frameSize && Reaches(r, events, t) && size % r.frameSize == 0
    ensures 0 < t.frameSize && Enabled(t, Event.Render(size))
  {
    RingBounded(r, events, t);
    PassesIff(t, size);
  }
}
