/** The sample loop of muxing in cmds/stagefright/muxer.cpp: which samples are written to the muxer,
    and with which times. */
module Trimming {

  /** The samples in the order in which the extractor gives them. */
  datatype Sample = Sample(track: nat, timeUs: int, sync: bool)

  datatype Trim = Trim(enabled: bool, startTimeUs: int, endTimeUs: int)

  /** A sample given to the muxer, with its shifted time. */
  datatype Written = Written(index: nat, timeUs: int)

  // ---- What is to be written -------------------------------------------------------------------

  /** Trimming can start at a sample. */
  predicate Opens(samples: seq<Sample>, trim: Trim, j: nat)
    requires j < |samples|
  {
    samples[j].sync && trim.startTimeUs < samples[j].timeUs <= trim.endTimeUs
  }

  /** No sample from j to i is past the end. */
  predicate StaysIn(samples: seq<Sample>, trim: Trim, j: nat, i: nat)
    requires i < |samples|
  {
    forall k: nat :: j <= k <= i ==> samples[k].timeUs <= trim.endTimeUs
  }

  /** Sample i belongs to a run that is open since sample j. */
  predicate RunsFrom(samples: seq<Sample>, trim: Trim, j: nat, i: nat)
    requires i < |samples|
  {
    j <= i && Opens(samples, trim, j) && StaysIn(samples, trim, j, i)
  }

  /** The first sample of the run that sample i belongs to. */
  ghost predicate RunStart(samples: seq<Sample>, trim: Trim, j: nat, i: nat)
    requires i < |samples|
  {
    RunsFrom(samples, trim, j, i) && forall m: nat :: m < j ==> !RunsFrom(samples, trim, m, i)
  }

  /** Sample i is in some run. */
  ghost predicate Kept(samples: seq<Sample>, trim: Trim, i: nat)
    requires i < |samples|
  {
    !trim.enabled || exists j: nat :: RunsFrom(samples, trim, j, i)
  }

  lemma {:induction false} HasRunStart(samples: seq<Sample>, trim: Trim, j: nat, i: nat)
    requires i < |samples| && RunsFrom(samples, trim, j, i)
    ensures exists m: nat :: RunStart(samples, trim, m, i)
  {
    if m: nat :| m < j && RunsFrom(samples, trim, m, i) {
      HasRunStart(samples, trim, m, i);
    } else {
      assert RunStart(samples, trim, j, i);
    }
  }

  /** The time by which a kept sample is shifted: that of the first sample of its run. */
  ghost function Shift(samples: seq<Sample>, trim: Trim, i: nat): (shift: int)
    requires i < |samples| && Kept(samples, trim, i)
    ensures !trim.enabled ==> shift == 0
    ensures forall j: nat :: trim.enabled && RunStart(samples, trim, j, i) ==> shift == samples[j].timeUs
  {
    if trim.enabled then
      var m: nat :| RunsFrom(samples, trim, m, i);
      HasRunStart(samples, trim, m, i);
      var j: nat :| RunStart(samples, trim, j, i);
      assert forall k: nat :: RunStart(samples, trim, k, i) ==> k == j;
      samples[j].timeUs
    else 0
  }

  /** What the muxer is given for the first n samples: those that are kept, in order, each shifted by
      the time of the start of its run. */
  ghost function Expected(samples: seq<Sample>, trim: Trim, n: nat): seq<Written>
    requires n <= |samples|
  {
    if n == 0 then []
    else
      Expected(samples, trim, n - 1) +
      (if Kept(samples, trim, n - 1) then [Written(n - 1, samples[n - 1].timeUs - Shift(samples, trim, n - 1))] else [])
  }

  // ---- The loop --------------------------------------------------------------------------------

  /** The two variables of the loop after n samples. */
  ghost predicate LoopState(samples: seq<Sample>, trim: Trim, n: nat, trimStarted: bool, offset: int)
    requires n <= |samples|
  {
    && (!trim.enabled ==> !trimStarted && offset == 0)
    && (trim.enabled && n == 0 ==> !trimStarted)
    && (trim.enabled && n > 0 ==> (trimStarted <==> Kept(samples, trim, n - 1)))
    && (trim.enabled && n > 0 && trimStarted ==> offset == Shift(samples, trim, n - 1))
  }

  /** A run goes on as long as no sample is past the end. */
  lemma RunsOn(samples: seq<Sample>, trim: Trim, j: nat, n: nat)
    requires 0 < n < |samples|
    ensures j < n ==> (RunsFrom(samples, trim, j, n) <==>
                       RunsFrom(samples, trim, j, n - 1) && samples[n].timeUs <= trim.endTimeUs)
    ensures RunsFrom(samples, trim, n, n) <==> Opens(samples, trim, n)
  {
  }

  lemma RunsAlone(samples: seq<Sample>, trim: Trim, j: nat)
    requires |samples| > 0
    ensures RunsFrom(samples, trim, j, 0) <==> j == 0 && Opens(samples, trim, 0)
  {
  }

  lemma KeptIffStarted(samples: seq<Sample>, trim: Trim, n: nat, before: bool)
    requires n < |samples| && trim.enabled
    requires if n == 0 then !before else before <==> Kept(samples, trim, n - 1)
    ensures Kept(samples, trim, n) <==> samples[n].timeUs <= trim.endTimeUs && (before || Opens(samples, trim, n))
  {
    if n == 0 {
      FirstKept(samples, trim);
    } else {
      NextKept(samples, trim, n);
    }
  }

  lemma FirstKept(samples: seq<Sample>, trim: Trim)
    requires |samples| > 0 && trim.enabled
    ensures Kept(samples, trim, 0) <==> Opens(samples, trim, 0)
  {
    RunsAlone(samples, trim, 0);
    if Kept(samples, trim, 0) {
      var j: nat :| RunsFrom(samples, trim, j, 0);
      RunsAlone(samples, trim, j);
    }
  }

  lemma NextKept(samples: seq<Sample>, trim: Trim, n: nat)
    requires 0 < n < |samples| && trim.enabled
    ensures Kept(samples, trim, n) <==>
            samples[n].timeUs <= trim.endTimeUs && (Kept(samples, trim, n - 1) || Opens(samples, trim, n))
  {
    if Kept(samples, trim, n) {
      var j: nat :| RunsFrom(samples, trim, j, n);
      RunsOn(samples, trim, j, n);
    }
    if samples[n].timeUs <= trim.endTimeUs && Kept(samples, trim, n - 1) {
      var j: nat :| RunsFrom(samples, trim, j, n - 1);
      RunsOn(samples, trim, j, n);
    }
    if Opens(samples, trim, n) { RunsOn(samples, trim, n, n); }
  }

  /** A run that was open keeps its start; otherwise the sample that opens one is its start. */
  lemma ShiftIsKept(samples: seq<Sample>, trim: Trim, n: nat)
    requires 0 < n < |samples| && trim.enabled && Kept(samples, trim, n) && Kept(samples, trim, n - 1)
    ensures Shift(samples, trim, n) == Shift(samples, trim, n - 1)
  {
    var m: nat :| RunsFrom(samples, trim, m, n - 1);
    HasRunStart(samples, trim, m, n - 1);
    var j: nat :| RunStart(samples, trim, j, n - 1);
    forall m: nat ensures m < n ==>
      (RunsFrom(samples, trim, m, n) <==> RunsFrom(samples, trim, m, n - 1) && samples[n].timeUs <= trim.endTimeUs) {
      RunsOn(samples, trim, m, n);
    }
    assert RunStart(samples, trim, j, n);
  }

  lemma ShiftOfFirst(samples: seq<Sample>, trim: Trim, n: nat)
    requires n < |samples| && trim.enabled && Opens(samples, trim, n) && Kept(samples, trim, n)
    requires n == 0 || !Kept(samples, trim, n - 1)
    ensures Shift(samples, trim, n) == samples[n].timeUs
  {
    if n > 0 {
      forall m: nat ensures m < n ==> !RunsFrom(samples, trim, m, n) { RunsOn(samples, trim, m, n); }
    }
    assert RunsFrom(samples, trim, n, n);
    assert RunStart(samples, trim, n, n);
  }

  lemma StateStep(samples: seq<Sample>, trim: Trim, n: nat, before: bool, offset: int, after: bool, shift: int)
    requires n < |samples| && LoopState(samples, trim, n, before, offset)
    requires var opens := trim.enabled && Opens(samples, trim, n);
             && after == ((before || opens) && !(trim.enabled && samples[n].timeUs > trim.endTimeUs))
             && shift == (if opens && !before then samples[n].timeUs else offset)
    ensures LoopState(samples, trim, n + 1, after, shift)
  {
    if trim.enabled {
      KeptIffStarted(samples, trim, n, before);
      if after && before { ShiftIsKept(samples, trim, n); }
      if after && !before { ShiftOfFirst(samples, trim, n); }
    }
  }

  /** The sample loop of muxing: every list of samples. */
  method Muxing(samples: seq<Sample>, trim: Trim) returns (out: seq<Written>)
    ensures out == Expected(samples, trim, |samples|)
  {
    hide Kept, Shift;
    out := [];
    var trimStarted, trimOffsetTimeUs := false, 0;
    for n := 0 to |samples|
      invariant LoopState(samples, trim, n, trimStarted, trimOffsetTimeUs)
      invariant out == Expected(samples, trim, n)
    {
      ghost var before, offset := trimStarted, trimOffsetTimeUs;
      var timeUs := samples[n].timeUs;
      if samples[n].sync {
        if trim.enabled && timeUs > trim.startTimeUs && timeUs <= trim.endTimeUs {
          if !trimStarted { trimOffsetTimeUs := timeUs; }
          trimStarted := true;
        }
      }
      if trim.enabled && timeUs > trim.endTimeUs {
        trimStarted := false;
      }
      StateStep(samples, trim, n, before, offset, trimStarted, trimOffsetTimeUs);
      WrittenIff(samples, trim, n, trimStarted, trimOffsetTimeUs);
      if !trim.enabled || trimStarted {
        out := out + [Written(n, timeUs - trimOffsetTimeUs)];
      }
    }
  }

  lemma WrittenIff(samples: seq<Sample>, trim: Trim, n: nat, started: bool, offset: int)
    requires n < |samples| && LoopState(samples, trim, n + 1, started, offset)
    ensures Kept(samples, trim, n) <==> !trim.enabled || started
    ensures Kept(samples, trim, n) ==> Shift(samples, trim, n) == offset
  {
  }

  // ---- What follows ----------------------------------------------------------------------------

  /** The first samples with their own times. */
  function Unchanged(samples: seq<Sample>, n: nat): seq<Written>
    requires n <= |samples|
  {
    seq(n, i requires 0 <= i < n => Written(i, samples[i].timeUs))
  }

  /** Without trimming the output is the input. */
  lemma {:induction false} NothingTrimmed(samples: seq<Sample>, trim: Trim, n: nat)
    requires !trim.enabled && n <= |samples|
    ensures Expected(samples, trim, n) == Unchanged(samples, n)
  {
    if n > 0 {
      NothingTrimmed(samples, trim, n - 1);
      assert Unchanged(samples, n) == Unchanged(samples, n - 1) + [Written(n - 1, samples[n - 1].timeUs)];
    }
  }

  ghost predicate Nondecreasing(samples: seq<Sample>) {
    forall i, j :: 0 <= i <= j < |samples| ==> samples[i].timeUs <= samples[j].timeUs
  }

  /** The samples from first up to end (exclusive), shifted to start at 0. */
  function Window(samples: seq<Sample>, first: nat, end: nat): seq<Written>
    requires first <= end <= |samples|
  {
    seq(end - first,
      k requires 0 <= k < end - first => Written(first + k, samples[first + k].timeUs - samples[first].timeUs))
  }

  /** The first sample that opens a run, and the end of the samples not past the trim end. */
  ghost predicate WindowIs(samples: seq<Sample>, trim: Trim, first: nat, end: nat) {
    && first < end <= |samples| && Opens(samples, trim, first)
    && (forall j: nat :: j < first ==> !Opens(samples, trim, j))
    && samples[end - 1].timeUs <= trim.endTimeUs
    && (end < |samples| ==> samples[end].timeUs > trim.endTimeUs)
  }

  lemma KeptInWindow(samples: seq<Sample>, trim: Trim, first: nat, end: nat, i: nat)
    requires trim.enabled && Nondecreasing(samples) && WindowIs(samples, trim, first, end) && i < |samples|
    ensures Kept(samples, trim, i) <==> first <= i < end
    ensures first <= i < end ==> Shift(samples, trim, i) == samples[first].timeUs
  {
    if first <= i < end {
      assert RunsFrom(samples, trim, first, i);
      assert RunStart(samples, trim, first, i);
    }
    if Kept(samples, trim, i) {
      var j: nat :| RunsFrom(samples, trim, j, i);
      assert samples[i].timeUs <= trim.endTimeUs && first <= j;
    }
  }

  lemma WindowGrows(samples: seq<Sample>, first: nat, n: nat)
    requires first < n <= |samples|
    ensures Window(samples, first, n) ==
            Window(samples, first, n - 1) + [Written(n - 1, samples[n - 1].timeUs - samples[first].timeUs)]
  {
  }

  /** When times do not decrease, the output is one run: from the first sync sample in the window to
      the last sample that is not past the end, shifted so that the first is at 0. */
  lemma {:induction false} TrimmedToWindow(samples: seq<Sample>, trim: Trim, first: nat, end: nat, n: nat)
    requires trim.enabled && Nondecreasing(samples) && WindowIs(samples, trim, first, end) && n <= |samples|
    ensures Expected(samples, trim, n) == Windowed(samples, first, end, n)
  {
    hide Kept, Shift, Nondecreasing, Windowed;
    if n > 0 {
      TrimmedToWindow(samples, trim, first, end, n - 1);
      KeptInWindow(samples, trim, first, end, n - 1);
    }
    WindowedStep(samples, first, end, n);
  }

  /** The part of the window in the first n samples. */
  function Windowed(samples: seq<Sample>, first: nat, end: nat, n: nat): seq<Written>
    requires first < end <= |samples| && n <= |samples|
  {
    if n <= first then [] else Window(samples, first, if n < end then n else end)
  }

  lemma WindowedStep(samples: seq<Sample>, first: nat, end: nat, n: nat)
    requires first < end <= |samples| && n <= |samples|
    ensures n == 0 ==> Windowed(samples, first, end, n) == []
    ensures n > 0 ==>
              Windowed(samples, first, end, n) ==
              Windowed(samples, first, end, n - 1) +
              (if first < n <= end then [Written(n - 1, samples[n - 1].timeUs - samples[first].timeUs)] else [])
  {
    if first < n <= end { WindowGrows(samples, first, n); }
    WindowStarts(samples, first);
  }

  lemma WindowStarts(samples: seq<Sample>, first: nat)
    requires first < |samples|
    ensures Window(samples, first, first) == [] && Window(samples, first, first + 1) == [Written(first, 0)]
  {
  }

  /** Without a sync sample in the window nothing is written. */
  lemma {:induction false} NothingInWindow(samples: seq<Sample>, trim: Trim, n: nat)
    requires trim.enabled && n <= |samples| && forall j: nat :: j < |samples| ==> !Opens(samples, trim, j)
    ensures Expected(samples, trim, n) == []
  {
    if n > 0 { NothingInWindow(samples, trim, n - 1); }
  }

  /** Where the window is: after its first sample, samples follow up to the first that is past the
      end. */
  lemma WindowExists(samples: seq<Sample>, trim: Trim, j: nat) returns (first: nat, end: nat)
    requires Nondecreasing(samples) && j < |samples| && Opens(samples, trim, j)
    ensures WindowIs(samples, trim, first, end)
  {
    first := 0;
    while !Opens(samples, trim, first)
      invariant first <= j && forall m: nat :: m < first ==> !Opens(samples, trim, m)
      decreases j - first
    {
      first := first + 1;
    }
    end := first + 1;
    while end < |samples| && samples[end].timeUs <= trim.endTimeUs
      invariant first < end <= |samples| && samples[end - 1].timeUs <= trim.endTimeUs
    {
      end := end + 1;
    }
  }

  /** For every list of samples with nondecreasing times the output is one run, shifted to start at 0:
      nothing when no sample opens one, otherwise from the first that does. */
  lemma TrimmedIsOneRun(samples: seq<Sample>, trim: Trim) returns (first: nat, end: nat)
    requires trim.enabled && Nondecreasing(samples)
    ensures first <= end <= |samples| && Expected(samples, trim, |samples|) == Window(samples, first, end)
    ensures if forall j: nat :: j < |samples| ==> !Opens(samples, trim, j) then first == end
            else WindowIs(samples, trim, first, end)
  {
    if j: nat :| j < |samples| && Opens(samples, trim, j) {
      first, end := WindowExists(samples, trim, j);
      TrimmedToWindow(samples, trim, first, end, |samples|);
    } else {
      first, end := 0, 0;
      NothingInWindow(samples, trim, |samples|);
    }
  }

  /** The samples written are all of those between the first and the last of them. */
  ghost predicate Contiguous(samples: seq<Sample>, trim: Trim) {
    forall i: nat, k: nat, m: nat ::
      i < k < m < |samples| && Kept(samples, trim, i) && Kept(samples, trim, m) ==> Kept(samples, trim, k)
  }

  /** A run ends and another one opens. */
  ghost predicate Reopens(samples: seq<Sample>, trim: Trim, j: nat, k: nat, m: nat) {
    && j < k < m < |samples|
    && Opens(samples, trim, j) && samples[k].timeUs > trim.endTimeUs && Opens(samples, trim, m)
  }

  lemma OpensIsKept(samples: seq<Sample>, trim: Trim, j: nat)
    requires trim.enabled && j < |samples| && Opens(samples, trim, j)
    ensures Kept(samples, trim, j)
  {
    assert RunsFrom(samples, trim, j, j);
  }

  lemma PastEndIsNotKept(samples: seq<Sample>, trim: Trim, k: nat)
    requires trim.enabled && k < |samples| && samples[k].timeUs > trim.endTimeUs
    ensures !Kept(samples, trim, k)
  {
  }

  /** A gap in what is written comes from a sample past the end, and a run that opens after it. */
  lemma GapReopens(samples: seq<Sample>, trim: Trim, i: nat, k: nat, m: nat)
    requires trim.enabled && i < k < m < |samples|
    requires Kept(samples, trim, i) && !Kept(samples, trim, k) && Kept(samples, trim, m)
    ensures exists a: nat, b: nat, c: nat :: Reopens(samples, trim, a, b, c)
  {
    var a: nat :| RunsFrom(samples, trim, a, i);
    var c: nat :| RunsFrom(samples, trim, c, m);
    assert !RunsFrom(samples, trim, a, k);
    var b: nat :| a <= b <= k && samples[b].timeUs > trim.endTimeUs;
    assert i < b;
    assert b < c;
    assert Reopens(samples, trim, a, b, c);
  }

  /** What is written is one contiguous run exactly when no run is followed by a sample past the end and
      then by another one that opens. */
  lemma ContiguousIff(samples: seq<Sample>, trim: Trim)
    requires trim.enabled
    ensures Contiguous(samples, trim) <==> forall j: nat, k: nat, m: nat :: !Reopens(samples, trim, j, k, m)
  {
    hide Kept, RunsFrom;
    if j: nat, k: nat, m: nat :| Reopens(samples, trim, j, k, m) {
      OpensIsKept(samples, trim, j);
      OpensIsKept(samples, trim, m);
      PastEndIsNotKept(samples, trim, k);
    }
    if !Contiguous(samples, trim) {
      var i: nat, k: nat, m: nat :|
        i < k < m < |samples| && Kept(samples, trim, i) && Kept(samples, trim, m) && !Kept(samples, trim, k);
      GapReopens(samples, trim, i, k, m);
    }
  }

  /** Within one run all samples have the same shift, so the times written differ as the samples' times
      do; every run starts at 0. */
  lemma {:induction false} SameRunSameShift(samples: seq<Sample>, trim: Trim, j: nat, i: nat)
    requires trim.enabled && i < |samples| && RunsFrom(samples, trim, j, i)
    ensures Kept(samples, trim, j) && Kept(samples, trim, i)
    ensures Shift(samples, trim, i) == Shift(samples, trim, j)
    decreases i
  {
    OpensIsKept(samples, trim, j);
    if j < i {
      RunsOn(samples, trim, j, i);
      SameRunSameShift(samples, trim, j, i - 1);
      ShiftIsKept(samples, trim, i);
    }
  }

  /** The bounds of the window: a single sample is written, at time 0, exactly when it is a sync sample later
      than the start and not later than the end. */
  lemma SingleSample(s: Sample, startUs: int, endUs: int)
    ensures Expected([s], Trim(true, startUs, endUs), 1) ==
            if s.sync && startUs < s.timeUs && s.timeUs <= endUs then [Written(0, 0)] else []
  {
    FirstKept([s], Trim(true, startUs, endUs));
    if Opens([s], Trim(true, startUs, endUs), 0) { ShiftOfFirst([s], Trim(true, startUs, endUs), 0); }
  }

  /** With reordered times a second run can start after the first has ended, and its times start at 0
      again. */
  lemma SecondRunRestarts(samples: seq<Sample>, trim: Trim)
    requires samples == [Sample(0, 10, true), Sample(0, 90, false), Sample(0, 20, true)] && trim == Trim(true, 0, 50)
    ensures Expected(samples, trim, 3) == [Written(0, 0), Written(2, 0)]
  {
    FirstKept(samples, trim);
    NextKept(samples, trim, 1);
    NextKept(samples, trim, 2);
    ShiftOfFirst(samples, trim, 0);
    ShiftOfFirst(samples, trim, 2);
    assert Expected(samples, trim, 1) == [Written(0, 0)];
    assert Expected(samples, trim, 2) == [Written(0, 0)];
  }
}
