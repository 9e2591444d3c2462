/** `animationLoop(duration, callback, easeFunc)`: a per-frame loop that
    records its start time on the first frame, reports a clamped progress to a
    callback on every frame and reschedules itself until the duration is used
    up. The host's frame scheduler is modelled by the caller feeding frame
    timestamps; the callback is modelled by recording the samples it receives. */
module Animation {
  import Easing

  datatype Option<T> = None | Some(value: T)

  /** The object handed to the callback on each frame. */
  datatype Sample = Sample(progress: real, duration: real, delta: real)

  /** The elapsed time since `start`, clamped above at `duration` (there is no
      clamp below). */
  function Progress(duration: real, start: real, timestamp: real): (p: real)
    ensures p <= duration && p <= timestamp - start
    ensures p == duration || p == timestamp - start
    ensures p < duration <==> timestamp - start < duration
  {
    if timestamp - start >= duration then duration else timestamp - start
  }

  /** The `delta` field: the eased fraction when an ease is given, else the
      raw fraction itself. */
  function Delivered(easeFunc: Option<real -> real>, raw: real): real
  {
    match easeFunc
    case None => raw
    case Some(f) => f(raw)
  }

  /** The start time after a frame at `timestamp`: the first frame fixes it. */
  function StartAfter(start: Option<real>, timestamp: real): real
  {
    if start.None? then timestamp else start.value
  }

  /** The sample that the frame at `timestamp` reports, once `start` is known. */
  function SampleAt(duration: real, easeFunc: Option<real -> real>, start: real, timestamp: real): Sample
    requires duration != 0.0
  {
    var progress := Progress(duration, start, timestamp);
    Sample(progress, duration, Delivered(easeFunc, progress / duration))
  }

  /** The samples reported when the frames at `timestamps` are delivered one by
      one to a loop that is scheduled: each frame is reported, and delivery
      stops after the first frame that does not reschedule. */
  function Run(duration: real, easeFunc: Option<real -> real>, start: Option<real>, timestamps: seq<real>): (r: seq<Sample>)
    requires duration != 0.0
    ensures |r| <= |timestamps|
    ensures |r| == 0 <==> |timestamps| == 0
    decreases |timestamps|
  {
    if timestamps == [] then []
    else
      var s := StartAfter(start, timestamps[0]);
      var sample := SampleAt(duration, easeFunc, s, timestamps[0]);
      [sample] + if sample.progress < duration then Run(duration, easeFunc, Some(s), timestamps[1..]) else []
  }

  /** The samples of one run so far: each carries the duration and a progress
      at most the duration, and only the last may reach the duration. */
  ghost predicate Reported(duration: real, samples: seq<Sample>)
  {
    (forall k :: 0 <= k < |samples| ==> samples[k].duration == duration && samples[k].progress <= duration) &&
    (forall k :: 0 <= k < |samples| - 1 ==> samples[k].progress < duration)
  }

  /** One run of `animationLoop`: the closure variable `start`, the samples
      handed to the callback so far, and whether a frame is requested. */
  class AnimationLoop {
    const duration: real
    const easeFunc: Option<real -> real>
    var start: Option<real>
    var samples: seq<Sample>
    var scheduled: bool

    /** The loop invariant: `start` is set exactly once samples exist, every
        sample carries the duration and a progress at most the duration, only
        the last sample may reach the duration, and the loop is scheduled
        exactly while the duration has not been reached. */
    ghost predicate Valid()
      reads this
    {
      duration != 0.0 &&
      (samples == [] <==> start.None?) &&
      Reported(duration, samples) &&
      (scheduled <==> (samples == [] || samples[|samples| - 1].progress < duration))
    }

    /** `animationLoop(duration, callback, easeFunc)`: nothing has run yet,
        `start` is null and the first frame is requested. */
    constructor (duration: real, easeFunc: Option<real -> real>)
      requires duration != 0.0
      ensures Valid()
      ensures this.duration == duration && this.easeFunc == easeFunc
      ensures start == None && samples == [] && scheduled
    {
      this.duration := duration;
      this.easeFunc := easeFunc;
      start := None;
      samples := [];
      scheduled := true;
    }

    /** `loop(timestamp)`, run by the scheduler for the frame it requested. */
    method Frame(timestamp: real)
      requires Valid() && scheduled
      modifies this
      ensures Valid()
      ensures start == Some(StartAfter(old(start), timestamp))
      ensures samples == old(samples) + [SampleAt(duration, easeFunc, start.value, timestamp)]
      ensures scheduled <==> samples[|samples| - 1].progress < duration
    {
      if start.None? {
        start := Some(timestamp);
      }
      var progress := if timestamp - start.value >= duration then duration else timestamp - start.value;
      var delta := progress / duration;
      samples := samples + [Sample(progress, duration, if easeFunc.Some? then easeFunc.value(delta) else delta)];
      scheduled := progress < duration;
    }

    /** The host scheduler: delivers the frames at `timestamps`, in order, for
        as long as the loop keeps requesting frames. */
    method Drive(timestamps: seq<real>)
      requires Valid()
      modifies this
      ensures Valid()
      ensures samples == old(samples) + if old(scheduled) then Run(duration, easeFunc, old(start), timestamps) else []
      ensures start == if old(scheduled) && timestamps != [] then Some(StartAfter(old(start), timestamps[0])) else old(start)
    {
      ghost var target := samples + if scheduled then Run(duration, easeFunc, start, timestamps) else [];
      ghost var start0, scheduled0 := start, scheduled;
      var i := 0;
      while i < |timestamps| && scheduled
        invariant Valid()
        invariant 0 <= i <= |timestamps|
        invariant i == 0 ==> start == start0 && scheduled == scheduled0
        invariant i > 0 ==> scheduled0 && start == Some(StartAfter(start0, timestamps[0]))
        invariant target == samples + if scheduled then Run(duration, easeFunc, start, timestamps[i..]) else []
        decreases |timestamps| - i
      {
        ghost var before := samples;
        RunUnfold(duration, easeFunc, start, timestamps, i);
        Frame(timestamps[i]);
        ghost var later := if scheduled then Run(duration, easeFunc, start, timestamps[i + 1..]) else [];
        Associative(before, [samples[|samples| - 1]], later);
        i := i + 1;
      }
    }
  }

  /** Concatenation of sample sequences is associative. */
  lemma Associative(a: seq<Sample>, b: seq<Sample>, c: seq<Sample>)
    ensures a + (b + c) == (a + b) + c
  {
  }

  /** One frame of a run: the frame at `timestamps[i]` is reported, and the
      rest of the run continues from the following frame only if it reschedules. */
  lemma RunUnfold(duration: real, easeFunc: Option<real -> real>, start: Option<real>, timestamps: seq<real>, i: nat)
    requires duration != 0.0 && i < |timestamps|
    ensures var s := StartAfter(start, timestamps[i]);
            var sample := SampleAt(duration, easeFunc, s, timestamps[i]);
            Run(duration, easeFunc, start, timestamps[i..])
            == [sample] + if sample.progress < duration then Run(duration, easeFunc, Some(s), timestamps[i + 1..]) else []
  {
    assert timestamps[i..][1..] == timestamps[i + 1..];
  }

  /** The first frame fixes `start` to its own timestamp and no later frame
      moves it: every sample is computed from the start time in force. */
  lemma {:induction false} RunFromStart(duration: real, easeFunc: Option<real -> real>, start: real, timestamps: seq<real>)
    requires duration != 0.0
    ensures forall k :: 0 <= k < |Run(duration, easeFunc, Some(start), timestamps)| ==>
              Run(duration, easeFunc, Some(start), timestamps)[k] == SampleAt(duration, easeFunc, start, timestamps[k])
  {
    if timestamps != [] {
      RunFromStart(duration, easeFunc, start, timestamps[1..]);
    }
  }

  /** A fresh run takes its start from the first frame. */
  lemma RunFreshStart(duration: real, easeFunc: Option<real -> real>, timestamps: seq<real>)
    requires duration != 0.0 && |timestamps| > 0
    ensures Run(duration, easeFunc, None, timestamps) == Run(duration, easeFunc, Some(timestamps[0]), timestamps)
  {
  }

  /** Every sample reports the duration unchanged and a progress at most the
      duration; every sample before the last has progress below it; and the
      run stops early only after a sample whose progress is the duration. */
  lemma {:induction false} RunShape(duration: real, easeFunc: Option<real -> real>, start: Option<real>, timestamps: seq<real>)
    requires duration != 0.0
    ensures var r := Run(duration, easeFunc, start, timestamps);
            (forall k :: 0 <= k < |r| ==> r[k].duration == duration && r[k].progress <= duration) &&
            (forall k :: 0 <= k < |r| - 1 ==> r[k].progress < duration) &&
            (|r| < |timestamps| ==> r[|r| - 1].progress == duration)
    decreases |timestamps|
  {
    if timestamps != [] {
      var s := StartAfter(start, timestamps[0]);
      RunShape(duration, easeFunc, Some(s), timestamps[1..]);
    }
  }

  /** The run stops exactly at the first frame whose elapsed time reaches the
      duration: earlier frames are all below it, and when the run ends before
      the timestamps do, the last frame reached it, reported progress equal to
      the duration, and raw fraction 1. */
  lemma RunStopsAtDuration(duration: real, easeFunc: Option<real -> real>, start: real, timestamps: seq<real>)
    requires duration != 0.0
    ensures var r := Run(duration, easeFunc, Some(start), timestamps);
            (forall k :: 0 <= k < |r| - 1 ==> timestamps[k] - start < duration) &&
            (|r| < |timestamps| ==>
               timestamps[|r| - 1] - start >= duration &&
               r[|r| - 1] == Sample(duration, duration, Delivered(easeFunc, 1.0)))
  {
    var r := Run(duration, easeFunc, Some(start), timestamps);
    RunFromStart(duration, easeFunc, start, timestamps);
    RunShape(duration, easeFunc, Some(start), timestamps);
    forall k | 0 <= k < |r| - 1
      ensures timestamps[k] - start < duration
    {
      SampleCompletes(duration, easeFunc, start, timestamps[k]);
    }
    if |r| < |timestamps| {
      SampleCompletes(duration, easeFunc, start, timestamps[|r| - 1]);
    }
  }

  /** A sample reaches the duration exactly when its elapsed time does, and
      such a sample reports raw fraction 1. */
  lemma SampleCompletes(duration: real, easeFunc: Option<real -> real>, start: real, timestamp: real)
    requires duration != 0.0
    ensures var sample := SampleAt(duration, easeFunc, start, timestamp);
            (sample.progress == duration <==> timestamp - start >= duration) &&
            (sample.progress == duration ==> sample == Sample(duration, duration, Delivered(easeFunc, 1.0)))
  {
    assert duration / duration == 1.0;
  }

  /** With a positive duration the first frame reports progress 0 and raw
      fraction 0, and always requests another frame, so a second frame, if the
      host delivers one, is reported too. */
  lemma RunFirstFrame(duration: real, easeFunc: Option<real -> real>, timestamps: seq<real>)
    requires duration > 0.0 && |timestamps| > 0
    ensures var r := Run(duration, easeFunc, None, timestamps);
            r[0] == Sample(0.0, duration, Delivered(easeFunc, 0.0)) &&
            (|timestamps| > 1 ==> |r| > 1)
  {
  }

  /** With a negative duration the very first frame already reaches the
      duration: exactly one sample, with progress equal to the duration and
      raw fraction 1. */
  lemma RunNegativeDuration(duration: real, easeFunc: Option<real -> real>, timestamps: seq<real>)
    requires duration < 0.0 && |timestamps| > 0
    ensures Run(duration, easeFunc, None, timestamps) == [Sample(duration, duration, Delivered(easeFunc, 1.0))]
  {
    assert duration / duration == 1.0;
  }

  /** Host timestamps never go backwards. */
  ghost predicate NonDecreasing(timestamps: seq<real>)
  {
    forall i, j :: 0 <= i <= j < |timestamps| ==> timestamps[i] <= timestamps[j]
  }

  /** For non-decreasing timestamps starting no earlier than `start`, progress
      never decreases from one sample to the next and stays in [0, duration].
      The lower bound rests on monotonicity alone: the code clamps only above. */
  lemma {:induction false} RunMonotone(duration: real, easeFunc: Option<real -> real>, start: real, timestamps: seq<real>)
    requires duration > 0.0
    requires NonDecreasing(timestamps)
    requires |timestamps| > 0 ==> start <= timestamps[0]
    ensures var r := Run(duration, easeFunc, Some(start), timestamps);
            (forall k :: 0 <= k < |r| ==> 0.0 <= r[k].progress <= duration) &&
            (forall i, j :: 0 <= i <= j < |r| ==> r[i].progress <= r[j].progress)
  {
    var r := Run(duration, easeFunc, Some(start), timestamps);
    RunFromStart(duration, easeFunc, start, timestamps);
    forall i, j | 0 <= i <= j < |r|
      ensures 0.0 <= r[i].progress <= r[j].progress <= duration
    {
      assert r[i] == SampleAt(duration, easeFunc, start, timestamps[i]);
      assert r[j] == SampleAt(duration, easeFunc, start, timestamps[j]);
      assert timestamps[0] <= timestamps[i] <= timestamps[j];
    }
  }

  /** With a positive duration and non-decreasing timestamps, a fresh run
      reports raw fractions in [0, 1] that never decrease, so with no ease the
      delivered `delta` rises from 0 and is 1 on the frame that reaches the
      duration. */
  lemma RunRawDelta(duration: real, timestamps: seq<real>)
    requires duration > 0.0
    requires NonDecreasing(timestamps)
    ensures var r := Run(duration, None, None, timestamps);
            (forall k :: 0 <= k < |r| ==> 0.0 <= r[k].delta <= 1.0 && r[k].delta == r[k].progress / duration) &&
            (forall i, j :: 0 <= i <= j < |r| ==> r[i].delta <= r[j].delta) &&
            (|r| > 0 ==> r[0].delta == 0.0) &&
            (|r| > 0 && r[|r| - 1].progress == duration ==> r[|r| - 1].delta == 1.0) &&
            (|r| < |timestamps| ==> r[|r| - 1].delta == 1.0)
  {
    var r := Run(duration, None, None, timestamps);
    if |timestamps| > 0 {
      var t0 := timestamps[0];
      RunFreshStart(duration, None, timestamps);
      RunFromStart(duration, None, t0, timestamps);
      RunMonotone(duration, None, t0, timestamps);
      RunStopsAtDuration(duration, None, t0, timestamps);
      forall k | 0 <= k < |r|
        ensures 0.0 <= r[k].delta <= 1.0 && r[k].delta == r[k].progress / duration
      {
        assert r[k] == SampleAt(duration, None, t0, timestamps[k]);
        Easing.DivisionBounds(r[k].progress, duration);
      }
      SampleCompletes(duration, None, t0, timestamps[|r| - 1]);
      forall i, j | 0 <= i <= j < |r|
        ensures r[i].delta <= r[j].delta
      {
        assert r[i].progress <= r[j].progress;
        DivisionMonotone(r[i].progress, r[j].progress, duration);
      }
    }
  }

  /** Dividing by a positive number keeps the order. */
  lemma DivisionMonotone(x: real, y: real, d: real)
    requires d > 0.0 && x <= y
    ensures x / d <= y / d
  {
    assert y / d - x / d == (y - x) / d;
  }

  /** The example run: a 1000 ms animation eased by inOutQuad, fed frames at
      0, 500, 1000 and 1500 ms, reports three samples and stops. */
  lemma ExampleRun()
    ensures Run(1000.0, Some(Easing.InOutQuad), None, [0.0, 500.0, 1000.0, 1500.0])
            == [Sample(0.0, 1000.0, 0.0), Sample(500.0, 1000.0, 0.5), Sample(1000.0, 1000.0, 1.0)]
  {
    var ts := [0.0, 500.0, 1000.0, 1500.0];
    var ease := Some(Easing.InOutQuad);
    Easing.InOutQuadValues();
    assert ts[1..] == [500.0, 1000.0, 1500.0];
    assert ts[1..][1..] == [1000.0, 1500.0];
    assert Run(1000.0, ease, Some(0.0), [1000.0, 1500.0]) == [Sample(1000.0, 1000.0, 1.0)];
    assert Run(1000.0, ease, Some(0.0), [500.0, 1000.0, 1500.0])
        == [Sample(500.0, 1000.0, 0.5), Sample(1000.0, 1000.0, 1.0)];
  }
}
