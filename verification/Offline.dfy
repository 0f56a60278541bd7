/**
 The offline path of `play_audio_file`: each channel of a whole file is resampled
 by its own loop, the results are interleaved again and then fitted to the
 device's channel count.
 */
module Offline {
  import opened Seqs
  import opened Arith
  import opened Resampler

  /** Every `step`-th sample from `start` on. */
  function Strided(s: seq<real>, start: nat, step: nat): (r: seq<real>)
    requires 0 < step
    decreases |s| - start
  {
    if |s| <= start then [] else [s[start]] + Strided(s, start + step, step)
  }

  lemma {:induction false} StridedAt(s: seq<real>, start: nat, step: nat, i: nat, at: nat)
    requires 0 < step && at == start + i * step
    ensures i < |Strided(s, start, step)| <==> at < |s|
    ensures at < |s| ==> Strided(s, start, step)[i] == s[at]
    decreases i
  {
    assert 0 <= i * step;
    if i > 0 && start < |s| {
      assert start + step + (i - 1) * step == at;
      StridedAt(s, start + step, step, i - 1, at);
    }
  }

  /** A later start never yields more samples. */
  lemma {:induction false} StridedShrinks(s: seq<real>, start: nat, later: nat, step: nat)
    requires 0 < step && start <= later
    ensures |Strided(s, later, step)| <= |Strided(s, start, step)|
    decreases |s| - start
  {
    if start < |s| {
      StridedShrinks(s, start + step, later + step, step);
    }
  }

  /** Whole frames give every channel the same number of samples. */
  lemma StridedEven(s: seq<real>, frames: nat, channels: nat, ch: nat)
    requires ch < channels && |s| == frames * channels
    ensures |Strided(s, ch, channels)| == frames
  {
    var n := |Strided(s, ch, channels)|;
    StridedAt(s, ch, channels, n, ch + n * channels);
    StridedAt(s, ch, channels, frames, ch + frames * channels);
    if n < frames {
      MulStep(n, frames, channels);
    }
  }

  /** The offline loop over one channel computes the same closed form as the stream. */
  method ResampleChannel(x: seq<real>, num: nat, den: nat) returns (out: seq<real>)
    requires 0 < num && 0 < den
    ensures out == Resampled(x, num, den)
  {
    out := [];
    var p := 0;
    ghost var k := 0;
    while p + den < |x| * den
      invariant At(x, num, den, k, p)
      invariant out == Samples(x, num, den, k)
      decreases Emitted(|x|, num, den) - k
    {
      OfflineGrid(x, num, den, k, p);
      var s := ReadOffline(x, p, den);
      OfflineRead(x, p, den);
      out := out + [s];
      p := p + num;
      k := k + 1;
    }
    OfflineExit(x, num, den, k, p);
  }

  /** However a channel is cut into slices, streaming it gives what the offline loop gives. */
  method StreamAndOffline(slices: seq<seq<real>>, num: nat, den: nat) returns (streamed: seq<real>, offline: seq<real>)
    requires 0 < num && 0 < den
    ensures streamed == offline == Resampled(Flatten(slices), num, den)
  {
    streamed := ResampleSlices(num, den, slices);
    offline := ResampleChannel(Flatten(slices), num, den);
  }

  /** The sample at position `p` of a whole channel. */
  function ReadOffline(x: seq<real>, p: nat, den: nat): (r: real)
    requires 0 < den && p / den < |x|
  {
    var lo := p / den;
    var hi := lo + 1;
    var frac := (p - lo * den) as real / den as real;
    var a := x[lo];
    var b := if hi < |x| then x[hi] else a;
    Blend(a, b, frac)
  }

  ghost predicate At(x: seq<real>, num: nat, den: nat, k: nat, p: nat)
    requires 0 < num && 0 < den
  {
    p == k * num && k <= Emitted(|x|, num, den)
  }

  lemma OfflineGrid(x: seq<real>, num: nat, den: nat, k: nat, p: nat)
    requires 0 < num && 0 < den && At(x, num, den, k, p) && p + den < |x| * den
    ensures k < Emitted(|x|, num, den) && At(x, num, den, k + 1, p + num)
    ensures p / den + 1 < |x|
  {
    assert (|x| - 1) * den == |x| * den - den;
    EmittedReach(|x|, num, den, k);
    Whole(p, |x| - 1, den);
    assert (k + 1) * num == k * num + num;
  }

  lemma OfflineRead(x: seq<real>, p: nat, den: nat)
    requires 0 < den && p / den + 1 < |x|
    ensures ReadOffline(x, p, den) == Curve(x, p, den)
  {
    assert p % den == p - (p / den) * den;
  }

  lemma OfflineExit(x: seq<real>, num: nat, den: nat, k: nat, p: nat)
    requires 0 < num && 0 < den && At(x, num, den, k, p) && !(p + den < |x| * den)
    ensures k == Emitted(|x|, num, den)
  {
    if x != [] {
      assert (|x| - 1) * den == |x| * den - den;
    }
    EmittedReach(|x|, num, den, k);
  }

  /** What interleaved slot `j` should hold: its channel's sample, or silence past that channel's end. */
  function Slot(s: seq<real>, channels: nat, num: nat, den: nat, j: nat): (r: real)
    requires 0 < channels && 0 < num && 0 < den
  {
    var own := Resampled(Strided(s, j % channels, channels), num, den);
    if j / channels < |own| then own[j / channels] else 0.0
  }

  function FrameCount(s: seq<real>, channels: nat, num: nat, den: nat): (n: nat)
    requires 0 < channels && 0 < num && 0 < den
  {
    Emitted(|Strided(s, 0, channels)|, num, den)
  }

  /** Slot `j` is written once channels below `ch` and frames below `i` of `ch` are done. */
  ghost predicate Written(channels: nat, ch: nat, i: nat, j: nat)
    requires 0 < channels
  {
    j % channels < ch || (j % channels == ch && j / channels < i)
  }

  /** What slot `j` holds at that time. */
  ghost function Partial(s: seq<real>, channels: nat, num: nat, den: nat, ch: nat, i: nat, j: nat): (r: real)
    requires 0 < channels && 0 < num && 0 < den
  {
    if Written(channels, ch, i, j) then Slot(s, channels, num, den, j) else 0.0
  }

  /** Resamples and interleaves every channel of the file. */
  method ResampleFile(s: seq<real>, channels: nat, num: nat, den: nat) returns (out: seq<real>)
    requires 0 < num && 0 < den
    ensures channels == 0 ==> out == []
    ensures 0 < channels ==> |out| == FrameCount(s, channels, num, den) * channels
    ensures 0 < channels ==> Interleaved(out, s, channels, num, den)
  {
    out := [];
    for ch := 0 to channels
      invariant ch == 0 ==> out == []
      invariant 0 < ch ==> |out| == FrameCount(s, channels, num, den) * channels
      invariant 0 < ch ==> forall j :: 0 <= j < |out| ==> out[j] == Partial(s, channels, num, den, ch, 0, j)
    {
      var x := Strided(s, ch, channels);
      var chOut := ResampleChannel(x, num, den);
      StridedShrinks(s, 0, ch, channels);
      EmittedMonotone(|x|, |Strided(s, 0, channels)|, num, den);
      if out == [] {
        FirstOrEmpty(|chOut|, FrameCount(s, channels, num, den), channels, ch);
        out := seq(|chOut| * channels, _ => 0.0);
      }
      out := Interleave(s, channels, num, den, ch, chOut, out);
    }
    if 0 < channels {
      SlotsInterleave(out, s, channels, num, den);
    }
  }

  lemma FirstOrEmpty(own: nat, frames: nat, channels: nat, ch: nat)
    requires own <= frames && (ch == 0 ==> own == frames)
    requires ch > 0 ==> frames * channels == 0
    requires 0 < channels
    ensures own * channels == frames * channels
  {
    if ch > 0 && frames > 0 {
      MulStep(0, frames, channels);
    }
  }

  /** Writes one channel into its slots. */
  method Interleave(s: seq<real>, channels: nat, num: nat, den: nat, ch: nat, chOut: seq<real>, out0: seq<real>)
    returns (out: seq<real>)
    requires 0 < num && 0 < den && ch < channels
    requires chOut == Resampled(Strided(s, ch, channels), num, den)
    requires |chOut| <= FrameCount(s, channels, num, den)
    requires |out0| == FrameCount(s, channels, num, den) * channels
    requires forall j :: 0 <= j < |out0| ==> out0[j] == Partial(s, channels, num, den, ch, 0, j)
    ensures |out| == |out0|
    ensures forall j :: 0 <= j < |out| ==> out[j] == Partial(s, channels, num, den, ch + 1, 0, j)
  {
    out := out0;
    for i := 0 to |chOut|
      invariant |out| == |out0|
      invariant forall j :: 0 <= j < |out| ==> out[j] == Partial(s, channels, num, den, ch, i, j)
    {
      var at := ch + i * channels;
      SlotIndex(channels, ch, i, FrameCount(s, channels, num, den), at);
      forall j | 0 <= j < |out|
        ensures Partial(s, channels, num, den, ch, i + 1, j)
             == if j == at then chOut[i] else Partial(s, channels, num, den, ch, i, j)
      {
        PartialNext(s, channels, num, den, ch, i, at, j, chOut);
      }
      if at < |out| {
        out := out[at := chOut[i]];
      }
    }
    forall j | 0 <= j < |out|
      ensures Partial(s, channels, num, den, ch + 1, 0, j) == Partial(s, channels, num, den, ch, |chOut|, j)
    {
      PartialDone(s, channels, num, den, ch, j, chOut);
    }
  }

  lemma PartialNext(s: seq<real>, channels: nat, num: nat, den: nat, ch: nat, i: nat, at: nat, j: nat, chOut: seq<real>)
    requires 0 < num && 0 < den && ch < channels && at == ch + i * channels
    requires chOut == Resampled(Strided(s, ch, channels), num, den) && i < |chOut|
    ensures Partial(s, channels, num, den, ch, i + 1, j)
         == if j == at then chOut[i] else Partial(s, channels, num, den, ch, i, j)
  {
    SameSlot(channels, j, ch, i, at);
  }

  lemma PartialDone(s: seq<real>, channels: nat, num: nat, den: nat, ch: nat, j: nat, chOut: seq<real>)
    requires 0 < num && 0 < den && ch < channels
    requires chOut == Resampled(Strided(s, ch, channels), num, den)
    ensures Partial(s, channels, num, den, ch + 1, 0, j) == Partial(s, channels, num, den, ch, |chOut|, j)
  {
  }

  lemma SlotIndex(channels: nat, ch: nat, i: nat, frames: nat, at: nat)
    requires ch < channels && i < frames && at == ch + i * channels
    ensures at < frames * channels && at / channels == i && at % channels == ch
  {
    MulStep(i, frames, channels);
    DivUnique(at, channels, i, ch);
  }

  lemma SameSlot(channels: nat, j: nat, ch: nat, i: nat, at: nat)
    requires ch < channels && at == ch + i * channels
    ensures j == at <==> j % channels == ch && j / channels == i
  {
    DivUnique(at, channels, i, ch);
    assert j == (j / channels) * channels + j % channels;
  }

  /** In every slot of the output stands the resampled sample of its channel, or silence past that channel's end. */
  ghost predicate Interleaved(out: seq<real>, s: seq<real>, channels: nat, num: nat, den: nat)
    requires 0 < channels && 0 < num && 0 < den
  {
    && |out| == |Resampled(Strided(s, 0, channels), num, den)| * channels
    && forall ch: nat, i: nat {:trigger SlotAt(channels, ch, i)} ::
         ch < channels && SlotAt(channels, ch, i) < |out| ==>
           out[SlotAt(channels, ch, i)]
           == if i < |Resampled(Strided(s, ch, channels), num, den)| then Resampled(Strided(s, ch, channels), num, den)[i] else 0.0
  }

  function SlotAt(channels: nat, ch: nat, i: nat): (j: nat)
  {
    ch + i * channels
  }

  lemma SlotsInterleave(out: seq<real>, s: seq<real>, channels: nat, num: nat, den: nat)
    requires 0 < channels && 0 < num && 0 < den
    requires |out| == FrameCount(s, channels, num, den) * channels
    requires forall j :: 0 <= j < |out| ==> out[j] == Slot(s, channels, num, den, j)
    ensures Interleaved(out, s, channels, num, den)
  {
    forall ch: nat, i: nat {:trigger SlotAt(channels, ch, i)} | ch < channels && SlotAt(channels, ch, i) < |out|
      ensures out[SlotAt(channels, ch, i)]
           == if i < |Resampled(Strided(s, ch, channels), num, den)| then Resampled(Strided(s, ch, channels), num, den)[i] else 0.0
    {
      DivUnique(SlotAt(channels, ch, i), channels, i, ch);
    }
  }

  /** With whole frames in the file no slot is left silent: the output has no gap. */
  lemma NoGap(s: seq<real>, channels: nat, num: nat, den: nat, frames: nat, j: nat)
    requires 0 < channels && 0 < num && 0 < den && |s| == frames * channels
    requires j < FrameCount(s, channels, num, den) * channels
    ensures j / channels < |Resampled(Strided(s, j % channels, channels), num, den)|
  {
    StridedEven(s, frames, channels, 0);
    StridedEven(s, frames, channels, j % channels);
    Whole(j, FrameCount(s, channels, num, den), channels);
  }

  /** Repeats or drops file channels to match the device. */
  method FitChannels(resampled: seq<real>, channels: nat, dev: nat) returns (out: seq<real>)
    requires 0 < channels
    ensures channels == dev ==> out == resampled
    ensures channels != dev ==> |out| == (|resampled| / channels) * dev
    ensures channels != dev ==> Fitted(resampled, channels, dev, out)
  {
    if dev == channels {
      return resampled;
    }
    var frames := |resampled| / channels;
    out := [];
    for frame := 0 to frames
      invariant |out| == frame * dev
      invariant 0 < dev ==> forall j :: 0 <= j < |out| ==> FittedAt(resampled, channels, dev, j, out[j])
    {
      out := FitFrame(resampled, channels, dev, frame, out);
      assert (frame + 1) * dev == frame * dev + dev;
    }
    if 0 < dev {
      SourcesFit(resampled, channels, dev, out);
    }
  }

  /** Device slot `c` of a frame repeats that frame's channel `c`, or its last channel where the file has fewer. */
  ghost predicate Fitted(resampled: seq<real>, channels: nat, dev: nat, out: seq<real>)
    requires 0 < channels
  {
    forall frame: nat, c: nat {:trigger SlotAt(dev, c, frame)} :: c < dev && frame < |resampled| / channels ==>
      var ch := if c < channels then c else channels - 1;
      && SlotAt(dev, c, frame) < |out| && SlotAt(channels, ch, frame) < |resampled|
      && out[SlotAt(dev, c, frame)] == resampled[SlotAt(channels, ch, frame)]
  }

  lemma SourcesFit(resampled: seq<real>, channels: nat, dev: nat, out: seq<real>)
    requires 0 < channels && 0 < dev && |out| == (|resampled| / channels) * dev
    requires forall j :: 0 <= j < |out| ==> FittedAt(resampled, channels, dev, j, out[j])
    ensures Fitted(resampled, channels, dev, out)
  {
    forall frame: nat, c: nat {:trigger SlotAt(dev, c, frame)} | c < dev && frame < |resampled| / channels
      ensures var ch := if c < channels then c else channels - 1;
              && SlotAt(dev, c, frame) < |out| && SlotAt(channels, ch, frame) < |resampled|
              && out[SlotAt(dev, c, frame)] == resampled[SlotAt(channels, ch, frame)]
    {
      SlotIndex(dev, c, frame, |resampled| / channels, SlotAt(dev, c, frame));
      assert FittedAt(resampled, channels, dev, SlotAt(dev, c, frame), out[SlotAt(dev, c, frame)]);
    }
  }

  method FitFrame(resampled: seq<real>, channels: nat, dev: nat, frame: nat, out0: seq<real>) returns (out: seq<real>)
    requires 0 < channels && frame < |resampled| / channels && |out0| == frame * dev
    requires 0 < dev ==> forall j :: 0 <= j < |out0| ==> FittedAt(resampled, channels, dev, j, out0[j])
    ensures |out| == |out0| + dev
    ensures 0 < dev ==> forall j :: 0 <= j < |out| ==> FittedAt(resampled, channels, dev, j, out[j])
  {
    out := out0;
    var start := frame * channels;
    InFrame(|resampled|, channels, frame);
    for dc := 0 to dev
      invariant |out| == |out0| + dc
      invariant 0 < dev ==> forall j :: 0 <= j < |out| ==> FittedAt(resampled, channels, dev, j, out[j])
    {
      var src := if channels == 1 then resampled[start]
                 else resampled[start + if dc < channels - 1 then dc else channels - 1];
      FitsAt(resampled, channels, dev, frame, dc, src);
      out := out + [src];
    }
  }

  /** The file slot that device slot `j` is taken from. */
  function Source(channels: nat, dev: nat, j: nat): (i: nat)
    requires 0 < channels && 0 < dev
  {
    (j / dev) * channels + if j % dev < channels - 1 then j % dev else channels - 1
  }

  ghost predicate FittedAt(resampled: seq<real>, channels: nat, dev: nat, j: nat, value: real)
    requires 0 < channels && 0 < dev
  {
    Source(channels, dev, j) < |resampled| && value == resampled[Source(channels, dev, j)]
  }

  lemma FitsAt(resampled: seq<real>, channels: nat, dev: nat, frame: nat, dc: nat, src: real)
    requires 0 < channels && dc < dev && frame * channels + channels <= |resampled|
    requires src == resampled[frame * channels + if dc < channels - 1 then dc else channels - 1]
    ensures FittedAt(resampled, channels, dev, frame * dev + dc, src)
  {
    DivUnique(frame * dev + dc, dev, frame, dc);
  }

  lemma InFrame(n: nat, channels: nat, frame: nat)
    requires 0 < channels && frame < n / channels
    ensures frame * channels + channels <= n
  {
    MulStep(frame, n / channels, channels);
    assert n == (n / channels) * channels + n % channels;
  }
}
