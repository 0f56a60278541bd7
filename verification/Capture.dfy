/**
 The capture callback: interleaved device frames are downmixed to mono,
 resampled to the engine rate when the rates differ, and cut into chunks of
 exactly `samplesPerChunk` samples that are offered to the engine's channel.
 */
module Capture {
  import opened Seqs
  import opened Arith
  import opened Resampler

  // ---------------------------------------------------------------------
  // Downmixing
  // ---------------------------------------------------------------------

  function Sum(frame: seq<real>): (r: real)
  {
    if frame == [] then 0.0 else Sum(frame[..|frame| - 1]) + frame[|frame| - 1]
  }

  /** The average of one frame's channels; silence for an empty frame. */
  function DownmixFrame(frame: seq<real>): (r: real)
  {
    if frame == [] then 0.0 else Sum(frame) / |frame| as real
  }

  lemma {:induction false} SumConcat(a: seq<real>, b: seq<real>)
    ensures Sum(a + b) == Sum(a) + Sum(b)
    decreases |b|
  {
    if b == [] {
      assert a + b == a;
    } else {
      assert (a + b)[..|a + b| - 1] == a + b[..|b| - 1];
      SumConcat(a, b[..|b| - 1]);
    }
  }

  /**
   The mono sample is the average: times the number of channels it is their total,
   where totals add up and one channel is its own total.
   */
  lemma DownmixIsAverage(frame: seq<real>, x: real, rest: seq<real>)
    ensures frame != [] ==> DownmixFrame(frame) * |frame| as real == Sum(frame)
    ensures DownmixFrame([]) == 0.0 && DownmixFrame([x]) == x
    ensures Sum([x] + rest) == x + Sum(rest)
  {
    SumConcat([x], rest);
    SumOne(x);
    if frame != [] {
      var n := |frame| as real;
      assert (Sum(frame) / n) * n == Sum(frame);
    }
  }

  lemma SumOne(x: real)
    ensures Sum([x]) == x
  {
    assert [x][..0] == [];
  }

  lemma {:induction false} SumBounds(frame: seq<real>, lo: real, hi: real)
    requires forall i :: 0 <= i < |frame| ==> lo <= frame[i] <= hi
    ensures |frame| as real * lo <= Sum(frame) <= |frame| as real * hi
  {
    if frame != [] {
      var n := |frame| - 1;
      SumBounds(frame[..n], lo, hi);
      assert |frame| as real == n as real + 1.0;
      assert (n as real + 1.0) * lo == n as real * lo + lo;
      assert (n as real + 1.0) * hi == n as real * hi + hi;
    }
  }

  lemma QuotientBounds(s: real, n: real, lo: real, hi: real)
    requires 0.0 < n && n * lo <= s <= n * hi
    ensures lo <= s / n <= hi
  {
    var q := s / n;
    assert n * q == s;
    if q < lo {
      MulPositive(n, lo - q);
    } else if hi < q {
      MulPositive(n, q - hi);
    }
  }

  lemma MulPositive(n: real, d: real)
    requires 0.0 < n && 0.0 < d
    ensures 0.0 < n * d
  {
  }

  /** A downmixed frame never leaves the range of its channels, so it cannot clip. */
  lemma DownmixBounds(frame: seq<real>, lo: real, hi: real)
    requires frame != []
    requires forall i :: 0 <= i < |frame| ==> lo <= frame[i] <= hi
    ensures lo <= DownmixFrame(frame) <= hi
  {
    SumBounds(frame, lo, hi);
    QuotientBounds(Sum(frame), |frame| as real, lo, hi);
  }

  /** One mono sample per complete frame; a trailing partial frame is dropped. */
  function MonoOf(raw: seq<real>, dev: nat, want: nat): (r: seq<real>)
    requires 0 < dev
  {
    if |raw| < dev then [] else
      [if dev == want then raw[0] else DownmixFrame(raw[..dev])] + MonoOf(raw[dev..], dev, want)
  }

  lemma DropFrame(n: nat, dev: nat)
    requires 0 < dev <= n
    ensures n / dev == (n - dev) / dev + 1
    ensures n % dev == (n - dev) % dev
  {
    DivShift(n - dev, 1, dev);
    assert n - dev + 1 * dev == n;
  }

  /** Whole frames in front of `b` do not move the frame boundaries inside `b`. */
  lemma {:induction false} MonoConcat(a: seq<real>, b: seq<real>, dev: nat, want: nat, frames: nat)
    requires 0 < dev && |a| == frames * dev
    ensures MonoOf(a + b, dev, want) == MonoOf(a, dev, want) + MonoOf(b, dev, want)
    decreases frames
  {
    if frames == 0 {
      assert a + b == b;
    } else {
      assert |a[dev..]| == (frames - 1) * dev;
      MonoConcat(a[dev..], b, dev, want, frames - 1);
      ConcatHead(a, b, dev);
      MonoHead(a, dev, want);
      MonoHead(a + b, dev, want);
    }
  }

  lemma ConcatHead(a: seq<real>, b: seq<real>, dev: nat)
    requires dev <= |a|
    ensures (a + b)[dev..] == a[dev..] + b && (a + b)[..dev] == a[..dev]
  {
  }

  lemma MonoAligned(a: seq<real>, b: seq<real>, dev: nat, want: nat)
    requires 0 < dev && |a| % dev == 0
    ensures MonoOf(a + b, dev, want) == MonoOf(a, dev, want) + MonoOf(b, dev, want)
  {
    MonoConcat(a, b, dev, want, |a| / dev);
  }

  lemma MonoHead(raw: seq<real>, dev: nat, want: nat)
    requires 0 < dev <= |raw|
    ensures MonoOf(raw, dev, want)
         == [if dev == want then raw[0] else DownmixFrame(raw[..dev])] + MonoOf(raw[dev..], dev, want)
  {
  }

  lemma {:induction false} MonoCount(raw: seq<real>, dev: nat, want: nat)
    requires 0 < dev
    ensures |MonoOf(raw, dev, want)| == |raw| / dev
  {
    Whole(|raw|, 1, dev);
    if dev <= |raw| {
      DropFrame(|raw|, dev);
      MonoCount(raw[dev..], dev, want);
    }
  }

  /** Sample `f` of the downmix is frame `f` of the device stream. */
  lemma {:induction false} MonoFrame(raw: seq<real>, dev: nat, want: nat, f: nat, at: nat)
    requires 0 < dev && f < |MonoOf(raw, dev, want)| && at == f * dev
    ensures at + dev <= |raw|
    ensures MonoOf(raw, dev, want)[f] == (if dev == want then raw[at] else DownmixFrame(raw[at..at + dev]))
    decreases f
  {
    if f == 0 {
      assert raw[..dev] == raw[0..dev];
    } else {
      PreviousFrame(f, dev, at);
      MonoHead(raw, dev, want);
      MonoFrame(raw[dev..], dev, want, f - 1, at - dev);
      SliceShift(raw, dev, at);
    }
  }

  lemma PreviousFrame(f: nat, dev: nat, at: nat)
    requires 0 < f && at == f * dev
    ensures dev <= at && at - dev == (f - 1) * dev
  {
    assert 0 <= (f - 1) * dev;
  }

  lemma SliceShift(raw: seq<real>, dev: nat, at: nat)
    requires dev <= at && at + dev <= |raw|
    ensures raw[dev..][at - dev..at] == raw[at..at + dev]
  {
  }

  /** What a list of callbacks delivers, each downmixed on its own. */
  function MonoEach(callbacks: seq<seq<real>>, dev: nat, want: nat): (r: seq<real>)
    requires 0 < dev
  {
    if callbacks == [] then [] else
      MonoEach(callbacks[..|callbacks| - 1], dev, want) + MonoOf(callbacks[|callbacks| - 1], dev, want)
  }

  ghost predicate Aligned(callbacks: seq<seq<real>>, dev: nat)
    requires 0 < dev
  {
    forall i :: 0 <= i < |callbacks| ==> |callbacks[i]| % dev == 0
  }

  lemma AlignedSum(a: nat, b: nat, dev: nat)
    requires 0 < dev && a % dev == 0 && b % dev == 0
    ensures (a + b) % dev == 0
  {
    var q := b / dev;
    assert b == q * dev;
    DivShift(a, q, dev);
  }

  lemma {:induction false} FlattenAligned(callbacks: seq<seq<real>>, dev: nat)
    requires 0 < dev && Aligned(callbacks, dev)
    ensures |Flatten(callbacks)| % dev == 0
  {
    if callbacks != [] {
      var init, last := callbacks[..|callbacks| - 1], callbacks[|callbacks| - 1];
      FlattenAligned(init, dev);
      AlignedSum(|Flatten(init)|, |last|, dev);
    }
  }

  /** Frame-aligned callbacks downmix to the downmix of the whole device stream. */
  lemma {:induction false} MonoEachAligned(callbacks: seq<seq<real>>, dev: nat, want: nat)
    requires 0 < dev && Aligned(callbacks, dev)
    ensures MonoEach(callbacks, dev, want) == MonoOf(Flatten(callbacks), dev, want)
  {
    if callbacks != [] {
      var init, last := callbacks[..|callbacks| - 1], callbacks[|callbacks| - 1];
      MonoEachAligned(init, dev, want);
      FlattenAligned(init, dev);
      MonoAligned(Flatten(init), last, dev, want);
    }
  }

  // ---------------------------------------------------------------------
  // Rate conversion and chunking
  // ---------------------------------------------------------------------

  /** The stream at the other rate; equal rates use no resampler at all. */
  function Converted(x: seq<real>, inRate: nat, outRate: nat): (r: seq<real>)
    requires 0 < inRate && 0 < outRate
  {
    if inRate == outRate then x else Resampled(x, inRate, outRate)
  }

  /** `s` cut into full chunks of `size`, with less than one chunk left over. */
  ghost predicate CutInto(s: seq<real>, size: nat, chunks: seq<seq<real>>, rest: seq<real>)
  {
    && |rest| < size
    && (forall i :: 0 <= i < |chunks| ==> |chunks[i]| == size)
    && s == Flatten(chunks) + rest
  }

  lemma {:induction false} FlattenSize(chunks: seq<seq<real>>, size: nat)
    requires forall i :: 0 <= i < |chunks| ==> |chunks[i]| == size
    ensures |Flatten(chunks)| == |chunks| * size
  {
    if chunks != [] {
      FlattenSize(chunks[..|chunks| - 1], size);
      assert |chunks| * size == (|chunks| - 1) * size + size;
    }
  }

  lemma {:induction false} FlattenBlock(chunks: seq<seq<real>>, size: nat, i: nat, at: nat)
    requires i < |chunks| && at == i * size && forall j :: 0 <= j < |chunks| ==> |chunks[j]| == size
    ensures at + size <= |Flatten(chunks)|
    ensures Flatten(chunks)[at..at + size] == chunks[i]
  {
    var n := |chunks| - 1;
    if i < n {
      FlattenBlock(chunks[..n], size, i, at);
      SliceOfPrefix(Flatten(chunks[..n]), chunks[n], at, size);
    } else {
      FlattenSize(chunks[..n], size);
    }
  }

  lemma SliceOfPrefix(s: seq<real>, t: seq<real>, at: nat, size: nat)
    requires at + size <= |s|
    ensures (s + t)[at..at + size] == s[at..at + size]
  {
  }

  /** A cut determines every chunk: the i-th is the i-th block of the stream. */
  lemma CutBlocks(s: seq<real>, size: nat, chunks: seq<seq<real>>, rest: seq<real>, i: nat, at: nat)
    requires 0 < size && CutInto(s, size, chunks, rest) && i < |chunks| && at == i * size
    ensures at + size <= |s|
    ensures chunks[i] == s[at..at + size]
  {
    FlattenBlock(chunks, size, i, at);
    SliceOfPrefix(Flatten(chunks), rest, at, size);
  }

  /** The number of chunks and the leftover are determined too. */
  lemma CutCount(s: seq<real>, size: nat, chunks: seq<seq<real>>, rest: seq<real>)
    requires 0 < size && CutInto(s, size, chunks, rest)
    ensures |chunks| == |s| / size && |rest| == |s| % size
  {
    FlattenSize(chunks, size);
    DivUnique(|s|, size, |chunks|, |rest|);
  }

  /** There is only one way to cut a stream. */
  lemma CutUnique(s: seq<real>, size: nat, chunks: seq<seq<real>>, rest: seq<real>,
                  chunks': seq<seq<real>>, rest': seq<real>)
    requires 0 < size && CutInto(s, size, chunks, rest) && CutInto(s, size, chunks', rest')
    ensures chunks == chunks' && rest == rest'
  {
    CutCount(s, size, chunks, rest);
    CutCount(s, size, chunks', rest');
    forall i | 0 <= i < |chunks| ensures chunks[i] == chunks'[i] {
      CutBlocks(s, size, chunks, rest, i, i * size);
      CutBlocks(s, size, chunks', rest', i, i * size);
    }
    assert chunks == chunks';
    assert rest == s[|Flatten(chunks)|..] == rest';
  }

  lemma CutPush(s: seq<real>, size: nat, chunks: seq<seq<real>>, rest: seq<real>, x: real)
    requires 0 < size && CutInto(s, size, chunks, rest)
    ensures |rest| + 1 < size ==> CutInto(s + [x], size, chunks, rest + [x])
    ensures size <= |rest| + 1 ==> CutInto(s + [x], size, chunks + [rest + [x]], [])
  {
    SnocAssoc(Flatten(chunks), rest, x);
    FlattenSnoc(chunks, rest + [x]);
  }

  /** The state captured by the callback closure. */
  class CaptureCallback {
    const devChannels: nat
    const wantChannels: nat
    const samplesPerChunk: nat
    const deviceRate: nat
    const engineRate: nat
    const resampler: LinearResampler?
    var buffered: seq<real>
    /** Chunks handed to the channel; whether a full channel drops one is not modelled. */
    var offered: seq<seq<real>>

    /** Every mono sample seen so far, at the device rate. */
    ghost var Mono: seq<real>

    ghost predicate Valid()
      reads this, resampler
    {
      && 0 < devChannels && 0 < samplesPerChunk && 0 < deviceRate && 0 < engineRate
      && (resampler == null <==> deviceRate == engineRate)
      && (resampler != null ==>
            && resampler.Valid() && resampler.Seen == Mono
            && resampler.num == deviceRate && resampler.den == engineRate)
      && CutInto(Converted(Mono, deviceRate, engineRate), samplesPerChunk, offered, buffered)
    }

    constructor (devChannels: nat, wantChannels: nat, samplesPerChunk: nat, deviceRate: nat, engineRate: nat)
      requires 0 < devChannels && 0 < samplesPerChunk && 0 < deviceRate && 0 < engineRate
      ensures Valid() && Mono == [] && offered == []
      ensures this.devChannels == devChannels && this.wantChannels == wantChannels
      ensures this.samplesPerChunk == samplesPerChunk
      ensures this.deviceRate == deviceRate && this.engineRate == engineRate
      ensures resampler == null || fresh(resampler)
    {
      this.devChannels, this.wantChannels, this.samplesPerChunk := devChannels, wantChannels, samplesPerChunk;
      this.deviceRate, this.engineRate := deviceRate, engineRate;
      if deviceRate != engineRate {
        var r := new LinearResampler(deviceRate, engineRate);
        this.resampler := r;
      } else {
        this.resampler := null;
      }
      buffered, offered, Mono := [], [], [];
    }

    /** One device callback: afterwards the chunks offered so far are the cut of the whole stream. */
    method Process(raw: seq<real>)
      requires Valid()
      modifies this, resampler
      ensures Valid()
      ensures Mono == old(Mono) + MonoOf(raw, devChannels, wantChannels)
      ensures deviceRate == engineRate ==> Flatten(offered) + buffered == Mono
      ensures deviceRate != engineRate ==> Flatten(offered) + buffered == Resampled(Mono, deviceRate, engineRate)
    {
      var mono := Downmix(raw, devChannels, wantChannels);
      var engineSamples := Convert(resampler, mono, deviceRate, engineRate, Mono);
      Chop(engineSamples, Converted(Mono, deviceRate, engineRate));
      Mono := Mono + mono;
    }

    method Chop(engineSamples: seq<real>, ghost before: seq<real>)
      requires 0 < samplesPerChunk && CutInto(before, samplesPerChunk, offered, buffered)
      modifies this`buffered, this`offered
      ensures CutInto(before + engineSamples, samplesPerChunk, offered, buffered)
    {
      assert before + engineSamples[..0] == before;
      for j := 0 to |engineSamples|
        invariant CutInto(before + engineSamples[..j], samplesPerChunk, offered, buffered)
      {
        var s := engineSamples[j];
        CutPush(before + engineSamples[..j], samplesPerChunk, offered, buffered, s);
        assert before + engineSamples[..j + 1] == (before + engineSamples[..j]) + [s];
        buffered := buffered + [s];
        if |buffered| >= samplesPerChunk {
          offered := offered + [buffered];
          buffered := [];
        }
      }
      assert engineSamples[..|engineSamples|] == engineSamples;
    }
  }

  /** Runs the optional resampler over the samples that follow `seen`. */
  method Convert(r: LinearResampler?, fed: seq<real>, inRate: nat, outRate: nat, ghost seen: seq<real>)
    returns (converted: seq<real>)
    requires 0 < inRate && 0 < outRate && (r == null <==> inRate == outRate)
    requires r != null ==> r.Valid() && r.Seen == seen && r.num == inRate && r.den == outRate
    modifies r
    ensures r != null ==> r.Valid() && r.Seen == seen + fed
    ensures Converted(seen + fed, inRate, outRate) == Converted(seen, inRate, outRate) + converted
    ensures inRate == outRate ==> converted == fed
    ensures inRate != outRate ==>
      Resampled(seen + fed, inRate, outRate) == Resampled(seen, inRate, outRate) + converted
  {
    converted := fed;
    if r != null {
      converted := r.Process(fed, []);
    }
  }

  /** The downmix loop over one callback buffer. */
  method Downmix(raw: seq<real>, dev: nat, want: nat) returns (mono: seq<real>)
    requires 0 < dev
    ensures mono == MonoOf(raw, dev, want)
  {
    mono := [];
    var i := 0;
    while i + dev <= |raw|
      invariant i <= |raw|
      invariant mono + MonoOf(raw[i..], dev, want) == MonoOf(raw, dev, want)
    {
      var sample := if dev == want then raw[i] else DownmixFrame(raw[i..i + dev]);
      assert raw[i..][..dev] == raw[i..i + dev];
      assert raw[i..][dev..] == raw[i + dev..];
      mono := mono + [sample];
      i := i + dev;
    }
  }

  /** A format without channels or with empty chunks is refused before any stream is built. */
  method BuildCapture(devChannels: nat, channels: nat, samplesPerChunk: nat, deviceRate: nat, engineRate: nat)
    returns (c: CaptureCallback?)
    requires 0 < devChannels && 0 < deviceRate && 0 < engineRate
    ensures c == null <==> channels == 0 || samplesPerChunk == 0
    ensures c != null ==>
      && fresh(c) && c.Valid() && c.Mono == [] && (c.resampler == null || fresh(c.resampler))
      && c.devChannels == devChannels && c.wantChannels == channels
      && c.samplesPerChunk == samplesPerChunk && c.deviceRate == deviceRate && c.engineRate == engineRate
  {
    if channels == 0 || samplesPerChunk == 0 {
      return null;
    }
    c := new CaptureCallback(devChannels, channels, samplesPerChunk, deviceRate, engineRate);
  }

  /**
   Any run of callbacks.  The chunks offered are the one and only cut of the
   converted mono stream; when the callbacks are frame-aligned that stream is a
   function of the concatenated device samples alone, so the split is invisible.
   */
  method RunCapture(dev: nat, want: nat, size: nat, deviceRate: nat, engineRate: nat, callbacks: seq<seq<real>>)
    returns (chunks: seq<seq<real>>, leftover: seq<real>)
    requires 0 < dev && 0 < size && 0 < deviceRate && 0 < engineRate
    ensures CutInto(Converted(MonoEach(callbacks, dev, want), deviceRate, engineRate), size, chunks, leftover)
    ensures |leftover| < size && forall i :: 0 <= i < |chunks| ==> |chunks[i]| == size
    ensures deviceRate == engineRate ==> Flatten(chunks) + leftover == MonoEach(callbacks, dev, want)
    ensures deviceRate != engineRate ==>
      Flatten(chunks) + leftover == Resampled(MonoEach(callbacks, dev, want), deviceRate, engineRate)
    ensures Aligned(callbacks, dev) ==>
      CutInto(Converted(MonoOf(Flatten(callbacks), dev, want), deviceRate, engineRate), size, chunks, leftover)
  {
    var c := new CaptureCallback(dev, want, size, deviceRate, engineRate);
    for i := 0 to |callbacks|
      invariant c.Valid() && fresh(c) && (c.resampler == null || fresh(c.resampler))
      invariant c.devChannels == dev && c.wantChannels == want && c.samplesPerChunk == size
      invariant c.deviceRate == deviceRate && c.engineRate == engineRate
      invariant c.Mono == MonoEach(callbacks[..i], dev, want)
    {
      c.Process(callbacks[i]);
      assert callbacks[..i + 1][..i] == callbacks[..i];
    }
    assert callbacks[..|callbacks|] == callbacks;
    if Aligned(callbacks, dev) {
      MonoEachAligned(callbacks, dev, want);
    }
    return c.offered, c.buffered;
  }

  /** Two frame-aligned deliveries of the same device stream offer the same chunks. */
  lemma CaptureIgnoresSplit(dev: nat, want: nat, size: nat, deviceRate: nat, engineRate: nat,
                            one: seq<seq<real>>, two: seq<seq<real>>,
                            chunks1: seq<seq<real>>, left1: seq<real>, chunks2: seq<seq<real>>, left2: seq<real>)
    requires 0 < dev && 0 < size && 0 < deviceRate && 0 < engineRate
    requires Aligned(one, dev) && Aligned(two, dev) && Flatten(one) == Flatten(two)
    requires CutInto(Converted(MonoEach(one, dev, want), deviceRate, engineRate), size, chunks1, left1)
    requires CutInto(Converted(MonoEach(two, dev, want), deviceRate, engineRate), size, chunks2, left2)
    ensures chunks1 == chunks2 && left1 == left2
  {
    MonoEachAligned(one, dev, want);
    MonoEachAligned(two, dev, want);
    CutUnique(Converted(MonoEach(one, dev, want), deviceRate, engineRate), size, chunks1, left1, chunks2, left2);
  }

  /** Without alignment the split shows: a frame torn across two callbacks is lost. */
  lemma TornFrameIsLost()
    ensures MonoEach([[1.0], [3.0]], 2, 1) != MonoOf(Flatten([[1.0], [3.0]]), 2, 1)
  {
    assert [[1.0], [3.0]][..1] == [[1.0]];
    assert MonoEach([[1.0], [3.0]], 2, 1) == MonoEach([[1.0]], 2, 1) + MonoOf([3.0], 2, 1);
    assert MonoEach([[1.0]], 2, 1) == MonoEach([], 2, 1) + MonoOf([1.0], 2, 1);
    assert Flatten([[1.0], [3.0]]) == Flatten([[1.0]]) + [3.0];
    assert |MonoOf(Flatten([[1.0], [3.0]]), 2, 1)| == 1;
  }
}
