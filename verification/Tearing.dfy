/**
 When a cut between two capture callbacks can be heard.  The callback keeps no
 partial frame, so a frame torn by a cut is lost and shifts all later ones; the
 exact condition under which no stream of the given callback lengths is affected
 is that no cut falls inside a complete frame.
 */
module Tearing {
  import opened Seqs
  import opened Arith
  import opened Capture

  /** Samples delivered before callback `i`. */
  ghost function Cut(callbacks: seq<seq<real>>, i: nat): (n: nat)
    requires i <= |callbacks|
  {
    |Flatten(callbacks[..i])|
  }

  /** A cut after `t` of `total` samples falls between frames or into the last, incomplete one. */
  predicate Harmless(t: nat, total: nat, dev: nat)
    requires 0 < dev
  {
    t % dev == 0 || t / dev == total / dev
  }

  ghost predicate NoFrameTorn(callbacks: seq<seq<real>>, dev: nat)
    requires 0 < dev
  {
    forall i :: 0 <= i <= |callbacks| ==> Harmless(Cut(callbacks, i), |Flatten(callbacks)|, dev)
  }

  ghost predicate SameLengths(callbacks: seq<seq<real>>, other: seq<seq<real>>)
  {
    |callbacks| == |other| && forall i :: 0 <= i < |callbacks| ==> |callbacks[i]| == |other[i]|
  }

  ghost predicate Seamless(callbacks: seq<seq<real>>, dev: nat, want: nat)
    requires 0 < dev
  {
    MonoEach(callbacks, dev, want) == MonoOf(Flatten(callbacks), dev, want)
  }

  /** Whatever the samples are, callbacks of these lengths downmix to the downmix of the stream. */
  ghost predicate SplitInvisible(callbacks: seq<seq<real>>, dev: nat, want: nat)
    requires 0 < dev
  {
    forall other :: SameLengths(callbacks, other) ==> Seamless(other, dev, want)
  }

  lemma CutNext(callbacks: seq<seq<real>>, i: nat)
    requires i < |callbacks|
    ensures Cut(callbacks, i + 1) == Cut(callbacks, i) + |callbacks[i]|
  {
    assert callbacks[..i + 1][..i] == callbacks[..i];
  }

  lemma {:induction false} CutMonotone(callbacks: seq<seq<real>>, i: nat, j: nat)
    requires i <= j <= |callbacks|
    ensures Cut(callbacks, i) <= Cut(callbacks, j)
    decreases j
  {
    if i < j {
      CutMonotone(callbacks, i, j - 1);
      CutNext(callbacks, j - 1);
    }
  }

  lemma CutAll(callbacks: seq<seq<real>>)
    ensures Cut(callbacks, |callbacks|) == |Flatten(callbacks)|
  {
    assert callbacks[..|callbacks|] == callbacks;
  }

  lemma {:induction false} SameCuts(callbacks: seq<seq<real>>, other: seq<seq<real>>, i: nat)
    requires SameLengths(callbacks, other) && i <= |callbacks|
    ensures Cut(callbacks, i) == Cut(other, i)
  {
    if i > 0 {
      SameCuts(callbacks, other, i - 1);
      CutNext(callbacks, i - 1);
      CutNext(other, i - 1);
    }
  }

  // ---------------------------------------------------------------------
  // Sufficiency
  // ---------------------------------------------------------------------

  lemma PartialIsSilent(head: seq<real>, partial: seq<real>, dev: nat, want: nat, frames: nat)
    requires 0 < dev && |head| == frames * dev && |partial| < dev
    ensures MonoOf(head + partial, dev, want) == MonoOf(head, dev, want)
  {
    MonoConcat(head, partial, dev, want, frames);
  }

  lemma Remainder(x: nat, dev: nat, frames: nat, n: nat)
    requires 0 < dev && x / dev == frames && n == frames * dev
    ensures n <= x < n + dev
  {
    assert x == x / dev * dev + x % dev;
  }

  lemma CompleteFrames(a: seq<real>, n: nat, dev: nat, want: nat, frames: nat)
    requires 0 < dev && n == frames * dev && n <= |a| < n + dev
    ensures MonoOf(a, dev, want) == MonoOf(a[..n], dev, want)
  {
    assert a == a[..n] + a[n..];
    PartialIsSilent(a[..n], a[n..], dev, want, frames);
  }

  /** Samples that complete no further frame change nothing. */
  lemma TailIsSilent(a: seq<real>, b: seq<real>, dev: nat, want: nat)
    requires 0 < dev && |a + b| / dev == |a| / dev
    ensures MonoOf(a + b, dev, want) == MonoOf(a, dev, want)
  {
    var frames := |a| / dev;
    var n := frames * dev;
    Remainder(|a|, dev, frames, n);
    Remainder(|a + b|, dev, frames, n);
    CompleteFrames(a, n, dev, want, frames);
    CompleteFrames(a + b, n, dev, want, frames);
    assert (a + b)[..n] == a[..n];
  }

  lemma DivMonotone(x: nat, y: nat, dev: nat)
    requires 0 < dev && x <= y
    ensures x / dev <= y / dev
  {
    Whole(x, y / dev + 1, dev);
    Whole(y, y / dev + 1, dev);
  }

  lemma InitUntorn(callbacks: seq<seq<real>>, dev: nat)
    requires 0 < dev && callbacks != [] && NoFrameTorn(callbacks, dev)
    ensures NoFrameTorn(callbacks[..|callbacks| - 1], dev)
  {
    var n := |callbacks| - 1;
    var init := callbacks[..n];
    CutMonotone(callbacks, n, n + 1);
    CutAll(callbacks);
    forall i | 0 <= i <= |init| ensures Harmless(Cut(init, i), |Flatten(init)|, dev) {
      assert init[..i] == callbacks[..i];
      assert Harmless(Cut(callbacks, i), |Flatten(callbacks)|, dev);
      CutMonotone(callbacks, i, n);
      DivMonotone(Cut(callbacks, i), Cut(callbacks, n), dev);
      DivMonotone(Cut(callbacks, n), |Flatten(callbacks)|, dev);
    }
  }

  lemma {:induction false} UntornIsSeamless(callbacks: seq<seq<real>>, dev: nat, want: nat)
    requires 0 < dev && NoFrameTorn(callbacks, dev)
    ensures Seamless(callbacks, dev, want)
  {
    if callbacks != [] {
      var init, last := callbacks[..|callbacks| - 1], callbacks[|callbacks| - 1];
      InitUntorn(callbacks, dev);
      UntornIsSeamless(init, dev, want);
      assert Harmless(Cut(callbacks, |init|), |Flatten(callbacks)|, dev);
      if |Flatten(init)| % dev == 0 {
        MonoAligned(Flatten(init), last, dev, want);
      } else {
        TailIsSilent(Flatten(init), last, dev, want);
        ShortIsSilent(|Flatten(init)|, last, dev, want);
      }
    }
  }

  lemma ShortIsSilent(n: nat, last: seq<real>, dev: nat, want: nat)
    requires 0 < dev && (n + |last|) / dev == n / dev
    ensures MonoOf(last, dev, want) == []
  {
    if dev <= |last| {
      DivMonotone(n + dev, n + |last|, dev);
      DivShift(n, 1, dev);
    }
  }

  // ---------------------------------------------------------------------
  // Necessity: a single audible sample in the torn frame
  // ---------------------------------------------------------------------

  ghost function Pulse(n: nat, at: int): (r: seq<real>)
    ensures |r| == n && forall j :: 0 <= j < n ==> r[j] == if j == at then 1.0 else 0.0
  {
    seq(n, j => if j == at then 1.0 else 0.0)
  }

  /** Silent callbacks of the same lengths, except for one sample of the stream. */
  ghost function Spike(callbacks: seq<seq<real>>, at: nat): (r: seq<seq<real>>)
    ensures |r| == |callbacks|
  {
    if callbacks == [] then [] else
      var init := callbacks[..|callbacks| - 1];
      Spike(init, at) + [Pulse(|callbacks[|callbacks| - 1]|, at - |Flatten(init)|)]
  }

  lemma {:induction false} SpikeShape(callbacks: seq<seq<real>>, at: nat)
    ensures SameLengths(callbacks, Spike(callbacks, at))
    ensures Flatten(Spike(callbacks, at)) == Pulse(|Flatten(callbacks)|, at)
  {
    if callbacks != [] {
      SpikeShape(callbacks[..|callbacks| - 1], at);
      var init := Spike(callbacks[..|callbacks| - 1], at);
      assert Spike(callbacks, at)[..|init|] == init;
    }
  }

  lemma {:induction false} SumSpike(s: seq<real>)
    requires s != [] && forall i :: 1 <= i < |s| ==> s[i] == 0.0
    ensures Sum(s) == s[0]
  {
    if |s| == 1 {
      assert s[..0] == [];
      assert Sum(s) == Sum([]) + s[0];
    } else {
      SumSpike(s[..|s| - 1]);
    }
  }

  lemma MonoOfPulse(total: nat, dev: nat, want: nat, f: nat, at: nat)
    requires 0 < dev && f < total / dev && at == f * dev
    ensures f < |MonoOf(Pulse(total, at), dev, want)|
    ensures MonoOf(Pulse(total, at), dev, want)[f] > 0.0
  {
    var raw := Pulse(total, at);
    MonoCount(raw, dev, want);
    MonoFrame(raw, dev, want, f, at);
    SumSpike(raw[at..at + dev]);
    assert 1.0 / dev as real > 0.0;
  }

  ghost predicate Silent(s: seq<real>)
  {
    forall i :: 0 <= i < |s| ==> s[i] == 0.0
  }

  /** The samples of the complete frames among `n`. */
  function Full(n: nat, dev: nat): (m: nat)
    requires 0 < dev
  {
    n / dev * dev
  }

  lemma FullRange(n: nat, dev: nat)
    requires 0 < dev
    ensures Full(n, dev) <= n && (Full(n, dev) == n <==> n % dev == 0)
  {
    assert n == n / dev * dev + n % dev;
  }

  /** Sample `at` is not in any complete frame of its callback. */
  ghost predicate Dropped(callbacks: seq<seq<real>>, dev: nat, at: int)
    requires 0 < dev
  {
    forall c :: 0 <= c < |callbacks| ==> at < Cut(callbacks, c) || Cut(callbacks, c) + Full(|callbacks[c]|, dev) <= at
  }

  lemma FrameIsSilent(n: nat, dev: nat, want: nat, at: int, f: nat, start: nat)
    requires 0 < dev && (at < 0 || Full(n, dev) <= at) && f < |MonoOf(Pulse(n, at), dev, want)| && start == f * dev
    ensures MonoOf(Pulse(n, at), dev, want)[f] == 0.0
  {
    var raw := Pulse(n, at);
    MonoCount(raw, dev, want);
    MonoFrame(raw, dev, want, f, start);
    MulStep(f, n / dev, dev);
    SumSpike(raw[start..start + dev]);
  }

  lemma CallbackIsSilent(n: nat, dev: nat, want: nat, at: int)
    requires 0 < dev && (at < 0 || Full(n, dev) <= at)
    ensures Silent(MonoOf(Pulse(n, at), dev, want))
  {
    forall f | 0 <= f < |MonoOf(Pulse(n, at), dev, want)| ensures MonoOf(Pulse(n, at), dev, want)[f] == 0.0 {
      FrameIsSilent(n, dev, want, at, f, f * dev);
    }
  }

  lemma InitDropped(callbacks: seq<seq<real>>, dev: nat, at: nat)
    requires 0 < dev && callbacks != [] && Dropped(callbacks, dev, at)
    ensures Dropped(callbacks[..|callbacks| - 1], dev, at)
  {
    var init := callbacks[..|callbacks| - 1];
    forall c | 0 <= c < |init| ensures at < Cut(init, c) || Cut(init, c) + Full(|init[c]|, dev) <= at {
      assert init[..c] == callbacks[..c];
      assert at < Cut(callbacks, c) || Cut(callbacks, c) + Full(|callbacks[c]|, dev) <= at;
    }
  }

  lemma {:induction false} DroppedIsSilent(callbacks: seq<seq<real>>, dev: nat, want: nat, at: nat)
    requires 0 < dev && Dropped(callbacks, dev, at)
    ensures Silent(MonoEach(Spike(callbacks, at), dev, want))
  {
    if callbacks != [] {
      var n := |callbacks| - 1;
      InitDropped(callbacks, dev, at);
      DroppedIsSilent(callbacks[..n], dev, want, at);
      assert Spike(callbacks, at)[..n] == Spike(callbacks[..n], at);
      assert at < Cut(callbacks, n) || Cut(callbacks, n) + Full(|callbacks[n]|, dev) <= at;
      CallbackIsSilent(|callbacks[n]|, dev, want, at - |Flatten(callbacks[..n])|);
    }
  }

  /** The first cut that tears a frame. */
  lemma {:induction false} FirstTorn(callbacks: seq<seq<real>>, dev: nat, k: nat) returns (i: nat)
    requires 0 < dev && k <= |callbacks| && !Harmless(Cut(callbacks, k), |Flatten(callbacks)|, dev)
    ensures 0 < i <= k && !Harmless(Cut(callbacks, i), |Flatten(callbacks)|, dev)
    ensures Harmless(Cut(callbacks, i - 1), |Flatten(callbacks)|, dev)
    decreases k
  {
    assert callbacks[..0] == [];
    if Harmless(Cut(callbacks, k - 1), |Flatten(callbacks)|, dev) {
      i := k;
    } else {
      i := FirstTorn(callbacks, dev, k - 1);
    }
  }

  /** A callback that starts on a frame boundary drops what follows its last complete frame. */
  lemma LastFrameStart(start: nat, n: nat, dev: nat)
    requires 0 < dev && start % dev == 0
    ensures start + Full(n, dev) == Full(start + n, dev)
  {
    var q := start / dev;
    assert start == q * dev;
    DivShift(n, q, dev);
    assert (n / dev + q) * dev == n / dev * dev + q * dev;
  }

  /** The first torn cut lies beyond a frame boundary, inside a complete frame. */
  lemma TornCut(start: nat, t: nat, total: nat, dev: nat)
    requires 0 < dev && start <= t <= total
    requires Harmless(start, total, dev) && !Harmless(t, total, dev)
    ensures start % dev == 0 && t / dev < total / dev && Full(t, dev) < t
  {
    DivMonotone(start, t, dev);
    DivMonotone(t, total, dev);
    FullRange(t, dev);
  }

  lemma DroppedAt(callbacks: seq<seq<real>>, dev: nat, i: nat, at: nat, c: nat)
    requires 0 < dev && 0 < i <= |callbacks| && c < |callbacks|
    requires at == Cut(callbacks, i - 1) + Full(|callbacks[i - 1]|, dev) && at < Cut(callbacks, i)
    ensures at < Cut(callbacks, c) || Cut(callbacks, c) + Full(|callbacks[c]|, dev) <= at
  {
    if c < i - 1 {
      CutMonotone(callbacks, c + 1, i - 1);
      CutNext(callbacks, c);
      FullRange(|callbacks[c]|, dev);
    } else if c > i - 1 {
      CutMonotone(callbacks, i, c);
    }
  }

  lemma DroppedEverywhere(callbacks: seq<seq<real>>, dev: nat, i: nat, at: nat)
    requires 0 < dev && 0 < i <= |callbacks|
    requires at == Cut(callbacks, i - 1) + Full(|callbacks[i - 1]|, dev) && at < Cut(callbacks, i)
    ensures Dropped(callbacks, dev, at)
  {
    forall c | 0 <= c < |callbacks|
      ensures at < Cut(callbacks, c) || Cut(callbacks, c) + Full(|callbacks[c]|, dev) <= at
    {
      DroppedAt(callbacks, dev, i, at, c);
    }
  }

  /** A torn frame `f` starts with a sample that its callback drops. */
  lemma TornStart(start: nat, n: nat, total: nat, dev: nat) returns (f: nat, at: nat)
    requires 0 < dev && start + n <= total
    requires Harmless(start, total, dev) && !Harmless(start + n, total, dev)
    ensures at == f * dev && f < total / dev && at == start + Full(n, dev) && at < start + n
  {
    TornCut(start, start + n, total, dev);
    LastFrameStart(start, n, dev);
    f, at := (start + n) / dev, Full(start + n, dev);
  }

  lemma CutsAround(callbacks: seq<seq<real>>, i: nat)
    requires 0 < i <= |callbacks|
    ensures Cut(callbacks, i) == Cut(callbacks, i - 1) + |callbacks[i - 1]| <= |Flatten(callbacks)|
  {
    CutAll(callbacks);
    CutMonotone(callbacks, i, |callbacks|);
    CutNext(callbacks, i - 1);
  }

  /** Silence on one side, sound on the other. */
  lemma DroppedIsHeard(callbacks: seq<seq<real>>, dev: nat, want: nat, f: nat, at: nat)
    requires 0 < dev && Dropped(callbacks, dev, at) && at == f * dev && f < |Flatten(callbacks)| / dev
    ensures !Seamless(Spike(callbacks, at), dev, want)
  {
    SpikeShape(callbacks, at);
    DroppedIsSilent(callbacks, dev, want, at);
    MonoOfPulse(|Flatten(callbacks)|, dev, want, f, at);
  }

  lemma TornAt(callbacks: seq<seq<real>>, dev: nat, want: nat, i: nat, f: nat, at: nat)
    requires 0 < dev && 0 < i <= |callbacks| && at == f * dev && f < |Flatten(callbacks)| / dev
    requires at == Cut(callbacks, i - 1) + Full(|callbacks[i - 1]|, dev) && at < Cut(callbacks, i)
    ensures !SplitInvisible(callbacks, dev, want)
  {
    DroppedEverywhere(callbacks, dev, i, at);
    DroppedIsHeard(callbacks, dev, want, f, at);
    SpikeLengths(callbacks, dev, want, at);
  }

  lemma TornIsHeard(callbacks: seq<seq<real>>, dev: nat, want: nat, k: nat)
    requires 0 < dev && k <= |callbacks| && !Harmless(Cut(callbacks, k), |Flatten(callbacks)|, dev)
    ensures !SplitInvisible(callbacks, dev, want)
  {
    var i := FirstTorn(callbacks, dev, k);
    CutsAround(callbacks, i);
    var f, at := TornStart(Cut(callbacks, i - 1), |callbacks[i - 1]|, |Flatten(callbacks)|, dev);
    TornAt(callbacks, dev, want, i, f, at);
  }

  lemma SpikeLengths(callbacks: seq<seq<real>>, dev: nat, want: nat, at: nat)
    requires 0 < dev && !Seamless(Spike(callbacks, at), dev, want)
    ensures !SplitInvisible(callbacks, dev, want)
  {
    SpikeShape(callbacks, at);
  }

  /**
   Callbacks of given lengths deliver every stream as if it came in one piece if
   and only if no cut falls inside a complete frame.
   */
  lemma SplitInvisibleIff(callbacks: seq<seq<real>>, dev: nat, want: nat)
    requires 0 < dev
    ensures SplitInvisible(callbacks, dev, want) <==> NoFrameTorn(callbacks, dev)
  {
    if NoFrameTorn(callbacks, dev) {
      forall other | SameLengths(callbacks, other) ensures Seamless(other, dev, want) {
        forall i | 0 <= i <= |other| ensures Harmless(Cut(other, i), |Flatten(other)|, dev) {
          SameCuts(callbacks, other, i);
          SameCuts(callbacks, other, |other|);
          CutAll(callbacks);
          CutAll(other);
        }
        UntornIsSeamless(other, dev, want);
      }
    } else {
      var k :| 0 <= k <= |callbacks| && !Harmless(Cut(callbacks, k), |Flatten(callbacks)|, dev);
      TornIsHeard(callbacks, dev, want, k);
    }
  }
}
