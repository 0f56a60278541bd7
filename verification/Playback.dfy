/**
 The playback callback: mono engine chunks are pulled from a queue, converted to
 the device rate, spread over the device channels and copied into the device
 buffer; what a buffer cannot be filled with is silence.
 */
module Playback {
  import opened Seqs
  import opened Resampler
  import Capture

  function Repeat(s: real, n: nat): (r: seq<real>)
    ensures |r| == n && forall i :: 0 <= i < n ==> r[i] == s
  {
    if n == 0 then [] else Repeat(s, n - 1) + [s]
  }

  /** Number of device slots one mono sample fills: never zero. */
  function Width(dev: nat, want: nat): (w: nat)
    ensures 0 < w
  {
    if dev == want || dev == 0 then 1 else dev
  }

  /** Every sample of `mono`, each repeated `w` times. */
  function Spread(mono: seq<real>, w: nat): (r: seq<real>)
  {
    if mono == [] then [] else Spread(mono[..|mono| - 1], w) + Repeat(mono[|mono| - 1], w)
  }

  lemma {:induction false} SpreadConcat(a: seq<real>, b: seq<real>, w: nat)
    ensures Spread(a + b, w) == Spread(a, w) + Spread(b, w)
    decreases |b|
  {
    if b == [] {
      assert a + b == a;
    } else {
      SpreadConcat(a, b[..|b| - 1], w);
      assert (a + b)[..|a + b| - 1] == a + b[..|b| - 1];
      assert (Spread(a, w) + Spread(b[..|b| - 1], w)) + Repeat(b[|b| - 1], w)
          == Spread(a, w) + (Spread(b[..|b| - 1], w) + Repeat(b[|b| - 1], w));
    }
  }

  /** Slot `c` of frame `i` carries mono sample `i`. */
  lemma {:induction false} SpreadAt(mono: seq<real>, w: nat, i: nat, c: nat, at: nat)
    requires i < |mono| && c < w && at == i * w + c
    ensures |Spread(mono, w)| == |mono| * w && at < |mono| * w
    ensures Spread(mono, w)[at] == mono[i]
  {
    var n := |mono| - 1;
    SpreadSize(mono, w);
    SpreadSize(mono[..n], w);
    assert |mono| * w == n * w + w;
    if i < n {
      SpreadAt(mono[..n], w, i, c, at);
    }
  }

  lemma {:induction false} SpreadSize(mono: seq<real>, w: nat)
    ensures |Spread(mono, w)| == |mono| * w
  {
    if mono != [] {
      SpreadSize(mono[..|mono| - 1], w);
      assert |mono| * w == (|mono| - 1) * w + w;
    }
  }

  lemma SpreadOne(mono: seq<real>)
    ensures Spread(mono, 1) == mono
  {
    if mono != [] {
      SpreadOne(mono[..|mono| - 1]);
      assert Repeat(mono[|mono| - 1], 1) == [mono[|mono| - 1]];
    }
  }

  /** Replicates one mono sample over the device channels, at least once. */
  method UpmixInto(sample: real, channels: nat, out: seq<real>) returns (out': seq<real>)
    ensures out' == out + Repeat(sample, if channels == 0 then 1 else channels)
  {
    out' := out;
    for j := 0 to (if channels == 0 then 1 else channels)
      invariant out' == out + Repeat(sample, j)
    {
      out' := out' + [sample];
    }
  }

  /** The mono samples laid out for the device, appended to what is pending. */
  method Expand(mono: seq<real>, dev: nat, want: nat, pending: seq<real>) returns (pending': seq<real>)
    ensures pending' == pending + Spread(mono, Width(dev, want))
    ensures Plays(pending'[|pending|..], mono, dev, want)
  {
    SpreadPlays(mono, dev, want);
    if dev == want {
      SpreadOne(mono);
      return pending + mono;
    }
    pending' := pending;
    for j := 0 to |mono|
      invariant pending' == pending + Spread(mono[..j], Width(dev, want))
    {
      assert mono[..j + 1][..j] == mono[..j];
      pending' := UpmixInto(mono[j], dev, pending');
    }
    assert mono[..|mono|] == mono;
  }

  /** What the device should have been given once `chunks` have been pulled. */
  function Laid(chunks: seq<seq<real>>, engineRate: nat, deviceRate: nat, dev: nat, want: nat): (r: seq<real>)
    requires 0 < engineRate && 0 < deviceRate
  {
    Spread(Capture.Converted(Flatten(chunks), engineRate, deviceRate), Width(dev, want))
  }

  /** The part of it that the last chunk added. */
  function Newest(chunks: seq<seq<real>>, engineRate: nat, deviceRate: nat, dev: nat, want: nat): (r: seq<real>)
    requires 0 < engineRate && 0 < deviceRate
  {
    if chunks == [] then [] else
      var all, before := Laid(chunks, engineRate, deviceRate, dev, want),
                         Laid(chunks[..|chunks| - 1], engineRate, deviceRate, dev, want);
      if |before| <= |all| then all[|before|..] else []
  }

  /** Device slot `c` of frame `f` when there are `dev` channels. */
  function SlotOf(dev: nat, f: nat, c: nat): (j: nat)
  {
    f * dev + c
  }

  /** `out` plays the mono samples `x`: as they are if the counts agree, else on every device channel. */
  ghost predicate Plays(out: seq<real>, x: seq<real>, dev: nat, want: nat)
  {
    && (dev == want || dev == 0 ==> out == x)
    && (dev != want && 0 < dev ==>
          && |out| == |x| * dev
          && forall f: nat, c: nat :: f < |x| && c < dev ==>
               SlotOf(dev, f, c) < |out| && out[SlotOf(dev, f, c)] == x[f])
  }

  /** ... where `x` is the pulled stream, resampled if the rates differ. */
  ghost predicate PlaysStream(out: seq<real>, pulled: seq<seq<real>>, engineRate: nat, deviceRate: nat, dev: nat, want: nat)
    requires 0 < engineRate && 0 < deviceRate
  {
    Plays(out, if engineRate == deviceRate then Flatten(pulled) else Resampled(Flatten(pulled), engineRate, deviceRate),
          dev, want)
  }

  lemma SpreadPlays(x: seq<real>, dev: nat, want: nat)
    ensures Plays(Spread(x, Width(dev, want)), x, dev, want)
  {
    if dev == want || dev == 0 {
      SpreadOne(x);
    } else {
      SpreadSize(x, dev);
      forall f: nat, c: nat | f < |x| && c < dev
        ensures SlotOf(dev, f, c) < |Spread(x, dev)| && Spread(x, dev)[SlotOf(dev, f, c)] == x[f]
      {
        SpreadAt(x, dev, f, c, SlotOf(dev, f, c));
      }
    }
  }

  lemma LaidPlays(chunks: seq<seq<real>>, engineRate: nat, deviceRate: nat, dev: nat, want: nat)
    requires 0 < engineRate && 0 < deviceRate
    ensures PlaysStream(Laid(chunks, engineRate, deviceRate, dev, want), chunks, engineRate, deviceRate, dev, want)
  {
    SpreadPlays(Capture.Converted(Flatten(chunks), engineRate, deviceRate), dev, want);
  }

  /** The newest part is what the stream with the last chunk has beyond the stream without it. */
  lemma NewestIsLast(chunks: seq<seq<real>>, engineRate: nat, deviceRate: nat, dev: nat, want: nat)
    requires 0 < engineRate && 0 < deviceRate && chunks != []
    ensures Laid(chunks, engineRate, deviceRate, dev, want)
         == Laid(chunks[..|chunks| - 1], engineRate, deviceRate, dev, want) + Newest(chunks, engineRate, deviceRate, dev, want)
  {
    var init, last := chunks[..|chunks| - 1], chunks[|chunks| - 1];
    var before, w := Capture.Converted(Flatten(init), engineRate, deviceRate), Width(dev, want);
    if engineRate != deviceRate {
      ResampledPrefix(Flatten(init), last, engineRate, deviceRate);
    }
    var all := Capture.Converted(Flatten(init) + last, engineRate, deviceRate);
    assert all == before + all[|before|..];
    SpreadConcat(before, all[|before|..], w);
  }

  lemma LaidGrows(pulled: seq<seq<real>>, chunk: seq<real>, mono: seq<real>,
                  engineRate: nat, deviceRate: nat, dev: nat, want: nat)
    requires 0 < engineRate && 0 < deviceRate
    requires Capture.Converted(Flatten(pulled) + chunk, engineRate, deviceRate)
          == Capture.Converted(Flatten(pulled), engineRate, deviceRate) + mono
    ensures Laid(pulled + [chunk], engineRate, deviceRate, dev, want)
         == Laid(pulled, engineRate, deviceRate, dev, want) + Spread(mono, Width(dev, want))
    ensures Newest(pulled + [chunk], engineRate, deviceRate, dev, want) == Spread(mono, Width(dev, want))
  {
    assert (pulled + [chunk])[..|pulled|] == pulled;
    FlattenSnoc(pulled, chunk);
    SpreadConcat(Capture.Converted(Flatten(pulled), engineRate, deviceRate), mono, Width(dev, want));
  }

  lemma Keep(played: seq<real>, pending: seq<real>, more: seq<real>)
    ensures played + (pending + more) == (played + pending) + more
  {
  }

  class PlaybackCallback {
    const devChannels: nat
    const wantChannels: nat
    const engineRate: nat
    const deviceRate: nat
    const resampler: LinearResampler?
    /** Chunks waiting in the channel. */
    var queue: seq<seq<real>>
    var pending: seq<real>

    /** Chunks pulled from the channel so far. */
    ghost var Pulled: seq<seq<real>>
    /** Every device sample played so far that was not padding. */
    ghost var Played: seq<real>

    /** Nothing is lost, repeated or reordered. */
    ghost predicate Conserved()
      reads this, resampler
    {
      && 0 < engineRate && 0 < deviceRate
      && (resampler == null <==> engineRate == deviceRate)
      && (resampler != null ==>
            && resampler.Valid() && resampler.Seen == Flatten(Pulled)
            && resampler.num == engineRate && resampler.den == deviceRate)
      && Played + pending == Laid(Pulled, engineRate, deviceRate, devChannels, wantChannels)
    }

    /** The device samples of the last chunk pulled. */
    ghost function LastLaid(): (r: seq<real>)
      requires 0 < engineRate && 0 < deviceRate
      reads this
    {
      Newest(Pulled, engineRate, deviceRate, devChannels, wantChannels)
    }

    /** Between callbacks less than one laid-out chunk is pending. */
    ghost predicate Valid()
      reads this, resampler
    {
      Conserved() && ProperTail(pending, LastLaid())
    }

    constructor (devChannels: nat, wantChannels: nat, engineRate: nat, deviceRate: nat)
      requires 0 < engineRate && 0 < deviceRate
      ensures Valid() && queue == [] && Pulled == [] && Played == []
      ensures this.devChannels == devChannels && this.wantChannels == wantChannels
      ensures this.engineRate == engineRate && this.deviceRate == deviceRate
      ensures resampler == null || fresh(resampler)
    {
      this.devChannels, this.wantChannels := devChannels, wantChannels;
      this.engineRate, this.deviceRate := engineRate, deviceRate;
      if deviceRate != engineRate {
        var r := new LinearResampler(engineRate, deviceRate);
        this.resampler := r;
      } else {
        this.resampler := null;
      }
      queue, pending := [], [];
      Pulled, Played := [], [];
    }

    /** A chunk arrives in the channel. */
    method Arrive(chunk: seq<real>)
      requires Valid()
      modifies this`queue
      ensures Valid() && queue == old(queue) + [chunk]
    {
      queue := queue + [chunk];
    }

    /** Takes the oldest chunk from the channel. */
    method Receive() returns (chunk: seq<real>)
      requires queue != []
      modifies this`queue
      ensures [chunk] + queue == old(queue)
    {
      chunk := queue[0];
      queue := queue[1..];
    }

    /** Converts one chunk and lays it out behind what is pending. */
    method Append(chunk: seq<real>)
      requires Conserved()
      modifies this`pending, this`Pulled, resampler
      ensures Conserved() && Pulled == old(Pulled) + [chunk]
      ensures pending == old(pending) + LastLaid()
    {
      FlattenSnoc(Pulled, chunk);
      var mono := Capture.Convert(resampler, chunk, engineRate, deviceRate, Flatten(Pulled));
      LaidGrows(Pulled, chunk, mono, engineRate, deviceRate, devChannels, wantChannels);
      Keep(Played, pending, Spread(mono, Width(devChannels, wantChannels)));
      pending := Expand(mono, devChannels, wantChannels, pending);
      Pulled := Pulled + [chunk];
    }

    /** Pulls one chunk. */
    method Pull()
      requires Conserved() && queue != []
      modifies this, resampler
      ensures Conserved() && Played == old(Played)
      ensures Pulled + queue == old(Pulled + queue) && |queue| < |old(queue)|
      ensures pending == old(pending) + LastLaid()
    {
      var chunk := Receive();
      MoveHead(Pulled, chunk, queue);
      Append(chunk);
    }

    /** Pulls chunks until `n` samples are pending or the queue is empty. */
    method PullUntil(n: nat)
      requires Valid()
      modifies this, resampler
      ensures Conserved() && Played == old(Played)
      ensures Pulled + queue == old(Pulled + queue)
      ensures ProperTail(pending, LastLaid()) || Overlaps(pending, LastLaid(), n)
      ensures |pending| < n ==> queue == []
    {
      while |pending| < n && queue != []
        invariant Conserved() && Played == old(Played)
        invariant Pulled + queue == old(Pulled + queue)
        invariant ProperTail(pending, LastLaid()) || Overlaps(pending, LastLaid(), n)
        decreases |queue|
      {
        ghost var was := pending;
        Pull();
        AfterPull(was, LastLaid(), n);
      }
    }

    /** Removes what a buffer of `n` samples took. */
    method Drain(n: nat, take: nat)
      requires Conserved() && (ProperTail(pending, LastLaid()) || Overlaps(pending, LastLaid(), n))
      requires take == if |pending| < n then |pending| else n
      modifies this`pending, this`Played
      ensures Valid() && Played == old(Played + pending[..take])
      ensures take < n ==> pending == []
    {
      TakeTail(pending, LastLaid(), n, take);
      SplitAssoc(Played, pending, take);
      Played := Played + pending[..take];
      pending := pending[take..];
    }

    /** Pulls what is needed, copies what there is, silences the rest. */
    method TakeFromQueue(out: array<real>) returns (take: nat)
      requires Valid()
      modifies this, resampler, out
      ensures Valid()
      ensures Pulled + queue == old(Pulled + queue)
      ensures take <= out.Length && Played == old(Played) + out[..take]
      ensures forall i :: take <= i < out.Length ==> out[i] == 0.0
      ensures take < out.Length ==> queue == [] && pending == []
    {
      PullUntil(out.Length);
      take := if |pending| < out.Length then |pending| else out.Length;
      Copy(out, pending, take);
      Drain(out.Length, take);
    }

    /**
     Fills one device buffer.  The first `take` samples continue the stream; the
     rest is silence, written only when no queued chunk was left to pull.  All that
     was played, with what is pending, plays the pulled stream on every channel.
     */
    method Fill(out: array<real>) returns (take: nat)
      requires Valid()
      modifies this, resampler, out
      ensures Valid()
      ensures Pulled + queue == old(Pulled + queue)
      ensures take <= out.Length && Played == old(Played) + out[..take]
      ensures forall i :: take <= i < out.Length ==> out[i] == 0.0
      ensures take < out.Length ==> queue == [] && pending == []
      ensures PlaysStream(Played + pending, Pulled, engineRate, deviceRate, devChannels, wantChannels)
    {
      take := TakeFromQueue(out);
      LaidPlays(Pulled, engineRate, deviceRate, devChannels, wantChannels);
    }
  }

  lemma SplitAssoc(played: seq<real>, pending: seq<real>, take: nat)
    requires take <= |pending|
    ensures (played + pending[..take]) + pending[take..] == played + pending
  {
  }

  /** `pending` ends with all of `last`, and what stands before it is shorter than the buffer. */
  ghost predicate Overlaps(pending: seq<real>, last: seq<real>, n: nat)
  {
    |last| <= |pending| < n + |last| && pending[|pending| - |last|..] == last
  }

  lemma MoveHead(pulled: seq<seq<real>>, chunk: seq<real>, queue: seq<seq<real>>)
    ensures (pulled + [chunk]) + queue == pulled + ([chunk] + queue)
  {
  }

  lemma AfterPull(was: seq<real>, last: seq<real>, n: nat)
    requires |was| < n
    ensures Overlaps(was + last, last, n)
  {
    assert (was + last)[|was|..] == last;
  }

  lemma TakeTail(pending: seq<real>, last: seq<real>, n: nat, take: nat)
    requires ProperTail(pending, last) || Overlaps(pending, last, n)
    requires take == if |pending| < n then |pending| else n
    ensures ProperTail(pending[take..], last)
  {
    var t := pending[take..];
    if t != [] {
      assert t == last[|last| - |t|..];
    }
  }

  /** Copies `take` samples into the buffer and silences the remainder. */
  method Copy(out: array<real>, samples: seq<real>, take: nat)
    requires take <= |samples| && take <= out.Length
    modifies out
    ensures out[..take] == samples[..take]
    ensures forall i :: take <= i < out.Length ==> out[i] == 0.0
  {
    for j := 0 to out.Length
      invariant forall i :: 0 <= i < j ==> out[i] == if i < take then samples[i] else 0.0
    {
      out[j] := if j < take then samples[j] else 0.0;
    }
  }

  /** `t` is a tail of `s`, and not all of a non-empty `s`. */
  ghost predicate ProperTail(t: seq<real>, s: seq<real>)
  {
    t == [] || (|t| < |s| && t == s[|s| - |t|..])
  }

  // ---------------------------------------------------------------------
  // Whole runs
  // ---------------------------------------------------------------------

  /** What happens to the callback: chunks arrive, and the device asks for `size` samples. */
  datatype Happening = Arrival(chunk: seq<real>) | Request(size: nat)

  /** One filled device buffer and how much of it is not padding. */
  datatype Buffer = Buffer(samples: seq<real>, take: nat)

  function Arrivals(run: seq<Happening>): (r: seq<seq<real>>)
  {
    if run == [] then [] else
      Arrivals(run[..|run| - 1]) + (match run[|run| - 1] case Arrival(c) => [c] case Request(_) => [])
  }

  function Requests(run: seq<Happening>): (r: seq<nat>)
  {
    if run == [] then [] else
      Requests(run[..|run| - 1]) + (match run[|run| - 1] case Arrival(_) => [] case Request(n) => [n])
  }

  ghost predicate WellFilled(b: Buffer)
  {
    && b.take <= |b.samples|
    && (forall i :: b.take <= i < |b.samples| ==> b.samples[i] == 0.0)
  }

  ghost predicate AllFilled(bs: seq<Buffer>, sizes: seq<nat>)
  {
    |bs| == |sizes| && forall i :: 0 <= i < |bs| ==> WellFilled(bs[i]) && |bs[i].samples| == sizes[i]
  }

  /** The buffers with their padding removed. */
  ghost function Audible(bs: seq<Buffer>): (r: seq<real>)
  {
    if bs == [] then [] else
      var b := bs[|bs| - 1];
      Audible(bs[..|bs| - 1]) + if b.take <= |b.samples| then b.samples[..b.take] else b.samples
  }

  lemma AudibleSnoc(bs: seq<Buffer>, b: Buffer, sizes: seq<nat>, n: nat)
    requires AllFilled(bs, sizes) && WellFilled(b) && |b.samples| == n
    ensures AllFilled(bs + [b], sizes + [n])
    ensures Audible(bs + [b]) == Audible(bs) + b.samples[..b.take]
  {
    assert (bs + [b])[..|bs|] == bs;
  }

  /** If buffer `b` holds padding, everything that had arrived by then has been heard. */
  ghost predicate PaddedOnlyWhenDry(bs: seq<Buffer>, b: nat, arrived: seq<seq<real>>,
                                    engineRate: nat, deviceRate: nat, dev: nat, want: nat)
    requires 0 < engineRate && 0 < deviceRate
  {
    b < |bs| && (bs[b].take < |bs[b].samples| ==>
                   PlaysStream(Audible(bs[..b + 1]), arrived, engineRate, deviceRate, dev, want))
  }

  /** No request of the run was answered with silence while there was something to play. */
  ghost predicate NeverMute(bs: seq<Buffer>, run: seq<Happening>,
                            engineRate: nat, deviceRate: nat, dev: nat, want: nat)
    requires 0 < engineRate && 0 < deviceRate
  {
    forall j :: 0 <= j < |run| && run[j].Request? ==>
      PaddedOnlyWhenDry(bs, |Requests(run[..j])|, Arrivals(run[..j]), engineRate, deviceRate, dev, want)
  }

  lemma NeverMuteNext(bs: seq<Buffer>, bs': seq<Buffer>, run: seq<Happening>, k: nat,
                      engineRate: nat, deviceRate: nat, dev: nat, want: nat)
    requires 0 < engineRate && 0 < deviceRate && k < |run|
    requires NeverMute(bs, run[..k], engineRate, deviceRate, dev, want) && bs <= bs'
    requires run[k].Request? ==>
      PaddedOnlyWhenDry(bs', |Requests(run[..k])|, Arrivals(run[..k]), engineRate, deviceRate, dev, want)
    ensures NeverMute(bs', run[..k + 1], engineRate, deviceRate, dev, want)
  {
    var next := run[..k + 1];
    forall j | 0 <= j < |next| && next[j].Request?
      ensures PaddedOnlyWhenDry(bs', |Requests(next[..j])|, Arrivals(next[..j]), engineRate, deviceRate, dev, want)
    {
      assert next[..j] == run[..k][..j] == run[..j];
      if j < k {
        var b := |Requests(run[..j])|;
        assert PaddedOnlyWhenDry(bs, b, Arrivals(run[..k][..j]), engineRate, deviceRate, dev, want);
        assert bs'[..b + 1] == bs[..b + 1];
      }
    }
  }

  /**
   Conservation over any run: the buffers have the sizes asked for, the queue is
   the not yet pulled end of the arrivals, and the audible parts of the buffers
   followed by `pending` are the laid-out conversion of all chunks before it; less
   than the newest of those chunks is pending.  A buffer with padding in it has
   played everything that arrived before it was asked for.
   */
  method RunPlayback(dev: nat, want: nat, engineRate: nat, deviceRate: nat, run: seq<Happening>)
    returns (buffers: seq<Buffer>, pending: seq<real>, queue: seq<seq<real>>)
    requires 0 < engineRate && 0 < deviceRate
    ensures AllFilled(buffers, Requests(run))
    ensures NeverMute(buffers, run, engineRate, deviceRate, dev, want)
    ensures |queue| <= |Arrivals(run)|
    ensures var pulled := |Arrivals(run)| - |queue|;
            && queue == Arrivals(run)[pulled..]
            && Audible(buffers) + pending == Laid(Arrivals(run)[..pulled], engineRate, deviceRate, dev, want)
            && ProperTail(pending, Newest(Arrivals(run)[..pulled], engineRate, deviceRate, dev, want))
            && PlaysStream(Audible(buffers) + pending, Arrivals(run)[..pulled], engineRate, deviceRate, dev, want)
            && (pending != [] ==> |pending| < |Newest(Arrivals(run)[..pulled], engineRate, deviceRate, dev, want)|)
  {
    var c := new PlaybackCallback(dev, want, engineRate, deviceRate);
    buffers := [];
    for k := 0 to |run|
      invariant c.Valid() && fresh(c) && (c.resampler == null || fresh(c.resampler))
      invariant c.devChannels == dev && c.wantChannels == want
      invariant c.engineRate == engineRate && c.deviceRate == deviceRate
      invariant AllFilled(buffers, Requests(run[..k])) && c.Played == Audible(buffers)
      invariant c.Pulled + c.queue == Arrivals(run[..k])
      invariant NeverMute(buffers, run[..k], engineRate, deviceRate, dev, want)
    {
      Unroll(run, k);
      ghost var before := buffers;
      buffers := Happen(c, run[k], buffers, Requests(run[..k]), Arrivals(run[..k]));
      NeverMuteNext(before, buffers, run, k, engineRate, deviceRate, dev, want);
    }
    assert run[..|run|] == run;
    pending, queue := c.pending, c.queue;
    SplitArrivals(c.Pulled, c.queue);
    LaidPlays(c.Pulled, engineRate, deviceRate, dev, want);
  }

  lemma Unroll(run: seq<Happening>, k: nat)
    requires k < |run|
    ensures Arrivals(run[..k + 1]) == if run[k].Arrival? then Arrivals(run[..k]) + [run[k].chunk] else Arrivals(run[..k])
    ensures Requests(run[..k + 1]) == if run[k].Request? then Requests(run[..k]) + [run[k].size] else Requests(run[..k])
  {
    assert run[..k + 1][..k] == run[..k];
  }

  lemma SplitArrivals(pulled: seq<seq<real>>, queue: seq<seq<real>>)
    ensures var all := pulled + queue; all[..|all| - |queue|] == pulled && all[|all| - |queue|..] == queue
  {
  }

  lemma SnocQueue(pulled: seq<seq<real>>, queue: seq<seq<real>>, chunk: seq<real>)
    ensures pulled + (queue + [chunk]) == (pulled + queue) + [chunk]
  {
  }

  /** One arrival or one request. */
  method Happen(c: PlaybackCallback, h: Happening, buffers0: seq<Buffer>, ghost sizes: seq<nat>, ghost arrived: seq<seq<real>>)
    returns (buffers: seq<Buffer>)
    requires c.Valid() && AllFilled(buffers0, sizes) && c.Played == Audible(buffers0)
    requires c.Pulled + c.queue == arrived
    modifies c, c.resampler
    ensures c.Valid() && c.Played == Audible(buffers) && buffers0 <= buffers
    ensures AllFilled(buffers, if h.Request? then sizes + [h.size] else sizes)
    ensures c.Pulled + c.queue == if h.Arrival? then arrived + [h.chunk] else arrived
    ensures h.Request? ==>
      PaddedOnlyWhenDry(buffers, |sizes|, arrived, c.engineRate, c.deviceRate, c.devChannels, c.wantChannels)
  {
    buffers := buffers0;
    match h {
      case Arrival(chunk) =>
        SnocQueue(c.Pulled, c.queue, chunk);
        c.Arrive(chunk);
      case Request(n) =>
        var b := Serve(c, n, arrived);
        AudibleSnoc(buffers, b, sizes, n);
        buffers := buffers + [b];
        assert buffers[..|sizes| + 1] == buffers;
    }
  }

  /** One device request, with the buffer as a value. */
  method Serve(c: PlaybackCallback, n: nat, ghost arrived: seq<seq<real>>) returns (b: Buffer)
    requires c.Valid() && c.Pulled + c.queue == arrived
    modifies c, c.resampler
    ensures c.Valid() && c.Pulled + c.queue == arrived
    ensures WellFilled(b) && |b.samples| == n && c.Played == old(c.Played) + b.samples[..b.take]
    ensures b.take < n ==>
      PlaysStream(c.Played, arrived, c.engineRate, c.deviceRate, c.devChannels, c.wantChannels)
  {
    var out := new real[n];
    var take := c.Fill(out);
    b := Buffer(out[..], take);
    assert b.samples[..take] == out[..take];
    if take < n {
      AllPlayed(c.Played, c.pending, c.Pulled, c.queue);
    }
  }

  lemma AllPlayed(played: seq<real>, pending: seq<real>, pulled: seq<seq<real>>, queue: seq<seq<real>>)
    requires pending == [] && queue == []
    ensures played + pending == played && pulled + queue == pulled
  {
  }
}
