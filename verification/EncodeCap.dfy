/**
 The screenshare encode loop: frames are rate-capped, keyframe requests are not.
 Time is in milliseconds and never runs backwards between frames.
 */
module EncodeCap {
  import opened Arith
  import opened Seqs

  /** Between frames any number of viewers may ask for a keyframe; each frame has its arrival time. */
  datatype Happening = KeyframeRequest | Frame(time: nat)

  /** One encode attempt. */
  datatype Attempt = Attempt(time: nat, forced: bool)

  function Interval(fps: nat): (ms: nat)
  {
    1000 / if fps == 0 then 1 else fps
  }

  /** The loop's state: the last attempt's time and the shared request flag. */
  datatype Loop = Loop(last: Option<nat>, flag: bool)

  function Decide(fps: nat, s: Loop, h: Happening): (r: (Loop, Option<Attempt>))
  {
    match h
    case KeyframeRequest => (s.(flag := true), None)
    case Frame(now) =>
      if !s.flag && s.last.Some? && now - s.last.value < Interval(fps) then (s, None)
      else (Loop(Some(now), false), Some(Attempt(now, s.flag)))
  }

  function After(fps: nat, run: seq<Happening>): (s: Loop)
  {
    if run == [] then Loop(None, false) else Decide(fps, After(fps, run[..|run| - 1]), run[|run| - 1]).0
  }

  function Attempts(fps: nat, run: seq<Happening>): (r: seq<Attempt>)
  {
    if run == [] then [] else
      var init, h := run[..|run| - 1], run[|run| - 1];
      var a := Decide(fps, After(fps, init), h).1;
      Attempts(fps, init) + if a.Some? then [a.value] else []
  }

  /** The loop itself, with its two mutable variables. */
  method RunEncodeLoop(fps: nat, run: seq<Happening>) returns (attempts: seq<Attempt>)
    ensures attempts == Attempts(fps, run)
  {
    var minInterval := 1000 / if fps == 0 then 1 else fps;
    var lastEncode: Option<nat> := None;
    var forceKeyframe := false;
    attempts := [];
    for k := 0 to |run|
      invariant After(fps, run[..k]) == Loop(lastEncode, forceKeyframe)
      invariant attempts == Attempts(fps, run[..k])
    {
      assert run[..k + 1][..k] == run[..k];
      match run[k] {
        case KeyframeRequest =>
          forceKeyframe := true;
        case Frame(now) =>
          var wantKeyframe := forceKeyframe;
          forceKeyframe := false;
          if wantKeyframe || lastEncode.None? || !(now - lastEncode.value < minInterval) {
            lastEncode := Some(now);
            attempts := attempts + [Attempt(now, wantKeyframe)];
          }
      }
    }
    assert run[..|run|] == run;
  }

  ghost predicate Monotone(run: seq<Happening>)
  {
    forall i, j :: 0 <= i < j < |run| && run[i].Frame? && run[j].Frame? ==> run[i].time <= run[j].time
  }

  /** Attempts in order of time, each unforced one a full interval after the attempt before it. */
  ghost predicate Spaced(as_: seq<Attempt>, gap: nat)
  {
    && (forall i, j :: 0 <= i < j < |as_| ==> as_[i].time <= as_[j].time)
    && (forall i, j :: 0 <= i < j < |as_| && !as_[j].forced ==> as_[i].time + gap <= as_[j].time)
  }

  lemma {:induction false} LastIsAFrame(fps: nat, run: seq<Happening>)
    ensures After(fps, run).last.Some? ==> exists j :: 0 <= j < |run| && run[j] == Frame(After(fps, run).last.value)
  {
    if run != [] && After(fps, run).last.Some? {
      var n := |run| - 1;
      LastIsAFrame(fps, run[..n]);
      if After(fps, run).last == After(fps, run[..n]).last {
        var j :| 0 <= j < n && run[..n][j] == Frame(After(fps, run).last.value);
        assert run[j] == Frame(After(fps, run).last.value);
      } else {
        assert run[n] == Frame(After(fps, run).last.value);
      }
    }
  }

  /** Time does not run backwards past the last attempt. */
  lemma LastIsPast(fps: nat, run: seq<Happening>, now: nat)
    requires Monotone(run + [Frame(now)])
    ensures After(fps, run).last.Some? ==> After(fps, run).last.value <= now
  {
    LastIsAFrame(fps, run);
    if After(fps, run).last.Some? {
      var j :| 0 <= j < |run| && run[j] == Frame(After(fps, run).last.value);
      var all := run + [Frame(now)];
      assert all[j].time <= all[|run|].time;
    }
  }

  lemma {:induction false} AttemptsAreSpaced(fps: nat, run: seq<Happening>)
    requires Monotone(run)
    ensures Spaced(Attempts(fps, run), Interval(fps))
    ensures var as_, s := Attempts(fps, run), After(fps, run);
            if as_ == [] then s.last.None? else s.last == Some(as_[|as_| - 1].time)
  {
    if run != [] {
      var init, h := run[..|run| - 1], run[|run| - 1];
      AttemptsAreSpaced(fps, init);
      var a := Decide(fps, After(fps, init), h).1;
      if a.Some? {
        assert run == init + [Frame(h.time)];
        LastIsPast(fps, init, h.time);
        SpacedSnoc(Attempts(fps, init), a.value, Interval(fps));
      }
    }
  }

  lemma SpacedSnoc(as_: seq<Attempt>, a: Attempt, gap: nat)
    requires Spaced(as_, gap)
    requires as_ != [] ==> as_[|as_| - 1].time <= a.time
    requires as_ != [] && !a.forced ==> as_[|as_| - 1].time + gap <= a.time
    ensures Spaced(as_ + [a], gap)
  {
    forall i | 0 <= i < |as_| ensures as_[i].time <= as_[|as_| - 1].time {
    }
  }

  /** Unforced attempts, of which the cap limits the rate. */
  function Unforced(as_: seq<Attempt>): (r: seq<nat>)
  {
    if as_ == [] then [] else
      Unforced(as_[..|as_| - 1]) + if as_[|as_| - 1].forced then [] else [as_[|as_| - 1].time]
  }

  ghost predicate Apart(ts: seq<nat>, gap: nat)
  {
    forall i, j :: 0 <= i < j < |ts| ==> ts[i] + gap <= ts[j]
  }

  lemma {:induction false} UnforcedApart(as_: seq<Attempt>, gap: nat)
    requires Spaced(as_, gap)
    ensures Apart(Unforced(as_), gap)
    ensures forall i :: 0 <= i < |Unforced(as_)| ==> exists j :: 0 <= j < |as_| && as_[j].time == Unforced(as_)[i]
  {
    if as_ != [] {
      var n := |as_| - 1;
      UnforcedApart(as_[..n], gap);
      var before, all := Unforced(as_[..n]), Unforced(as_);
      forall i | 0 <= i < |before| ensures exists j :: 0 <= j < n && as_[j].time == before[i] {
        var j :| 0 <= j < n && as_[..n][j].time == before[i];
        assert as_[j].time == before[i];
      }
      if !as_[n].forced {
        forall i | 0 <= i < |before| ensures before[i] + gap <= as_[n].time {
          var j :| 0 <= j < n && as_[j].time == before[i];
        }
        assert as_[n].time == all[|all| - 1];
      }
    }
  }

  /** How many of the times lie in the window of length `span` that opens at `t`. */
  function InWindow(ts: seq<nat>, t: nat, span: nat): (n: nat)
  {
    if ts == [] then 0 else
      InWindow(ts[..|ts| - 1], t, span) + if t <= ts[|ts| - 1] <= t + span then 1 else 0
  }

  /** The times in a window spread over all but one of their intervals. */
  lemma {:induction false} WindowSpread(ts: seq<nat>, gap: nat, t: nat, span: nat) returns (first: nat, last: nat)
    requires Apart(ts, gap) && 0 < InWindow(ts, t, span)
    ensures first <= last < |ts| && t <= ts[first] && ts[last] <= t + span
    ensures (InWindow(ts, t, span) - 1) * gap <= ts[last] - ts[first]
  {
    var n := |ts| - 1;
    var before := InWindow(ts[..n], t, span);
    if before == 0 {
      return n, n;
    }
    first, last := WindowSpread(ts[..n], gap, t, span);
    if t <= ts[n] <= t + span {
      assert ts[last] + gap <= ts[n];
      assert before * gap == (before - 1) * gap + gap;
      last := n;
    }
  }

  /**
   The cap over every run: any window of length `span` holds at most
   span / interval + 1 attempts that no request forced.
   */
  lemma RateIsCapped(fps: nat, run: seq<Happening>, t: nat, span: nat)
    requires Monotone(run) && 0 < Interval(fps)
    ensures InWindow(Unforced(Attempts(fps, run)), t, span) <= span / Interval(fps) + 1
  {
    var gap, ts := Interval(fps), Unforced(Attempts(fps, run));
    AttemptsAreSpaced(fps, run);
    UnforcedApart(Attempts(fps, run), gap);
    var n := InWindow(ts, t, span);
    if n > 0 {
      var first, last := WindowSpread(ts, gap, t, span);
      Whole(span, n - 1, gap);
    }
  }

  lemma AfterSnoc(fps: nat, run: seq<Happening>, h: Happening)
    ensures After(fps, run + [h]) == Decide(fps, After(fps, run), h).0
    ensures Attempts(fps, run + [h])
         == Attempts(fps, run) + (var a := Decide(fps, After(fps, run), h).1; if a.Some? then [a.value] else [])
  {
    assert (run + [h])[..|run|] == run;
  }

  /** A keyframe request is honoured by the very next frame, however soon that frame comes. */
  lemma RequestIsHonoured(fps: nat, before: seq<Happening>, requests: nat, now: nat)
    requires 0 < requests
    ensures Attempts(fps, before + seq(requests, _ => KeyframeRequest) + [Frame(now)])
         == Attempts(fps, before) + [Attempt(now, true)]
    decreases requests
  {
    var rs := seq(requests, _ => KeyframeRequest);
    RequestsRaiseFlag(fps, before, requests);
    AfterSnoc(fps, before + rs, Frame(now));
  }

  lemma {:induction false} RequestsRaiseFlag(fps: nat, before: seq<Happening>, requests: nat)
    ensures var rs := seq(requests, _ => KeyframeRequest);
            && Attempts(fps, before + rs) == Attempts(fps, before)
            && (0 < requests ==> After(fps, before + rs).flag)
  {
    var rs := seq(requests, _ => KeyframeRequest);
    if requests == 0 {
      assert before + rs == before;
    } else {
      var fewer := seq(requests - 1, _ => KeyframeRequest);
      RequestsRaiseFlag(fps, before, requests - 1);
      assert before + rs == (before + fewer) + [KeyframeRequest];
      AfterSnoc(fps, before + fewer, KeyframeRequest);
    }
  }

  // ---------------------------------------------------------------------
  // Which frames are encoded
  // ---------------------------------------------------------------------

  /** A keyframe has been requested since the last frame. */
  ghost predicate Requested(run: seq<Happening>)
  {
    exists i :: 0 <= i < |run| && run[i].KeyframeRequest? && forall j :: i < j < |run| ==> !run[j].Frame?
  }

  lemma RequestedSnoc(run: seq<Happening>, h: Happening)
    ensures Requested(run + [h]) <==> h.KeyframeRequest? || (!h.Frame? && Requested(run))
  {
    var longer := run + [h];
    if h.KeyframeRequest? {
      assert longer[|run|].KeyframeRequest?;
    }
    if !h.Frame? && Requested(run) {
      var i :| 0 <= i < |run| && run[i].KeyframeRequest? && forall j :: i < j < |run| ==> !run[j].Frame?;
      assert longer[i].KeyframeRequest?;
    }
    if Requested(longer) {
      var i :| 0 <= i < |longer| && longer[i].KeyframeRequest? && forall j :: i < j < |longer| ==> !longer[j].Frame?;
      if i < |run| {
        assert !longer[|run|].Frame? && run[i].KeyframeRequest?;
        assert forall j :: i < j < |run| ==> run[j] == longer[j];
      }
    }
  }

  lemma {:induction false} FlagMeansRequested(fps: nat, run: seq<Happening>)
    ensures After(fps, run).flag <==> Requested(run)
  {
    if run != [] {
      var init, h := run[..|run| - 1], run[|run| - 1];
      FlagMeansRequested(fps, init);
      assert run == init + [h];
      RequestedSnoc(init, h);
    }
  }

  /** Every attempt so far is at least 1000 / max(fps, 1) milliseconds old. */
  ghost predicate AllOld(as_: seq<Attempt>, fps: nat, now: nat)
  {
    forall i :: 0 <= i < |as_| ==> as_[i].time + 1000 / (if fps < 1 then 1 else fps) <= now
  }

  /**
   A frame is encoded if and only if a keyframe was requested since the frame before,
   or every earlier attempt is at least 1000 / max(fps, 1) milliseconds old; it is a
   forced keyframe exactly in the first case.
   */
  lemma FrameIsEncodedIff(fps: nat, run: seq<Happening>, now: nat)
    requires Monotone(run + [Frame(now)])
    ensures Attempts(fps, run + [Frame(now)])
         == Attempts(fps, run) + if Requested(run) || AllOld(Attempts(fps, run), fps, now)
                                 then [Attempt(now, Requested(run))] else []
  {
    PrefixMonotone(run, [Frame(now)]);
    AttemptsAreSpaced(fps, run);
    FlagMeansRequested(fps, run);
    AfterSnoc(fps, run, Frame(now));
    LastIsPast(fps, run, now);
    LastIsNewest(fps, Attempts(fps, run), now);
  }

  lemma PrefixMonotone(run: seq<Happening>, more: seq<Happening>)
    requires Monotone(run + more)
    ensures Monotone(run)
  {
    var all := run + more;
    forall i, j | 0 <= i < j < |run| && run[i].Frame? && run[j].Frame? ensures run[i].time <= run[j].time {
      assert all[i] == run[i] && all[j] == run[j];
    }
  }

  lemma LastIsNewest(fps: nat, as_: seq<Attempt>, now: nat)
    requires Spaced(as_, Interval(fps))
    ensures AllOld(as_, fps, now) <==> as_ == [] || as_[|as_| - 1].time + Interval(fps) <= now
  {
    if as_ != [] && as_[|as_| - 1].time + Interval(fps) <= now {
      forall i | 0 <= i < |as_| ensures as_[i].time + 1000 / (if fps < 1 then 1 else fps) <= now {
        assert as_[i].time <= as_[|as_| - 1].time;
      }
    }
  }

  /** Some attempt covers the time: it is not later, and less than an interval (or not at all) earlier. */
  ghost predicate Covered(as_: seq<Attempt>, fps: nat, now: nat)
  {
    exists i :: 0 <= i < |as_| && as_[i].time <= now
      && (now == as_[i].time || now < as_[i].time + 1000 / (if fps < 1 then 1 else fps))
  }

  lemma CoveredKept(as_: seq<Attempt>, more: seq<Attempt>, fps: nat, now: nat)
    requires Covered(as_, fps, now)
    ensures Covered(as_ + more, fps, now)
  {
    var i :| 0 <= i < |as_| && as_[i].time <= now
      && (now == as_[i].time || now < as_[i].time + 1000 / (if fps < 1 then 1 else fps));
    assert (as_ + more)[i] == as_[i];
  }

  lemma FrameCovered(fps: nat, run: seq<Happening>, now: nat)
    requires Monotone(run + [Frame(now)])
    ensures Covered(Attempts(fps, run + [Frame(now)]), fps, now)
  {
    FrameIsEncodedIff(fps, run, now);
    var before, all := Attempts(fps, run), Attempts(fps, run + [Frame(now)]);
    if all == before {
      PrefixMonotone(run, [Frame(now)]);
      AttemptsAreSpaced(fps, run);
      LastIsPast(fps, run, now);
      LastIsNewest(fps, before, now);
      assert before[|before| - 1].time <= now;
    } else {
      assert all[|all| - 1].time == now;
    }
  }

  /** The share never freezes while frames come: every frame has an encode attempt less than an interval before it. */
  lemma {:induction false} NeverFreezes(fps: nat, run: seq<Happening>, k: nat)
    requires Monotone(run) && k < |run| && run[k].Frame?
    ensures Covered(Attempts(fps, run), fps, run[k].time)
    decreases |run|
  {
    var init, h := run[..|run| - 1], run[|run| - 1];
    assert run == init + [h];
    if k == |run| - 1 {
      FrameCovered(fps, init, h.time);
    } else {
      PrefixMonotone(init, [h]);
      NeverFreezes(fps, init, k);
      AfterSnoc(fps, init, h);
      CoveredKept(Attempts(fps, init), var a := Decide(fps, After(fps, init), h).1; if a.Some? then [a.value] else [], fps, run[k].time);
    }
  }
}
