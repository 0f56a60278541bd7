/**
 Crash and replay.  For a log whose commits are numbered in order, any history of
 steward runs -- restarted from earlier cursors, fed the log in any batches, cut
 short at will -- is compared with a single uninterrupted run.  When they end in
 the same state, and what a cut between a store change and the following save
 loses, is stated exactly.
 */
module StewardReplay {
  import opened Seqs
  import opened ChannelState
  import opened Steward

  function Max(a: nat, b: nat): (m: nat)
  {
    if a < b then b else a
  }

  /** Commits among the first `k` events. */
  function Commits(log: seq<Event>, k: nat): (n: nat)
    requires k <= |log|
  {
    if k == 0 then 0 else Commits(log, k - 1) + if log[k - 1].Commit? then 1 else 0
  }

  /** Index of the first Welcome for this device at or after `k`; `|log|` if there is none. */
  function Welcome(log: seq<Event>, k: nat): (m: nat)
    requires k <= |log|
    ensures k <= m <= |log|
    ensures m < |log| ==> log[m].MyWelcome?
    ensures forall i :: k <= i < m ==> !log[i].MyWelcome?
    decreases |log| - k
  {
    if k == |log| || log[k].MyWelcome? then k else Welcome(log, k + 1)
  }

  /** Where this device joins, and at which epoch. */
  function Join(log: seq<Event>): (m: nat)
    ensures m <= |log|
  {
    Welcome(log, 0)
  }

  function JoinEpoch(log: seq<Event>): (w: nat)
  {
    if Join(log) < |log| then log[Join(log)].epoch else 0
  }

  /** Event `i` is a commit not older than the joined group. */
  predicate MetAt(log: seq<Event>, i: nat)
  {
    Join(log) <= i < |log| && log[i].Commit? && JoinEpoch(log) <= log[i].epoch
  }

  /** ... and it fails a gate. */
  predicate FaultAt(log: seq<Event>, i: nat)
  {
    MetAt(log, i) && !log[i].verdict.Honest?
  }

  function FirstFault(log: seq<Event>, k: nat): (q: nat)
    requires k <= |log|
    ensures k <= q <= |log|
    ensures q < |log| ==> FaultAt(log, q)
    ensures forall i :: k <= i < q ==> !FaultAt(log, i)
    decreases |log| - k
  {
    if k == |log| || FaultAt(log, k) then k else FirstFault(log, k + 1)
  }

  /** Index of the first such commit; `|log|` if there is none. */
  function Fault(log: seq<Event>): (q: nat)
    ensures Join(log) <= q <= |log|
  {
    FirstFault(log, Join(log))
  }

  /** The i-th commit carries epoch base + i. */
  ghost predicate Numbered(log: seq<Event>, base: nat)
  {
    forall i :: 0 <= i < |log| && log[i].Commit? ==> log[i].epoch == base + Commits(log, i)
  }

  /** Every commit before my Welcome is older than the Welcome's epoch. */
  ghost predicate WelcomeCurrent(log: seq<Event>, base: nat)
  {
    Join(log) < |log| ==> base + Commits(log, Join(log)) <= JoinEpoch(log)
  }

  /** An impostor whose reason a load does not mistake for the old bug's. */
  predicate Terminal(e: Event)
  {
    e.Commit? && e.verdict.Impostor? && Genuine(e.verdict.reason)
  }

  ghost predicate Sequential(log: seq<Event>, base: nat)
  {
    Numbered(log, base) && WelcomeCurrent(log, base)
  }

  /** ... and the first fault, if any, is terminal. */
  ghost predicate Orderly(log: seq<Event>, base: nat)
  {
    Sequential(log, base) && (Fault(log) < |log| ==> Terminal(log[Fault(log)]))
  }

  lemma {:induction false} CommitsMonotone(log: seq<Event>, i: nat, k: nat)
    requires i <= k <= |log|
    ensures Commits(log, i) <= Commits(log, k)
    ensures i < k && log[i].Commit? ==> Commits(log, i) < Commits(log, k)
    decreases k
  {
    if i < k {
      CommitsMonotone(log, i, k - 1);
    }
  }

  /** The group once the first `k` events have taken effect. */
  function GroupAt(log: seq<Event>, base: nat, k: nat): (g: Option<nat>)
    requires k <= |log|
  {
    if k <= Join(log) then None else Some(Max(JoinEpoch(log), base + Commits(log, k)))
  }

  /** The store holds exactly the effect of the first `k` events, and the cursor is not past them. */
  ghost predicate InStep(d: Disk, log: seq<Event>, base: nat, k: nat)
  {
    && k <= |log|
    && d.group == GroupAt(log, base, k)
    && (Rec(d).poisoned.None? ==> Rec(d).cursor <= k)
  }

  /** The record agrees with the store; a fault's epoch is never recorded. */
  ghost predicate Faithful(d: Disk, log: seq<Event>, k: nat)
  {
    && k <= Fault(log) + 1
    && (match d.group
        case None => Rec(d).epoch == 0
        case Some(g) => Rec(d).epoch + (if k <= Fault(log) then 0 else 1) == g)
    && (Rec(d).confirmed <==> Join(log) < k)
    && (k <= Fault(log) ==> Rec(d).poisoned.None?)
    && (Fault(log) < k ==> Fault(log) < |log| && Terminal(log[Fault(log)]) && Rec(d).poisoned == Some(log[Fault(log)].verdict.reason))
    && Rec(d).cadence == NEVER
    && (d.file.Some? ==> d.file.value == Rec(d))
  }

  // ---------------------------------------------------------------------
  // One event
  // ---------------------------------------------------------------------

  /** A run that works on the record as loaded. */
  function Resume(d: Disk, log: seq<Event>, i: nat, next: nat, cut: Cut): (r: (Disk, Result))
    requires i <= next <= |log|
  {
    RunFrom(d, Rec(d), log, i, next, cut)
  }

  /** The durable state after one event handled and saved. */
  function Stepped(d: Disk, e: Event, next: nat): (d': Disk)
  {
    var p := Handle(d.group, Rec(d), e, next);
    if ChangesStore(d.group, e) then Disk(p.group, Some(p.mls)) else d
  }

  lemma ResumeStep(d: Disk, log: seq<Event>, i: nat, next: nat, cut: Cut)
    requires i < next <= |log| && Rec(d).poisoned.None? && !(cut.Before? && cut.at <= i)
    ensures var p := Handle(d.group, Rec(d), log[i], next);
            Resume(d, log, i, next, cut)
            == (if cut.Mid? && cut.at <= i && ChangesStore(d.group, log[i]) then (d.(group := p.group), Interrupted)
                else if p.Ended? then (Stepped(d, log[i], next), p.result)
                else Resume(Stepped(d, log[i], next), log, i + 1, next, cut))
  {
  }

  /** Everything before `k` is a replay: it is recognised and skipped. */
  lemma ReplayIsSkipped(d: Disk, log: seq<Event>, base: nat, k: nat, i: nat, next: nat)
    requires Sequential(log, base) && i < k <= |log| && d.group == GroupAt(log, base, k)
    ensures Handle(d.group, Rec(d), log[i], next) == Going(d.group, Rec(d))
    ensures Stepped(d, log[i], next) == d && !ChangesStore(d.group, log[i])
  {
    CommitsMonotone(log, i, k);
  }

  /** Event `k` itself takes effect and brings the store one step further. */
  lemma StepForward(d: Disk, log: seq<Event>, base: nat, k: nat, next: nat)
    requires Sequential(log, base) && k < |log| && d.group == GroupAt(log, base, k) && Rec(d).poisoned.None?
    requires FaultAt(log, k) ==> log[k].verdict.Impostor?
    ensures var p := Handle(d.group, Rec(d), log[k], next);
            && p.group == GroupAt(log, base, k + 1)
            && (ChangesStore(d.group, log[k]) <==> p.group != d.group)
            && p.mls.cadence == Rec(d).cadence
            && p.mls.confirmed == (Rec(d).confirmed || k == Join(log))
            && (p.group == d.group ==> p == Going(d.group, Rec(d)))
            && (p.group != d.group <==> MetAt(log, k) || k == Join(log))
            && (if FaultAt(log, k)
                then
                  && p.Ended? && p.result == Equivocation
                  && p.mls == Rec(d).(poisoned := Some(log[k].verdict.reason), cursor := next)
                else
                  && p.Going? && p.mls.poisoned.None? && p.mls.cursor == Rec(d).cursor
                  && (p.group != d.group ==> p.mls.epoch == p.group.value))
  {
    if log[k].Commit? && k > Join(log) {
      CommitsMonotone(log, k, k + 1);
    }
  }

  // ---------------------------------------------------------------------
  // Cuts at save points
  // ---------------------------------------------------------------------

  lemma StepKeepsFaith(d: Disk, log: seq<Event>, base: nat, k: nat, next: nat)
    requires Orderly(log, base) && InStep(d, log, base, k) && Faithful(d, log, k) && k <= Fault(log) && k < |log|
    requires k < next
    ensures InStep(Stepped(d, log[k], next), log, base, k + 1) && Faithful(Stepped(d, log[k], next), log, k + 1)
    ensures Handle(d.group, Rec(d), log[k], next).Ended? <==> k == Fault(log)
    ensures k == Fault(log) ==> Stepped(d, log[k], next).file.Some?
  {
    StepForward(d, log, base, k, next);
  }

  /** A run cut only at save points leaves store and record in step with each other. */
  lemma {:induction false} RunKeepsFaith(d: Disk, log: seq<Event>, base: nat, k: nat, i: nat, next: nat, cut: Cut)
    returns (k': nat)
    requires Orderly(log, base) && InStep(d, log, base, k) && Faithful(d, log, k) && k <= Fault(log)
    requires i <= k && i <= next <= |log| && !cut.Mid?
    ensures k <= k'
    ensures var d' := Resume(d, log, i, next, cut).0;
            && InStep(d', log, base, k') && Faithful(d', log, k')
            && (cut.Complete? ==>
                  && d'.file.Some?
                  && if k' <= Fault(log) then k' == Max(k, next) && Rec(d').cursor == next else k' == Fault(log) + 1)
    decreases next - i
  {
    if (cut.Before? && cut.at <= i) || i == next {
      k' := k;
    } else {
      ResumeStep(d, log, i, next, cut);
      if i < k {
        ReplayIsSkipped(d, log, base, k, i, next);
        k' := RunKeepsFaith(d, log, base, k, i + 1, next, cut);
      } else {
        StepKeepsFaith(d, log, base, k, next);
        if k < Fault(log) {
          k' := RunKeepsFaith(Stepped(d, log[k], next), log, base, k + 1, i + 1, next, cut);
        } else {
          k' := k + 1;
        }
      }
    }
  }

  /** The durable state after a whole history of attempts. */
  function After(d: Disk, log: seq<Event>, h: seq<Attempt>): (r: Disk)
  {
    if h == [] then d else Run(After(d, log, h[..|h| - 1]), log, h[|h| - 1]).0
  }

  lemma AfterSnoc(d: Disk, log: seq<Event>, h: seq<Attempt>, a: Attempt)
    ensures After(d, log, h + [a]) == Run(After(d, log, h), log, a).0
  {
    assert (h + [a])[..|h|] == h;
  }

  /** One run over the whole log. */
  function Uninterrupted(log: seq<Event>): (a: Attempt)
  {
    Attempt(0, |log|, Complete)
  }

  function Once(log: seq<Event>): (d: Disk)
  {
    Run(FRESH, log, Uninterrupted(log)).0
  }

  lemma OnceIsAHistory(log: seq<Event>)
    ensures After(FRESH, log, [Uninterrupted(log)]) == Once(log)
  {
    AfterSnoc(FRESH, log, [], Uninterrupted(log));
    assert [] + [Uninterrupted(log)] == [Uninterrupted(log)];
  }

  /** The state after history `h` and one more complete run over the whole log. */
  function Finally(log: seq<Event>, h: seq<Attempt>, restart: nat): (d: Disk)
  {
    After(FRESH, log, h + [Attempt(restart, |log|, Complete)])
  }

  /** Equal, but for the cursor of a poisoned record. */
  predicate Same(a: Disk, b: Disk)
  {
    a == b || (
      && a.group == b.group && a.file.Some? && b.file.Some? && a.file.value.poisoned.Some?
      && a.file.value.(cursor := 0) == b.file.value.(cursor := 0))
  }

  ghost predicate AtSavePoints(h: seq<Attempt>)
  {
    forall i :: 0 <= i < |h| ==> !h[i].cut.Mid?
  }

  lemma {:induction false} HistoryKeepsFaith(log: seq<Event>, base: nat, h: seq<Attempt>) returns (k: nat)
    requires Orderly(log, base) && AtSavePoints(h)
    ensures var d := After(FRESH, log, h);
            && InStep(d, log, base, k) && Faithful(d, log, k)
            && (h != [] && h[|h| - 1].cut.Complete? && |log| <= h[|h| - 1].seen ==>
                  && d.file.Some?
                  && if k <= Fault(log) then k == |log| && Rec(d).cursor == |log| else k == Fault(log) + 1)
  {
    if h == [] {
      k := 0;
    } else {
      var a := h[|h| - 1];
      k := HistoryKeepsFaith(log, base, h[..|h| - 1]);
      var d := After(FRESH, log, h[..|h| - 1]);
      if k <= Fault(log) {
        k := RunKeepsFaith(d, log, base, k, Start(d, log, a), Next(d, log, a), a.cut);
      }
    }
  }

  /**
   Convergence.  After any history of runs cut at save points, one complete run
   ends in exactly the state of a single uninterrupted run; only a poisoned record
   may have stopped at another cursor, namely the end of the batch that poisoned it.
   */
  lemma ReplayConverges(log: seq<Event>, base: nat, h: seq<Attempt>, restart: nat)
    requires Orderly(log, base) && AtSavePoints(h)
    ensures Same(Finally(log, h, restart), Once(log))
    ensures Fault(log) == |log| ==> Finally(log, h, restart) == Once(log) && Rec(Once(log)).cursor == |log|
  {
    var k := HistoryKeepsFaith(log, base, h + [Attempt(restart, |log|, Complete)]);
    var k' := HistoryKeepsFaith(log, base, [Uninterrupted(log)]);
    OnceIsAHistory(log);
  }

  // ---------------------------------------------------------------------
  // Cuts between a store change and its save
  // ---------------------------------------------------------------------

  /** The attempt is cut between the store change of event `m` and the save after it. */
  predicate LosesSave(a: Attempt, m: nat)
  {
    a.cut.Mid? && a.cut.at <= m
  }

  /** An attempt that, started before the join, gets as far as joining. */
  predicate Joins(a: Attempt, m: nat)
  {
    m < a.seen && !(a.cut.Before? && a.cut.at <= m)
  }

  /** The attempt of `h` that joins the group, if any does. */
  function Joiner(h: seq<Attempt>, m: nat): (a: Option<Attempt>)
  {
    if h == [] then None
    else if Joiner(h[..|h| - 1], m).Some? then Joiner(h[..|h| - 1], m)
    else if Joins(h[|h| - 1], m) then Some(h[|h| - 1])
    else None
  }

  /** The group has merged the commit of this epoch. */
  predicate Passed(d: Disk, epoch: nat)
  {
    d.group.Some? && epoch < d.group.value
  }

  /** The attempt of `h` after which the group has merged the commit of this epoch, if any. */
  function Merger(log: seq<Event>, h: seq<Attempt>, epoch: nat): (a: Option<Attempt>)
  {
    if h == [] then None
    else if Merger(log, h[..|h| - 1], epoch).Some? then Merger(log, h[..|h| - 1], epoch)
    else if Passed(After(FRESH, log, h), epoch) then Some(h[|h| - 1])
    else None
  }

  // ---------------------------------------------------------------------
  // What holds for every numbered log, cut anywhere
  // ---------------------------------------------------------------------

  /** The first fault is a commit whose metadata lies: the group never gets past it. */
  predicate Blocked(log: seq<Event>)
  {
    Fault(log) < |log| && log[Fault(log)].verdict.Mismatch?
  }

  /** The store holds the effect of `k` events; up to the first fault the cursor is not past them. */
  ghost predicate Reaches(d: Disk, log: seq<Event>, base: nat, k: nat)
  {
    && k <= |log| && d.group == GroupAt(log, base, k)
    && (k <= Fault(log) ==> Rec(d).poisoned.None? && Rec(d).cursor <= k)
    && (Blocked(log) ==> k <= Fault(log))
    && (d.group.Some? ==> Rec(d).epoch <= d.group.value)
    && (d.group.None? ==> Rec(d).epoch == 0)
  }

  lemma PassedIff(d: Disk, log: seq<Event>, base: nat, k: nat, q: nat)
    requires Sequential(log, base) && Reaches(d, log, base, k) && MetAt(log, q)
    ensures Passed(d, log[q].epoch) <==> q < k
  {
    CommitsMonotone(log, q, if q < k then k else q);
    CommitsMonotone(log, if k < q then k else q, q);
  }

  /** The record of `d` is poisoned by the last event taken in, `k - 1`. */
  ghost predicate PoisonedBy(d: Disk, log: seq<Event>, k: nat)
  {
    && 0 < k && FaultAt(log, k - 1) && Terminal(log[k - 1])
    && Rec(d).poisoned == Some(log[k - 1].verdict.reason)
  }

  /** Of the terminal impostors merged from `k` on, exactly those saved show: at most the last, which stops the run. */
  ghost predicate FlagsTell(d: Disk, log: seq<Event>, k: nat, k': nat, a: Attempt)
  {
    && (Rec(d).poisoned.Some? ==> k < k' && PoisonedBy(d, log, k'))
    && (forall q: nat :: k <= q < k' && FaultAt(log, q) && Terminal(log[q]) ==>
          (Rec(d).poisoned.Some? && q == k' - 1 <==> !LosesSave(a, q)))
  }

  /** If the honest commit `q` was the last to be merged, the record knows its epoch unless cut right before the save. */
  ghost predicate EpochTells(d: Disk, log: seq<Event>, k: nat, k': nat, a: Attempt)
  {
    forall q: nat :: k <= q < k' && MetAt(log, q) && log[q].verdict.Honest? && d.group == Some(log[q].epoch + 1) ==>
      (Rec(d).epoch == log[q].epoch + 1 <==> !LosesSave(a, q))
  }

  /** A complete run that starts in step ends at the first fault, if its batch goes that far. */
  ghost predicate StopsAtFault(d': Disk, log: seq<Event>, k: nat, k': nat, next: nat)
  {
    if next <= Fault(log) then k' == Max(k, next) && Rec(d').cursor == next
    else k' == if Blocked(log) then Fault(log) else Fault(log) + 1
  }

  /** A run from `d`, at `k` events, to `d'`. */
  ghost predicate KeepsStep(d: Disk, d': Disk, log: seq<Event>, base: nat, k: nat, k': nat, next: nat, a: Attempt)
  {
    var joined := k <= Join(log) < next && !(a.cut.Before? && a.cut.at <= Join(log));
    && k <= k' && Reaches(d', log, base, k') && FlagsTell(d', log, k, k', a) && EpochTells(d', log, k, k', a)
    && (d'.group == d.group ==> Rec(d').epoch == Rec(d).epoch)
    && (a.cut.Complete? && k <= Fault(log) ==> StopsAtFault(d', log, k, k', next))
    && (k <= Join(log) < k' <==> joined)
    && Rec(d').confirmed == (Rec(d).confirmed || (joined && !LosesSave(a, Join(log))))
  }

  /** Event `i` is past `k`, and the events between had no effect: `i` is the next to take effect. */
  lemma CatchesUp(d: Disk, d': Disk, log: seq<Event>, base: nat, k: nat, i: nat, k': nat, next: nat, a: Attempt)
    requires Sequential(log, base) && Fault(log) < k < i <= |log| && GroupAt(log, base, i) == GroupAt(log, base, k)
    requires KeepsStep(d, d', log, base, i, k', next, a)
    ensures KeepsStep(d, d', log, base, k, k', next, a)
  {
    forall q: nat | k <= q < i ensures !MetAt(log, q) {
      NothingBetween(log, base, k, q, i);
    }
  }

  lemma NothingBetween(log: seq<Event>, base: nat, k: nat, q: nat, i: nat)
    requires Sequential(log, base) && Join(log) < k <= q < i <= |log| && GroupAt(log, base, i) == GroupAt(log, base, k)
    ensures !MetAt(log, q)
  {
    CommitsMonotone(log, k, q);
    CommitsMonotone(log, q, i);
  }

  /** Event `i` is past `k`, and something between had an effect: a commit there is ahead of the group. */
  lemma AheadIsGap(d: Disk, log: seq<Event>, base: nat, k: nat, i: nat, next: nat)
    requires Sequential(log, base) && Reaches(d, log, base, k) && Fault(log) < k < i < |log|
    requires GroupAt(log, base, i) != GroupAt(log, base, k)
    ensures var p := Handle(d.group, Rec(d), log[i], next);
            && !ChangesStore(d.group, log[i]) && p.group == d.group && p.mls == Rec(d)
            && (p.Ended? <==> log[i].Commit?)
    ensures i + 1 <= |log| && GroupAt(log, base, i + 1) != GroupAt(log, base, k)
  {
    CommitsMonotone(log, k, i);
    CommitsMonotone(log, i, i + 1);
  }

  lemma StandsStill(d: Disk, log: seq<Event>, base: nat, k: nat, next: nat, a: Attempt)
    requires Reaches(d, log, base, k) && Rec(d).poisoned.None? && next <= |log|
    requires a.cut.Complete? ==> Fault(log) < k || (k == Fault(log) < next && Blocked(log))
    requires k <= Join(log) ==> next <= k || (a.cut.Before? && a.cut.at <= Join(log))
    ensures KeepsStep(d, d, log, base, k, k, next, a)
  {
  }

  /** The run reads its batch to the end. */
  lemma ReadsOut(d: Disk, log: seq<Event>, base: nat, k: nat, next: nat, a: Attempt)
    requires Reaches(d, log, base, k) && Rec(d).poisoned.None? && next <= |log| && (k <= Fault(log) ==> next <= k)
    ensures KeepsStep(d, d.(file := Some(Rec(d).(cursor := next))), log, base, k, k, next, a)
  {
  }

  /** The run ends with event `k`: it is an impostor, or the cut comes before its save. */
  lemma StopsAt(d: Disk, log: seq<Event>, base: nat, k: nat, next: nat, a: Attempt)
    requires Sequential(log, base) && Reaches(d, log, base, k) && Rec(d).poisoned.None?
    requires k < next <= |log| && !(a.cut.Before? && a.cut.at <= k)
    requires FaultAt(log, k) ==> log[k].verdict.Impostor?
    requires (LosesSave(a, k) && ChangesStore(d.group, log[k])) || FaultAt(log, k)
    ensures KeepsStep(d, Resume(d, log, k, next, a.cut).0, log, base, k, k + 1, next, a)
  {
    ResumeStep(d, log, k, next, a.cut);
    StepForward(d, log, base, k, next);
  }

  lemma StepReaches(d: Disk, log: seq<Event>, base: nat, k: nat, next: nat)
    requires Sequential(log, base) && Reaches(d, log, base, k) && Rec(d).poisoned.None?
    requires k < next <= |log| && !FaultAt(log, k)
    ensures var d1 := Stepped(d, log[k], next);
            && Reaches(d1, log, base, k + 1) && Rec(d1).poisoned.None?
            && Rec(d1).confirmed == (Rec(d).confirmed || k == Join(log))
            && (d1.group == d.group <==> !(MetAt(log, k) || k == Join(log)))
            && (d1.group == d.group ==> d1 == d)
            && (d1.group != d.group ==> d1.group.Some? && Rec(d1).epoch == d1.group.value)
  {
    StepForward(d, log, base, k, next);
  }

  /** The run goes on after event `k`. */
  lemma GoesOn(d: Disk, d': Disk, log: seq<Event>, base: nat, k: nat, k': nat, next: nat, a: Attempt)
    requires Sequential(log, base) && Reaches(d, log, base, k) && Rec(d).poisoned.None?
    requires k < next <= |log| && !(a.cut.Before? && a.cut.at <= k) && !FaultAt(log, k)
    requires !(LosesSave(a, k) && ChangesStore(d.group, log[k]))
    requires KeepsStep(Stepped(d, log[k], next), d', log, base, k + 1, k', next, a)
    ensures KeepsStep(d, d', log, base, k, k', next, a)
  {
    StepReaches(d, log, base, k, next);
    StepForward(d, log, base, k, next);
    CommitsMonotone(log, k, k + 1);
    CommitsMonotone(log, k + 1, k');
  }

  /** A commit with lying metadata stops the run and changes nothing. */
  lemma LieBlocks(d: Disk, log: seq<Event>, base: nat, k: nat, next: nat)
    requires Sequential(log, base) && Reaches(d, log, base, k)
    requires FaultAt(log, k) && log[k].verdict.Mismatch?
    ensures Handle(d.group, Rec(d), log[k], next) == Ended(d.group, Rec(d), Refused)
    ensures Stepped(d, log[k], next) == d && !ChangesStore(d.group, log[k]) && Join(log) < k
    ensures Fault(log) < k || (k == Fault(log) && Blocked(log))
  {
  }

  /** A run cut anywhere, over any numbered log, saves confirmation, flags and epochs unless cut right before. */
  lemma {:induction false} RunKeepsStep(d: Disk, log: seq<Event>, base: nat, k: nat, i: nat, next: nat, a: Attempt)
    returns (k': nat)
    requires Sequential(log, base) && Reaches(d, log, base, k) && Rec(d).poisoned.None?
    requires i <= next <= |log| && (k <= Fault(log) ==> i <= k)
    ensures KeepsStep(d, Resume(d, log, i, next, a.cut).0, log, base, k, k', next, a)
    decreases next - i, if i == k then 0 else 2
  {
    if a.cut.Before? && a.cut.at <= i {
      k' := k;
      StandsStill(d, log, base, k, next, a);
    } else if i == next {
      k' := k;
      ReadsOut(d, log, base, k, next, a);
    } else if i < k {
      ResumeStep(d, log, i, next, a.cut);
      ReplayIsSkipped(d, log, base, k, i, next);
      k' := RunKeepsStep(d, log, base, k, i + 1, next, a);
    } else if i > k {
      k' := RunPastStep(d, log, base, k, i, next, a);
    } else if FaultAt(log, k) && log[k].verdict.Mismatch? {
      k' := k;
      ResumeStep(d, log, i, next, a.cut);
      LieBlocks(d, log, base, k, next);
      StandsStill(d, log, base, k, next, a);
    } else if (LosesSave(a, i) && ChangesStore(d.group, log[i])) || FaultAt(log, k) {
      k' := k + 1;
      StopsAt(d, log, base, k, next, a);
    } else {
      ResumeStep(d, log, i, next, a.cut);
      StepReaches(d, log, base, k, next);
      StepForward(d, log, base, k, next);
      k' := RunKeepsStep(Stepped(d, log[k], next), log, base, k + 1, i + 1, next, a);
      GoesOn(d, Resume(d, log, i, next, a.cut).0, log, base, k, k', next, a);
    }
  }

  /** The case of a restart past the events in effect, which a cleared flag makes possible. */
  lemma {:induction false} RunPastStep(d: Disk, log: seq<Event>, base: nat, k: nat, i: nat, next: nat, a: Attempt)
    returns (k': nat)
    requires Sequential(log, base) && Reaches(d, log, base, k) && Rec(d).poisoned.None?
    requires Fault(log) < k < i < next <= |log| && !(a.cut.Before? && a.cut.at <= i)
    ensures KeepsStep(d, Resume(d, log, i, next, a.cut).0, log, base, k, k', next, a)
    decreases next - i, 1
  {
    if GroupAt(log, base, i) == GroupAt(log, base, k) {
      k' := RunKeepsStep(d, log, base, i, i, next, a);
      CatchesUp(d, Resume(d, log, i, next, a.cut).0, log, base, k, i, k', next, a);
    } else {
      ResumeStep(d, log, i, next, a.cut);
      AheadIsGap(d, log, base, k, i, next);
      if log[i].Commit? {
        k' := k;
        StandsStill(d, log, base, k, next, a);
      } else {
        k' := RunKeepsStep(d, log, base, k, i + 1, next, a);
      }
    }
  }

  // ---------------------------------------------------------------------
  // Whole histories
  // ---------------------------------------------------------------------

  /** Which commits were merged, by which attempt, and what the record shows of it. */
  ghost predicate Tracks(log: seq<Event>, h: seq<Attempt>, k: nat)
  {
    var d := After(FRESH, log, h);
    && (Rec(d).poisoned.Some? ==> PoisonedBy(d, log, k))
    && (forall q: nat :: MetAt(log, q) ==> (Merger(log, h, log[q].epoch).Some? <==> q < k))
    && (forall q: nat :: FaultAt(log, q) && Terminal(log[q]) && q < k ==>
          (Rec(d).poisoned.Some? && q == k - 1 <==> !LosesSave(Merger(log, h, log[q].epoch).value, q)))
    && (forall q: nat :: MetAt(log, q) && log[q].verdict.Honest? && q < k && d.group == Some(log[q].epoch + 1) ==>
          (Rec(d).epoch == log[q].epoch + 1 <==> !LosesSave(Merger(log, h, log[q].epoch).value, q)))
  }

  /** One more attempt merges exactly the commits from `k` to `k'`. */
  lemma MergerNext(log: seq<Event>, base: nat, h: seq<Attempt>, k: nat, a: Attempt, k': nat, q: nat)
    requires Sequential(log, base) && Tracks(log, h, k) && k <= k' && MetAt(log, q)
    requires Reaches(After(FRESH, log, h + [a]), log, base, k')
    ensures Merger(log, h + [a], log[q].epoch)
         == if q < k then Merger(log, h, log[q].epoch) else if q < k' then Some(a) else None
  {
    var all := h + [a];
    assert all[..|all| - 1] == h && all[|all| - 1] == a;
    PassedIff(After(FRESH, log, all), log, base, k', q);
  }

  lemma FlagsTrack(log: seq<Event>, base: nat, h: seq<Attempt>, k: nat, a: Attempt, k': nat, q: nat)
    requires Sequential(log, base) && Tracks(log, h, k) && k <= k'
    requires Rec(After(FRESH, log, h)).poisoned.None?
    requires Reaches(After(FRESH, log, h + [a]), log, base, k') && FlagsTell(After(FRESH, log, h + [a]), log, k, k', a)
    requires FaultAt(log, q) && Terminal(log[q]) && q < k'
    ensures Merger(log, h + [a], log[q].epoch).Some?
    ensures (Rec(After(FRESH, log, h + [a])).poisoned.Some? && q == k' - 1)
      <==> !LosesSave(Merger(log, h + [a], log[q].epoch).value, q)
  {
    MergerNext(log, base, h, k, a, k', q);
  }

  lemma EpochsTrack(log: seq<Event>, base: nat, h: seq<Attempt>, k: nat, a: Attempt, k': nat, q: nat)
    requires Sequential(log, base) && Tracks(log, h, k)
    requires Reaches(After(FRESH, log, h), log, base, k)
    requires KeepsStep(After(FRESH, log, h), After(FRESH, log, h + [a]), log, base, k, k', Next(After(FRESH, log, h), log, a), a)
    requires MetAt(log, q) && log[q].verdict.Honest? && q < k'
    requires After(FRESH, log, h + [a]).group == Some(log[q].epoch + 1)
    ensures Merger(log, h + [a], log[q].epoch).Some?
    ensures Rec(After(FRESH, log, h + [a])).epoch == log[q].epoch + 1
      <==> !LosesSave(Merger(log, h + [a], log[q].epoch).value, q)
  {
    MergerNext(log, base, h, k, a, k', q);
    if q < k {
      SameGroup(log, base, q, k, k');
    }
  }

  lemma SameGroup(log: seq<Event>, base: nat, q: nat, k: nat, k': nat)
    requires Sequential(log, base) && MetAt(log, q) && q < k <= k' <= |log|
    requires GroupAt(log, base, k') == Some(log[q].epoch + 1)
    ensures GroupAt(log, base, k) == GroupAt(log, base, k')
  {
    CommitsMonotone(log, q, k);
    CommitsMonotone(log, k, k');
  }

  lemma TracksAttempt(log: seq<Event>, base: nat, h: seq<Attempt>, k: nat, a: Attempt, k': nat)
    requires Sequential(log, base) && Tracks(log, h, k)
    requires Rec(After(FRESH, log, h)).poisoned.None? && Reaches(After(FRESH, log, h), log, base, k)
    requires KeepsStep(After(FRESH, log, h), After(FRESH, log, h + [a]), log, base, k, k', Next(After(FRESH, log, h), log, a), a)
    ensures Tracks(log, h + [a], k')
  {
    forall q: nat | MetAt(log, q) ensures Merger(log, h + [a], log[q].epoch).Some? <==> q < k' {
      MergerNext(log, base, h, k, a, k', q);
    }
    var d := After(FRESH, log, h + [a]);
    forall q: nat | FaultAt(log, q) && Terminal(log[q]) && q < k'
      ensures (Rec(d).poisoned.Some? && q == k' - 1)
        <==> !LosesSave(Merger(log, h + [a], log[q].epoch).value, q)
    {
      FlagsTrack(log, base, h, k, a, k', q);
    }
    forall q: nat | MetAt(log, q) && log[q].verdict.Honest? && q < k' && d.group == Some(log[q].epoch + 1)
      ensures Rec(d).epoch == log[q].epoch + 1 <==> !LosesSave(Merger(log, h + [a], log[q].epoch).value, q)
    {
      EpochsTrack(log, base, h, k, a, k', q);
    }
  }

  /** A poisoned record stands still. */
  lemma TracksStandstill(log: seq<Event>, h: seq<Attempt>, k: nat, a: Attempt)
    requires Tracks(log, h, k) && Rec(After(FRESH, log, h)).poisoned.Some?
    ensures After(FRESH, log, h + [a]) == After(FRESH, log, h) && Tracks(log, h + [a], k)
  {
    AfterSnoc(FRESH, log, h, a);
    forall q: nat | MetAt(log, q) ensures Merger(log, h + [a], log[q].epoch) == Merger(log, h, log[q].epoch) {
      StandstillMerger(log, h, a, log[q].epoch);
    }
  }

  lemma StandstillMerger(log: seq<Event>, h: seq<Attempt>, a: Attempt, epoch: nat)
    requires After(FRESH, log, h + [a]) == After(FRESH, log, h)
    ensures Merger(log, h + [a], epoch) == Merger(log, h, epoch)
  {
    assert (h + [a])[..|h|] == h;
  }

  /** Joining shows in the confirmation unless the joining attempt was cut right before its save. */
  ghost predicate Confirms(log: seq<Event>, h: seq<Attempt>, k: nat)
  {
    var d, joiner := After(FRESH, log, h), Joiner(h, Join(log));
    Join(log) < |log| ==>
      && (Join(log) < k <==> joiner.Some?)
      && (Rec(d).confirmed <==> joiner.Some? && !LosesSave(joiner.value, Join(log)))
  }

  /** The last attempt was complete and saw the whole log. */
  predicate EndsWhole(log: seq<Event>, h: seq<Attempt>)
  {
    h != [] && h[|h| - 1].cut.Complete? && |log| <= h[|h| - 1].seen
  }

  lemma ConfirmsNext(log: seq<Event>, base: nat, h: seq<Attempt>, k: nat, a: Attempt, k': nat)
    requires Confirms(log, h, k)
    requires KeepsStep(After(FRESH, log, h), After(FRESH, log, h + [a]), log, base, k, k', Next(After(FRESH, log, h), log, a), a)
    requires k <= Join(log) ==> Start(After(FRESH, log, h), log, a) <= k
    ensures Confirms(log, h + [a], k')
  {
    assert (h + [a])[..|h|] == h;
  }

  lemma {:induction false} HistoryKeepsStep(log: seq<Event>, base: nat, h: seq<Attempt>) returns (k: nat)
    requires Sequential(log, base)
    ensures var d := After(FRESH, log, h);
            && Reaches(d, log, base, k) && Tracks(log, h, k) && Confirms(log, h, k)
            && (EndsWhole(log, h) ==>
                  && (Fault(log) == |log| ==> k == |log| && Rec(d).cursor == |log|)
                  && (Fault(log) < |log| ==> Fault(log) <= k && (Fault(log) < k <==> !Blocked(log))))
  {
    if h == [] {
      k := 0;
    } else {
      var init, a := h[..|h| - 1], h[|h| - 1];
      assert h == init + [a];
      k := HistoryKeepsStep(log, base, init);
      var d := After(FRESH, log, init);
      if Rec(d).poisoned.Some? {
        TracksStandstill(log, init, k, a);
      } else {
        AfterSnoc(FRESH, log, init, a);
        var before := k;
        k := RunKeepsStep(d, log, base, k, Start(d, log, a), Next(d, log, a), a);
        TracksAttempt(log, base, init, before, a, k);
        ConfirmsNext(log, base, init, before, a, k);
      }
    }
  }

  /** The fault at `q` was merged, by an attempt that also saved the record. */
  predicate FlagSaved(log: seq<Event>, h: seq<Attempt>, q: nat)
    requires FaultAt(log, q)
  {
    Merger(log, h, log[q].epoch).Some? && !LosesSave(Merger(log, h, log[q].epoch).value, q)
  }

  /**
   A merged impostor leaves the record poisoned if and only if the attempt that
   merged it was not cut before saving (and a load does not clear its reason): over
   every history of every numbered log, cut anywhere, the record is poisoned exactly
   when some merged impostor's flag was saved, and then by that impostor.
   */
  lemma PoisonSavedIff(log: seq<Event>, base: nat, h: seq<Attempt>)
    requires Sequential(log, base)
    ensures Rec(After(FRESH, log, h)).poisoned.Some? <==>
      exists q: nat :: FaultAt(log, q) && Terminal(log[q]) && FlagSaved(log, h, q)
    ensures forall q: nat :: FaultAt(log, q) && Terminal(log[q]) && FlagSaved(log, h, q) ==>
      Rec(After(FRESH, log, h)).poisoned == Some(log[q].verdict.reason)
  {
    var k := HistoryKeepsStep(log, base, h);
    if Rec(After(FRESH, log, h)).poisoned.Some? {
      assert FaultAt(log, k - 1) && Terminal(log[k - 1]) && FlagSaved(log, h, k - 1);
    }
  }

  /**
   The record's own epoch: while an honest commit is the last one merged, the record
   shows its epoch if and only if the attempt that merged it was not cut before saving.
   */
  lemma EpochSavedIff(log: seq<Event>, base: nat, h: seq<Attempt>, q: nat)
    requires Sequential(log, base) && MetAt(log, q) && log[q].verdict.Honest?
    requires After(FRESH, log, h).group == Some(log[q].epoch + 1)
    ensures Merger(log, h, log[q].epoch).Some?
    ensures Rec(After(FRESH, log, h)).epoch == log[q].epoch + 1
      <==> !LosesSave(Merger(log, h, log[q].epoch).value, q)
  {
    var k := HistoryKeepsStep(log, base, h);
    PassedIff(After(FRESH, log, h), log, base, k, q);
  }

  lemma LaterGroup(log: seq<Event>, base: nat, q: nat, k: nat)
    requires Sequential(log, base) && FaultAt(log, q) && q < k - 1 < |log| && FaultAt(log, k - 1)
    ensures GroupAt(log, base, k) != GroupAt(log, base, q + 1)
  {
    CommitsMonotone(log, q + 1, k - 1);
    CommitsMonotone(log, k - 1, k);
    CommitsMonotone(log, q, q + 1);
  }

  /** Where one run ends: at the end of the log, before a lying commit, or poisoned by an impostor. */
  lemma OnceEnds(log: seq<Event>, base: nat) returns (k: nat)
    requires Sequential(log, base)
    ensures Reaches(Once(log), log, base, k)
    ensures Fault(log) == |log| || Blocked(log) ==> k == Fault(log)
    ensures Fault(log) < |log| && Terminal(log[Fault(log)]) ==>
      k == Fault(log) + 1 && Rec(Once(log)).poisoned == Some(log[Fault(log)].verdict.reason)
    ensures Join(log) < |log| ==> Rec(Once(log)).confirmed
    ensures Fault(log) == |log| ==> Rec(Once(log)).cursor == |log|
  {
    var h := [Uninterrupted(log)];
    OnceIsAHistory(log);
    k := HistoryKeepsStep(log, base, h);
    MergerOfOne(log, h[0]);
  }

  lemma MergerOfOne(log: seq<Event>, a: Attempt)
    ensures Joiner([a], Join(log)) == if Joins(a, Join(log)) then Some(a) else None
    ensures forall epoch :: Merger(log, [a], epoch).Some? ==> Merger(log, [a], epoch) == Some(a)
  {
    assert [a][..0] == [];
  }

  /**
   Cut anywhere at all, and with a complete run at the end: group and poison are those
   of one run if and only if the first fault, if any, is a lying commit, which nothing
   gets past, or the attempt that merged it was not cut between merging and saving.
   */
  lemma PoisonConvergesIff(log: seq<Event>, base: nat, h: seq<Attempt>, restart: nat)
    requires Sequential(log, base)
    requires Fault(log) < |log| && log[Fault(log)].verdict.Impostor? ==> Terminal(log[Fault(log)])
    ensures var d, all := Finally(log, h, restart), h + [Attempt(restart, |log|, Complete)];
            (d.group == Once(log).group && Rec(d).poisoned == Rec(Once(log)).poisoned)
            <==> (Fault(log) == |log| || Blocked(log) || FlagSaved(log, all, Fault(log)))
  {
    var all := h + [Attempt(restart, |log|, Complete)];
    var k := HistoryKeepsStep(log, base, all);
    var k' := OnceEnds(log, base);
    if Fault(log) + 1 < k && Rec(Finally(log, h, restart)).poisoned.Some? {
      LaterGroup(log, base, Fault(log), k);
    }
  }

  /**
   Cut anywhere at all, the confirmation is that of an uninterrupted run if and only
   if the attempt that joined was not cut between joining and saving; where no commit
   fails a gate, group and cursor converge in any case.
   */
  lemma ConfirmationSurvivesIff(log: seq<Event>, base: nat, h: seq<Attempt>, restart: nat)
    requires Sequential(log, base) && Join(log) < |log|
    ensures var all := h + [Attempt(restart, |log|, Complete)];
            var d := Finally(log, h, restart);
            && Rec(Once(log)).confirmed && Joiner(all, Join(log)).Some?
            && (Rec(d).confirmed <==> !LosesSave(Joiner(all, Join(log)).value, Join(log)))
            && (Fault(log) == |log| ==> d.group == Once(log).group && Rec(d).cursor == Rec(Once(log)).cursor)
  {
    var k := HistoryKeepsStep(log, base, h + [Attempt(restart, |log|, Complete)]);
    var k' := OnceEnds(log, base);
  }

  /**
   A cut between merging an impostor and saving the poison flag loses the flag: a
   later complete run ends with the impostor merged and a clean record.
   */
  lemma PoisonFlagCanBeLost()
    ensures var log := [MyWelcome(0), Commit(0, Impostor("leaf"))];
            var d := Finally(log, [Attempt(0, 2, Mid(1))], 0);
            && Rec(d).poisoned.None? && d.group == Some(1)
            && Once(log).group == Some(1) && Once(log).file.value.poisoned == Some("leaf")
  {
    var log := [MyWelcome(0), Commit(0, Impostor("leaf"))];
    var joined := Disk(Some(0), Some(Record(0, true, 0, None, NEVER)));
    var torn := joined.(group := Some(1));
    assert Resume(FRESH, log, 0, 2, Complete) == Resume(joined, log, 1, 2, Complete);
    assert Resume(FRESH, log, 0, 2, Mid(1)) == Resume(joined, log, 1, 2, Mid(1)) == (torn, Interrupted);
    assert Run(FRESH, log, Attempt(0, 2, Mid(1))).0 == torn;
    TwoRuns(log, Attempt(0, 2, Mid(1)), 0);
    assert Resume(torn, log, 0, 2, Complete) == Resume(torn, log, 1, 2, Complete) == Resume(torn, log, 2, 2, Complete);
  }

  /** The state after one attempt from scratch and a complete run. */
  lemma TwoRuns(log: seq<Event>, a: Attempt, restart: nat)
    ensures Finally(log, [a], restart) == Run(Run(FRESH, log, a).0, log, Attempt(restart, |log|, Complete)).0
  {
    AfterSnoc(FRESH, log, [], a);
    assert [] + [a] == [a];
    AfterSnoc(FRESH, log, [a], Attempt(restart, |log|, Complete));
  }

  // ---------------------------------------------------------------------
  // Gaps
  // ---------------------------------------------------------------------

  /** The group is up to date with everything before the restart point. */
  predicate CaughtUp(g: nat, log: seq<Event>, base: nat, i: nat)
    requires i <= |log|
  {
    base + Commits(log, i) <= g || Commits(log, i) == Commits(log, |log|)
  }

  function CaughtUpGroup(g: nat, log: seq<Event>, base: nat, i: nat): (r: Option<nat>)
    requires i <= |log|
  {
    Some(if Commits(log, i) == Commits(log, |log|) then g else Max(g, base + Commits(log, |log|)))
  }

  ghost predicate Honestly(log: seq<Event>)
  {
    forall j :: 0 <= j < |log| && log[j].Commit? ==> log[j].verdict.Honest?
  }

  /**
   A joined device consumes an honest, numbered log if and only if the first
   commit from its restart point on is not ahead of its group.  A commit that
   landed between an add and its Welcome, and that the cursor has passed, blocks
   the group; restarted before that commit, the group catches up.
   */
  lemma {:induction false} AdvancesIff(d: Disk, log: seq<Event>, base: nat, i: nat)
    requires Numbered(log, base) && Honestly(log) && i <= |log| && d.group.Some? && Rec(d).poisoned.None?
    ensures var (d', result) := Resume(d, log, i, |log|, Complete);
            && (result.Advanced? <==> CaughtUp(d.group.value, log, base, i))
            && (result.Advanced? ==> d'.group == CaughtUpGroup(d.group.value, log, base, i))
            && (!result.Advanced? ==> d' == d)
    decreases |log| - i
  {
    if i < |log| {
      ResumeStep(d, log, i, |log|, Complete);
      CommitsMonotone(log, i, |log|);
      CommitsMonotone(log, i + 1, |log|);
      if Handle(d.group, Rec(d), log[i], |log|).Going? {
        AdvancesIff(Stepped(d, log[i], |log|), log, base, i + 1);
      }
    }
  }

  // ---------------------------------------------------------------------
  // When replay converges: the exact condition
  // ---------------------------------------------------------------------

  /** Every history of runs cut at save points ends, after a complete run, where one run ends. */
  ghost predicate Converges(log: seq<Event>)
  {
    forall h: seq<Attempt>, restart: nat | AtSavePoints(h) :: Same(Finally(log, h, restart), Once(log))
  }

  function JoinedAt(w: nat, cursor: nat): (d: Disk)
  {
    Disk(Some(w), Some(Record(w, true, cursor, None, NEVER)))
  }

  /** A device that has not joined skips everything up to its Welcome. */
  lemma {:induction false} RunToJoin(log: seq<Event>, i: nat, next: nat, cut: Cut)
    requires i <= Join(log) < next <= |log|
    requires cut.Complete? || (cut.Before? && Join(log) < cut.at)
    ensures Resume(FRESH, log, i, next, cut) == Resume(JoinedAt(JoinEpoch(log), 0), log, Join(log) + 1, next, cut)
    decreases next - i
  {
    if i < Join(log) {
      RunToJoin(log, i + 1, next, cut);
    }
  }

  /** A complete run leaves the cursor alone or moves it to the end of its batch; the group never falls back. */
  lemma {:induction false} RunMoves(d: Disk, log: seq<Event>, i: nat, next: nat)
    requires i <= next <= |log| && d.file.Some? && d.group.Some? && Rec(d).poisoned.None?
    requires d.file.value.poisoned.None?
    ensures var d' := Resume(d, log, i, next, Complete).0;
            && d'.file.Some? && (d'.file.value.cursor == d.file.value.cursor || d'.file.value.cursor == next)
            && d'.group.Some? && d.group.value <= d'.group.value
    decreases next - i
  {
    if i < next {
      ResumeStep(d, log, i, next, Complete);
      if Handle(d.group, Rec(d), log[i], next).Going? {
        RunMoves(Stepped(d, log[i], next), log, i + 1, next);
      }
    }
  }

  /** Commits after a stale Welcome are ahead of the group. */
  lemma {:induction false} GapAhead(d: Disk, log: seq<Event>, base: nat, i: nat)
    requires Numbered(log, base) && i <= |log| && d.group.Some? && Rec(d).poisoned.None?
    requires d.group.value < base + Commits(log, i)
    ensures var (d', result) := Resume(d, log, i, |log|, Complete);
            if Commits(log, i) == Commits(log, |log|) then d' == d.(file := Some(Rec(d).(cursor := |log|))) else d' == d
    decreases |log| - i
  {
    if i < |log| {
      ResumeStep(d, log, i, |log|, Complete);
      CommitsMonotone(log, i, |log|);
      CommitsMonotone(log, i + 1, |log|);
      if !log[i].Commit? {
        GapAhead(d, log, base, i + 1);
      }
    }
  }

  /** Replayed from before it, a missed commit either moves the group or blocks the run. */
  lemma {:induction false} MissedCommit(d: Disk, log: seq<Event>, base: nat, i: nat)
    requires Numbered(log, base) && i <= |log| && d.group.Some? && d.file.Some?
    requires d.file.value.poisoned.None?
    requires Commits(log, i) < Commits(log, |log|) && d.group.value < base + Commits(log, |log|)
    ensures var d' := Resume(d, log, i, |log|, Complete).0; d' == d || d'.group != d.group
    decreases |log| - i
  {
    if i == |log| {
    } else {
      ResumeStep(d, log, i, |log|, Complete);
      var p := Handle(d.group, Rec(d), log[i], |log|);
      if p.Going? && p.group == d.group {
        MissedCommit(d, log, base, i + 1);
      } else if p.Going? {
        RunMoves(Stepped(d, log[i], |log|), log, i + 1, |log|);
      }
    }
  }

  lemma FreshRun(log: seq<Event>, a: Attempt)
    ensures Run(FRESH, log, a) == Resume(FRESH, log, 0, Min(a.seen, |log|), a.cut)
  {
  }

  lemma OnceJoins(log: seq<Event>)
    requires Join(log) < |log|
    ensures Once(log) == Resume(JoinedAt(JoinEpoch(log), 0), log, Join(log) + 1, |log|, Complete).0
  {
    FreshRun(log, Uninterrupted(log));
    RunToJoin(log, 0, |log|, Complete);
  }

  lemma StaleEpoch(log: seq<Event>, base: nat)
    requires !WelcomeCurrent(log, base)
    ensures Join(log) < |log| && JoinEpoch(log) < base + Commits(log, Join(log) + 1)
  {
  }

  lemma AfterStale(log: seq<Event>, base: nat, w: nat, i: nat)
    requires Numbered(log, base) && i <= |log| && w < base + Commits(log, i)
    ensures Resume(JoinedAt(w, 0), log, i, |log|, Complete).0
         == JoinedAt(w, if Commits(log, i) == Commits(log, |log|) then |log| else 0)
  {
    GapAhead(JoinedAt(w, 0), log, base, i);
  }

  /** A stale Welcome: one run joins, then reads on to the end or stops at the gap. */
  lemma OnceWhenStale(log: seq<Event>, base: nat)
    requires Numbered(log, base) && !WelcomeCurrent(log, base)
    ensures Join(log) < |log|
    ensures Once(log) == JoinedAt(JoinEpoch(log), if Commits(log, Join(log) + 1) == Commits(log, |log|) then |log| else 0)
  {
    StaleEpoch(log, base);
    OnceJoins(log);
    AfterStale(log, base, JoinEpoch(log), Join(log) + 1);
  }

  /** A device cut right after joining, or fed the Welcome alone. */
  lemma JustJoined(log: seq<Event>, a: Attempt)
    requires Join(log) < |log|
    requires a == Attempt(0, |log|, Before(Join(log) + 1)) || a == Attempt(0, Join(log) + 1, Complete)
    ensures Run(FRESH, log, a).0 == JoinedAt(JoinEpoch(log), if a.cut.Complete? then Join(log) + 1 else 0)
  {
    FreshRun(log, a);
    RunToJoin(log, 0, a.seen, a.cut);
  }

  /** A complete run of a device that has joined. */
  lemma FromTheStart(log: seq<Event>, w: nat, cursor: nat)
    ensures Run(JoinedAt(w, cursor), log, Attempt(0, |log|, Complete))
         == Resume(JoinedAt(w, cursor), log, 0, |log|, Complete)
  {
  }

  /** A stale Welcome after the last commit: cut right after joining, a device replays what one run skips. */
  lemma StaleAfterCommits(log: seq<Event>, base: nat)
    requires Numbered(log, base) && !WelcomeCurrent(log, base) && Commits(log, |log|) != 0
    requires Commits(log, Join(log) + 1) == Commits(log, |log|)
    ensures !Converges(log)
  {
    var w, a := JoinEpoch(log), Attempt(0, |log|, Before(Join(log) + 1));
    OnceWhenStale(log, base);
    JustJoined(log, a);
    CommitsMonotone(log, Join(log), |log|);
    MissedCommit(JoinedAt(w, 0), log, base, 0);
    FromTheStart(log, w, 0);
    TwoRuns(log, a, 0);
    assert !Same(Finally(log, [a], 0), Once(log));
  }

  /** A stale Welcome with commits after it: fed the Welcome alone, a device moves its cursor, one run does not. */
  lemma StaleThenCommits(log: seq<Event>, base: nat)
    requires Numbered(log, base) && !WelcomeCurrent(log, base)
    requires Commits(log, Join(log) + 1) != Commits(log, |log|)
    ensures !Converges(log)
  {
    var w, a := JoinEpoch(log), Attempt(0, Join(log) + 1, Complete);
    OnceWhenStale(log, base);
    JustJoined(log, a);
    RunMoves(JoinedAt(w, Join(log) + 1), log, 0, |log|);
    FromTheStart(log, w, Join(log) + 1);
    TwoRuns(log, a, 0);
    assert !Same(Finally(log, [a], 0), Once(log));
  }

  lemma StaleDiverges(log: seq<Event>, base: nat)
    requires Numbered(log, base) && !WelcomeCurrent(log, base) && Commits(log, |log|) != 0
    ensures !Converges(log)
  {
    if Commits(log, Join(log) + 1) == Commits(log, |log|) {
      StaleAfterCommits(log, base);
    } else {
      StaleThenCommits(log, base);
    }
  }

  /** Up to the first fault, a run merges everything; there it stops as the fault demands. */
  lemma {:induction false} RunToFault(d: Disk, log: seq<Event>, base: nat, k: nat, i: nat, next: nat)
    requires Sequential(log, base) && InStep(d, log, base, k) && Rec(d).poisoned.None?
    requires d.file.Some? ==> d.file.value.poisoned.None?
    requires d.group.Some? ==> d.file.Some?
    requires i <= k <= Fault(log) < |log| && i <= next <= |log| && k <= next
    ensures var (d', result) := Resume(d, log, i, next, Complete);
            && d'.file.Some?
            && (next <= Fault(log) ==>
                  InStep(d', log, base, next) && d'.file.value.cursor == next && d'.file.value.poisoned.None?)
            && (Fault(log) < next && log[Fault(log)].verdict.Mismatch? ==>
                  d'.file.value.cursor == Rec(d).cursor && d'.file.value.poisoned.None?)
            && (Fault(log) < next && log[Fault(log)].verdict.Impostor? ==>
                  d'.file.value.cursor == next && d'.file.value.poisoned == Some(log[Fault(log)].verdict.reason))
    decreases next - i
  {
    if i < next {
      ResumeStep(d, log, i, next, Complete);
      if i < k {
        ReplayIsSkipped(d, log, base, k, i, next);
        RunToFault(d, log, base, k, i + 1, next);
      } else if k < Fault(log) {
        StepForward(d, log, base, k, next);
        RunToFault(Stepped(d, log[k], next), log, base, k + 1, i + 1, next);
      }
    }
  }

  /** A commit with lying metadata: a device that was fed the log up to it has moved its cursor. */
  lemma MismatchDiverges(log: seq<Event>, base: nat)
    requires Sequential(log, base) && Fault(log) < |log| && log[Fault(log)].verdict.Mismatch?
    ensures !Converges(log)
  {
    var a := Attempt(0, Fault(log), Complete);
    RunToFault(FRESH, log, base, 0, 0, |log|);
    RunToFault(FRESH, log, base, 0, 0, Fault(log));
    var d := Run(FRESH, log, a).0;
    RunToFault(d, log, base, Fault(log), 0, |log|);
    TwoRuns(log, a, 0);
    assert !Same(Finally(log, [a], 0), Once(log));
  }

  /** An impostor whose reason carries the marker: the next load clears the flag. */
  lemma HealDiverges(log: seq<Event>, base: nat)
    requires Sequential(log, base) && Fault(log) < |log|
    requires log[Fault(log)].verdict.Impostor? && !Genuine(log[Fault(log)].verdict.reason)
    ensures !Converges(log)
  {
    RunToFault(FRESH, log, base, 0, 0, |log|);
    TwoRuns(log, Uninterrupted(log), |log|);
    assert !Same(Finally(log, [Uninterrupted(log)], |log|), Once(log));
  }

  lemma NoCommits(log: seq<Event>, base: nat)
    requires Commits(log, |log|) == 0
    ensures Numbered(log, base) && Commits(log, Join(log)) == 0 && Fault(log) == |log|
  {
    CommitsMonotone(log, Join(log), |log|);
    forall i | 0 <= i < |log| ensures !log[i].Commit? {
      CommitsMonotone(log, i, |log|);
    }
  }

  /**
   For every log numbered in order, replay converges if and only if it holds no
   commit at all, or my Welcome is not older than a commit before it and the first
   commit the group meets that fails a gate, if any, is an impostor whose reason
   does not carry the marker text that a load clears.
   */
  lemma ConvergesIff(log: seq<Event>, base: nat)
    requires Numbered(log, base)
    ensures Converges(log) <==> Orderly(log, base) || Commits(log, |log|) == 0
  {
    if Orderly(log, base) || Commits(log, |log|) == 0 {
      var b := if Orderly(log, base) then base else 0;
      if Commits(log, |log|) == 0 {
        NoCommits(log, b);
      }
      forall h: seq<Attempt>, restart: nat | AtSavePoints(h) ensures Same(Finally(log, h, restart), Once(log)) {
        ReplayConverges(log, b, h, restart);
      }
    } else if !WelcomeCurrent(log, base) {
      StaleDiverges(log, base);
    } else if log[Fault(log)].verdict.Mismatch? {
      MismatchDiverges(log, base);
    } else {
      HealDiverges(log, base);
    }
  }
}
