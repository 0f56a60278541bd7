/**
 The MLS steward: it folds the ordered control log of one channel into the local
 group, saving its record after every accepted step and moving the fetch cursor
 only at the end.  A run may be cut short anywhere, so the two durable parts --
 the MLS store, changed the moment a commit merges or a Welcome is joined, and
 the record file, changed by an explicit save -- are kept apart.
 */
module Steward {
  import opened Seqs
  import opened ChannelState

  /** What the two receive-side gates say about a commit of the current epoch. */
  datatype Verdict = Honest | Mismatch | Impostor(reason: string)

  /** A control event as this device sees it; other devices' Welcomes are `Other`. */
  datatype Event = Commit(epoch: nat, verdict: Verdict) | MyWelcome(epoch: nat) | Other

  /** The durable state: the epoch held by the MLS store (if joined) and the record file (if any). */
  datatype Disk = Disk(group: Option<nat>, file: Option<Record>)

  const FRESH: Disk := Disk(None, None)

  /** The record a run starts from. */
  function Rec(d: Disk): (r: Record)
  {
    Loaded(d.file)
  }

  datatype Result = Advanced | Equivocation | Gap(epoch: nat) | Refused | Interrupted

  /**
   Where a run is cut short.  `Before(at)`: at the first save point at or after
   event `at`.  `Mid(at)`: after the first store change at or after event `at`,
   before the record is saved (a crash, or the confirmation request failing).
   */
  datatype Cut = Complete | Before(at: nat) | Mid(at: nat)

  datatype Progress =
    | Going(group: Option<nat>, mls: Record)
    | Ended(group: Option<nat>, mls: Record, result: Result)

  /** Handles one control event; `next` is the cursor after the fetched batch. */
  function Handle(group: Option<nat>, mls: Record, e: Event, next: nat): (p: Progress)
  {
    match e
    case Commit(epoch, verdict) =>
      if group.None? then Going(group, mls)
      else if epoch < group.value then Going(group, mls)
      else if group.value < epoch then Ended(group, mls, Gap(epoch))
      else (match verdict
            case Honest => Going(Some(epoch + 1), mls.(epoch := epoch + 1))
            case Mismatch => Ended(group, mls, Refused)
            case Impostor(reason) =>
              Ended(Some(epoch + 1), mls.(poisoned := Some(reason), cursor := next), Equivocation))
    case MyWelcome(epoch) =>
      if group.None? then Going(Some(epoch), mls.(epoch := epoch, confirmed := true)) else Going(group, mls)
    case Other => Going(group, mls)
  }

  /** The event changes the store, and is then followed by a save of the record. */
  predicate ChangesStore(group: Option<nat>, e: Event)
  {
    Handle(group, DEFAULT, e, 0).group != group
  }

  /** Handles events `i..next` of the log with the record `mls` in hand, then saves the cursor. */
  function RunFrom(d: Disk, mls: Record, log: seq<Event>, i: nat, next: nat, cut: Cut): (r: (Disk, Result))
    requires i <= next <= |log|
    decreases next - i
  {
    if cut.Before? && cut.at <= i then (d, Interrupted)
    else if i == next then (d.(file := Some(mls.(cursor := next))), Advanced)
    else
      var p := Handle(d.group, mls, log[i], next);
      if ChangesStore(d.group, log[i]) then
        if cut.Mid? && cut.at <= i then (d.(group := p.group), Interrupted)
        else
          var d' := Disk(p.group, Some(p.mls));
          if p.Ended? then (d', p.result) else RunFrom(d', p.mls, log, i + 1, next, cut)
      else if p.Ended? then (d, p.result)
      else RunFrom(d, mls, log, i + 1, next, cut)
  }

  /** One attempt: restart no later than the saved cursor, see `seen` log events, stop at `cut`. */
  datatype Attempt = Attempt(restart: nat, seen: nat, cut: Cut)

  function Min(a: nat, b: nat): (m: nat)
  {
    if a < b then a else b
  }

  function Start(d: Disk, log: seq<Event>, a: Attempt): (i: nat)
    ensures i <= Rec(d).cursor && i <= |log|
  {
    Min(|log|, Min(a.restart, Rec(d).cursor))
  }

  /** The end of the batch the server delivers: never before the start, never past the log. */
  function Next(d: Disk, log: seq<Event>, a: Attempt): (n: nat)
    ensures Start(d, log, a) <= n <= |log|
  {
    if a.seen <= Start(d, log, a) then Start(d, log, a) else Min(a.seen, |log|)
  }

  /** A record that is poisoned once loaded refuses to continue. */
  function Run(d: Disk, log: seq<Event>, a: Attempt): (r: (Disk, Result))
  {
    if Rec(d).poisoned.Some? then (d, Equivocation)
    else RunFrom(d, Rec(d), log, Start(d, log, a), Next(d, log, a), a.cut)
  }

  /** Two logs of the same length that agree from `i` on. */
  ghost predicate AgreeFrom(one: seq<Event>, two: seq<Event>, i: nat)
  {
    |one| == |two| && forall j :: i <= j < |one| ==> one[j] == two[j]
  }

  lemma {:induction false} RunReadsAhead(d: Disk, mls: Record, one: seq<Event>, two: seq<Event>, i: nat, next: nat, cut: Cut)
    requires AgreeFrom(one, two, i) && i <= next <= |one|
    ensures RunFrom(d, mls, one, i, next, cut) == RunFrom(d, mls, two, i, next, cut)
    decreases next - i
  {
    if i < next {
      var p := Handle(d.group, mls, one[i], next);
      RunReadsAhead(if ChangesStore(d.group, one[i]) then Disk(p.group, Some(p.mls)) else d,
                    p.mls, one, two, i + 1, next, cut);
    }
  }

  /**
   The cursor is where reading resumes: a run that is not restarted earlier never looks
   at an event before it, and one that sees the whole log moves it to the end.
   */
  lemma ReadsFromCursor(d: Disk, one: seq<Event>, two: seq<Event>, a: Attempt)
    requires AgreeFrom(one, two, Rec(d).cursor) && Rec(d).cursor <= a.restart
    ensures Run(d, one, a) == Run(d, two, a)
    ensures Rec(d).cursor <= |one| ==> Start(d, one, a) == Rec(d).cursor
    ensures |one| <= a.seen ==> Next(d, one, a) == |one|
  {
    if Rec(d).cursor <= |one| {
      RunReadsAhead(d, Rec(d), one, two, Start(d, one, a), Next(d, one, a), a.cut);
    } else {
      RunReadsAhead(d, Rec(d), one, two, |one|, |one|, a.cut);
    }
  }

  // ---------------------------------------------------------------------
  // The command as it is executed
  // ---------------------------------------------------------------------

  /** What handling one event leaves behind: store, file, the record in hand and the result, if the run ends. */
  ghost predicate Handled(d: Disk, mls: Record, e: Event, next: nat, crash: bool,
                          d': Disk, mls': Record, stop: Option<Result>)
  {
    var p, changed := Handle(d.group, mls, e, next), ChangesStore(d.group, e);
    && d'.group == p.group
    && if crash && changed then stop == Some(Interrupted) && d'.file == d.file
       else
         && mls' == p.mls && d'.file == (if changed then Some(mls') else d.file)
         && stop == if p.Ended? then Some(p.result) else None
  }

  /** One turn of the loop is one step of the run. */
  lemma RunStep(d: Disk, mls: Record, log: seq<Event>, i: nat, next: nat, cut: Cut,
                d': Disk, mls': Record, stop: Option<Result>)
    requires i < next <= |log| && !(cut.Before? && cut.at <= i)
    requires Handled(d, mls, log[i], next, cut.Mid? && cut.at <= i, d', mls', stop)
    ensures RunFrom(d, mls, log, i, next, cut)
         == if stop.Some? then (d', stop.value) else RunFrom(d', mls', log, i + 1, next, cut)
  {
  }

  class StewardDevice {
    /** Epoch of the group in the MLS store. */
    var group: Option<nat>
    /** The record file. */
    var file: Option<Record>

    function Durable(): (d: Disk)
      reads this
    {
      Disk(group, file)
    }

    constructor ()
      ensures Durable() == FRESH
    {
      group, file := None, None;
    }

    /**
     The loop body for one event, with the record `mls0` in hand.  `merged` is the
     epoch of a commit that entered the store, `stop` the result that ends the run;
     with `crash` the run is cut right after the store change.
     */
    method HandleEvent(e: Event, next: nat, crash: bool, mls0: Record)
      returns (mls: Record, merged: seq<nat>, stop: Option<Result>)
      modifies this
      ensures Handled(old(Durable()), mls0, e, next, crash, Durable(), mls, stop)
      ensures Chained(old(group), merged, group)
    {
      mls, merged, stop := mls0, [], None;
      match e {
        case Commit(epoch, verdict) =>
          if group.Some? {
            if group.value < epoch {
              stop := Some(Gap(epoch));
            } else if epoch == group.value {
              match verdict {
                case Mismatch =>
                  stop := Some(Refused);
                case Honest =>
                  group, merged := Some(epoch + 1), [epoch];
                  if crash { return mls, merged, Some(Interrupted); }
                  mls := mls.(epoch := epoch + 1);
                  file := Some(mls);
                case Impostor(reason) =>
                  group, merged := Some(epoch + 1), [epoch];
                  if crash { return mls, merged, Some(Interrupted); }
                  mls := mls.(poisoned := Some(reason), cursor := next);
                  file := Some(mls);
                  stop := Some(Equivocation);
              }
            }
          }
        case MyWelcome(epoch) =>
          if group.None? {
            group := Some(epoch);
            if crash { return mls, merged, Some(Interrupted); }
            mls := mls.(epoch := epoch, confirmed := true);
            file := Some(mls);
          }
        case Other =>
      }
    }

    /** The loop over the batch, and the final save. */
    method Fold(log: seq<Event>, i0: nat, next: nat, cut: Cut, mls0: Record) returns (result: Result, applied: seq<nat>)
      requires i0 <= next <= |log|
      modifies this
      ensures (Durable(), result) == RunFrom(old(Durable()), mls0, log, i0, next, cut)
      ensures Chained(old(group), applied, group)
    {
      applied := [];
      var mls, i := mls0, i0;
      ghost var d0 := Durable();
      while i < next
        invariant i0 <= i <= next
        invariant RunFrom(d0, mls0, log, i0, next, cut) == RunFrom(Durable(), mls, log, i, next, cut)
        invariant Chained(d0.group, applied, group)
      {
        if cut.Before? && cut.at <= i {
          return Interrupted, applied;
        }
        ghost var before, mlsBefore := Durable(), mls;
        var mls', merged, stop := HandleEvent(log[i], next, cut.Mid? && cut.at <= i, mls);
        RunStep(before, mlsBefore, log, i, next, cut, Durable(), mls', stop);
        ChainedConcat(d0.group, applied, before.group, merged, group);
        applied := applied + merged;
        mls := mls';
        if stop.Some? {
          return stop.value, applied;
        }
        i := i + 1;
      }
      if cut.Before? && cut.at <= i {
        return Interrupted, applied;
      }
      file := Some(mls.(cursor := next));
      result := Advanced;
    }

    /**
     One run of the command.  Whatever the log holds, the durable state ends as
     `Run` says, the commits merged carry consecutive epochs, and the cursor moves
     only when the whole batch was consumed or the group was poisoned.
     */
    method Process(log: seq<Event>, a: Attempt) returns (result: Result, applied: seq<nat>)
      modifies this
      ensures (Durable(), result) == Run(old(Durable()), log, a)
      ensures Chained(old(group), applied, group)
      ensures Loaded(file).cursor != old(Loaded(file).cursor) ==> result.Advanced? || result.Equivocation?
      ensures result.Gap? ==>
        Loaded(file).cursor == old(Loaded(file).cursor) && group.Some? && group.value < result.epoch
    {
      var mls := Loaded(file);
      if mls.poisoned.Some? {
        return Equivocation, [];
      }
      var i := Start(Durable(), log, a);
      var next := Next(Durable(), log, a);
      CursorMoves(Durable(), mls, log, i, next, a.cut);
      result, applied := Fold(log, i, next, a.cut, mls);
    }
  }

  /** The cursor moves only at the end of a batch or with a poisoning; a gap names an epoch ahead of the group. */
  lemma {:induction false} CursorMoves(d: Disk, mls: Record, log: seq<Event>, i: nat, next: nat, cut: Cut)
    requires i <= next <= |log| && Rec(d).cursor == mls.cursor
    ensures var (d', result) := RunFrom(d, mls, log, i, next, cut);
            && (Rec(d').cursor != mls.cursor ==> result.Advanced? || result.Equivocation?)
            && (result.Gap? ==> Rec(d').cursor == mls.cursor && d'.group.Some? && d'.group.value < result.epoch)
    decreases next - i
  {
    if i < next && !(cut.Before? && cut.at <= i) {
      var p := Handle(d.group, mls, log[i], next);
      if p.Going? {
        CursorMoves(if ChangesStore(d.group, log[i]) then Disk(p.group, Some(p.mls)) else d, p.mls, log, i + 1, next, cut);
      }
    }
  }

  lemma ChainedConcat(before: Option<nat>, one: seq<nat>, mid: Option<nat>, two: seq<nat>, now: Option<nat>)
    requires Chained(before, one, mid) && Chained(mid, two, now)
    ensures Chained(before, one + two, now)
  {
  }

  /** Epochs e, e + 1, e + 2, ...: in order, without a gap, each once. */
  ghost predicate Consecutive(applied: seq<nat>)
  {
    forall k :: 0 <= k < |applied| ==> applied[k] == applied[0] + k
  }

  /** The merged epochs lead from the group before to the group now. */
  ghost predicate Chained(before: Option<nat>, applied: seq<nat>, now: Option<nat>)
  {
    && Consecutive(applied)
    && (before.Some? ==> now == Some(before.value + |applied|) && (applied != [] ==> applied[0] == before.value))
    && (now.None? ==> applied == [])
    && (applied != [] ==> now == Some(applied[0] + |applied|))
  }
}
