/**
 Recording starts that fail.  Their clean-up resets flag and slot without asking
 whose they are; so does a stop whose session has meanwhile failed.  For every run,
 with any failures at any time, every session keeps what is its own if and only if
 no reset takes place while flag or slot belong to another live session.
 */
module RecordingFailures {
  import opened Seqs
  import opened Recording

  /** A start on its way, or one whose session is up. */
  predicate Alive(s: Sys, id: nat)
  {
    id in s.tasks && (s.tasks[id].Claimed? || s.tasks[id].Numbered? || s.tasks[id].Live?)
  }

  predicate Owns(s: Sys, id: nat)
  {
    s.flag && s.owner == id
  }

  /** Lowering the flag on behalf of start `own` takes it from another live session. */
  predicate HitsFlag(s: Sys, own: nat)
  {
    s.flag && s.owner != own && Alive(s, s.owner)
  }

  /** The move is a reset that takes flag or slot from another live session. */
  predicate Hits(s: Sys, m: Move)
  {
    && m.id in s.tasks
    && var pc := s.tasks[m.id];
       match m
       case SetupFails(id) => pc.Live? && HitsFlag(s, id)
       case ResetFlagAgain(id) => pc.Failing? && HitsFlag(s, id)
       case ResetSlot(id) => pc.Failed? && s.slot.Some? && s.slot.value.start != id && Alive(s, s.slot.value.start)
       case ClearFlag(_) => pc.Took? && HitsFlag(s, pc.slot.start)
       case _ => false
  }

  /** Move `k` of the run is such a reset. */
  predicate HitAt(moves: seq<Move>, k: nat)
  {
    k < |moves| && Hits(StepAll(moves[..k]), moves[k])
  }

  ghost predicate NoHits(moves: seq<Move>)
  {
    forall k: nat :: !HitAt(moves, k)
  }

  /** Some stop has taken the session that start `id` published. */
  ghost predicate Taken(s: Sys, id: nat)
  {
    exists t :: t in s.tasks && HasTaken(s.tasks[t]) && s.tasks[t].slot.start == id
  }

  /**
   What the sessions are entitled to: a start on its way owns the flag, a live session
   has flag and slot unless a stop took it, and a stop in progress finds the flag its
   live session's.
   */
  ghost predicate Intact(s: Sys)
  {
    && (forall id :: id in s.tasks && (s.tasks[id].Claimed? || s.tasks[id].Numbered?) ==> Owns(s, id))
    && (forall id :: id in s.tasks && s.tasks[id].Live? ==>
          (s.slot.Some? && s.slot.value.start == id && Owns(s, id)) || Taken(s, id))
    && (forall t :: t in s.tasks && s.tasks[t].Took? && IsLive(s, s.tasks[t].slot.start) ==> Owns(s, s.tasks[t].slot.start))
  }

  predicate IsLive(s: Sys, id: nat)
  {
    id in s.tasks && s.tasks[id].Live?
  }

  /** A start that has published its session. */
  predicate Published(s: Sys, id: nat)
  {
    id in s.tasks &&
    (s.tasks[id].Live? || s.tasks[id].Failing? || s.tasks[id].Failed? || s.tasks[id].Refused?)
  }

  // ---------------------------------------------------------------------
  // The invariant of runs without hits
  // ---------------------------------------------------------------------

  ghost predicate SlotOk(s: Sys)
  {
    s.slot.Some? ==>
      && Published(s, s.slot.value.start) && !s.tasks[s.slot.value.start].Refused?
      && (IsLive(s, s.slot.value.start) ==> Owns(s, s.slot.value.start))
  }

  ghost predicate PcOk(s: Sys, id: nat)
    requires id in s.tasks
  {
    match s.tasks[id]
    case Claimed => Owns(s, id)
    case Numbered(_) => Owns(s, id)
    case Live(_) => (s.slot.Some? && s.slot.value.start == id) || Taken(s, id)
    case Took(_, slot) => Published(s, slot.start) && (IsLive(s, slot.start) ==> Owns(s, slot.start))
    case Stopped(_, slot) => Published(s, slot.start) && !Owns(s, slot.start)
    case _ => true
  }

  ghost predicate OwnerOk(s: Sys)
  {
    s.flag ==> s.owner in s.tasks && (Alive(s, s.owner) || s.tasks[s.owner].Failing?)
  }

  /** Each published session is in one place: the slot, or with one stop. */
  ghost predicate OnePlace(s: Sys)
  {
    && (forall t :: t in s.tasks && HasTaken(s.tasks[t]) && s.slot.Some? ==> s.tasks[t].slot.start != s.slot.value.start)
    && (forall a, b :: a in s.tasks && b in s.tasks && a != b && HasTaken(s.tasks[a]) && HasTaken(s.tasks[b]) ==>
          s.tasks[a].slot.start != s.tasks[b].slot.start)
  }

  ghost predicate Tidy(s: Sys)
  {
    SlotOk(s) && OwnerOk(s) && OnePlace(s) && forall id :: id in s.tasks ==> PcOk(s, id)
  }

  lemma TidyIsIntact(s: Sys)
    requires Tidy(s)
    ensures Intact(s)
  {
    forall id | id in s.tasks ensures PcOk(s, id) {
    }
  }

  /** A move changes no task but its own. */
  lemma OtherTasks(s: Sys, m: Move, id: nat)
    requires id != m.id
    ensures var r := Step(s, m); (id in r.tasks <==> id in s.tasks) && (id in s.tasks ==> r.tasks[id] == s.tasks[id])
  {
  }

  /** What is taken stays taken. */
  lemma TakenKept(s: Sys, m: Move, id: nat)
    requires Taken(s, id)
    ensures Taken(Step(s, m), id)
  {
    var t :| t in s.tasks && HasTaken(s.tasks[t]) && s.tasks[t].slot.start == id;
    assert t in Step(s, m).tasks && HasTaken(Step(s, m).tasks[t]) && Step(s, m).tasks[t].slot.start == id;
  }

  /** Without a hit, a live owner keeps the flag, unless it is its own session that gives it up. */
  lemma OwnerKept(s: Sys, m: Move, id: nat)
    requires Tidy(s) && !Hits(s, m) && Owns(s, id) && Alive(s, id)
    ensures var r := Step(s, m);
            || Owns(r, id)
            || (m == SetupFails(id) && s.tasks[id].Live?)
            || (m.ClearFlag? && m.id in s.tasks && s.tasks[m.id].Took? && s.tasks[m.id].slot.start == id)
  {
  }

  lemma SlotKept(s: Sys, m: Move)
    requires Tidy(s) && !Hits(s, m)
    ensures SlotOk(Step(s, m))
  {
    var r := Step(s, m);
    if r.slot.Some? {
      var own := r.slot.value.start;
      assert m.id in s.tasks ==> PcOk(s, m.id);
      if r.slot == s.slot && IsLive(s, own) {
        OwnerKept(s, m, own);
      }
    }
  }

  lemma OwnerOkKept(s: Sys, m: Move)
    requires Tidy(s) && !Hits(s, m)
    ensures OwnerOk(Step(s, m))
  {
    assert m.id in s.tasks ==> PcOk(s, m.id);
  }

  lemma OnePlaceKept(s: Sys, m: Move)
    requires Tidy(s) && !Hits(s, m)
    ensures OnePlace(Step(s, m))
  {
    var r := Step(s, m);
    forall t | t in r.tasks && HasTaken(r.tasks[t])
      ensures r.slot.Some? ==> r.tasks[t].slot.start != r.slot.value.start
    {
      TakenStep(s, m, t);
      assert t in s.tasks ==> PcOk(s, t);
      assert m.id in s.tasks ==> PcOk(s, m.id);
    }
    forall a, b | a in r.tasks && b in r.tasks && a != b && HasTaken(r.tasks[a]) && HasTaken(r.tasks[b])
      ensures r.tasks[a].slot.start != r.tasks[b].slot.start
    {
      TakenStep(s, m, a);
      TakenStep(s, m, b);
    }
  }

  /** A published start stays published. */
  lemma PublishedKept(s: Sys, m: Move, id: nat)
    requires Published(s, id)
    ensures Published(Step(s, m), id) && (IsLive(Step(s, m), id) ==> IsLive(s, id))
  {
  }

  lemma OtherPcKept(s: Sys, m: Move, id: nat)
    requires Tidy(s) && !Hits(s, m) && id in s.tasks && id != m.id
    ensures id in Step(s, m).tasks && PcOk(Step(s, m), id)
  {
    var r := Step(s, m);
    OtherTasks(s, m, id);
    assert PcOk(s, id);
    match s.tasks[id]
    case Claimed => OwnerKept(s, m, id);
    case Numbered(_) => OwnerKept(s, m, id);
    case Live(_) => LiveKept(s, m, id);
    case Took(_, slot) => TookKept(s, m, id);
    case Stopped(_, slot) =>
      PublishedKept(s, m, slot.start);
    case _ =>
  }

  lemma LiveKept(s: Sys, m: Move, id: nat)
    requires Tidy(s) && !Hits(s, m) && IsLive(s, id) && id != m.id
    ensures var r := Step(s, m); (r.slot.Some? && r.slot.value.start == id) || Taken(r, id)
  {
    var r := Step(s, m);
    assert PcOk(s, id);
    assert m.id in s.tasks ==> PcOk(s, m.id);
    if Taken(s, id) {
      TakenKept(s, m, id);
    } else if r.slot != s.slot && m.Take? {
      assert m.id in r.tasks && HasTaken(r.tasks[m.id]) && r.tasks[m.id].slot.start == id;
    }
  }

  lemma TookKept(s: Sys, m: Move, id: nat)
    requires Tidy(s) && !Hits(s, m) && id in s.tasks && s.tasks[id].Took? && id != m.id
    ensures var r, own := Step(s, m), s.tasks[id].slot.start; Published(r, own) && (IsLive(r, own) ==> Owns(r, own))
  {
    var own := s.tasks[id].slot.start;
    assert PcOk(s, id);
    PublishedKept(s, m, own);
    if IsLive(Step(s, m), own) {
      OwnerKept(s, m, own);
    }
  }

  lemma OwnPcKept(s: Sys, m: Move)
    requires Tidy(s) && !Hits(s, m) && m.id in Step(s, m).tasks
    ensures PcOk(Step(s, m), m.id)
  {
    var r := Step(s, m);
    if m.id in s.tasks {
      assert PcOk(s, m.id);
      if r.tasks[m.id] == s.tasks[m.id] && s.tasks[m.id].Live? && Taken(s, m.id) {
        TakenKept(s, m, m.id);
      }
    }
  }

  lemma TidyKept(s: Sys, m: Move)
    requires Tidy(s) && !Hits(s, m)
    ensures Tidy(Step(s, m))
  {
    SlotKept(s, m);
    OwnerOkKept(s, m);
    OnePlaceKept(s, m);
    var r := Step(s, m);
    forall id | id in r.tasks ensures PcOk(r, id) {
      if id == m.id {
        OwnPcKept(s, m);
      } else {
        OtherTasks(s, m, id);
        OtherPcKept(s, m, id);
      }
    }
  }

  lemma HitAtPrefix(moves: seq<Move>, n: nat, k: nat)
    requires k < n <= |moves|
    ensures HitAt(moves[..n], k) <==> HitAt(moves, k)
  {
    assert moves[..n][..k] == moves[..k];
  }

  lemma PrefixNoHits(moves: seq<Move>, n: nat)
    requires NoHits(moves) && n <= |moves|
    ensures NoHits(moves[..n])
  {
    forall k: nat ensures !HitAt(moves[..n], k) {
      if k < n {
        HitAtPrefix(moves, n, k);
      }
    }
  }

  lemma {:induction false} AlwaysTidy(moves: seq<Move>)
    requires NoHits(moves)
    ensures Tidy(StepAll(moves))
  {
    if moves != [] {
      PrefixNoHits(moves, |moves| - 1);
      assert !HitAt(moves, |moves| - 1);
      AlwaysTidy(moves[..|moves| - 1]);
      TidyKept(StepAll(moves[..|moves| - 1]), moves[|moves| - 1]);
    }
  }

  // ---------------------------------------------------------------------
  // A hit breaks a session
  // ---------------------------------------------------------------------

  lemma FlagHitBreaks(s: Sys, m: Move)
    requires Tidy(s) && Hits(s, m) && !m.ResetSlot?
    ensures !Intact(Step(s, m))
  {
    var r, victim := Step(s, m), s.owner;
    OtherTasks(s, m, victim);
    assert PcOk(s, victim) && PcOk(s, m.id);
    if s.tasks[victim].Live? {
      if Taken(s, victim) {
        var t :| t in s.tasks && HasTaken(s.tasks[t]) && s.tasks[t].slot.start == victim;
        assert PcOk(s, t);
        OtherTasks(s, m, t);
        assert r.tasks[t].Took? && IsLive(r, victim) && !Owns(r, victim);
      } else {
        NotTaken(s, m, victim);
        assert !Owns(r, victim);
      }
    } else {
      assert !Owns(r, victim);
    }
  }

  /** A reset takes nothing out of the slot for a stop. */
  lemma NotTaken(s: Sys, m: Move, id: nat)
    requires !Taken(s, id) && !m.Take?
    ensures !Taken(Step(s, m), id)
  {
    var r := Step(s, m);
    forall t | t in r.tasks && HasTaken(r.tasks[t]) ensures r.tasks[t].slot.start != id {
      TakenStep(s, m, t);
    }
  }

  lemma SlotHitBreaks(s: Sys, m: Move)
    requires Tidy(s) && Hits(s, m) && m.ResetSlot?
    ensures !Intact(Step(s, m))
  {
    var victim := s.slot.value.start;
    assert !Taken(s, victim);
    NotTaken(s, m, victim);
    OtherTasks(s, m, victim);
    assert IsLive(Step(s, m), victim);
  }

  /** The first hit at or before `n`. */
  lemma {:induction false} FirstHit(moves: seq<Move>, n: nat) returns (k: nat)
    requires HitAt(moves, n)
    ensures k <= n && HitAt(moves, k) && NoHits(moves[..k])
    decreases n
  {
    if j: nat :| j < n && HitAt(moves, j) {
      k := FirstHit(moves, j);
    } else {
      k := n;
      forall j: nat ensures !HitAt(moves[..n], j) {
        if j < n {
          HitAtPrefix(moves, n, j);
        }
      }
    }
  }

  ghost predicate AlwaysIntact(moves: seq<Move>)
  {
    forall k :: 0 <= k <= |moves| ==> Intact(StepAll(moves[..k]))
  }

  /**
   Over every run, with any failures: all sessions keep what is theirs throughout if
   and only if no reset finds flag or slot with another live session.
   */
  lemma IntegrityIff(moves: seq<Move>)
    ensures AlwaysIntact(moves) <==> NoHits(moves)
  {
    if NoHits(moves) {
      forall k | 0 <= k <= |moves| ensures Intact(StepAll(moves[..k])) {
        PrefixNoHits(moves, k);
        AlwaysTidy(moves[..k]);
        TidyIsIntact(StepAll(moves[..k]));
      }
    } else {
      var n: nat :| HitAt(moves, n);
      var k := FirstHit(moves, n);
      AlwaysTidy(moves[..k]);
      if moves[k].ResetSlot? {
        SlotHitBreaks(StepAll(moves[..k]), moves[k]);
      } else {
        FlagHitBreaks(StepAll(moves[..k]), moves[k]);
      }
      assert moves[..k + 1] == moves[..k] + [moves[k]];
      StepSnoc(moves[..k], moves[k]);
    }
  }

  // ---------------------------------------------------------------------
  // The token, once everything has been cleaned up
  // ---------------------------------------------------------------------

  /** A failed start has resets ahead of it, or a stop works for a session that has failed. */
  ghost predicate CleaningUp(s: Sys)
  {
    || (exists id :: id in s.tasks && (s.tasks[id].Failing? || s.tasks[id].Failed?))
    || (exists t :: t in s.tasks && s.tasks[t].Took? && !IsLive(s, s.tasks[t].slot.start))
  }

  /** Everybody who holds the token owns the flag. */
  lemma HolderOwns(s: Sys, id: nat)
    requires Tidy(s) && !CleaningUp(s) && IsHolder(s, id)
    ensures s.flag && s.owner == if s.tasks[id].Took? then s.tasks[id].slot.start else id
    ensures s.tasks[id].Took? ==> IsLive(s, s.tasks[id].slot.start)
  {
    assert PcOk(s, id);
  }

  lemma QuietHolders(s: Sys, a: nat, b: nat)
    requires Tidy(s) && !CleaningUp(s) && IsHolder(s, a) && IsHolder(s, b)
    ensures a == b && s.slot.None?
  {
    HolderOwns(s, a);
    HolderOwns(s, b);
  }

  lemma QuietFlag(s: Sys)
    requires Tidy(s) && !CleaningUp(s)
    ensures s.flag <==> s.slot.Some? || SomeHolder(s)
  {
    if s.flag {
      assert PcOk(s, s.owner);
      if s.tasks[s.owner].Live? && Taken(s, s.owner) {
        var t :| t in s.tasks && HasTaken(s.tasks[t]) && s.tasks[t].slot.start == s.owner;
        assert PcOk(s, t);
        assert IsHolder(s, t);
      } else if !s.tasks[s.owner].Live? {
        assert !s.tasks[s.owner].Failing?;
        assert IsHolder(s, s.owner);
      }
    }
    if s.slot.Some? {
      assert !s.tasks[s.slot.value.start].Failing? && !s.tasks[s.slot.value.start].Failed?;
    }
    if SomeHolder(s) {
      var h :| IsHolder(s, h);
      HolderOwns(s, h);
    }
  }

  /** Without hits the flag means one holder again whenever no clean-up is in progress. */
  lemma TokenWhenQuiet(moves: seq<Move>)
    requires NoHits(moves) && !CleaningUp(StepAll(moves))
    ensures Token(StepAll(moves))
  {
    var s := StepAll(moves);
    AlwaysTidy(moves);
    QuietFlag(s);
    forall a, b | IsHolder(s, a) && IsHolder(s, b) ensures a == b {
      QuietHolders(s, a, b);
    }
    if SomeHolder(s) {
      var h :| IsHolder(s, h);
      QuietHolders(s, h, h);
    }
  }

  ghost predicate NoFailures(moves: seq<Move>)
  {
    forall i :: 0 <= i < |moves| ==> !FailureMove(moves[i])
  }

  /** Where every setup succeeds nothing is ever hit. */
  lemma {:induction false} SuccessNeverHits(moves: seq<Move>)
    requires NoFailures(moves)
    ensures NoHits(moves)
    ensures forall id :: id in StepAll(moves).tasks ==> !StepAll(moves).tasks[id].Failing? && !StepAll(moves).tasks[id].Failed?
    ensures forall t :: t in StepAll(moves).tasks && HasTaken(StepAll(moves).tasks[t]) ==> IsLive(StepAll(moves), StepAll(moves).tasks[t].slot.start)
    ensures StepAll(moves).slot.Some? ==> IsLive(StepAll(moves), StepAll(moves).slot.value.start)
  {
    if moves != [] {
      var init, m := moves[..|moves| - 1], moves[|moves| - 1];
      SuccessNeverHits(init);
      AlwaysTidy(init);
      var s := StepAll(init);
      assert m.id in s.tasks ==> PcOk(s, m.id);
      forall k: nat ensures !HitAt(moves, k) {
        if k < |init| {
          HitAtPrefix(moves, |init|, k);
        }
      }
      SuccessStep(s, m);
    }
  }

  lemma SuccessStep(s: Sys, m: Move)
    requires !FailureMove(m)
    requires forall id :: id in s.tasks ==> !s.tasks[id].Failing? && !s.tasks[id].Failed?
    requires forall t :: t in s.tasks && HasTaken(s.tasks[t]) ==> IsLive(s, s.tasks[t].slot.start)
    requires s.slot.Some? ==> IsLive(s, s.slot.value.start)
    ensures var r := Step(s, m);
            && (forall id :: id in r.tasks ==> !r.tasks[id].Failing? && !r.tasks[id].Failed?)
            && (forall t :: t in r.tasks && HasTaken(r.tasks[t]) ==> IsLive(r, r.tasks[t].slot.start))
            && (r.slot.Some? ==> IsLive(r, r.slot.value.start))
  {
    var r := Step(s, m);
    forall t | t in r.tasks && HasTaken(r.tasks[t]) ensures IsLive(r, r.tasks[t].slot.start) {
      TakenStep(s, m, t);
    }
  }

  /**
   Without hits a live session that nobody took can be stopped by its id: the stop gets
   the path under which the session was published, and leaves nothing behind.
   */
  lemma LiveSessionCanBeStopped(moves: seq<Move>, start: nat, stop: nat)
    requires NoHits(moves) && IsLive(StepAll(moves), start) && !Taken(StepAll(moves), start)
    requires stop !in StepAll(moves).tasks && StepAll(moves).slot.Some?
    ensures var s := StepAll(moves);
            var session := s.slot.value.session;
            var r := Step(Step(Step(s, SpawnStop(stop, Some(session))), Take(stop)), ClearFlag(stop));
            && s.slot.value.start == start && session in s.paths
            && r.tasks[stop].Stopped? && r.tasks[stop].slot.path == s.paths[session]
            && r.slot == None && !r.flag
  {
    AlwaysTidy(moves);
    AlwaysPathsOk(moves);
    assert PcOk(StepAll(moves), start);
  }

  // ---------------------------------------------------------------------
  // What failures cannot spoil: sessions and their paths
  // ---------------------------------------------------------------------

  /** Session ids are handed out once, and slots in hand carry the path published under theirs. */
  ghost predicate PathsOk(s: Sys)
  {
    && (forall k :: k in s.paths ==> k <= s.counter)
    && (forall id :: id in s.tasks && s.tasks[id].Numbered? ==>
          s.tasks[id].session <= s.counter && s.tasks[id].session !in s.paths)
    && (forall a, b :: a in s.tasks && b in s.tasks && a != b && s.tasks[a].Numbered? && s.tasks[b].Numbered? ==>
          s.tasks[a].session != s.tasks[b].session)
    && (s.slot.Some? ==> CarriesItsPath(s, None, s.slot.value))
    && (forall t :: t in s.tasks && HasTaken(s.tasks[t]) ==> CarriesItsPath(s, s.tasks[t].want, s.tasks[t].slot))
    && Distinct(s)
  }

  lemma NumberedStep(s: Sys, m: Move, id: nat)
    requires PathsOk(s) && id in Step(s, m).tasks && Step(s, m).tasks[id].Numbered?
    ensures var r := Step(s, m);
            && r.tasks[id].session <= r.counter && r.tasks[id].session !in r.paths
            && ((id in s.tasks && s.tasks[id] == r.tasks[id]) || (m == FetchAdd(id) && r.tasks[id].session == s.counter + 1))
  {
    if m.Publish? && m.id in s.tasks && s.tasks[m.id].Numbered? && m.id != id {
      assert s.tasks[id].session != s.tasks[m.id].session;
    }
  }

  lemma GenuineStep(s: Sys, m: Move, want: Option<nat>, slot: Slot)
    requires PathsOk(s) && CarriesItsPath(s, want, slot)
    ensures CarriesItsPath(Step(s, m), want, slot)
  {
  }

  lemma StopStep(s: Sys, m: Move, t: nat)
    requires PathsOk(s) && t in Step(s, m).tasks && HasTaken(Step(s, m).tasks[t])
    ensures var r := Step(s, m); CarriesItsPath(r, r.tasks[t].want, r.tasks[t].slot)
  {
    var r := Step(s, m);
    TakenStep(s, m, t);
    GenuineStep(s, m, r.tasks[t].want, r.tasks[t].slot);
  }

  lemma SlotPathStep(s: Sys, m: Move)
    requires PathsOk(s) && Step(s, m).slot.Some?
    ensures var r := Step(s, m);
            && CarriesItsPath(r, None, r.slot.value)
            && (r.slot == s.slot || r.slot.value.session !in s.paths)
  {
    if Step(s, m).slot == s.slot {
      GenuineStep(s, m, None, s.slot.value);
    }
  }

  lemma DistinctAlways(s: Sys, m: Move)
    requires PathsOk(s)
    ensures Distinct(Step(s, m))
  {
    var r := Step(s, m);
    forall t | t in r.tasks && HasTaken(r.tasks[t]) && r.slot.Some?
      ensures r.tasks[t].slot.session != r.slot.value.session
    {
      TakenStep(s, m, t);
      SlotPathStep(s, m);
    }
    forall a, b | a in r.tasks && b in r.tasks && a != b && HasTaken(r.tasks[a]) && HasTaken(r.tasks[b])
      ensures r.tasks[a].slot.session != r.tasks[b].slot.session
    {
      TakenStep(s, m, a);
      TakenStep(s, m, b);
    }
  }

  lemma PathsKept(s: Sys, m: Move)
    requires PathsOk(s)
    ensures PathsOk(Step(s, m))
  {
    var r := Step(s, m);
    forall id | id in r.tasks && r.tasks[id].Numbered?
      ensures r.tasks[id].session <= r.counter && r.tasks[id].session !in r.paths
    {
      NumberedStep(s, m, id);
    }
    forall a, b | a in r.tasks && b in r.tasks && a != b && r.tasks[a].Numbered? && r.tasks[b].Numbered?
      ensures r.tasks[a].session != r.tasks[b].session
    {
      NumberedStep(s, m, a);
      NumberedStep(s, m, b);
    }
    forall t | t in r.tasks && HasTaken(r.tasks[t]) ensures CarriesItsPath(r, r.tasks[t].want, r.tasks[t].slot) {
      StopStep(s, m, t);
    }
    if r.slot.Some? {
      SlotPathStep(s, m);
    }
    DistinctAlways(s, m);
  }

  lemma {:induction false} AlwaysPathsOk(moves: seq<Move>)
    ensures PathsOk(StepAll(moves))
  {
    if moves != [] {
      AlwaysPathsOk(moves[..|moves| - 1]);
      PathsKept(StepAll(moves[..|moves| - 1]), moves[|moves| - 1]);
    }
  }

  /**
   Whatever fails and whatever is hit: a stop given an id returns the path published
   under that id, and no two stops return the same session.
   */
  lemma StopsReturnTheirOwnSession(moves: seq<Move>, a: nat, b: nat)
    requires a in StepAll(moves).tasks && StepAll(moves).tasks[a].Stopped?
    ensures var s := StepAll(moves);
            && CarriesItsPath(s, s.tasks[a].want, s.tasks[a].slot)
            && (b != a && b in s.tasks && s.tasks[b].Stopped? ==>
                  s.tasks[b].slot.session != s.tasks[a].slot.session)
  {
    AlwaysPathsOk(moves);
  }
}
