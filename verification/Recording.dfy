/**
 Recording sessions: an atomic flag, an atomic session counter and a mutex-guarded
 slot holding the live session's id and path, touched by any number of
 interleaved starts and stops.  One move is one atomic access.
 */
module Recording {
  import opened Seqs

  /** `start` remembers the start that filled the slot. */
  datatype Slot = Slot(session: nat, path: string, start: nat)

  datatype Pc =
    // start_recording
    | StartIdle
    | Claimed                       // won the compare-exchange
    | Numbered(session: nat)        // took its session id
    | Live(session: nat)            // wrote the slot; the worker is running
    | Failing(session: nat)         // its worker failed and reset the flag, or died without doing so
    | Failed(session: nat)          // reset the flag (once more)
    // stop_recording; `want` is the id the caller passed, if any
    | StopIdle(want: Option<nat>)
    | Took(want: Option<nat>, slot: Slot)
    | Stopped(want: Option<nat>, slot: Slot)
    | Refused

  /**
   `owner` remembers the start that last won the flag, and `paths` which path was
   published for which session.
   */
  datatype Sys = Sys(flag: bool, owner: nat, counter: nat, slot: Option<Slot>, tasks: map<nat, Pc>, paths: map<nat, string>)

  const INIT: Sys := Sys(false, 0, 0, None, map[], map[])

  datatype Move =
    | SpawnStart(id: nat)
    | SpawnStop(id: nat, want: Option<nat>)
    | CompareExchange(id: nat)
    | FetchAdd(id: nat)
    | Publish(id: nat, path: string)
    | SetupFails(id: nat)
    | WorkerDies(id: nat)
    | ResetFlagAgain(id: nat)
    | ResetSlot(id: nat)
    | Take(id: nat)
    | ClearFlag(id: nat)

  function SetPc(s: Sys, id: nat, pc: Pc): (r: Sys)
  {
    s.(tasks := s.tasks[id := pc])
  }

  /** A move that is not enabled leaves the system as it is. */
  function Step(s: Sys, m: Move): (r: Sys)
  {
    if m.SpawnStart? || m.SpawnStop? then
      if m.id in s.tasks then s else SetPc(s, m.id, if m.SpawnStart? then StartIdle else StopIdle(m.want))
    else if m.id !in s.tasks then s
    else
      var pc := s.tasks[m.id];
      match m
      case CompareExchange(id) =>
        if !pc.StartIdle? then s
        else if s.flag then SetPc(s, id, Refused)
        else SetPc(s, id, Claimed).(flag := true, owner := id)
      case FetchAdd(id) =>
        if pc.Claimed? then SetPc(s, id, Numbered(s.counter + 1)).(counter := s.counter + 1) else s
      case Publish(id, path) =>
        if pc.Numbered?
        then SetPc(s, id, Live(pc.session)).(slot := Some(Slot(pc.session, path, id)), paths := s.paths[pc.session := path])
        else s
      case SetupFails(id) =>
        if pc.Live? then SetPc(s, id, Failing(pc.session)).(flag := false) else s
      case WorkerDies(id) =>
        if pc.Live? then SetPc(s, id, Failing(pc.session)) else s
      case ResetFlagAgain(id) =>
        if pc.Failing? then SetPc(s, id, Failed(pc.session)).(flag := false) else s
      case ResetSlot(id) =>
        if pc.Failed? then SetPc(s, id, Refused).(slot := None) else s
      case Take(id) =>
        if !pc.StopIdle? then s
        else if s.slot.None? || (pc.want.Some? && pc.want.value != s.slot.value.session) then SetPc(s, id, Refused)
        else SetPc(s, id, Took(pc.want, s.slot.value)).(slot := None)
      case ClearFlag(id) =>
        if pc.Took? then SetPc(s, id, Stopped(pc.want, pc.slot)).(flag := false) else s
  }

  function StepAll(moves: seq<Move>): (s: Sys)
  {
    if moves == [] then INIT else Step(StepAll(moves[..|moves| - 1]), moves[|moves| - 1])
  }

  // ---------------------------------------------------------------------
  // The token
  // ---------------------------------------------------------------------

  /** A task that holds the token: a start before its slot write, or a stop after its take. */
  predicate Holding(pc: Pc)
  {
    pc.Claimed? || pc.Numbered? || pc.Took?
  }

  predicate IsHolder(s: Sys, id: nat)
  {
    id in s.tasks && Holding(s.tasks[id])
  }

  /** Exactly one holder of the token, be it a task or the filled slot. */
  ghost predicate OneHolder(s: Sys)
  {
    || (s.slot.Some? && forall id :: !IsHolder(s, id))
    || (s.slot.None? && exists id :: IsHolder(s, id) && forall other :: IsHolder(s, other) ==> other == id)
  }

  ghost predicate NoHolder(s: Sys)
  {
    s.slot.None? && forall id :: !IsHolder(s, id)
  }

  ghost predicate SomeHolder(s: Sys)
  {
    exists id :: IsHolder(s, id)
  }

  /** The flag is up exactly when there is a holder, and there is never more than one. */
  ghost predicate Token(s: Sys)
  {
    && (forall a, b :: IsHolder(s, a) && IsHolder(s, b) ==> a == b)
    && (s.slot.Some? ==> !SomeHolder(s))
    && (s.flag <==> s.slot.Some? || SomeHolder(s))
  }

  /** A slot in hand carries the path published for its session, under the id asked for. */
  ghost predicate CarriesItsPath(s: Sys, want: Option<nat>, slot: Slot)
  {
    && slot.session in s.paths && s.paths[slot.session] == slot.path
    && (want.Some? ==> want.value == slot.session)
  }

  predicate HasTaken(pc: Pc)
  {
    pc.Took? || pc.Stopped?
  }

  /** Session ids: holders work for the newest session, and no two stops share one. */
  ghost predicate Sessions(s: Sys)
  {
    && (forall k :: k in s.paths ==> k <= s.counter)
    && (s.slot.Some? ==> s.slot.value.session == s.counter && CarriesItsPath(s, None, s.slot.value))
    && (forall id :: id in s.tasks ==> TaskOk(s, s.tasks[id]))
    && Distinct(s)
  }

  ghost predicate Inv(s: Sys)
  {
    Token(s) && Sessions(s)
  }

  predicate FailureMove(m: Move)
  {
    m.SetupFails? || m.WorkerDies? || m.ResetFlagAgain? || m.ResetSlot?
  }

  lemma TokenKept(s: Sys, m: Move)
    requires Token(s) && !FailureMove(m)
    ensures Token(Step(s, m))
  {
    var r := Step(s, m);
    assert forall other :: other != m.id ==> (IsHolder(r, other) <==> IsHolder(s, other));
    if IsHolder(s, m.id) {
      SoleHolder(s, m.id);
    } else if SomeHolder(s) {
      var h :| IsHolder(s, h);
      assert IsHolder(r, h);
    }
    assert IsHolder(r, m.id) ==> SomeHolder(r);
  }

  lemma SoleHolder(s: Sys, id: nat)
    requires Token(s) && IsHolder(s, id)
    ensures s.flag && s.slot.None? && forall other :: IsHolder(s, other) ==> other == id
  {
  }

  /** The part of `Sessions` that is about one task. */
  ghost predicate TaskOk(s: Sys, pc: Pc)
  {
    match pc
    case Numbered(n) => n == s.counter && n !in s.paths
    case Took(want, slot) => slot.session == s.counter && CarriesItsPath(s, want, slot)
    case Stopped(want, slot) => CarriesItsPath(s, want, slot)
    case _ => true
  }

  lemma TaskKept(s: Sys, m: Move, id: nat)
    requires Inv(s) && !FailureMove(m) && id in Step(s, m).tasks
    ensures TaskOk(Step(s, m), Step(s, m).tasks[id])
  {
    if IsHolder(s, m.id) {
      SoleHolder(s, m.id);
      assert id in s.tasks && IsHolder(s, id) ==> id == m.id;
    }
    assert id in s.tasks ==> TaskOk(s, s.tasks[id]);
  }

  /** No stop has taken the session in the slot ... */
  ghost predicate SlotIsNew(s: Sys)
  {
    forall id :: id in s.tasks && HasTaken(s.tasks[id]) && s.slot.Some? ==>
      s.tasks[id].slot.session != s.slot.value.session
  }

  /** ... and no two stops have taken the same one. */
  ghost predicate TakenOnce(s: Sys)
  {
    forall a, b :: a in s.tasks && b in s.tasks && a != b && HasTaken(s.tasks[a]) && HasTaken(s.tasks[b]) ==>
      s.tasks[a].slot.session != s.tasks[b].slot.session
  }

  ghost predicate Distinct(s: Sys)
  {
    SlotIsNew(s) && TakenOnce(s)
  }

  /** A move makes a stop take a session only out of the slot. */
  lemma TakenStep(s: Sys, m: Move, id: nat)
    requires id in Step(s, m).tasks && HasTaken(Step(s, m).tasks[id])
    ensures var r := Step(s, m);
            || (id in s.tasks && HasTaken(s.tasks[id]) && s.tasks[id].slot == r.tasks[id].slot)
            || (m == Take(id) && s.slot == Some(r.tasks[id].slot) && r.slot.None?)
  {
  }

  /** A move fills the slot only with the newest session, which nobody has published. */
  lemma SlotStep(s: Sys, m: Move)
    requires Inv(s) && !FailureMove(m) && Step(s, m).slot.Some?
    ensures var r := Step(s, m);
            r.slot == s.slot || (r.slot.value.session == s.counter && s.counter !in s.paths)
  {
    assert m.id in s.tasks ==> TaskOk(s, s.tasks[m.id]);
  }

  lemma DistinctKept(s: Sys, m: Move)
    requires Inv(s) && !FailureMove(m)
    ensures Distinct(Step(s, m))
  {
    var r := Step(s, m);
    forall id | id in r.tasks && HasTaken(r.tasks[id]) && r.slot.Some?
      ensures r.tasks[id].slot.session != r.slot.value.session
    {
      TakenStep(s, m, id);
      SlotStep(s, m);
      assert TaskOk(s, s.tasks[id]);
    }
    forall a, b | a in r.tasks && b in r.tasks && a != b && HasTaken(r.tasks[a]) && HasTaken(r.tasks[b])
      ensures r.tasks[a].slot.session != r.tasks[b].slot.session
    {
      TakenStep(s, m, a);
      TakenStep(s, m, b);
    }
  }

  lemma SessionsKept(s: Sys, m: Move)
    requires Inv(s) && !FailureMove(m)
    ensures Sessions(Step(s, m))
  {
    var r := Step(s, m);
    forall id | id in r.tasks ensures TaskOk(r, r.tasks[id]) {
      TaskKept(s, m, id);
    }
    DistinctKept(s, m);
    if m.id in s.tasks {
      assert TaskOk(s, s.tasks[m.id]);
    }
    if IsHolder(s, m.id) {
      SoleHolder(s, m.id);
    }
  }

  lemma {:induction false} AlwaysInv(moves: seq<Move>)
    requires forall i :: 0 <= i < |moves| ==> !FailureMove(moves[i])
    ensures Inv(StepAll(moves))
  {
    if moves != [] {
      var s := StepAll(moves[..|moves| - 1]);
      AlwaysInv(moves[..|moves| - 1]);
      TokenKept(s, moves[|moves| - 1]);
      SessionsKept(s, moves[|moves| - 1]);
    }
  }

  /** In every interleaving the recording flag is up exactly when one holder exists. */
  lemma FlagMeansOneHolder(moves: seq<Move>)
    requires forall i :: 0 <= i < |moves| ==> !FailureMove(moves[i])
    ensures StepAll(moves).flag <==> OneHolder(StepAll(moves))
    ensures !StepAll(moves).flag <==> NoHolder(StepAll(moves))
  {
    AlwaysInv(moves);
    var s := StepAll(moves);
    if SomeHolder(s) {
      var h :| IsHolder(s, h);
      assert forall other :: IsHolder(s, other) ==> other == h;
    }
  }

  /** A stop lowers the flag only for the newest session, and leaves nobody holding the token. */
  lemma ClearingHitsOnlyItsOwn(moves: seq<Move>, id: nat)
    requires forall i :: 0 <= i < |moves| ==> !FailureMove(moves[i])
    requires id in StepAll(moves).tasks && StepAll(moves).tasks[id].Took?
    ensures var s := StepAll(moves);
            && s.flag && s.tasks[id].slot.session == s.counter
            && NoHolder(Step(s, ClearFlag(id)))
  {
    AlwaysInv(moves);
    TokenKept(StepAll(moves), ClearFlag(id));
    assert IsHolder(StepAll(moves), id);
  }

  /** A new start, from any state, that makes its moves. */
  function Started(s: Sys, id: nat, path: string): (r: Sys)
  {
    Step(Step(Step(Step(s, SpawnStart(id)), CompareExchange(id)), FetchAdd(id)), Publish(id, path))
  }

  /** A start gets through if and only if the flag is down; then its session and path are the live ones. */
  lemma StartIff(s: Sys, id: nat, path: string)
    requires id !in s.tasks
    ensures id in Started(s, id, path).tasks
    ensures Started(s, id, path).tasks[id].Live? <==> !s.flag
    ensures !s.flag ==> Started(s, id, path).slot == Some(Slot(s.counter + 1, path, id)) && Started(s, id, path).flag
    ensures s.flag ==> Started(s, id, path).tasks[id] == Refused && Started(s, id, path).slot == s.slot
  {
  }

  /** A stop takes the session if and only if one is there and it is the one asked for, or none was named. */
  lemma StopTakesIff(s: Sys, id: nat)
    requires id in s.tasks && s.tasks[id].StopIdle?
    ensures var r, want := Step(s, Take(id)), s.tasks[id].want;
            && (r.tasks[id].Took? <==> s.slot.Some? && (want == None || want == Some(s.slot.value.session)))
            && (r.tasks[id].Took? ==> r.tasks[id].slot == s.slot.value && r.slot == None)
            && (!r.tasks[id].Took? ==> r.tasks[id] == Refused && r.slot == s.slot && r.flag == s.flag)
  {
  }

  // ---------------------------------------------------------------------
  // A late clean-up
  // ---------------------------------------------------------------------

  lemma StepSnoc(moves: seq<Move>, m: Move)
    ensures StepAll(moves + [m]) == Step(StepAll(moves), m)
  {
    assert (moves + [m])[..|moves|] == moves;
  }

  const FIRST: seq<Move> := [SpawnStart(0), CompareExchange(0), FetchAdd(0), Publish(0, "a"), SetupFails(0)]
  const SECOND: seq<Move> := [SpawnStart(1), CompareExchange(1), FetchAdd(1), Publish(1, "b")]
  const LATE: seq<Move> := [ResetFlagAgain(0), ResetSlot(0)]

  lemma FirstFails()
    ensures var s := Then(INIT, FIRST); !s.flag && s.counter == 1 && s.tasks.Keys == {0} && s.tasks[0] == Failing(1)
  {
    FiveMoves(INIT, FIRST);
  }

  lemma SecondStarts(s: Sys)
    requires !s.flag && s.counter == 1 && s.tasks.Keys == {0} && s.tasks[0] == Failing(1)
    ensures var r := Then(s, SECOND);
            && r.counter == 2 && r.tasks.Keys == {0, 1} && r.tasks[0] == Failing(1) && r.tasks[1] == Live(2)
  {
    FourMoves(s, SECOND);
  }

  lemma FirstCleansUp(s: Sys)
    requires s.counter == 2 && s.tasks.Keys == {0, 1} && s.tasks[0] == Failing(1) && s.tasks[1] == Live(2)
    ensures var r := Then(s, LATE);
            1 in r.tasks && r.tasks[1] == Live(2) && r.counter == 2 && !r.flag && r.slot.None?
  {
    TwoMoves(s, LATE);
  }

  /** A late failure clean-up takes flag and slot away from a newer, live session. */
  lemma LateCleanUpHitsNewerSession()
    ensures var s := StepAll(FIRST + SECOND + LATE);
            1 in s.tasks && s.tasks[1] == Live(2) && s.counter == 2 && !s.flag && s.slot.None?
  {
    RunOf(FIRST);
    RunConcat(FIRST, SECOND);
    RunConcat(FIRST + SECOND, LATE);
    FirstFails();
    SecondStarts(Then(INIT, FIRST));
    FirstCleansUp(Then(Then(INIT, FIRST), SECOND));
  }

  lemma TwoMoves(s: Sys, ms: seq<Move>)
    requires |ms| == 2
    ensures Then(s, ms) == Step(Step(s, ms[0]), ms[1])
  {
    var s1 := Step(s, ms[0]);
    assert Then(s, ms) == Then(s1, ms[1..]);
    assert Then(s1, ms[1..]) == Then(Step(s1, ms[1]), ms[1..][1..]);
  }

  lemma FourMoves(s: Sys, ms: seq<Move>)
    requires |ms| == 4
    ensures Then(s, ms) == Step(Step(Step(Step(s, ms[0]), ms[1]), ms[2]), ms[3])
  {
    TwoMoves(Step(Step(s, ms[0]), ms[1]), ms[1..][1..]);
  }

  lemma FiveMoves(s: Sys, ms: seq<Move>)
    requires |ms| == 5
    ensures Then(s, ms) == Step(Step(Step(Step(Step(s, ms[0]), ms[1]), ms[2]), ms[3]), ms[4])
  {
    FourMoves(Step(s, ms[0]), ms[1..]);
  }

  /** The moves carried out from a given state. */
  function Then(s: Sys, moves: seq<Move>): (r: Sys)
    decreases |moves|
  {
    if moves == [] then s else Then(Step(s, moves[0]), moves[1..])
  }

  lemma {:induction false} RunConcat(moves: seq<Move>, more: seq<Move>)
    ensures StepAll(moves + more) == Then(StepAll(moves), more)
    decreases |more|
  {
    if more == [] {
      assert moves + more == moves;
    } else {
      StepSnoc(moves, more[0]);
      assert moves + more == (moves + [more[0]]) + more[1..];
      RunConcat(moves + [more[0]], more[1..]);
    }
  }

  lemma RunOf(moves: seq<Move>)
    ensures StepAll(moves) == Then(INIT, moves)
  {
    RunConcat([], moves);
    assert [] + moves == moves;
  }
}
