/**
 Request/response multiplexing over one connection: callers draw 32-bit request
 ids from an atomic counter, register a sender in the pending map and write their
 frame; one reader task routes responses by id.  One move is one atomic access.
 */
module Multiplex {
  const IDS: nat := 0x1_0000_0000

  type Body = string

  datatype Pc =
    | Fresh
    | HasId(id: nat)                     // drew its id
    | Registered(id: nat)                // its sender is in the pending map
    | Written(id: nat)                   // its frame is on the wire
    | Failed(id: nat)                    // encoding or writing failed; the sender stays behind
    | Answered(id: nat, body: Body)      // its receiver was given a response

  /** `drawn` is how often the counter, which starts at 1, was drawn; an id is its value modulo 2^32. */
  datatype Sys = Sys(drawn: nat, callers: map<nat, Pc>, pending: map<nat, nat>)

  const INIT: Sys := Sys(0, map[], map[])

  /** `Respond` is any response frame: the server may send any id at any time. */
  datatype Move =
    | Call(caller: nat)
    | Draw(caller: nat)
    | Register(caller: nat)
    | Write(caller: nat)
    | WriteFails(caller: nat)
    | Respond(id: nat, body: Body)

  function IdOf(draw: nat): (id: nat)
  {
    (1 + draw) % IDS
  }

  /** The first draw that yields `id`. */
  function DrawOf(id: nat): (draw: nat)
  {
    if id == 0 then IDS - 1 else id - 1
  }

  predicate HoldsId(pc: Pc)
  {
    !pc.Fresh?
  }

  /** A move that is not enabled leaves the system as it is. */
  function Step(s: Sys, m: Move): (r: Sys)
  {
    match m
    case Call(c) => if c in s.callers then s else s.(callers := s.callers[c := Fresh])
    case Draw(c) =>
      if c in s.callers && s.callers[c].Fresh?
      then s.(drawn := s.drawn + 1, callers := s.callers[c := HasId(IdOf(s.drawn))]) else s
    case Register(c) =>
      if c in s.callers && s.callers[c].HasId?
      then s.(pending := s.pending[s.callers[c].id := c], callers := s.callers[c := Registered(s.callers[c].id)]) else s
    case Write(c) =>
      if c in s.callers && s.callers[c].Registered?
      then s.(callers := s.callers[c := Written(s.callers[c].id)]) else s
    case WriteFails(c) =>
      if c in s.callers && s.callers[c].Registered?
      then s.(callers := s.callers[c := Failed(s.callers[c].id)]) else s
    case Respond(id, body) =>
      if id !in s.pending then s
      else
        var c := s.pending[id];
        var routed := s.(pending := s.pending - {id});
        // A caller that gave up has dropped its receiver: the send goes nowhere.
        if c in s.callers && (s.callers[c].Registered? || s.callers[c].Written?)
        then routed.(callers := s.callers[c := Answered(s.callers[c].id, body)]) else routed
  }

  function StepAll(moves: seq<Move>): (s: Sys)
  {
    if moves == [] then INIT else Step(StepAll(moves[..|moves| - 1]), moves[|moves| - 1])
  }

  /** No two callers hold the same id. */
  ghost predicate UniqueIds(s: Sys)
  {
    forall a, b :: a in s.callers && b in s.callers && a != b && HoldsId(s.callers[a]) && HoldsId(s.callers[b]) ==>
      s.callers[a].id != s.callers[b].id
  }

  ghost predicate IdsDrawn(s: Sys)
  {
    forall c :: c in s.callers && HoldsId(s.callers[c]) ==> DrawOf(s.callers[c].id) < s.drawn
  }

  predicate Awaiting(pc: Pc)
  {
    pc.Registered? || pc.Written?
  }

  /** The sender registered under an id belongs to the caller holding that id. */
  ghost predicate Routed(s: Sys)
  {
    forall id :: id in s.pending ==>
      && s.pending[id] in s.callers
      && (Awaiting(s.callers[s.pending[id]]) || s.callers[s.pending[id]].Failed?)
      && s.callers[s.pending[id]].id == id
  }

  /** Every caller that waits for an answer has its sender registered. */
  ghost predicate Reachable(s: Sys)
  {
    forall c :: c in s.callers && Awaiting(s.callers[c]) ==>
      s.callers[c].id in s.pending && s.pending[s.callers[c].id] == c
  }

  ghost predicate Inv(s: Sys)
  {
    UniqueIds(s) && IdsDrawn(s) && Routed(s) && Reachable(s)
  }

  /** What a move does to one caller. */
  lemma CallerStep(s: Sys, m: Move, c: nat)
    requires Routed(s) && c in Step(s, m).callers
    ensures var r := Step(s, m);
            || (c in s.callers && r.callers[c] == s.callers[c])
            || (m == Call(c) && r.callers[c].Fresh?)
            || (m == Draw(c) && r.callers[c] == HasId(IdOf(s.drawn)) && r.drawn == s.drawn + 1)
            || (c in s.callers && HoldsId(s.callers[c]) && HoldsId(r.callers[c]) && r.callers[c].id == s.callers[c].id)
    ensures s.drawn <= Step(s, m).drawn
  {
  }

  lemma UniqueKept(s: Sys, m: Move)
    requires Inv(s) && (m.Draw? ==> s.drawn < IDS)
    ensures UniqueIds(Step(s, m)) && IdsDrawn(Step(s, m))
  {
    var r := Step(s, m);
    forall c | c in r.callers && HoldsId(r.callers[c]) ensures DrawOf(r.callers[c].id) < r.drawn {
      CallerStep(s, m, c);
    }
    forall a, b | a in r.callers && b in r.callers && a != b && HoldsId(r.callers[a]) && HoldsId(r.callers[b])
      ensures r.callers[a].id != r.callers[b].id
    {
      CallerStep(s, m, a);
      CallerStep(s, m, b);
    }
  }

  lemma RoutedAt(s: Sys, m: Move, id: nat)
    requires Routed(s) && id in Step(s, m).pending
    ensures var r := Step(s, m);
            && r.pending[id] in r.callers && r.callers[r.pending[id]].id == id
            && (Awaiting(r.callers[r.pending[id]]) || r.callers[r.pending[id]].Failed?)
  {
    if id in s.pending {
      assert s.callers[s.pending[id]].id == id;
    }
  }

  lemma RoutedKept(s: Sys, m: Move)
    requires Inv(s)
    ensures Routed(Step(s, m))
  {
    var r := Step(s, m);
    forall id | id in r.pending
      ensures r.pending[id] in r.callers && r.callers[r.pending[id]].id == id
      ensures Awaiting(r.callers[r.pending[id]]) || r.callers[r.pending[id]].Failed?
    {
      RoutedAt(s, m, id);
    }
  }

  lemma ReachableKept(s: Sys, m: Move)
    requires Inv(s)
    ensures Reachable(Step(s, m))
  {
    var r := Step(s, m);
    forall c | c in r.callers && Awaiting(r.callers[c])
      ensures r.callers[c].id in r.pending && r.pending[r.callers[c].id] == c
    {
      assert c in s.callers;
    }
  }

  lemma {:induction false} AlwaysInv(moves: seq<Move>)
    requires StepAll(moves).drawn <= IDS
    ensures Inv(StepAll(moves))
  {
    if moves != [] {
      var s, m := StepAll(moves[..|moves| - 1]), moves[|moves| - 1];
      AlwaysInv(moves[..|moves| - 1]);
      if Step(s, m) != s {
        UniqueKept(s, m);
        RoutedKept(s, m);
        ReachableKept(s, m);
      }
    }
  }

  // ---------------------------------------------------------------------
  // Delivery
  // ---------------------------------------------------------------------

  /** A response reaches the caller that was issued its id, and nobody else. */
  lemma ResponseReachesItsCaller(moves: seq<Move>, id: nat, body: Body, c: nat)
    requires StepAll(moves).drawn <= IDS && c in StepAll(moves).callers
    ensures var s, r := StepAll(moves), Step(StepAll(moves), Respond(id, body));
            r.callers[c] != s.callers[c] ==>
              Awaiting(s.callers[c]) && s.callers[c].id == id && r.callers[c] == Answered(id, body)
  {
    AlwaysInv(moves);
  }

  /** A response to a request that was written always finds its sender. */
  lemma WrittenRequestIsAnswerable(moves: seq<Move>, c: nat, body: Body)
    requires StepAll(moves).drawn <= IDS
    requires c in StepAll(moves).callers && StepAll(moves).callers[c].Written?
    ensures var id := StepAll(moves).callers[c].id;
            Step(StepAll(moves), Respond(id, body)).callers[c] == Answered(id, body)
  {
    AlwaysInv(moves);
  }

  lemma AnsweredStep(s: Sys, m: Move, c: nat)
    requires Routed(s) && c in s.callers && s.callers[c].Answered?
    ensures c in Step(s, m).callers && Step(s, m).callers[c] == s.callers[c]
  {
  }

  lemma UnroutedWhenAnswered(s: Sys, c: nat)
    requires Inv(s) && c in s.callers && s.callers[c].Answered?
    ensures s.callers[c].id !in s.pending
  {
  }

  lemma StepSnoc(moves: seq<Move>, m: Move)
    ensures StepAll(moves + [m]) == Step(StepAll(moves), m)
    ensures StepAll(moves).drawn <= StepAll(moves + [m]).drawn
  {
    assert (moves + [m])[..|moves|] == moves;
  }

  /** Once answered, a caller keeps its answer and its id is never routed again. */
  lemma {:induction false} AnsweredOnce(moves: seq<Move>, more: seq<Move>, c: nat)
    requires StepAll(moves + more).drawn <= IDS
    requires c in StepAll(moves).callers && StepAll(moves).callers[c].Answered?
    ensures var s := StepAll(moves + more);
            && c in s.callers && s.callers[c] == StepAll(moves).callers[c]
            && s.callers[c].id !in s.pending
    decreases |more|
  {
    AlwaysInv(moves + more);
    if more == [] {
      assert moves + more == moves;
    } else {
      var init, last := moves + more[..|more| - 1], more[|more| - 1];
      assert moves + more == init + [last];
      StepSnoc(init, last);
      AnsweredOnce(moves, more[..|more| - 1], c);
      AlwaysInv(init);
      AnsweredStep(StepAll(init), last, c);
    }
    UnroutedWhenAnswered(StepAll(moves + more), c);
  }

  lemma DrawnGrows(init: seq<Move>, last: Move)
    ensures StepAll(init).drawn <= Step(StepAll(init), last).drawn
  {
  }

  lemma AnswerStep(s: Sys, m: Move, c: nat)
    requires Inv(s) && c in Step(s, m).callers && Step(s, m).callers[c].Answered?
    requires !(c in s.callers && s.callers[c].Answered?)
    ensures var pc := Step(s, m).callers[c];
            m == Respond(pc.id, pc.body) && c in s.callers && Awaiting(s.callers[c]) && s.callers[c].id == pc.id
  {
  }

  /** Whatever answer a caller holds was carried by a response frame with its id, while it waited. */
  lemma {:induction false} AnswerHasASource(moves: seq<Move>, c: nat) returns (i: nat)
    requires StepAll(moves).drawn <= IDS
    requires c in StepAll(moves).callers && StepAll(moves).callers[c].Answered?
    ensures i < |moves|
    ensures var pc := StepAll(moves).callers[c];
            && moves[i] == Respond(pc.id, pc.body)
            && c in StepAll(moves[..i]).callers && Awaiting(StepAll(moves[..i]).callers[c])
            && StepAll(moves[..i]).callers[c].id == pc.id
  {
    var init, last := moves[..|moves| - 1], moves[|moves| - 1];
    var s := StepAll(init);
    if c in s.callers && s.callers[c].Answered? {
      AnsweredOnce(init, [last], c);
      assert init + [last] == moves;
      i := AnswerHasASource(init, c);
      assert init[..i] == moves[..i];
    } else {
      i := |moves| - 1;
      DrawnGrows(init, last);
      AlwaysInv(init);
      AnswerStep(s, last, c);
    }
  }

  /** A response nobody waits for changes nothing. */
  lemma UnknownIdIsDropped(s: Sys, id: nat, body: Body)
    requires Inv(s)
    requires forall c :: c in s.callers && HoldsId(s.callers[c]) && s.callers[c].id == id ==> s.callers[c].Answered?
    ensures Step(s, Respond(id, body)) == s
  {
  }

  /** A request whose frame could not be written leaves its sender behind: a response still finds it, and nobody. */
  lemma FailedWriteLeavesSender(moves: seq<Move>, c: nat, body: Body)
    requires StepAll(moves).drawn <= IDS
    requires c in StepAll(moves).callers && StepAll(moves).callers[c].Registered?
    ensures var s := StepAll(moves);
            var id, r := s.callers[c].id, Step(s, WriteFails(c));
            && r.callers[c] == Failed(id) && id in r.pending && r.pending[id] == c
            && Step(r, Respond(id, body)) == r.(pending := r.pending - {id})
  {
    AlwaysInv(moves);
  }

  /** A caller's four moves and the server's answer, from any reachable state. */
  function Exchange(s: Sys, c: nat, body: Body): (r: Sys)
  {
    var sent := Step(Step(Step(Step(s, Call(c)), Draw(c)), Register(c)), Write(c));
    Step(sent, Respond(IdOf(s.drawn), body))
  }

  /** Requests get through: a new caller that makes its moves is given the server's answer under the next id. */
  lemma RequestGetsThrough(moves: seq<Move>, c: nat, body: Body)
    requires c !in StepAll(moves).callers
    ensures var s, r := StepAll(moves), Exchange(StepAll(moves), c, body);
            && c in r.callers && r.callers[c] == Answered(IdOf(s.drawn), body)
            && r.drawn == s.drawn + 1 && IdOf(s.drawn) !in r.pending
  {
  }

  /** Ids count up from 1 and wrap to 0 after 2^32 - 1. */
  lemma IdsCountUp(draw: nat)
    ensures IdOf(0) == 1 && IdOf(draw + 1) == if IdOf(draw) == 0xFFFF_FFFF then 0 else IdOf(draw) + 1
  {
  }

  // ---------------------------------------------------------------------
  // Wrap-around
  // ---------------------------------------------------------------------

  /** `n` callers that each draw an id. */
  function DrawRun(n: nat): (moves: seq<Move>)
  {
    if n == 0 then [] else DrawRun(n - 1) + [Call(n - 1)] + [Draw(n - 1)]
  }

  lemma CallAndDraw(s: Sys, c: nat)
    requires c !in s.callers
    ensures var r := Step(Step(s, Call(c)), Draw(c));
            r.drawn == s.drawn + 1 && r.callers == s.callers[c := HasId(IdOf(s.drawn))]
  {
    var mid := Step(s, Call(c));
    assert s.callers[c := Fresh][c := HasId(IdOf(s.drawn))] == s.callers[c := HasId(IdOf(s.drawn))];
  }

  /** Callers 0 to n - 1 have drawn the ids of their turns. */
  ghost predicate DrewAll(s: Sys, n: nat)
  {
    && s.drawn == n
    && (forall c :: c in s.callers <==> 0 <= c < n)
    && (forall c :: c in s.callers ==> s.callers[c] == HasId(IdOf(c)))
  }

  lemma DrawNext(s: Sys, n: nat)
    requires DrewAll(s, n)
    ensures DrewAll(Step(Step(s, Call(n)), Draw(n)), n + 1)
  {
    CallAndDraw(s, n);
  }

  lemma {:induction false} DrawRunIds(n: nat)
    ensures DrewAll(StepAll(DrawRun(n)), n)
  {
    if n > 0 {
      DrawRunIds(n - 1);
      StepSnoc(DrawRun(n - 1), Call(n - 1));
      StepSnoc(DrawRun(n - 1) + [Call(n - 1)], Draw(n - 1));
      DrawNext(StepAll(DrawRun(n - 1)), n - 1);
    }
  }

  ghost predicate AlwaysUnique(n: nat)
  {
    forall moves :: StepAll(moves).drawn == n ==> UniqueIds(StepAll(moves))
  }

  lemma DrewTooMany(s: Sys, n: nat)
    requires DrewAll(s, n) && n > IDS
    ensures !UniqueIds(s)
  {
    assert 0 in s.callers && IDS in s.callers;
    assert s.callers[0] == HasId(1) && s.callers[IDS] == HasId(1);
  }

  /** Ids stay unique in every run with `n` draws if and only if `n` is at most 2^32. */
  lemma UniqueIff(n: nat)
    ensures AlwaysUnique(n) <==> n <= IDS
  {
    if n <= IDS {
      forall moves | StepAll(moves).drawn == n ensures UniqueIds(StepAll(moves)) {
        AlwaysInv(moves);
      }
    } else {
      DrawRunIds(n);
      DrewTooMany(StepAll(DrawRun(n)), n);
    }
  }
}
