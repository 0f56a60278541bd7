/**
 The per-device event chain.  Any number of commands run concurrently; each takes
 the chain lock, loads the saved head for its server, authorizes the device if
 needed, builds and submits one event and saves the new head once the server has
 accepted.  The model is a transition system over all their interleavings.

 `hash` is an arbitrary function: nothing about it is used but that equal events
 have equal hashes.  `strict` says whether the server applies its rules: an event
 must come from an authorized device and extend that device's chain.  The client's
 own guarantees hold either way.
 */
module DeviceChain {
  import opened Seqs

  type Server = string
  type Hash = string

  /** `Ordinary` stands for messages, redactions, moderation and invite events. */
  datatype Payload = DeviceAuthorized | MemberJoined | MessageDeleted | Ordinary(text: string)

  datatype Event = Event(server: Server, seqNo: nat, prev: Option<Hash>, lamport: nat, time: nat, payload: Payload)

  datatype DeviceState = DeviceState(nextSeq: nat, last: Option<Hash>, lamport: nat, authorized: bool, joined: bool)

  const FRESH: DeviceState := DeviceState(0, None, 0, false, false)

  /** `Post` covers the commands that authorize first and submit one event; `Delete` does not authorize. */
  datatype Command = Post(text: string) | Join | Delete

  datatype Pc =
    | Waiting
    | Loaded(ds: DeviceState)
    | InFlight(ds: DeviceState, ev: Event)
    | Accepted(ds: DeviceState, ev: Event)
    | Rejected(ds: DeviceState, ev: Event, alreadyMember: bool)
    | Finished(answer: Answer)

  /** What a command returns to its caller. */
  datatype Answer = Posted(ev: Event) | AlreadyMember | Failed

  datatype Task = Task(server: Server, command: Command, pc: Pc)

  datatype Sys = Sys(
    lock: Option<nat>,
    disk: map<Server, DeviceState>,
    logs: map<Server, seq<Event>>,
    tasks: map<nat, Task>)

  const INIT: Sys := Sys(None, map[], map[], map[])

  /** One atomic move of a task or of the server serving it. */
  datatype Move =
    | Spawn(id: nat, server: Server, command: Command)
    | Acquire(id: nat)
    | Submit(id: nat, time: nat)
    | GiveUp(id: nat)
    | Accept(id: nat)
    | Reject(id: nat, alreadyMember: bool)
    | LoseReply(id: nat)
    | Reply(id: nat)

  function Saved(s: Sys, server: Server): (ds: DeviceState)
  {
    if server in s.disk then s.disk[server] else FRESH
  }

  function Log(s: Sys, server: Server): (log: seq<Event>)
  {
    if server in s.logs then s.logs[server] else []
  }

  function BuildNext(server: Server, ds: DeviceState, time: nat, payload: Payload): (ev: Event)
  {
    Event(server, ds.nextSeq, ds.last, ds.lamport + 1, time, payload)
  }

  function Advance(hash: Event -> Hash, ds: DeviceState, ev: Event): (r: DeviceState)
  {
    DeviceState(ev.seqNo + 1, Some(hash(ev)), ev.lamport,
                ds.authorized || ev.payload.DeviceAuthorized?, ds.joined || ev.payload.MemberJoined?)
  }

  predicate NeedsAuthorization(c: Command, ds: DeviceState)
  {
    !c.Delete? && !ds.authorized
  }

  function PayloadOf(c: Command, ds: DeviceState): (p: Payload)
  {
    if NeedsAuthorization(c, ds) then DeviceAuthorized
    else match c case Post(text) => Ordinary(text) case Join => MemberJoined case Delete => MessageDeleted
  }

  /** The server's chain rule: the event extends the last accepted one. */
  predicate Extends(hash: Event -> Hash, log: seq<Event>, ev: Event)
  {
    ev.seqNo == |log| && ev.prev == HeadHash(hash, log)
  }

  function HeadHash(hash: Event -> Hash, log: seq<Event>): (h: Option<Hash>)
  {
    if log == [] then None else Some(hash(log[|log| - 1]))
  }

  predicate Has(log: seq<Event>, p: Payload)
  {
    exists i :: 0 <= i < |log| && log[i].payload == p
  }

  /** The server's device rule: only an authorization may come from a device it does not know. */
  predicate FromKnownDevice(log: seq<Event>, ev: Event)
  {
    ev.payload.DeviceAuthorized? || Has(log, DeviceAuthorized)
  }

  /** Whether the move makes the server of task `id` accept the event in flight. */
  predicate Accepting(hash: Event -> Hash, strict: bool, s: Sys, id: nat)
  {
    && id in s.tasks && s.tasks[id].pc.InFlight?
    && (strict ==>
          && FromKnownDevice(Log(s, s.tasks[id].server), s.tasks[id].pc.ev)
          && Extends(hash, Log(s, s.tasks[id].server), s.tasks[id].pc.ev))
  }

  function SetPc(s: Sys, id: nat, pc: Pc): (r: Sys)
    requires id in s.tasks
  {
    s.(tasks := s.tasks[id := s.tasks[id].(pc := pc)])
  }

  function Release(s: Sys, id: nat, answer: Answer): (r: Sys)
    requires id in s.tasks
  {
    SetPc(s, id, Finished(answer)).(lock := None)
  }

  function AppendLog(s: Sys, server: Server, ev: Event): (r: Sys)
  {
    s.(logs := s.logs[server := Log(s, server) + [ev]])
  }

  /** A move that is not enabled leaves the system as it is. */
  function Step(hash: Event -> Hash, strict: bool, s: Sys, m: Move): (r: Sys)
  {
    if m.Spawn? then
      if m.id in s.tasks then s else s.(tasks := s.tasks[m.id := Task(m.server, m.command, Waiting)])
    else if m.id !in s.tasks then s
    else
      var t := s.tasks[m.id];
      match m
      case Acquire(id) =>
        if t.pc.Waiting? && s.lock.None? then SetPc(s, id, Loaded(Saved(s, t.server))).(lock := Some(id)) else s
      case Submit(id, time) =>
        if !t.pc.Loaded? then s
        else if t.command.Join? && t.pc.ds.joined then Release(s, id, AlreadyMember)
        else SetPc(s, id, InFlight(t.pc.ds, BuildNext(t.server, t.pc.ds, time, PayloadOf(t.command, t.pc.ds))))
      case GiveUp(id) =>
        if t.pc.Loaded? then Release(s, id, Failed) else s
      case Accept(id) =>
        if Accepting(hash, strict, s, id)
        then AppendLog(SetPc(s, id, Accepted(t.pc.ds, t.pc.ev)), t.server, t.pc.ev) else s
      case Reject(id, alreadyMember) =>
        if t.pc.InFlight? then SetPc(s, id, Rejected(t.pc.ds, t.pc.ev, alreadyMember)) else s
      case LoseReply(id) =>
        if Accepting(hash, strict, s, id)
        then AppendLog(SetPc(s, id, Rejected(t.pc.ds, t.pc.ev, false)), t.server, t.pc.ev) else s
      case Reply(id) =>
        if t.pc.Accepted? then
          var ds := Advance(hash, t.pc.ds, t.pc.ev);
          var saved := s.(disk := s.disk[t.server := ds]);
          if t.pc.ev.payload.DeviceAuthorized? then SetPc(saved, id, Loaded(ds)) else Release(saved, id, Posted(t.pc.ev))
        else if t.pc.Rejected? then
          if t.pc.ev.payload.MemberJoined? && t.pc.alreadyMember
          then Release(s.(disk := s.disk[t.server := t.pc.ds.(joined := true)]), id, AlreadyMember)
          else Release(s, id, Failed)
        else s
  }

  function StepAll(hash: Event -> Hash, strict: bool, moves: seq<Move>): (s: Sys)
  {
    if moves == [] then INIT
    else Step(hash, strict, StepAll(hash, strict, moves[..|moves| - 1]), moves[|moves| - 1])
  }

  /** Servers for which an acceptance was lost on its way back. */
  function Lost(hash: Event -> Hash, strict: bool, moves: seq<Move>): (servers: set<Server>)
  {
    if moves == [] then {} else
      var init, last := moves[..|moves| - 1], moves[|moves| - 1];
      var s := StepAll(hash, strict, init);
      Lost(hash, strict, init)
      + if last.LoseReply? && Accepting(hash, strict, s, last.id) then {s.tasks[last.id].server} else {}
  }

  // ---------------------------------------------------------------------
  // What every reachable state satisfies
  // ---------------------------------------------------------------------

  /** A hash chain: seq 0, 1, 2, ..., each citing the one before, with lamport one above seq. */
  ghost predicate Chain(hash: Event -> Hash, server: Server, log: seq<Event>)
  {
    forall i :: 0 <= i < |log| ==>
      && log[i].server == server && log[i].seqNo == i && log[i].lamport == i + 1
      && log[i].prev == HeadHash(hash, log[..i])
  }

  /**
   What the client alone ensures: the device is authorized once, before anything but
   deletions, and it joins at most once.
   */
  ghost predicate Ordered(log: seq<Event>)
  {
    && (forall i :: 0 <= i < |log| && !log[i].payload.MessageDeleted? ==>
          (log[i].payload.DeviceAuthorized? <==> !Has(log[..i], DeviceAuthorized)))
    && (forall i :: 0 <= i < |log| && log[i].payload.MemberJoined? ==> !Has(log[..i], MemberJoined))
  }

  /** `ds` is the true head of `log`. */
  ghost predicate Head(hash: Event -> Hash, ds: DeviceState, log: seq<Event>)
  {
    && ds.nextSeq == |log| && ds.lamport == |log| && ds.last == HeadHash(hash, log)
    && (ds.authorized <==> Has(log, DeviceAuthorized))
    && (Has(log, MemberJoined) ==> ds.joined)
  }

  predicate Critical(pc: Pc)
  {
    !pc.Waiting? && !pc.Finished?
  }

  /** Exactly the lock holder is inside the critical section, working from the saved head. */
  ghost predicate LockInv(s: Sys)
  {
    && (forall id :: id in s.tasks && Critical(s.tasks[id].pc) ==>
          s.lock == Some(id) && s.tasks[id].pc.ds == Saved(s, s.tasks[id].server))
    && (s.lock.Some? ==> s.lock.value in s.tasks && Critical(s.tasks[s.lock.value].pc))
  }

  /** The event a task has built fits the state it was built from. */
  ghost predicate Built(t: Task)
  {
    (t.pc.InFlight? || t.pc.Accepted? || t.pc.Rejected?) ==>
      && t.pc.ev == BuildNext(t.server, t.pc.ds, t.pc.ev.time, PayloadOf(t.command, t.pc.ds))
      && !(t.command.Join? && t.pc.ds.joined)
  }

  /** The holder's acceptance on `server` that is not saved yet, if any. */
  ghost function Unsaved(s: Sys, server: Server): (ev: Option<Event>)
  {
    if s.lock.Some? && s.lock.value in s.tasks
       && s.tasks[s.lock.value].pc.Accepted? && s.tasks[s.lock.value].server == server
    then Some(s.tasks[s.lock.value].pc.ev) else None
  }

  /** The accepted events form a chain whose head is saved, up to one acceptance on its way. */
  ghost predicate Sound(hash: Event -> Hash, server: Server, log: seq<Event>, ds: DeviceState, unsaved: Option<Event>)
  {
    && Chain(hash, server, log) && Ordered(log)
    && (if unsaved.Some?
        then log != [] && log[|log| - 1] == unsaved.value && Head(hash, ds, log[..|log| - 1])
        else Head(hash, ds, log))
  }

  ghost predicate Good(hash: Event -> Hash, s: Sys, server: Server)
  {
    Sound(hash, server, Log(s, server), Saved(s, server), Unsaved(s, server))
  }

  /** After a lost reply the saved head stays behind the server's. */
  ghost predicate Behind(s: Sys, server: Server)
  {
    Saved(s, server).nextSeq < |Log(s, server)| && Unsaved(s, server).None?
  }

  ghost predicate Inv(hash: Event -> Hash, strict: bool, s: Sys, lost: set<Server>)
  {
    && LockInv(s)
    && (forall id :: id in s.tasks ==> Built(s.tasks[id]))
    && (forall server :: server !in lost ==> Good(hash, s, server))
    && (strict ==> forall server :: server in lost ==> Behind(s, server))
  }

  lemma HasSnoc(log: seq<Event>, ev: Event, p: Payload)
    ensures Has(log + [ev], p) <==> Has(log, p) || ev.payload == p
  {
    var longer := log + [ev];
    assert longer[|log|] == ev;
    if Has(log, p) {
      var i :| 0 <= i < |log| && log[i].payload == p;
      assert longer[i].payload == p;
    }
  }

  lemma ChainSnoc(hash: Event -> Hash, server: Server, log: seq<Event>, ev: Event)
    requires Chain(hash, server, log)
    requires ev.server == server && ev.seqNo == |log| && ev.lamport == |log| + 1 && ev.prev == HeadHash(hash, log)
    ensures Chain(hash, server, log + [ev])
  {
    var longer := log + [ev];
    forall i | 0 <= i < |longer|
      ensures longer[i].server == server && longer[i].seqNo == i && longer[i].lamport == i + 1
      ensures longer[i].prev == HeadHash(hash, longer[..i])
    {
      assert longer[..i] == if i < |log| then log[..i] else log;
    }
  }

  lemma OrderedSnoc(log: seq<Event>, ev: Event)
    requires Ordered(log)
    requires ev.payload.MessageDeleted? || (ev.payload.DeviceAuthorized? <==> !Has(log, DeviceAuthorized))
    requires ev.payload.MemberJoined? ==> !Has(log, MemberJoined)
    ensures Ordered(log + [ev])
  {
    var longer := log + [ev];
    forall i | 0 <= i < |longer|
      ensures !longer[i].payload.MessageDeleted? ==>
        (longer[i].payload.DeviceAuthorized? <==> !Has(longer[..i], DeviceAuthorized))
      ensures longer[i].payload.MemberJoined? ==> !Has(longer[..i], MemberJoined)
    {
      assert longer[..i] == if i < |log| then log[..i] else log;
    }
  }

  /** Accepting an event built from the true head extends the chain by its new head. */
  lemma AppendBuilt(hash: Event -> Hash, server: Server, ds: DeviceState, log: seq<Event>, t: Task)
    requires Chain(hash, server, log) && Ordered(log) && Head(hash, ds, log)
    requires t.server == server && (t.pc.InFlight? || t.pc.Accepted?) && t.pc.ds == ds && Built(t)
    ensures Chain(hash, server, log + [t.pc.ev]) && Ordered(log + [t.pc.ev])
    ensures Head(hash, Advance(hash, ds, t.pc.ev), log + [t.pc.ev])
  {
    ChainSnoc(hash, server, log, t.pc.ev);
    OrderedSnoc(log, t.pc.ev);
    HasSnoc(log, t.pc.ev, DeviceAuthorized);
    HasSnoc(log, t.pc.ev, MemberJoined);
  }

  /** A move changes no task but its own. */
  lemma OtherTasks(hash: Event -> Hash, strict: bool, s: Sys, m: Move, id: nat)
    requires id != m.id
    ensures var r := Step(hash, strict, s, m);
            (id in r.tasks <==> id in s.tasks) && (id in s.tasks ==> r.tasks[id] == s.tasks[id])
  {
  }

  lemma BuiltKept(hash: Event -> Hash, strict: bool, s: Sys, m: Move, id: nat)
    requires forall id :: id in s.tasks ==> Built(s.tasks[id])
    requires id in Step(hash, strict, s, m).tasks
    ensures Built(Step(hash, strict, s, m).tasks[id])
  {
    if id != m.id {
      OtherTasks(hash, strict, s, m, id);
    } else if id in s.tasks {
      assert Built(s.tasks[id]);
    }
  }

  lemma MoverKept(hash: Event -> Hash, strict: bool, s: Sys, m: Move)
    requires LockInv(s) && m.id in Step(hash, strict, s, m).tasks && Critical(Step(hash, strict, s, m).tasks[m.id].pc)
    ensures var r := Step(hash, strict, s, m);
            r.lock == Some(m.id) && r.tasks[m.id].pc.ds == Saved(r, r.tasks[m.id].server)
  {
  }

  /** A task outside the critical section cannot disturb the holder. */
  lemma OthersKept(hash: Event -> Hash, strict: bool, s: Sys, m: Move, id: nat)
    requires LockInv(s) && id != m.id && id in Step(hash, strict, s, m).tasks
    requires Critical(Step(hash, strict, s, m).tasks[id].pc)
    ensures var r := Step(hash, strict, s, m);
            r.lock == Some(id) && r.tasks[id].pc.ds == Saved(r, r.tasks[id].server)
  {
    var r := Step(hash, strict, s, m);
    OtherTasks(hash, strict, s, m, id);
    assert m.id in s.tasks ==> !Critical(s.tasks[m.id].pc);
    OutsideIsHarmless(hash, strict, s, m);
  }

  /** While another task holds the lock, a task can only be spawned or stay put. */
  lemma OutsideIsHarmless(hash: Event -> Hash, strict: bool, s: Sys, m: Move)
    requires m.id in s.tasks ==> !Critical(s.tasks[m.id].pc)
    requires s.lock.Some?
    ensures var r := Step(hash, strict, s, m); r.disk == s.disk && r.lock == s.lock && r.logs == s.logs
  {
  }

  lemma HolderKept(hash: Event -> Hash, strict: bool, s: Sys, m: Move, id: nat)
    requires LockInv(s) && id in Step(hash, strict, s, m).tasks && Critical(Step(hash, strict, s, m).tasks[id].pc)
    ensures var r := Step(hash, strict, s, m);
            r.lock == Some(id) && r.tasks[id].pc.ds == Saved(r, r.tasks[id].server)
  {
    if id == m.id {
      MoverKept(hash, strict, s, m);
    } else {
      OthersKept(hash, strict, s, m, id);
    }
  }

  lemma LockKept(hash: Event -> Hash, strict: bool, s: Sys, m: Move)
    requires LockInv(s) && forall id :: id in s.tasks ==> Built(s.tasks[id])
    ensures LockInv(Step(hash, strict, s, m))
    ensures var r := Step(hash, strict, s, m); forall id :: id in r.tasks ==> Built(r.tasks[id])
  {
    var r := Step(hash, strict, s, m);
    forall id | id in r.tasks ensures Built(r.tasks[id]) {
      BuiltKept(hash, strict, s, m, id);
    }
    forall id | id in r.tasks && Critical(r.tasks[id].pc)
      ensures r.lock == Some(id) && r.tasks[id].pc.ds == Saved(r, r.tasks[id].server)
    {
      HolderKept(hash, strict, s, m, id);
    }
  }

  lemma SoundAccept(hash: Event -> Hash, server: Server, log: seq<Event>, t: Task)
    requires t.pc.InFlight? && t.server == server && Built(t) && Sound(hash, server, log, t.pc.ds, None)
    ensures Sound(hash, server, log + [t.pc.ev], t.pc.ds, Some(t.pc.ev))
  {
    AppendBuilt(hash, server, t.pc.ds, log, t);
    assert (log + [t.pc.ev])[..|log|] == log;
  }

  lemma SoundReply(hash: Event -> Hash, server: Server, log: seq<Event>, t: Task)
    requires t.pc.Accepted? && t.server == server && Built(t) && Sound(hash, server, log, t.pc.ds, Some(t.pc.ev))
    ensures Sound(hash, server, log, Advance(hash, t.pc.ds, t.pc.ev), None)
  {
    var before := log[..|log| - 1];
    ChainPrefix(hash, server, log);
    AppendBuilt(hash, server, t.pc.ds, before, t);
    assert before + [t.pc.ev] == log;
  }

  /** A move on behalf of another server changes nothing here. */
  lemma EffectElsewhere(hash: Event -> Hash, strict: bool, s: Sys, m: Move, server: Server)
    requires LockInv(s) && !(m.id in s.tasks && s.tasks[m.id].server == server)
    ensures var r := Step(hash, strict, s, m);
            Log(r, server) == Log(s, server) && Saved(r, server) == Saved(s, server) && Unsaved(r, server) == Unsaved(s, server)
  {
  }

  /** What a move does to one server's log and saved state. */
  lemma Effect(hash: Event -> Hash, strict: bool, s: Sys, m: Move, server: Server)
    requires LockInv(s)
    ensures var r := Step(hash, strict, s, m);
            var mine := m.id in s.tasks && s.tasks[m.id].server == server;
            if mine && (m.Accept? || m.LoseReply?) && Accepting(hash, strict, s, m.id) then
              && Log(r, server) == Log(s, server) + [s.tasks[m.id].pc.ev] && Saved(r, server) == Saved(s, server)
              && Unsaved(s, server).None? && s.tasks[m.id].pc.ds == Saved(s, server)
              && Unsaved(r, server) == if m.Accept? then Some(s.tasks[m.id].pc.ev) else None
            else if mine && m.Reply? && s.tasks[m.id].pc.Accepted? then
              && Log(r, server) == Log(s, server) && Unsaved(r, server).None?
              && Unsaved(s, server) == Some(s.tasks[m.id].pc.ev) && s.tasks[m.id].pc.ds == Saved(s, server)
              && Saved(r, server) == Advance(hash, Saved(s, server), s.tasks[m.id].pc.ev)
            else
              && Log(r, server) == Log(s, server) && Unsaved(r, server) == Unsaved(s, server)
              && (Saved(r, server) == Saved(s, server)
                  || (Saved(r, server) == Saved(s, server).(joined := true) && Unsaved(s, server).None?))
  {
    if !(m.id in s.tasks && s.tasks[m.id].server == server) {
      EffectElsewhere(hash, strict, s, m, server);
    }
  }

  lemma GoodKept(hash: Event -> Hash, strict: bool, s: Sys, m: Move, server: Server)
    requires LockInv(s) && forall id :: id in s.tasks ==> Built(s.tasks[id])
    requires Good(hash, s, server)
    requires !(m.LoseReply? && Accepting(hash, strict, s, m.id) && s.tasks[m.id].server == server)
    ensures Good(hash, Step(hash, strict, s, m), server)
  {
    Effect(hash, strict, s, m, server);
    if m.Accept? && Accepting(hash, strict, s, m.id) && s.tasks[m.id].server == server {
      SoundAccept(hash, server, Log(s, server), s.tasks[m.id]);
    } else if m.Reply? && m.id in s.tasks && s.tasks[m.id].pc.Accepted? && s.tasks[m.id].server == server {
      SoundReply(hash, server, Log(s, server), s.tasks[m.id]);
    }
  }

  lemma ChainPrefix(hash: Event -> Hash, server: Server, log: seq<Event>)
    requires log != [] && Chain(hash, server, log) && Ordered(log)
    ensures Chain(hash, server, log[..|log| - 1]) && Ordered(log[..|log| - 1])
  {
    var before := log[..|log| - 1];
    forall i | 0 <= i < |before| ensures before[..i] == log[..i] {
    }
  }

  lemma BehindKept(hash: Event -> Hash, s: Sys, m: Move, server: Server)
    requires LockInv(s) && forall id :: id in s.tasks ==> Built(s.tasks[id])
    requires Behind(s, server)
    ensures Behind(Step(hash, true, s, m), server)
    ensures Log(Step(hash, true, s, m), server) == Log(s, server)
  {
    Effect(hash, true, s, m, server);
  }

  lemma LossFallsBehind(hash: Event -> Hash, strict: bool, s: Sys, id: nat)
    requires LockInv(s) && Accepting(hash, strict, s, id)
    requires Built(s.tasks[id]) && Good(hash, s, s.tasks[id].server)
    ensures Behind(Step(hash, strict, s, LoseReply(id)), s.tasks[id].server)
  {
    Effect(hash, strict, s, LoseReply(id), s.tasks[id].server);
  }

  lemma StepKeepsInv(hash: Event -> Hash, strict: bool, s: Sys, m: Move, lost: set<Server>)
    requires Inv(hash, strict, s, lost)
    ensures Inv(hash, strict, Step(hash, strict, s, m),
                lost + if m.LoseReply? && Accepting(hash, strict, s, m.id) then {s.tasks[m.id].server} else {})
  {
    var r := Step(hash, strict, s, m);
    var lost' := lost + if m.LoseReply? && Accepting(hash, strict, s, m.id) then {s.tasks[m.id].server} else {};
    LockKept(hash, strict, s, m);
    forall server | server !in lost' ensures Good(hash, r, server) {
      GoodKept(hash, strict, s, m, server);
    }
    if strict {
      forall server | server in lost' ensures Behind(r, server) {
        if server in lost {
          BehindKept(hash, s, m, server);
        } else {
          LossFallsBehind(hash, strict, s, m.id);
        }
      }
    }
  }

  lemma {:induction false} AlwaysInv(hash: Event -> Hash, strict: bool, moves: seq<Move>)
    ensures Inv(hash, strict, StepAll(hash, strict, moves), Lost(hash, strict, moves))
  {
    if moves == [] {
      assert forall server :: Log(INIT, server) == [];
    } else {
      AlwaysInv(hash, strict, moves[..|moves| - 1]);
      StepKeepsInv(hash, strict, StepAll(hash, strict, moves[..|moves| - 1]), moves[|moves| - 1],
                   Lost(hash, strict, moves[..|moves| - 1]));
    }
  }

  /**
   Safety over every interleaving.  On every server whose replies all arrived, the
   accepted events form a hash chain in authorization order, and whenever no
   command holds the lock the saved state is the true head.
   */
  lemma AcceptedEventsFormAChain(hash: Event -> Hash, strict: bool, moves: seq<Move>, server: Server)
    requires server !in Lost(hash, strict, moves)
    ensures var s := StepAll(hash, strict, moves);
            && Chain(hash, server, Log(s, server)) && Ordered(Log(s, server))
            && (s.lock.None? ==> Head(hash, Saved(s, server), Log(s, server)))
  {
    AlwaysInv(hash, strict, moves);
  }

  /** Every event but an authorization comes after one. */
  ghost predicate Known(log: seq<Event>)
  {
    forall i :: 0 <= i < |log| ==> FromKnownDevice(log[..i], log[i])
  }

  /** A log grows only by an event the server accepts. */
  lemma LogStep(hash: Event -> Hash, strict: bool, s: Sys, m: Move, server: Server)
    ensures var r := Step(hash, strict, s, m);
            || Log(r, server) == Log(s, server)
            || (Accepting(hash, strict, s, m.id) && s.tasks[m.id].server == server
                && Log(r, server) == Log(s, server) + [s.tasks[m.id].pc.ev])
  {
  }

  lemma KnownSnoc(log: seq<Event>, ev: Event)
    requires Known(log) && FromKnownDevice(log, ev)
    ensures Known(log + [ev])
  {
    var longer := log + [ev];
    forall i | 0 <= i < |longer| ensures FromKnownDevice(longer[..i], longer[i]) {
      assert longer[..i] == if i < |log| then log[..i] else log;
    }
  }

  lemma {:induction false} AlwaysKnown(hash: Event -> Hash, moves: seq<Move>, server: Server)
    ensures Known(Log(StepAll(hash, true, moves), server))
  {
    if moves != [] {
      var s, m := StepAll(hash, true, moves[..|moves| - 1]), moves[|moves| - 1];
      AlwaysKnown(hash, moves[..|moves| - 1], server);
      LogStep(hash, true, s, m, server);
      if Log(Step(hash, true, s, m), server) != Log(s, server) {
        KnownSnoc(Log(s, server), s.tasks[m.id].pc.ev);
      }
    }
  }

  /**
   With the server's rules the first accepted event is always the authorization,
   and where no reply was lost it is the only one.
   */
  lemma AuthorizationComesFirst(hash: Event -> Hash, moves: seq<Move>, server: Server)
    ensures var log := Log(StepAll(hash, true, moves), server);
            && (log != [] ==> log[0].payload.DeviceAuthorized?)
            && (server !in Lost(hash, true, moves) ==>
                  forall i :: 0 < i < |log| ==> !log[i].payload.DeviceAuthorized?)
  {
    AlwaysInv(hash, true, moves);
    AlwaysKnown(hash, moves, server);
    var log := Log(StepAll(hash, true, moves), server);
    if log != [] {
      assert FromKnownDevice(log[..0], log[0]);
      forall i | 0 < i < |log| && server !in Lost(hash, true, moves) ensures !log[i].payload.DeviceAuthorized? {
        assert log[..i][0] == log[0];
      }
    }
  }

  /** What is in flight on a server whose replies all arrived was built from the true head. */
  lemma InFlightFitsHead(hash: Event -> Hash, moves: seq<Move>, id: nat)
    requires id in StepAll(hash, true, moves).tasks && StepAll(hash, true, moves).tasks[id].pc.InFlight?
    requires StepAll(hash, true, moves).tasks[id].server !in Lost(hash, true, moves)
    ensures var s := StepAll(hash, true, moves);
            Built(s.tasks[id]) && Head(hash, s.tasks[id].pc.ds, Log(s, s.tasks[id].server))
  {
    AlwaysInv(hash, true, moves);
    var s := StepAll(hash, true, moves);
    assert Good(hash, s, s.tasks[id].server);
  }

  lemma AcceptableIff(hash: Event -> Hash, s: Sys, id: nat)
    requires id in s.tasks && s.tasks[id].pc.InFlight?
    requires Built(s.tasks[id]) && Head(hash, s.tasks[id].pc.ds, Log(s, s.tasks[id].server))
    ensures Accepting(hash, true, s, id) <==> !s.tasks[id].command.Delete? || s.tasks[id].pc.ds.authorized
  {
  }

  /**
   In every interleaving, what a command submits meets the server's rules if and only
   if it is not a deletion from a device that has not been authorized yet.
   */
  lemma SubmissionIsAcceptableIff(hash: Event -> Hash, moves: seq<Move>, id: nat)
    requires id in StepAll(hash, true, moves).tasks && StepAll(hash, true, moves).tasks[id].pc.InFlight?
    requires StepAll(hash, true, moves).tasks[id].server !in Lost(hash, true, moves)
    ensures var s := StepAll(hash, true, moves);
            Accepting(hash, true, s, id) <==> !s.tasks[id].command.Delete? || s.tasks[id].pc.ds.authorized
  {
    InFlightFitsHead(hash, moves, id);
    AcceptableIff(hash, StepAll(hash, true, moves), id);
  }

  lemma StepSnoc(hash: Event -> Hash, strict: bool, moves: seq<Move>, m: Move)
    ensures StepAll(hash, strict, moves + [m]) == Step(hash, strict, StepAll(hash, strict, moves), m)
  {
    assert (moves + [m])[..|moves|] == moves;
  }

  const EARLY_DELETION: seq<Move> := [Spawn(0, "s", Delete)] + [Acquire(0)] + [Submit(0, 7)]

  /** A deletion on a fresh server is submitted without authorizing the device, and the server refuses it. */
  lemma DeletionSkipsAuthorization(hash: Event -> Hash)
    ensures var s := StepAll(hash, true, EARLY_DELETION);
            && 0 in s.tasks && s.tasks[0].pc.InFlight?
            && s.tasks[0].pc.ev == Event("s", 0, None, 1, 7, MessageDeleted)
            && !Accepting(hash, true, s, 0) && Accepting(hash, false, s, 0)
  {
    var m1 := [Spawn(0, "s", Delete)];
    assert m1 == [] + m1;
    StepSnoc(hash, true, [], m1[0]);
    StepSnoc(hash, true, m1, Acquire(0));
    StepSnoc(hash, true, m1 + [Acquire(0)], Submit(0, 7));
  }

  /**
   Against a chain-checking server, the saved sequence number is the true one when
   the lock is free if and only if no acceptance on that server was lost.
   */
  lemma HeadIsTrueIff(hash: Event -> Hash, moves: seq<Move>, server: Server)
    requires StepAll(hash, true, moves).lock.None?
    ensures var s := StepAll(hash, true, moves);
            Saved(s, server).nextSeq == |Log(s, server)| <==> server !in Lost(hash, true, moves)
  {
    AlwaysInv(hash, true, moves);
  }

  /** ... and once one was lost, that server never accepts another event of this device. */
  lemma {:induction false} LossFreezesTheChain(hash: Event -> Hash, moves: seq<Move>, more: seq<Move>, server: Server)
    requires server in Lost(hash, true, moves)
    ensures server in Lost(hash, true, moves + more)
    ensures Log(StepAll(hash, true, moves + more), server) == Log(StepAll(hash, true, moves), server)
    decreases |more|
  {
    if more == [] {
      assert moves + more == moves;
    } else {
      var init, last := more[..|more| - 1], more[|more| - 1];
      LossFreezesTheChain(hash, moves, init, server);
      assert moves + more == (moves + init) + [last];
      FrozenStep(hash, moves + init, last, server);
    }
  }

  lemma FrozenStep(hash: Event -> Hash, moves: seq<Move>, m: Move, server: Server)
    requires server in Lost(hash, true, moves)
    ensures server in Lost(hash, true, moves + [m])
    ensures Log(StepAll(hash, true, moves + [m]), server) == Log(StepAll(hash, true, moves), server)
  {
    assert (moves + [m])[..|moves|] == moves;
    AlwaysInv(hash, true, moves);
    BehindKept(hash, StepAll(hash, true, moves), m, server);
  }

  // ---------------------------------------------------------------------
  // Commands and the events they asked for
  // ---------------------------------------------------------------------

  /** An event with this payload is what the command asks for, or the authorization it may need first. */
  predicate Asks(c: Command, p: Payload)
  {
    match p
    case Ordinary(text) => c == Post(text)
    case MemberJoined => c == Join
    case MessageDeleted => c == Delete
    case DeviceAuthorized => c != Delete
  }

  ghost predicate AskedFor(s: Sys, server: Server, ev: Event)
  {
    exists id :: id in s.tasks && s.tasks[id].server == server && Asks(s.tasks[id].command, ev.payload)
  }

  /** The events a task has in hand are its own, and those it believes accepted are in the log. */
  ghost predicate Truthful(s: Sys, id: nat)
    requires id in s.tasks
  {
    var t := s.tasks[id];
    && (t.pc.InFlight? || t.pc.Accepted? || t.pc.Rejected? ==> Asks(t.command, t.pc.ev.payload))
    && (t.pc.Accepted? ==> t.pc.ev in Log(s, t.server))
    && (t.pc.Finished? && t.pc.answer.Posted? ==>
          && Asks(t.command, t.pc.answer.ev.payload) && !t.pc.answer.ev.payload.DeviceAuthorized?
          && t.pc.answer.ev in Log(s, t.server))
  }

  ghost predicate AllAskedFor(s: Sys, server: Server)
  {
    forall ev :: ev in Log(s, server) ==> AskedFor(s, server, ev)
  }

  ghost predicate Traced(s: Sys)
  {
    && (forall id :: id in s.tasks ==> Truthful(s, id))
    && (forall server :: AllAskedFor(s, server))
  }

  lemma LogGrows(hash: Event -> Hash, strict: bool, s: Sys, m: Move, server: Server, ev: Event)
    requires ev in Log(s, server)
    ensures ev in Log(Step(hash, strict, s, m), server)
  {
    LogStep(hash, strict, s, m, server);
  }

  lemma TruthfulKept(hash: Event -> Hash, strict: bool, s: Sys, m: Move, id: nat)
    requires Traced(s) && id in Step(hash, strict, s, m).tasks
    ensures Truthful(Step(hash, strict, s, m), id)
  {
    var r := Step(hash, strict, s, m);
    if id != m.id {
      OtherTasks(hash, strict, s, m, id);
    }
    if id in s.tasks {
      assert Truthful(s, id);
      var t := s.tasks[id];
      if t.pc.Accepted? {
        LogGrows(hash, strict, s, m, t.server, t.pc.ev);
      } else if t.pc.Finished? && t.pc.answer.Posted? {
        LogGrows(hash, strict, s, m, t.server, t.pc.answer.ev);
      }
    }
  }

  lemma CommandKept(hash: Event -> Hash, strict: bool, s: Sys, m: Move, id: nat)
    requires id in s.tasks
    ensures var r := Step(hash, strict, s, m);
            id in r.tasks && r.tasks[id].server == s.tasks[id].server && r.tasks[id].command == s.tasks[id].command
  {
  }

  lemma AskedForKept(hash: Event -> Hash, strict: bool, s: Sys, m: Move, server: Server)
    requires Traced(s)
    ensures AllAskedFor(Step(hash, strict, s, m), server)
  {
    var r := Step(hash, strict, s, m);
    LogStep(hash, strict, s, m, server);
    forall ev | ev in Log(r, server) ensures AskedFor(r, server, ev) {
      var id: nat;
      if ev in Log(s, server) {
        assert AllAskedFor(s, server);
        id :| id in s.tasks && s.tasks[id].server == server && Asks(s.tasks[id].command, ev.payload);
      } else {
        id := m.id;
        assert Truthful(s, id);
      }
      CommandKept(hash, strict, s, m, id);
    }
  }

  lemma {:induction false} AlwaysTraced(hash: Event -> Hash, strict: bool, moves: seq<Move>)
    ensures Traced(StepAll(hash, strict, moves))
  {
    if moves == [] {
      assert forall server :: Log(INIT, server) == [];
    } else {
      var s, m := StepAll(hash, strict, moves[..|moves| - 1]), moves[|moves| - 1];
      AlwaysTraced(hash, strict, moves[..|moves| - 1]);
      forall id | id in Step(hash, strict, s, m).tasks ensures Truthful(Step(hash, strict, s, m), id) {
        TruthfulKept(hash, strict, s, m, id);
      }
      forall server ensures AllAskedFor(Step(hash, strict, s, m), server) {
        AskedForKept(hash, strict, s, m, server);
      }
    }
  }

  /**
   In every interleaving each accepted event was asked for by a command on that
   server: a text by a command posting that text, a join by a join, a deletion by a
   deletion, and no authorization by a deletion.
   */
  lemma EveryEventWasAskedFor(hash: Event -> Hash, strict: bool, moves: seq<Move>, server: Server, i: nat)
    requires i < |Log(StepAll(hash, strict, moves), server)|
    ensures var s := StepAll(hash, strict, moves); AskedFor(s, server, Log(s, server)[i])
  {
    AlwaysTraced(hash, strict, moves);
    assert AllAskedFor(StepAll(hash, strict, moves), server);
  }

  /** A command that reports success has exactly its own event in the log, not merely an authorization. */
  lemma SuccessMeansPosted(hash: Event -> Hash, strict: bool, moves: seq<Move>, id: nat)
    requires id in StepAll(hash, strict, moves).tasks
    requires StepAll(hash, strict, moves).tasks[id].pc.Finished? && StepAll(hash, strict, moves).tasks[id].pc.answer.Posted?
    ensures var s := StepAll(hash, strict, moves);
            var ev := s.tasks[id].pc.answer.ev;
            && ev in Log(s, s.tasks[id].server)
            && ev.payload == match s.tasks[id].command
                             case Post(text) => Ordinary(text)
                             case Join => MemberJoined
                             case Delete => MessageDeleted
  {
    AlwaysTraced(hash, strict, moves);
    assert Truthful(StepAll(hash, strict, moves), id);
  }

  // ---------------------------------------------------------------------
  // Commands get through
  // ---------------------------------------------------------------------

  /** A task in its critical section, from the true head, for which there is something to submit. */
  ghost predicate Ready(hash: Event -> Hash, s: Sys, id: nat)
  {
    && id in s.tasks && s.tasks[id].pc.Loaded?
    && Head(hash, s.tasks[id].pc.ds, Log(s, s.tasks[id].server))
    && (s.tasks[id].command.Delete? ==> s.tasks[id].pc.ds.authorized)
    && (s.tasks[id].command.Join? ==> !s.tasks[id].pc.ds.joined)
  }

  /** The event submitted now, and the head after it. */
  lemma SubmitGetsThrough(hash: Event -> Hash, s: Sys, id: nat, time: nat)
    requires Ready(hash, s, id)
    ensures var sent := Step(hash, true, s, Submit(id, time));
            var server := s.tasks[id].server;
            && sent.tasks[id].pc.InFlight? && Accepting(hash, true, sent, id)
            && sent.tasks[id].pc.ev.time == time && sent.tasks[id].pc.ds == s.tasks[id].pc.ds
            && Asks(s.tasks[id].command, sent.tasks[id].pc.ev.payload)
            && (sent.tasks[id].pc.ev.payload.DeviceAuthorized? <==> !s.tasks[id].pc.ds.authorized)
            && Log(sent, server) == Log(s, server) && sent.tasks[id].server == server
            && sent.tasks[id].command == s.tasks[id].command
            && sent.tasks.Keys == s.tasks.Keys && sent.lock == s.lock
  {
    var sent := Step(hash, true, s, Submit(id, time));
    AcceptableIff(hash, sent, id);
  }

  /** What the server's acceptance and its reply leave behind. */
  lemma ReplyGetsThrough(hash: Event -> Hash, s: Sys, id: nat)
    requires id in s.tasks && s.tasks[id].pc.InFlight? && Accepting(hash, true, s, id)
    ensures var r := Step(hash, true, Step(hash, true, s, Accept(id)), Reply(id));
            var t, ev := s.tasks[id], s.tasks[id].pc.ev;
            && Log(r, t.server) == Log(s, t.server) + [ev]
            && r.tasks.Keys == s.tasks.Keys
            && r.tasks[id].server == t.server && r.tasks[id].command == t.command
            && Saved(r, t.server) == Advance(hash, t.pc.ds, ev)
            && (if ev.payload.DeviceAuthorized?
                then r.tasks[id].pc == Loaded(Advance(hash, t.pc.ds, ev)) && r.lock == s.lock
                else r.tasks[id].pc == Finished(Posted(ev)) && r.lock == None)
  {
  }

  /** Three moves of a ready task: submit, be accepted, hear of it. */
  function Round(hash: Event -> Hash, s: Sys, id: nat, time: nat): (r: Sys)
  {
    Step(hash, true, Step(hash, true, Step(hash, true, s, Submit(id, time)), Accept(id)), Reply(id))
  }

  /** A round of an authorized device posts what was asked for and reports it. */
  lemma AuthorizedRound(hash: Event -> Hash, s: Sys, id: nat, time: nat)
    requires Ready(hash, s, id) && s.tasks[id].pc.ds.authorized
    ensures var r, server := Round(hash, s, id, time), s.tasks[id].server;
            && r.lock == None && id in r.tasks && r.tasks[id].pc.Finished? && r.tasks[id].pc.answer.Posted?
            && var ev := r.tasks[id].pc.answer.ev;
               && Log(r, server) == Log(s, server) + [ev] && ev.time == time
               && Asks(s.tasks[id].command, ev.payload) && !ev.payload.DeviceAuthorized?
  {
    SubmitGetsThrough(hash, s, id, time);
    ReplyGetsThrough(hash, Step(hash, true, s, Submit(id, time)), id);
  }

  /** A round of an unauthorized device authorizes it, and leaves the command ready for its own event. */
  lemma AuthorizingRound(hash: Event -> Hash, s: Sys, id: nat, time: nat)
    requires Ready(hash, s, id) && !s.tasks[id].pc.ds.authorized
    ensures var r, server := Round(hash, s, id, time), s.tasks[id].server;
            && Ready(hash, r, id) && r.tasks[id].pc.ds.authorized && r.lock == s.lock
            && r.tasks[id].server == server && r.tasks[id].command == s.tasks[id].command
            && |Log(r, server)| == |Log(s, server)| + 1
            && Log(r, server) == Log(s, server) + [Log(r, server)[|Log(s, server)|]]
            && Log(r, server)[|Log(s, server)|].payload.DeviceAuthorized?
  {
    var sent := Step(hash, true, s, Submit(id, time));
    SubmitGetsThrough(hash, s, id, time);
    ReplyGetsThrough(hash, sent, id);
    var t := sent.tasks[id];
    HasSnoc(Log(s, t.server), t.pc.ev, DeviceAuthorized);
    HasSnoc(Log(s, t.server), t.pc.ev, MemberJoined);
    RoundHead(hash, s, id, time);
  }

  lemma RoundHead(hash: Event -> Hash, s: Sys, id: nat, time: nat)
    requires Ready(hash, s, id)
    ensures var sent := Step(hash, true, s, Submit(id, time));
            && id in sent.tasks && sent.tasks[id].pc.InFlight?
            && Head(hash, Advance(hash, s.tasks[id].pc.ds, sent.tasks[id].pc.ev), Log(s, s.tasks[id].server) + [sent.tasks[id].pc.ev])
  {
    SubmitGetsThrough(hash, s, id, time);
    var ev := Step(hash, true, s, Submit(id, time)).tasks[id].pc.ev;
    HasSnoc(Log(s, s.tasks[id].server), ev, DeviceAuthorized);
    HasSnoc(Log(s, s.tasks[id].server), ev, MemberJoined);
  }

  /** The system once a new command has been issued and holds the lock. */
  function Issued(hash: Event -> Hash, s: Sys, id: nat, server: Server, c: Command): (r: Sys)
  {
    Step(hash, true, Step(hash, true, s, Spawn(id, server, c)), Acquire(id))
  }

  lemma IssuedIsReady(hash: Event -> Hash, s: Sys, id: nat, server: Server, c: Command)
    requires s.lock == None && id !in s.tasks && Head(hash, Saved(s, server), Log(s, server))
    requires c == Delete ==> Saved(s, server).authorized
    requires c == Join ==> !Saved(s, server).joined
    ensures var r := Issued(hash, s, id, server, c);
            && Ready(hash, r, id) && r.tasks[id].pc.ds == Saved(s, server)
            && r.tasks[id].server == server && r.tasks[id].command == c && Log(r, server) == Log(s, server)
  {
  }

  /**
   Whatever happened before, a command issued on a server whose replies all arrived,
   let through by lock and server, ends with its own event as the newest of the log;
   if the device was not authorized, with the authorization right before it.
   */
  lemma CommandGetsThrough(hash: Event -> Hash, moves: seq<Move>, id: nat, server: Server, c: Command, time: nat)
    requires var s := StepAll(hash, true, moves);
             && s.lock == None && id !in s.tasks && server !in Lost(hash, true, moves)
             && (c == Delete ==> Saved(s, server).authorized) && (c == Join ==> !Saved(s, server).joined)
    ensures var s := StepAll(hash, true, moves);
            var first := Round(hash, Issued(hash, s, id, server, c), id, time);
            var r := if Saved(s, server).authorized then first else Round(hash, first, id, time);
            && id in r.tasks && r.tasks[id].pc.Finished? && r.tasks[id].pc.answer.Posted?
            && var ev, before := r.tasks[id].pc.answer.ev, Log(first, server);
               && Asks(c, ev.payload) && !ev.payload.DeviceAuthorized? && ev.time == time
               && (if Saved(s, server).authorized then Log(r, server) == Log(s, server) + [ev]
                   else
                     && Log(r, server) == before + [ev] && |before| == |Log(s, server)| + 1
                     && before[..|Log(s, server)|] == Log(s, server)
                     && before[|Log(s, server)|].payload.DeviceAuthorized?)
  {
    AcceptedEventsFormAChain(hash, true, moves, server);
    var s := StepAll(hash, true, moves);
    var issued := Issued(hash, s, id, server, c);
    IssuedIsReady(hash, s, id, server, c);
    if Saved(s, server).authorized {
      AuthorizedRound(hash, issued, id, time);
    } else {
      AuthorizingRound(hash, issued, id, time);
      AuthorizedRound(hash, Round(hash, issued, id, time), id, time);
    }
  }

  /** A join refused because the identity is a member already is remembered: it is not submitted again. */
  lemma KnownMemberIsRemembered(hash: Event -> Hash, strict: bool, s: Sys, id: nat)
    requires id in s.tasks && s.tasks[id].pc.Rejected? && s.tasks[id].pc.alreadyMember
    requires s.tasks[id].pc.ev.payload.MemberJoined?
    ensures var r := Step(hash, strict, s, Reply(id));
            && Saved(r, s.tasks[id].server).joined && r.tasks[id].pc == Finished(AlreadyMember) && r.lock == None
            && Saved(r, s.tasks[id].server).nextSeq == s.tasks[id].pc.ds.nextSeq
  {
  }

  /** ... and a join of a device that has joined succeeds without an event. */
  lemma JoiningTwiceIsHarmless(hash: Event -> Hash, strict: bool, s: Sys, id: nat, time: nat)
    requires id in s.tasks && s.tasks[id].pc.Loaded? && s.tasks[id].command == Join && s.tasks[id].pc.ds.joined
    ensures var r := Step(hash, strict, s, Submit(id, time));
            r.tasks[id].pc == Finished(AlreadyMember) && r.lock == None && r.logs == s.logs && r.disk == s.disk
  {
  }
}
