/**
 The commands that read and write one channel's record file: steward, send, manual
 rekey, decrypt and reset.  What the server answers is a parameter; what a command
 does with the answers, and which of its own commits it notes, is the model.
 */
module ChannelCommands {
  import opened Seqs
  import opened ChannelState
  import opened Steward

  // ---------------------------------------------------------------------
  // A send that repairs the channel
  // ---------------------------------------------------------------------

  /** The server's answer to one sealed send. */
  datatype Answer = Taken | Ceiling | PendingRemovals | StaleEpoch | Denied

  /** What one keep-alive send meets: an answer, whether a repairing commit is accepted, and the answer to the retry. */
  datatype Try = Try(answer: Answer, repaired: bool, retry: Answer)

  /** How it ended, and how many own commits the server accepted on the way. */
  datatype Sent = Sent(answer: Answer, repairs: nat)

  /** A ceiling is repaired by a rekey, pending removals by a discharge if the dead leaves are known; then one retry. */
  function Keepalive(t: Try, dead: bool): (s: Sent)
  {
    if t.answer.Ceiling? || (t.answer.PendingRemovals? && dead)
    then (if t.repaired then Sent(t.retry, 1) else Sent(Denied, 0))
    else Sent(t.answer, 0)
  }

  datatype Resync = Resynced(cursor: nat) | ResyncPoisoned(reason: string) | ResyncFailed

  /** The network part of a send; `epoch` is the group's epoch when it is over. */
  datatype Network = Network(first: Try, second: Try, dead: bool, resync: Resync, epoch: nat)

  /** The dead leaves are worked out only after the channel reported pending removals. */
  function Deliver(n: Network): (s: Sent)
  {
    var one := Keepalive(n.first, false);
    if one.answer.PendingRemovals? then
      var two := Keepalive(n.second, n.dead);
      Sent(two.answer, one.repairs + two.repairs)
    else one
  }

  // ---------------------------------------------------------------------
  // The unasked rekey after a delivered send
  // ---------------------------------------------------------------------

  datatype Rekey = RekeyAccepted(at: nat) | RekeyRateLimited | RekeyRefused(merged: bool)

  datatype Policy = Policy(identities: nat, now: nat, rekey: Rekey)

  datatype Tail = Tail(record: Record, group: nat)

  /** The policy asks for a rekey once this send has been counted. */
  predicate Asks(r: Record, group: nat, p: Policy)
  {
    ShouldRekey(SealedSend(r).cadence, group, p.identities, p.now)
  }

  function AfterDelivery(r: Record, group: nat, p: Policy): (t: Tail)
  {
    var counted := SealedSend(r);
    if !Asks(r, group, p) then Tail(counted, group)
    else match p.rekey
      case RekeyAccepted(at) => Tail(RekeyedAt(counted, group + 1, at).(epoch := group + 1), group + 1)
      case RekeyRateLimited => Tail(OwnCommit(counted, group + 1), group + 1)
      case RekeyRefused(merged) => Tail(counted, if merged then group + 1 else group)
  }

  /** The same on the record object. */
  method FinishSend(r: ChannelRecord, group0: nat, p: Policy) returns (group: nat)
    modifies r
    ensures Tail(r.state, group) == AfterDelivery(old(r.state), group0, p)
  {
    group := group0;
    r.NoteSealedSend();
    if ShouldRekey(r.state.cadence, group, p.identities, p.now) {
      match p.rekey {
        case RekeyAccepted(at) =>
          group := group + 1;
          r.NoteRekey(group, at);
          r.state := r.state.(epoch := group);
        case RekeyRateLimited =>
          group := group + 1;
          r.NoteOwnCommit(group);
        case RekeyRefused(merged) =>
          group := if merged then group + 1 else group;
      }
    }
  }

  // ---------------------------------------------------------------------
  // Commands
  // ---------------------------------------------------------------------

  /** `Reset` names the fresh group's epoch and the time, if it succeeds. */
  datatype Command =
    | StewardRun(log: seq<Event>, attempt: Attempt)
    | Send(network: Network, policy: Policy)
    | ManualRekey(rekey: Rekey)
    | Decrypt
    | Reset(reset: Option<(nat, nat)>)

  /**
   What a command did, in order.  `Repaired` is an own commit accepted in the course of
   a send, `Committed` an own rekey accepted on its own account.
   */
  datatype Effect = Applied | Repaired | Delivered | Committed | Opened | ResetGroup

  datatype Outcome = Outcome(disk: Disk, effects: seq<Effect>)

  function RepairEffects(n: nat): (es: seq<Effect>)
  {
    if n == 0 then [] else RepairEffects(n - 1) + [Repaired]
  }

  /** A delivered send, and the unasked rekey if one is accepted after it. */
  function DeliveryEffects(r: Record, n: Network, p: Policy): (es: seq<Effect>)
  {
    if Asks(r, n.epoch, p) && p.rekey.RekeyAccepted? then [Delivered] + [Committed] else [Delivered]
  }

  /** A device can use the group: it holds one, and the record is not poisoned. */
  predicate Usable(d: Disk)
  {
    d.group.Some? && Rec(d).poisoned.None?
  }

  /** The record and group of a delivered send, saved. */
  function Deposit(r: Record, n: Network, p: Policy): (d: Disk)
  {
    var t := AfterDelivery(r, n.epoch, p);
    Disk(Some(t.group), Some(t.record))
  }

  function ExecSend(d: Disk, n: Network, p: Policy): (o: Outcome)
  {
    var r, sent := Rec(d), Deliver(n);
    var repairs := RepairEffects(sent.repairs);
    match sent.answer
    case Taken => Outcome(Deposit(r, n, p), repairs + DeliveryEffects(r, n, p))
    case StaleEpoch =>
      (match n.resync
       case Resynced(cursor) =>
         var synced := r.(cursor := cursor, epoch := n.epoch);
         Outcome(Deposit(synced, n, p), repairs + [Applied] + DeliveryEffects(synced, n, p))
       case ResyncPoisoned(reason) => Outcome(Disk(Some(n.epoch), Some(r.(poisoned := Some(reason)))), repairs + [Applied])
       case ResyncFailed => Outcome(d.(group := Some(n.epoch)), repairs))
    case _ => Outcome(d.(group := Some(n.epoch)), repairs)
  }

  /** One command against the MLS store and the record file. */
  function Exec(d: Disk, c: Command): (o: Outcome)
  {
    match c
    case StewardRun(log, attempt) =>
      var d' := Run(d, log, attempt).0;
      Outcome(d', if d'.group != d.group then [Applied] else [])
    case Send(n, p) =>
      if !Usable(d) || !Rec(d).confirmed then Outcome(d, []) else ExecSend(d, n, p)
    case ManualRekey(rekey) =>
      if d.file.None? || !Usable(d) then Outcome(d, [])
      else
        var epoch := d.group.value + 1;
        (match rekey
         case RekeyAccepted(at) =>
           Outcome(Disk(Some(epoch), Some(RekeyedAt(Rec(d), epoch, at).(epoch := epoch))), [Committed])
         case RekeyRateLimited => Outcome(d.(group := Some(epoch)), [])
         case RekeyRefused(merged) => Outcome(if merged then d.(group := Some(epoch)) else d, []))
    case Decrypt =>
      Outcome(d, if Usable(d) then [Opened] else [])
    case Reset(reset) =>
      if d.file.None? || reset.None? then Outcome(d, [])
      else
        var (epoch, now) := reset.value;
        Outcome(Disk(Some(epoch), Some(Record(0, true, 0, None, NEVER.(lastRekey := now)))), [ResetGroup])
  }

  function ExecAll(d: Disk, cs: seq<Command>): (o: Outcome)
  {
    if cs == [] then Outcome(d, []) else
      var before := ExecAll(d, cs[..|cs| - 1]);
      var last := Exec(before.disk, cs[|cs| - 1]);
      Outcome(last.disk, before.effects + last.effects)
  }

  // ---------------------------------------------------------------------
  // What the answers come to
  // ---------------------------------------------------------------------

  /** A try ends with its answer, or, if that calls for a repair, with the retry or the refusal of the repair. */
  predicate EndsWith(t: Try, dead: bool, x: Answer)
  {
    || (t.answer == x && x != Ceiling && !(dead && x == PendingRemovals))
    || ((t.answer == Ceiling || (dead && t.answer == PendingRemovals)) && x == if t.repaired then t.retry else Denied)
  }

  /** The repair of a try was called for and accepted. */
  predicate RepairedIn(t: Try, dead: bool)
  {
    t.repaired && (t.answer == Ceiling || (dead && t.answer == PendingRemovals))
  }

  /**
   A send ends as its first try ends, unless that leaves pending removals, which a
   second try may discharge; at most one own commit is made per try.
   */
  lemma DeliverIff(n: Network, x: Answer)
    ensures Deliver(n).answer == x <==>
      (EndsWith(n.first, false, x) && x != PendingRemovals)
      || (EndsWith(n.first, false, PendingRemovals) && EndsWith(n.second, n.dead, x))
    ensures Deliver(n).repairs
         == (if RepairedIn(n.first, false) then 1 else 0)
          + (if EndsWith(n.first, false, PendingRemovals) && RepairedIn(n.second, n.dead) then 1 else 0)
  {
  }

  // ---------------------------------------------------------------------
  // What the commands leave behind
  // ---------------------------------------------------------------------

  /** The send went out after a resync. */
  predicate SentAfterResync(d: Disk, n: Network)
  {
    Usable(d) && Rec(d).confirmed && Deliver(n).answer == StaleEpoch && n.resync.Resynced?
  }

  /**
   What a send may change beside the cadence: a resync moves the cursor, so that the
   next steward run starts where it left off, and tells the record its epoch; an
   accepted rekey tells it the next one; nothing else does.
   */
  lemma SendLeaves(d: Disk, n: Network, p: Policy, log: seq<Event>, a: Attempt)
    requires Usable(d) && Rec(d).confirmed && !(Deliver(n).answer == StaleEpoch && n.resync.ResyncPoisoned?)
    ensures var d' := Exec(d, Send(n, p)).disk;
            var rekeyed := Committed in Exec(d, Send(n, p)).effects;
            && Rec(d').confirmed && Rec(d').poisoned.None? && d'.group.Some?
            && Start(d', log, a)
               == Min(|log|, Min(a.restart, if SentAfterResync(d, n) then n.resync.cursor else Rec(d).cursor))
            && (rekeyed ==> d'.group == Some(n.epoch + 1) && Rec(d').epoch == n.epoch + 1)
            && (!rekeyed ==> Rec(d').epoch == if SentAfterResync(d, n) then n.epoch else Rec(d).epoch)
            && (n.epoch <= d'.group.value <= n.epoch + 1)
  {
    var r := if SentAfterResync(d, n) then Rec(d).(cursor := n.resync.cursor, epoch := n.epoch) else Rec(d);
    RepairsAreRepairs(Deliver(n).repairs);
  }

  lemma {:induction false} RepairsAreRepairs(n: nat)
    ensures forall e :: e in RepairEffects(n) <==> e == Repaired && 0 < n
  {
    if n > 0 {
      RepairsAreRepairs(n - 1);
    }
  }

  /** A steward run is the fold over the log, and has an effect exactly when the group's epoch changed. */
  lemma StewardLeaves(d: Disk, log: seq<Event>, a: Attempt)
    ensures Exec(d, StewardRun(log, a)).disk == Run(d, log, a).0
    ensures Applied in Exec(d, StewardRun(log, a)).effects <==> Run(d, log, a).0.group != d.group
  {
  }

  /** A rekey by hand: accepted, record and group agree on the next epoch; refused, the record is not touched. */
  lemma RekeyLeaves(d: Disk, rekey: Rekey)
    requires d.file.Some? && Usable(d)
    ensures var d' := Exec(d, ManualRekey(rekey)).disk;
            && (rekey.RekeyAccepted? ==>
                  && d'.group == Some(d.group.value + 1) && Rec(d').epoch == d.group.value + 1
                  && Rec(d').cadence == Cadence(true, d.group.value + 1, 0, rekey.at)
                  && Rec(d').cursor == Rec(d).cursor && Rec(d').confirmed == Rec(d).confirmed && Usable(d'))
            && (!rekey.RekeyAccepted? ==> d'.file == d.file && Usable(d'))
  {
  }

  /** A reset leaves a channel that can be used at once, and a steward that reads its log from the start. */
  lemma ResetLeaves(d: Disk, epoch: nat, now: nat, log: seq<Event>, a: Attempt)
    requires d.file.Some?
    ensures var d' := Exec(d, Reset(Some((epoch, now)))).disk;
            && Usable(d') && d'.group == Some(epoch) && Rec(d').confirmed && Rec(d').epoch == 0
            && Start(d', log, a) == 0 && Rec(d').cadence == Cadence(false, 0, 0, now)
            && Opened in Exec(d', Decrypt).effects
  {
  }

  /** Sealed messages open exactly on a channel that can be used, and opening them changes nothing. */
  lemma DecryptOpensIff(d: Disk)
    ensures Opened in Exec(d, Decrypt).effects <==> d.group.Some? && Rec(d).poisoned.None?
    ensures Exec(d, Decrypt).disk == d
  {
  }
}
