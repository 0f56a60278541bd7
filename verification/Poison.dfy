/**
 Poisoning is terminal for every command except a successful reset, exactly as long
 as a load does not mistake its reason for the one a since-fixed bug wrote.
 */
module Poison {
  import opened Seqs
  import opened ChannelState
  import opened Steward
  import opened ChannelCommands

  predicate IsReset(c: Command)
  {
    c.Reset? && c.reset.Some?
  }

  ghost predicate NoReset(cs: seq<Command>)
  {
    forall i :: 0 <= i < |cs| ==> !IsReset(cs[i])
  }

  /** The record file is poisoned, and stays so when loaded. */
  predicate Dead(d: Disk)
  {
    d.file.Some? && d.file.value.poisoned.Some? && Genuine(d.file.value.poisoned.value)
  }

  lemma DeadCommand(d: Disk, c: Command)
    requires Dead(d) && !IsReset(c)
    ensures Exec(d, c) == Outcome(d, [])
  {
  }

  /** A dead channel: whatever steward, send, rekey, decrypt and failed reset do, nothing changes. */
  lemma {:induction false} DeadStaysDead(d: Disk, cs: seq<Command>)
    requires Dead(d) && NoReset(cs)
    ensures ExecAll(d, cs) == Outcome(d, [])
  {
    if cs != [] {
      DeadStaysDead(d, cs[..|cs| - 1]);
      DeadCommand(d, cs[|cs| - 1]);
    }
  }

  ghost predicate Inert(d: Disk)
  {
    forall cs | NoReset(cs) :: ExecAll(d, cs) == Outcome(d, [])
  }

  /**
   A poisoned record blocks every later command -- steward runs over any log, sends,
   rekeys, decryptions -- if and only if its reason does not carry the marker text.
   */
  lemma PoisonIsTerminalIff(d: Disk)
    requires d.file.Some? && d.file.value.poisoned.Some?
    ensures Inert(d) <==> Genuine(d.file.value.poisoned.value)
  {
    if Genuine(d.file.value.poisoned.value) {
      forall cs | NoReset(cs) ensures ExecAll(d, cs) == Outcome(d, []) {
        DeadStaysDead(d, cs);
      }
    } else {
      var c := StewardRun([], Attempt(0, 0, Complete));
      OneCommand(d, c);
      assert Exec(d, c).disk.file.value.poisoned.None?;
      assert NoReset([c]);
    }
  }

  lemma OneCommand(d: Disk, c: Command)
    ensures ExecAll(d, [c]).disk == Exec(d, c).disk && ExecAll(d, [c]).effects == Exec(d, c).effects
  {
    assert [c][..0] == [];
  }

  /** At some point of the run the channel is no longer dead. */
  ghost predicate Recovers(d: Disk, cs: seq<Command>)
  {
    exists n :: 0 <= n <= |cs| && !Dead(ExecAll(d, cs[..n]).disk)
  }

  lemma ResetRevives(d: Disk, c: Command)
    requires Dead(d) && IsReset(c)
    ensures !Dead(Exec(d, c).disk)
  {
  }

  lemma {:induction false} FirstReset(cs: seq<Command>, i: nat) returns (k: nat)
    requires i < |cs| && IsReset(cs[i])
    ensures k <= i && IsReset(cs[k]) && NoReset(cs[..k])
    decreases i
  {
    if j: nat :| j < i && IsReset(cs[j]) {
      k := FirstReset(cs, j);
    } else {
      k := i;
    }
  }

  /** A dead channel comes back in the course of a run if and only if the run holds a successful reset. */
  lemma RecoversIff(d: Disk, cs: seq<Command>)
    requires Dead(d)
    ensures Recovers(d, cs) <==> !NoReset(cs)
  {
    if NoReset(cs) {
      forall n | 0 <= n <= |cs| ensures Dead(ExecAll(d, cs[..n]).disk) {
        DeadStaysDead(d, cs[..n]);
      }
    } else {
      var i :| 0 <= i < |cs| && IsReset(cs[i]);
      var k := FirstReset(cs, i);
      DeadStaysDead(d, cs[..k]);
      ResetRevives(d, cs[k]);
      assert cs[..k + 1][..k] == cs[..k];
      assert !Dead(ExecAll(d, cs[..k + 1]).disk);
    }
  }

  /** A run ends in `Equivocation` only on an impostor it has merged and recorded. */
  lemma {:induction false} EquivocationRecords(d: Disk, mls: Record, log: seq<Event>, i: nat, next: nat, cut: Cut)
    returns (q: nat)
    requires i <= next <= |log| && RunFrom(d, mls, log, i, next, cut).1.Equivocation?
    ensures i <= q < next && log[q].Commit? && log[q].verdict.Impostor?
    ensures var d' := RunFrom(d, mls, log, i, next, cut).0;
            && d'.group == Some(log[q].epoch + 1) && d'.file.Some?
            && d'.file.value.poisoned == Some(log[q].verdict.reason)
    decreases next - i
  {
    var p := Handle(d.group, mls, log[i], next);
    if p.Ended? {
      q := i;
    } else {
      q := EquivocationRecords(if ChangesStore(d.group, log[i]) then Disk(p.group, Some(p.mls)) else d,
                               p.mls, log, i + 1, next, cut);
    }
  }

  /** No impostor in the log has a reason that carries the marker. */
  ghost predicate GenuineLog(log: seq<Event>)
  {
    forall q :: 0 <= q < |log| && log[q].Commit? && log[q].verdict.Impostor? ==> Genuine(log[q].verdict.reason)
  }

  /**
   Whatever came before, a steward run that reports equivocation has merged a leaf it
   cannot roll back; from then on no command applies, sends or opens anything, and
   the group keeps the impostor's epoch, until a reset succeeds.
   */
  lemma EquivocationIsFinal(d: Disk, log: seq<Event>, a: Attempt, cs: seq<Command>)
    requires Run(d, log, a).1.Equivocation? && GenuineLog(log) && NoReset(cs)
    ensures ExecAll(Run(d, log, a).0, cs) == Outcome(Run(d, log, a).0, [])
  {
    if Rec(d).poisoned.None? {
      var q := EquivocationRecords(d, Rec(d), log, Start(d, log, a), Next(d, log, a), a.cut);
    }
    DeadStaysDead(Run(d, log, a).0, cs);
  }

  /** A send whose resync merges an impostor records it; the channel is dead from then on. */
  lemma ResyncRecords(d: Disk, n: Network, p: Policy, reason: string)
    requires Usable(d) && Rec(d).confirmed
    requires Deliver(n).answer == StaleEpoch && n.resync == ResyncPoisoned(reason)
    ensures var d' := Exec(d, Send(n, p)).disk;
            && d'.file == Some(Rec(d).(poisoned := Some(reason))) && d'.group == Some(n.epoch)
            && (Dead(d') <==> Genuine(reason))
            && Delivered !in Exec(d, Send(n, p)).effects
  {
    RepairsAreRepairs(Deliver(n).repairs);
  }

  /** The command merges an impostor, and is not cut before it can say so. */
  ghost predicate MergesImpostor(d: Disk, c: Command)
  {
    match c
    case StewardRun(log, a) => Rec(d).poisoned.None? && Run(d, log, a).1.Equivocation? && GenuineLog(log)
    case Send(n, _) =>
      && Usable(d) && Rec(d).confirmed && Deliver(n).answer == StaleEpoch
      && n.resync.ResyncPoisoned? && Genuine(n.resync.reason)
    case _ => false
  }

  lemma ImpostorKills(d: Disk, c: Command)
    requires MergesImpostor(d, c)
    ensures Dead(Exec(d, c).disk)
  {
    match c
    case StewardRun(log, a) =>
      var q := EquivocationRecords(d, Rec(d), log, Start(d, log, a), Next(d, log, a), a.cut);
    case Send(n, p) =>
      ResyncRecords(d, n, p, n.resync.reason);
  }

  lemma ExecSnoc(d: Disk, cs: seq<Command>, c: Command)
    ensures var before := ExecAll(d, cs);
            var last := Exec(before.disk, c);
            ExecAll(d, cs + [c]) == Outcome(last.disk, before.effects + last.effects)
  {
    assert (cs + [c])[..|cs|] == cs;
  }

  lemma AssocEffects(a: seq<Effect>, b: seq<Effect>, c: seq<Effect>)
    ensures (a + b) + c == a + (b + c)
  {
  }

  /** The outcome of more commands after an outcome. */
  function Then(o: Outcome, more: seq<Command>): (r: Outcome)
  {
    var next := ExecAll(o.disk, more);
    Outcome(next.disk, o.effects + next.effects)
  }

  lemma ThenSnoc(o: Outcome, init: seq<Command>, c: Command)
    ensures var before := Then(o, init);
            var last := Exec(before.disk, c);
            Then(o, init + [c]) == Outcome(last.disk, before.effects + last.effects)
  {
    ExecSnoc(o.disk, init, c);
    var before := ExecAll(o.disk, init);
    AssocEffects(o.effects, before.effects, Exec(before.disk, c).effects);
  }

  lemma {:induction false} ExecConcat(d: Disk, cs: seq<Command>, more: seq<Command>)
    ensures ExecAll(d, cs + more) == Then(ExecAll(d, cs), more)
    decreases |more|
  {
    if more == [] {
      assert cs + more == cs;
      assert ExecAll(d, cs).effects + [] == ExecAll(d, cs).effects;
    } else {
      var init, c := more[..|more| - 1], more[|more| - 1];
      assert more == init + [c] && cs + more == (cs + init) + [c];
      ExecConcat(d, cs, init);
      ExecSnoc(d, cs + init, c);
      ThenSnoc(ExecAll(d, cs), init, c);
    }
  }

  /**
   Over every run: once any command, a steward run or a send, has merged an impostor,
   the channel is dead, and until a reset succeeds nothing is changed, applied, sent or
   opened any more.
   */
  lemma ImpostorIsFinal(d: Disk, cs: seq<Command>, c: Command, more: seq<Command>)
    requires MergesImpostor(ExecAll(d, cs).disk, c) && NoReset(more)
    ensures Dead(ExecAll(d, cs + [c]).disk)
    ensures ExecAll(d, cs + [c] + more) == ExecAll(d, cs + [c])
  {
    ExecSnoc(d, cs, c);
    ImpostorKills(ExecAll(d, cs).disk, c);
    DeadStaysDead(ExecAll(d, cs + [c]).disk, more);
    ExecConcat(d, cs + [c], more);
    assert ExecAll(d, cs + [c]).effects + [] == ExecAll(d, cs + [c]).effects;
  }

  /** A dead channel says so: every steward run, over any log, reports equivocation until a reset succeeds. */
  lemma DeadIsReported(d: Disk, cs: seq<Command>, log: seq<Event>, a: Attempt)
    requires Dead(d) && NoReset(cs)
    ensures Run(ExecAll(d, cs).disk, log, a) == (d, Equivocation)
  {
    DeadStaysDead(d, cs);
  }
}
