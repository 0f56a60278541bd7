/**
 What the cadence fields of the record file tell, over every run of commands.  The
 send counter is meant to count the sends since the last own commit.  Commits that a
 send makes to repair the channel are not noted, so it may count too many; a rate
 refusal restarts it although no commit was accepted, so it may count too few.  By
 how much, and when it is exact, is stated here, with what that means for the policy.
 */
module RekeyCadence {
  import opened Seqs
  import opened ChannelState
  import opened Steward
  import opened ChannelCommands

  /** The command's send was delivered. */
  predicate Delivers(d: Disk, c: Command)
  {
    && c.Send? && Usable(d) && Rec(d).confirmed
    && (Deliver(c.network).answer.Taken? || (Deliver(c.network).answer.StaleEpoch? && c.network.resync.Resynced?))
  }

  /** Own commits that repaired the channel during a send. */
  function Repairs(d: Disk, c: Command): (n: nat)
  {
    if c.Send? && Usable(d) && Rec(d).confirmed then Deliver(c.network).repairs else 0
  }

  /** The record a delivered send is counted on. */
  function Resynchronised(d: Disk, n: Network): (r: Record)
  {
    if Deliver(n).answer.StaleEpoch? && n.resync.Resynced?
    then Rec(d).(cursor := n.resync.cursor, epoch := n.epoch) else Rec(d)
  }

  /** The epoch at which the command tries an unasked rekey, if it does. */
  function Tries(d: Disk, c: Command): (epoch: Option<nat>)
  {
    if c.Send? && Delivers(d, c) && Asks(Resynchronised(d, c.network), c.network.epoch, c.policy)
    then Some(c.network.epoch) else None
  }

  /** A rekey on its own account that the server accepts, unasked after a send or by hand. */
  predicate Rekeys(d: Disk, c: Command)
  {
    match c
    case Send(_, p) => Tries(d, c).Some? && p.rekey.RekeyAccepted?
    case ManualRekey(rekey) => d.file.Some? && Usable(d) && rekey.RekeyAccepted?
    case _ => false
  }

  /** A rate refusal of an unasked rekey, from which the device concludes that it has committed. */
  predicate Presumes(d: Disk, c: Command)
  {
    Tries(d, c).Some? && c.policy.rekey.RekeyRateLimited?
  }

  predicate StartsOver(d: Disk, c: Command)
  {
    c.Reset? && c.reset.Some? && d.file.Some?
  }

  /** The command restarts the counter. */
  predicate Notes(d: Disk, c: Command)
  {
    Rekeys(d, c) || Presumes(d, c) || StartsOver(d, c)
  }

  function Count(d: Disk): (n: nat)
  {
    if d.file.Some? then d.file.value.cadence.sealedSends else 0
  }

  // ---------------------------------------------------------------------
  // What the counter should count
  // ---------------------------------------------------------------------

  /** Sends delivered since the last own commit the server accepted, or the last reset, in what happened. */
  function SendsSinceCommit(es: seq<Effect>): (n: nat)
  {
    if es == [] then 0 else
      var before := SendsSinceCommit(es[..|es| - 1]);
      match es[|es| - 1]
      case Delivered => before + 1
      case Repaired => 0
      case Committed => 0
      case ResetGroup => 0
      case _ => before
  }

  lemma SendsSnoc(es: seq<Effect>, e: Effect)
    ensures SendsSinceCommit(es + [e])
         == match e
            case Delivered => SendsSinceCommit(es) + 1
            case Repaired => 0
            case Committed => 0
            case ResetGroup => 0
            case _ => SendsSinceCommit(es)
  {
    assert (es + [e])[..|es|] == es;
  }

  lemma {:induction false} SendsRepairs(es: seq<Effect>, n: nat)
    ensures SendsSinceCommit(es + RepairEffects(n)) == if n == 0 then SendsSinceCommit(es) else 0
  {
    if n == 0 {
      assert es + RepairEffects(0) == es;
    } else {
      assert es + RepairEffects(n) == (es + RepairEffects(n - 1)) + [Repaired];
      SendsSnoc(es + RepairEffects(n - 1), Repaired);
    }
  }

  lemma SendsDelivery(es: seq<Effect>, r: Record, n: Network, p: Policy)
    ensures SendsSinceCommit(es + DeliveryEffects(r, n, p))
         == if Asks(r, n.epoch, p) && p.rekey.RekeyAccepted? then 0 else SendsSinceCommit(es) + 1
  {
    SendsSnoc(es, Delivered);
    SendsSnoc(es + [Delivered], Committed);
    assert es + ([Delivered] + [Committed]) == (es + [Delivered]) + [Committed];
  }

  /** The count after a command, given the count before. */
  function Counted(d: Disk, c: Command, sends: nat): (n: nat)
  {
    if Rekeys(d, c) || StartsOver(d, c) then 0
    else (if Repairs(d, c) > 0 then 0 else sends) + if Delivers(d, c) then 1 else 0
  }

  lemma AssocEffects(a: seq<Effect>, b: seq<Effect>, c: seq<Effect>)
    ensures a + (b + c) == (a + b) + c
  {
  }

  function DeliveredAfter(r: Record, n: Network, p: Policy, sends: nat): (m: nat)
  {
    if Asks(r, n.epoch, p) && p.rekey.RekeyAccepted? then 0 else sends + 1
  }

  /** A delivery behind repairs, and behind the commits of a resync if there was one. */
  lemma DirectCounted(es: seq<Effect>, k: nat, r: Record, n: Network, p: Policy)
    ensures SendsSinceCommit(es + (RepairEffects(k) + DeliveryEffects(r, n, p)))
         == DeliveredAfter(r, n, p, if k == 0 then SendsSinceCommit(es) else 0)
  {
    AssocEffects(es, RepairEffects(k), DeliveryEffects(r, n, p));
    SendsRepairs(es, k);
    SendsDelivery(es + RepairEffects(k), r, n, p);
  }

  lemma AppliedCounted(es: seq<Effect>, k: nat)
    ensures SendsSinceCommit(es + (RepairEffects(k) + [Applied])) == if k == 0 then SendsSinceCommit(es) else 0
  {
    AssocEffects(es, RepairEffects(k), [Applied]);
    SendsRepairs(es, k);
    SendsSnoc(es + RepairEffects(k), Applied);
  }

  lemma SyncedCounted(es: seq<Effect>, k: nat, r: Record, n: Network, p: Policy)
    ensures SendsSinceCommit(es + (RepairEffects(k) + [Applied] + DeliveryEffects(r, n, p)))
         == DeliveredAfter(r, n, p, if k == 0 then SendsSinceCommit(es) else 0)
  {
    var front := RepairEffects(k) + [Applied];
    AssocEffects(es, front, DeliveryEffects(r, n, p));
    AppliedCounted(es, k);
    SendsDelivery(es + front, r, n, p);
  }

  lemma SendCounted(d: Disk, n: Network, p: Policy, es: seq<Effect>)
    requires Usable(d) && Rec(d).confirmed
    ensures SendsSinceCommit(es + ExecSend(d, n, p).effects) == Counted(d, Send(n, p), SendsSinceCommit(es))
  {
    var k, r := Deliver(n).repairs, Resynchronised(d, n);
    match Deliver(n).answer
    case Taken => DirectCounted(es, k, r, n, p);
    case StaleEpoch =>
      match n.resync {
        case Resynced(_) => SyncedCounted(es, k, r, n, p);
        case ResyncPoisoned(_) => AppliedCounted(es, k);
        case ResyncFailed => SendsRepairs(es, k);
      }
    case _ => SendsRepairs(es, k);
  }

  /** What a command adds to the record of what happened. */
  lemma CommandCounted(d: Disk, c: Command, es: seq<Effect>)
    ensures SendsSinceCommit(es + Exec(d, c).effects) == Counted(d, c, SendsSinceCommit(es))
  {
    if c.Send? && Usable(d) && Rec(d).confirmed {
      SendCounted(d, c.network, c.policy, es);
    } else {
      assert es + [] == es;
      forall e: Effect ensures SendsSinceCommit(es + [e]) == Counted(d, c, SendsSinceCommit(es)) || [e] != Exec(d, c).effects {
        SendsSnoc(es, e);
      }
    }
  }

  // ---------------------------------------------------------------------
  // Keeping the books
  // ---------------------------------------------------------------------

  /**
   A run with its books: `sends` is the true count.  `missed` is what the counter
   stood at when the last repair was made, if it has not been restarted since;
   `forgiven` the sends struck off by the last rate refusal, if no own commit has been
   accepted since.
   */
  datatype Book = Book(disk: Disk, sends: nat, missed: nat, forgiven: nat)

  function Entry(b: Book, c: Command): (b': Book)
  {
    var disk, sends := Exec(b.disk, c).disk, Counted(b.disk, c, b.sends);
    if Rekeys(b.disk, c) || StartsOver(b.disk, c) then Book(disk, 0, 0, 0)
    else if Presumes(b.disk, c) then Book(disk, sends, 0, sends)
    else if Repairs(b.disk, c) > 0 then Book(disk, sends, Count(b.disk), 0)
    else Book(disk, sends, b.missed, b.forgiven)
  }

  function Books(d: Disk, cs: seq<Command>): (b: Book)
  {
    if cs == [] then Book(d, 0, 0, 0) else Entry(Books(d, cs[..|cs| - 1]), cs[|cs| - 1])
  }

  /** The books follow the run: same disk, and the true count. */
  lemma {:induction false} BooksFollow(d: Disk, cs: seq<Command>)
    ensures Books(d, cs).disk == ExecAll(d, cs).disk
    ensures Books(d, cs).sends == SendsSinceCommit(ExecAll(d, cs).effects)
  {
    if cs != [] {
      var init, c := cs[..|cs| - 1], cs[|cs| - 1];
      BooksFollow(d, init);
      CommandCounted(ExecAll(d, init).disk, c, ExecAll(d, init).effects);
    }
  }

  /** Steward runs do not touch the cadence. */
  lemma {:induction false} RunKeepsCadence(d: Disk, mls: Record, log: seq<Event>, i: nat, next: nat, cut: Cut)
    requires i <= next <= |log| && mls.cadence == Rec(d).cadence
    ensures Rec(RunFrom(d, mls, log, i, next, cut).0).cadence == Rec(d).cadence
    decreases next - i
  {
    if i < next && !(cut.Before? && cut.at <= i) {
      var p := Handle(d.group, mls, log[i], next);
      if p.Going? {
        RunKeepsCadence(if ChangesStore(d.group, log[i]) then Disk(p.group, Some(p.mls)) else d,
                        p.mls, log, i + 1, next, cut);
      }
    }
  }

  /** What one send does to the cadence. */
  lemma SendCadence(d: Disk, n: Network, p: Policy)
    requires Usable(d) && Rec(d).confirmed
    ensures var c, before, after := Send(n, p), Rec(d).cadence, Rec(Exec(d, Send(n, p)).disk).cadence;
            if Notes(d, c) then
              after == Cadence(true, n.epoch + 1, 0, if p.rekey.RekeyAccepted? then p.rekey.at else before.lastRekey)
            else if Delivers(d, c) then after == before.(sealedSends := Saturated(before.sealedSends + 1))
            else after == before
  {
  }

  /** What any command does to the cadence. */
  lemma CadenceStep(d: Disk, c: Command)
    ensures var before, after := Rec(d).cadence, Rec(Exec(d, c).disk).cadence;
            if Notes(d, c) then after.sealedSends == 0
            else if Delivers(d, c) then after == before.(sealedSends := Saturated(before.sealedSends + 1))
            else after == before
  {
    match c
    case StewardRun(log, a) =>
      if Rec(d).poisoned.None? {
        RunKeepsCadence(d, Rec(d), log, Start(d, log, a), Next(d, log, a), a.cut);
      }
    case Send(n, p) =>
      if Usable(d) && Rec(d).confirmed {
        SendCadence(d, n, p);
      }
    case _ =>
  }

  lemma SaturatedNext(n: nat)
    ensures Saturated(Saturated(n) + 1) == Saturated(n + 1) && Saturated(Saturated(n)) == Saturated(n)
  {
  }

  /** The stored counter is the true count, plus what is missed, less what is forgiven. */
  ghost predicate Balanced(b: Book)
  {
    && b.forgiven <= b.sends && (b.missed == 0 || b.forgiven == 0)
    && Count(b.disk) == Saturated(b.sends + b.missed - b.forgiven)
  }

  lemma EntryBalanced(b: Book, c: Command)
    requires Balanced(b)
    ensures Balanced(Entry(b, c))
  {
    CadenceStep(b.disk, c);
    SaturatedNext(b.sends + b.missed - b.forgiven);
  }

  lemma {:induction false} BooksBalance(d: Disk, cs: seq<Command>)
    requires Count(d) == 0
    ensures Balanced(Books(d, cs))
  {
    if cs != [] {
      BooksBalance(d, cs[..|cs| - 1]);
      EntryBalanced(Books(d, cs[..|cs| - 1]), cs[|cs| - 1]);
    }
  }

  lemma Deviation(b: Book)
    requires Balanced(b)
    ensures Count(b.disk) == Saturated(b.sends)
      <==> ((b.missed == 0 && b.forgiven == 0) || U64_MAX <= b.sends - b.forgiven)
    ensures Count(b.disk) < Saturated(b.sends) <==> (0 < b.forgiven && b.sends - b.forgiven < U64_MAX)
    ensures Saturated(b.sends) < Count(b.disk) <==> (0 < b.missed && b.sends < U64_MAX)
  {
  }

  /**
   Over every run the counter is the number of sends since the last accepted own
   commit if and only if nothing is missed -- the last repair, unless the counter was
   restarted since, found it at zero -- and nothing is forgiven -- no rate refusal has
   restarted it since.  It counts too few exactly after such a refusal and too many
   exactly after such a repair.  (At the width of a u64 both stop showing.)
   */
  lemma CounterIsExactIff(d: Disk, cs: seq<Command>)
    requires Count(d) == 0
    ensures var b, sends, count := Books(d, cs), SendsSinceCommit(ExecAll(d, cs).effects), Count(ExecAll(d, cs).disk);
            && (count == Saturated(sends)
                <==> ((b.missed == 0 && b.forgiven == 0) || U64_MAX <= sends - b.forgiven))
            && (count < Saturated(sends) <==> (0 < b.forgiven && sends - b.forgiven < U64_MAX))
            && (Saturated(sends) < count <==> (0 < b.missed && sends < U64_MAX))
  {
    BooksFollow(d, cs);
    BooksBalance(d, cs);
    Deviation(Books(d, cs));
  }

  const HEALTHY: Try := Try(Taken, false, Denied)
  const SEALED: Try := Try(Ceiling, true, Taken)
  const LET_BE: Policy := Policy(1, 0, RekeyRefused(false))

  lemma EffectsTell(d: Disk, c: Command)
    ensures Delivered in Exec(d, c).effects <==> Delivers(d, c)
    ensures Repaired in Exec(d, c).effects <==> 0 < Repairs(d, c)
    ensures Committed in Exec(d, c).effects <==> Rekeys(d, c)
  {
    if c.Send? && Usable(d) && Rec(d).confirmed {
      RepairsAreRepairs(Deliver(c.network).repairs);
    }
  }

  /** A device joins, sends, and sends again into a channel that needs a rekey first. */
  const REPAIRED: seq<Command> :=
    [StewardRun([MyWelcome(1)], Attempt(0, 1, Complete))]
    + [Send(Network(HEALTHY, HEALTHY, false, ResyncFailed, 1), LET_BE)]
    + [Send(Network(SEALED, HEALTHY, false, ResyncFailed, 2), LET_BE)]

  lemma BooksSnoc(d: Disk, cs: seq<Command>, c: Command)
    ensures Books(d, cs + [c]) == Entry(Books(d, cs), c)
  {
    assert (cs + [c])[..|cs|] == cs;
  }

  lemma JoinsFirst(c: Command)
    requires c == StewardRun([MyWelcome(1)], Attempt(0, 1, Complete))
    ensures Exec(FRESH, c).disk == Disk(Some(1), Some(Record(1, true, 1, None, NEVER)))
  {
    var joined := Disk(Some(1), Some(Record(1, true, 0, None, NEVER)));
    assert RunFrom(FRESH, DEFAULT, c.log, 0, 1, Complete) == RunFrom(joined, Rec(joined), c.log, 1, 1, Complete);
  }

  /** The counter can be wrong: one send since the own commit, and it says two. */
  lemma RepairIsNotNoted()
    ensures Count(Books(FRESH, REPAIRED).disk) == 2 && Books(FRESH, REPAIRED).sends == 1
  {
    var c1 := StewardRun([MyWelcome(1)], Attempt(0, 1, Complete));
    var c2 := Send(Network(HEALTHY, HEALTHY, false, ResyncFailed, 1), LET_BE);
    var c3 := Send(Network(SEALED, HEALTHY, false, ResyncFailed, 2), LET_BE);
    assert [c1] == [] + [c1];
    BooksSnoc(FRESH, [], c1);
    BooksSnoc(FRESH, [c1], c2);
    BooksSnoc(FRESH, [c1] + [c2], c3);
    JoinsFirst(c1);
    var joined := Record(1, true, 1, None, NEVER);
    assert Books(FRESH, [c1] + [c2]) == Book(Disk(Some(1), Some(joined.(cadence := NEVER.(sealedSends := 1)))), 1, 0, 0);
  }

  /** A device joins; its first send clears the ceiling, and the rekey it then tries is refused as too frequent. */
  const REFUSED: seq<Command> :=
    [StewardRun([MyWelcome(1)], Attempt(0, 1, Complete))]
    + [Send(Network(SEALED, HEALTHY, false, ResyncFailed, 2), Policy(2, 0, RekeyRateLimited))]

  /** The counter can be wrong the other way: one send since the own commit, and it says none. */
  lemma RefusalForgives()
    ensures Count(Books(FRESH, REFUSED).disk) == 0 && Books(FRESH, REFUSED).sends == 1
  {
    var c1 := StewardRun([MyWelcome(1)], Attempt(0, 1, Complete));
    var c2 := Send(Network(SEALED, HEALTHY, false, ResyncFailed, 2), Policy(2, 0, RekeyRateLimited));
    assert [c1] == [] + [c1];
    BooksSnoc(FRESH, [], c1);
    BooksSnoc(FRESH, [c1], c2);
    JoinsFirst(c1);
  }

  // ---------------------------------------------------------------------
  // What the policy makes of it
  // ---------------------------------------------------------------------

  ghost predicate NoNotes(d: Disk, cs: seq<Command>)
  {
    forall i :: 0 <= i < |cs| ==> !Notes(Books(d, cs[..i]).disk, cs[i])
  }

  function Deliveries(d: Disk, cs: seq<Command>): (n: nat)
  {
    if cs == [] then 0 else
      var init, last := cs[..|cs| - 1], cs[|cs| - 1];
      Deliveries(d, init) + if Delivers(Books(d, init).disk, last) then 1 else 0
  }

  /** `c` differs from `was` in the counter only, by `n` sends. */
  ghost predicate Since(was: Cadence, c: Cadence, n: nat)
  {
    && c.(sealedSends := 0) == was.(sealedSends := 0)
    && Saturated(c.sealedSends) == Saturated(was.sealedSends + n)
  }

  lemma SaturatedPlus(m: nat, n: nat)
    requires Saturated(m) == Saturated(n)
    ensures Saturated(Saturated(m + 1)) == Saturated(n + 1)
  {
  }

  lemma SinceStep(was: Cadence, d: Disk, c: Command, n: nat)
    requires Since(was, Rec(d).cadence, n) && !Notes(d, c)
    ensures Since(was, Rec(Exec(d, c).disk).cadence, n + if Delivers(d, c) then 1 else 0)
  {
    CadenceStep(d, c);
    SaturatedPlus(Rec(d).cadence.sealedSends, was.sealedSends + n);
  }

  lemma InitNotesNothing(d: Disk, cs: seq<Command>)
    requires cs != [] && NoNotes(d, cs)
    ensures NoNotes(d, cs[..|cs| - 1]) && !Notes(Books(d, cs[..|cs| - 1]).disk, cs[|cs| - 1])
  {
    var init := cs[..|cs| - 1];
    forall i | 0 <= i < |init| ensures !Notes(Books(d, init[..i]).disk, init[i]) {
      assert init[..i] == cs[..i];
    }
  }

  /** Until the next note only the counter moves, by one for each delivered send. */
  lemma {:induction false} CadenceHolds(d: Disk, cs: seq<Command>)
    requires NoNotes(d, cs)
    ensures Since(Rec(d).cadence, Rec(Books(d, cs).disk).cadence, Deliveries(d, cs))
  {
    if cs != [] {
      var init, c := cs[..|cs| - 1], cs[|cs| - 1];
      InitNotesNothing(d, cs);
      CadenceHolds(d, init);
      SinceStep(Rec(d).cadence, Books(d, init).disk, c, Deliveries(d, init));
    }
  }

  /** The rekey is due: never done, a week ago, or a hundred sends ago. */
  predicate DueSince(was: Cadence, n: nat, now: nat)
  {
    was.lastRekey == 0 || was.lastRekey + 604800 <= now || 100 <= was.sealedSends + n + 1
  }

  /** The group is min(4, max(1, identities)) epochs past the device's last commit, if it has made any. */
  predicate FarEnough(was: Cadence, epoch: nat, identities: nat)
  {
    !was.hasCommitted
    || Saturated(was.lastCommitEpoch + Min(4, if identities < 1 then 1 else identities)) <= epoch
  }

  lemma TriesSinceIff(was: Cadence, d: Disk, c: Command, n: nat)
    requires Since(was, Rec(d).cadence, n) && Delivers(d, c)
    ensures Tries(d, c).Some? <==> DueSince(was, n, c.policy.now) && FarEnough(was, c.network.epoch, c.policy.identities)
  {
    SaturatedPlus(Rec(d).cadence.sealedSends, was.sealedSends + n);
  }

  /**
   After any state, and until the next note, a delivered send is followed by an unasked
   rekey if and only if it is due -- this device never rekeyed, or a week or a hundred
   delivered sends have gone by -- and the group is far enough past the last noted own
   commit.  So neither an accepted rekey nor one refused as too frequent is asked for
   again on every send.
   */
  lemma RekeyTriedIff(d: Disk, cs: seq<Command>, c: Command)
    requires NoNotes(d, cs) && Delivers(Books(d, cs).disk, c)
    ensures Tries(Books(d, cs).disk, c).Some? <==>
      DueSince(Rec(d).cadence, Deliveries(d, cs), c.policy.now)
      && FarEnough(Rec(d).cadence, c.network.epoch, c.policy.identities)
  {
    CadenceHolds(d, cs);
    TriesSinceIff(Rec(d).cadence, Books(d, cs).disk, c, Deliveries(d, cs));
  }
}
