/**
 The per-channel record file: its fields, the updates the commands make to it, the
 heal on load, and the policy that reads its cadence fields.
 */
module ChannelState {
  import opened Seqs

  const U64_MAX: nat := 0xFFFF_FFFF_FFFF_FFFF

  const SPURIOUS_MARKER: string := "proactive rekey diverged the group"

  predicate Contains(text: string, part: string)
  {
    part <= text || (text != "" && Contains(text[1..], part))
  }

  /** ... that is, somewhere in the text the part begins. */
  lemma {:induction false} ContainsIff(text: string, part: string)
    ensures Contains(text, part) <==> exists i :: 0 <= i <= |text| && part <= text[i..]
  {
    if part <= text {
      assert text[0..] == text;
    } else if text != "" {
      ContainsIff(text[1..], part);
      if Contains(text[1..], part) {
        var i :| 0 <= i <= |text[1..]| && part <= text[1..][i..];
        assert text[1..][i..] == text[i + 1..];
      }
      if i :| 0 <= i <= |text| && part <= text[i..] {
        assert text[0..] == text;
        assert text[1..][i - 1..] == text[i..];
      }
    }
  }

  datatype Cadence = Cadence(hasCommitted: bool, lastCommitEpoch: nat, sealedSends: nat, lastRekey: nat)

  const NEVER: Cadence := Cadence(false, 0, 0, 0)

  /** The fields of `mls_state.json` that the commands use, within one generation. */
  datatype Record = Record(epoch: nat, confirmed: bool, cursor: nat, poisoned: Option<string>, cadence: Cadence)

  const DEFAULT: Record := Record(0, false, 0, None, NEVER)

  /** A poisoning that a load does not clear. */
  predicate Genuine(reason: string)
  {
    !Contains(reason, SPURIOUS_MARKER)
  }

  /** Clears the flag a since-fixed bug wrote, recognised by its marker text. */
  function Healed(r: Record): (h: Record)
  {
    if r.poisoned.Some? && !Genuine(r.poisoned.value) then r.(poisoned := None) else r
  }

  /** A load clears the flag, nothing else, and only for a reason that holds the marker somewhere. */
  lemma HealClearsOnlyTheFlag(r: Record)
    ensures Healed(r).(poisoned := r.poisoned) == r
    ensures Healed(r).poisoned != r.poisoned <==>
      r.poisoned.Some? && exists i :: 0 <= i <= |r.poisoned.value| && "proactive rekey diverged the group" <= r.poisoned.value[i..]
    ensures Healed(r).poisoned == r.poisoned || Healed(r).poisoned == None
  {
    if r.poisoned.Some? {
      ContainsIff(r.poisoned.value, SPURIOUS_MARKER);
    }
  }

  /** The record a command works on: the file as loaded, or a fresh one. */
  function Loaded(file: Option<Record>): (r: Record)
  {
    if file.Some? then Healed(file.value) else DEFAULT
  }

  function OwnCommit(r: Record, epoch: nat): (r': Record)
  {
    r.(cadence := r.cadence.(hasCommitted := true, lastCommitEpoch := epoch, sealedSends := 0))
  }

  function RekeyedAt(r: Record, epoch: nat, now: nat): (r': Record)
  {
    var own := OwnCommit(r, epoch);
    own.(cadence := own.cadence.(lastRekey := now))
  }

  function Saturated(n: nat): (m: nat)
  {
    if n <= U64_MAX then n else U64_MAX
  }

  function SealedSend(r: Record): (r': Record)
  {
    r.(cadence := r.cadence.(sealedSends := Saturated(r.cadence.sealedSends + 1)))
  }

  /** The record as an object updated in place. */
  class ChannelRecord {
    var state: Record

    constructor (state: Record)
      ensures this.state == state
    {
      this.state := state;
    }

    method NoteOwnCommit(epoch: nat)
      modifies this
      ensures state == OwnCommit(old(state), epoch)
    {
      state := state.(cadence := state.cadence.(hasCommitted := true));
      state := state.(cadence := state.cadence.(lastCommitEpoch := epoch));
      state := state.(cadence := state.cadence.(sealedSends := 0));
    }

    method NoteRekey(epoch: nat, now: nat)
      modifies this
      ensures state == RekeyedAt(old(state), epoch, now)
    {
      NoteOwnCommit(epoch);
      state := state.(cadence := state.cadence.(lastRekey := now));
    }

    method NoteSealedSend()
      modifies this
      ensures state == SealedSend(old(state))
    {
      if state.cadence.sealedSends < U64_MAX {
        state := state.(cadence := state.cadence.(sealedSends := state.cadence.sealedSends + 1));
      } else {
        state := state.(cadence := state.cadence.(sealedSends := U64_MAX));
      }
    }
  }

  // ---------------------------------------------------------------------
  // When to rekey unasked
  // ---------------------------------------------------------------------

  const SEND_INTERVAL: nat := 100
  const WALL_CLOCK_SECS: nat := 7 * 24 * 60 * 60
  const MIN_EPOCH_GAP: nat := 4

  /** Epochs to leave between two own commits: as many as identities can commit, from 1 to 4. */
  function EpochGap(identities: nat): (gap: nat)
    ensures 1 <= gap <= MIN_EPOCH_GAP
  {
    if identities < 1 then 1 else if identities < MIN_EPOCH_GAP then identities else MIN_EPOCH_GAP
  }

  predicate Due(c: Cadence, now: nat)
  {
    c.lastRekey == 0 || c.lastRekey + WALL_CLOCK_SECS <= now || SEND_INTERVAL <= c.sealedSends
  }

  predicate Permitted(c: Cadence, epoch: nat, identities: nat)
  {
    !c.hasCommitted || Saturated(c.lastCommitEpoch + EpochGap(identities)) <= epoch
  }

  predicate ShouldRekey(c: Cadence, epoch: nat, identities: nat, now: nat)
  {
    Due(c, now) && Permitted(c, epoch, identities)
  }
}
