/**
 * What AccountLock's comparison of `since` values does for a recovery's waiting time. The lock compares the whole
 * 64-bit words; the chain reads bit 63 as "relative", bits 62 and 61 as the metric and the low 56 bits as the
 * amount (CKB RFC 0017, transaction valid since). A larger word need not be a longer wait.
 */
module Since {
  import opened Bytes
  import opened Protocol
  import opened Transaction
  import opened AccountLock
  import opened Policy
  import opened LockOut
  import State = StateCodec

  /** Blocks and seconds, from the genesis block or from the input's own; epochs are compared as fractions, and
      which of them are reached is left to the chain. */
  datatype Clock = Clock(blocks: nat, seconds: nat, epochReached: nat -> bool)

  /** The chain when the transaction is to be included: its own clock, and that of the input. */
  datatype Chain = Chain(now: Clock, age: Clock)

  datatype Metric = Block | Epoch | Time

  datatype Kind = Kind(relative: bool, metric: Metric)

  const AMOUNT_LIMIT: nat := 0x100_0000_0000_0000

  /** The top byte, all of whose low five bits must be zero. */
  function KindOf(since: U64): Option<Kind> {
    match since / AMOUNT_LIMIT
    case 0x00 => Some(Kind(false, Block))
    case 0x20 => Some(Kind(false, Epoch))
    case 0x40 => Some(Kind(false, Time))
    case 0x80 => Some(Kind(true, Block))
    case 0xa0 => Some(Kind(true, Epoch))
    case 0xc0 => Some(Kind(true, Time))
    case _ => None
  }

  /** The word for a wait: bit 63 says relative, bits 61 and 62 the metric. */
  function Word(kind: Kind, amount: nat): (w: nat)
    requires amount < AMOUNT_LIMIT
  {
    (if kind.relative then 0x8000_0000_0000_0000 else 0)
    + (match kind.metric case Block => 0 case Epoch => 0x2000_0000_0000_0000 case Time => 0x4000_0000_0000_0000)
    + amount
  }

  /** A word is read as a kind and an amount exactly when it is the word for them. */
  lemma WordIsRead(since: U64, kind: Kind, amount: nat)
    requires amount < 0x100_0000_0000_0000
    ensures KindOf(since) == Some(kind) && since % AMOUNT_LIMIT == amount <==> since == Word(kind, amount)
  {
    var metric := match kind.metric case Block => 0 case Epoch => 0x20 case Time => 0x40;
    var top := (if kind.relative then 0x80 else 0) + metric;
    assert Word(kind, amount) == top * AMOUNT_LIMIT + amount;
    assert since == Word(kind, amount) <==> since / AMOUNT_LIMIT == top && since % AMOUNT_LIMIT == amount;
  }

  /** The chain's rule for one input. */
  predicate Mature(chain: Chain, since: U64) {
    var kind, amount := KindOf(since), since % AMOUNT_LIMIT;
    kind.Some? &&
    var clock := if kind.value.relative then chain.age else chain.now;
    match kind.value.metric
    case Block => clock.blocks >= amount
    case Epoch => clock.epochReached(amount)
    case Time => clock.seconds >= amount
  }

  /** Among block numbers, or among timestamps, of one kind the larger word is the longer wait. */
  lemma SameKindWaits(chain: Chain, since: U64, least: U64)
    requires since >= least && KindOf(since) == KindOf(least) && KindOf(least).Some?
    requires KindOf(least).value.metric != Epoch && Mature(chain, since)
    ensures Mature(chain, least)
  {
    SameTopByte(since, least);
  }

  lemma SameTopByte(since: U64, least: U64)
    requires KindOf(since) == KindOf(least) && KindOf(least).Some? && since >= least
    ensures since / AMOUNT_LIMIT == least / AMOUNT_LIMIT && since % AMOUNT_LIMIT >= least % AMOUNT_LIMIT
  {
  }

  const RELATIVE_BLOCKS: U64 := 0x8000_0000_0000_0000
  const RELATIVE_TIME: U64 := 0xc000_0000_0000_0000

  /** No wait at all: block 0 or second 0, absolute or relative. */
  predicate IsNoWait(since: U64) {
    since % AMOUNT_LIMIT == 0 && KindOf(since).Some? && KindOf(since).value.metric != Epoch
  }

  /** Whatever word is at least `least` and mature, `least` is mature too. */
  ghost predicate ComparisonEnforces(least: U64) {
    forall chain, since: U64 :: since >= least && Mature(chain, since) ==> Mature(chain, least)
  }

  /** At its very start, with no epoch reached. */
  function Genesis(): Chain {
    Chain(Clock(0, 0, (_: nat) => false), Clock(0, 0, (_: nat) => false))
  }

  lemma NothingIsMatureButNoWait(since: U64)
    ensures Mature(Genesis(), since) <==> IsNoWait(since)
  {
  }

  lemma NoWaitIsMature(chain: Chain, since: U64)
    requires IsNoWait(since)
    ensures Mature(chain, since)
  {
  }

  /** Above the relative timestamps nothing is ever mature, so a mature word from there on is one of them. */
  lemma OnlyRelativeTime(chain: Chain, since: U64)
    requires since >= RELATIVE_TIME && Mature(chain, since)
    ensures KindOf(since) == Some(Kind(true, Time)) && since / AMOUNT_LIMIT == 0xc0
  {
  }

  /** The comparison alone enforces a wait exactly when it is a relative timestamp, or no wait. */
  lemma ComparisonEnforcesExactly(least: U64)
    ensures ComparisonEnforces(least) <==> least >= RELATIVE_TIME || IsNoWait(least)
  {
    hide Mature;
    hide KindOf;
    hide IsNoWait;
    assert IsNoWait(RELATIVE_TIME) by { RelativeTimeIsNoWait(); }
    if ComparisonEnforces(least) && least < RELATIVE_TIME {
      NoWaitIsMature(Genesis(), RELATIVE_TIME);
      assert Mature(Genesis(), least);
      NothingIsMatureButNoWait(least);
    }
    if least >= RELATIVE_TIME || IsNoWait(least) {
      forall chain, since: U64 | since >= least && Mature(chain, since) ensures Mature(chain, least) {
        if IsNoWait(least) {
          NoWaitIsMature(chain, least);
        } else {
          OnlyRelativeTime(chain, since);
          RelativeTimesBetween(since, least);
          SameKindWaits(chain, since, least);
        }
      }
    }
  }

  lemma RelativeTimeIsNoWait()
    ensures IsNoWait(RELATIVE_TIME) && IsNoWait(RELATIVE_BLOCKS)
  {
  }

  lemma RelativeTimesBetween(since: U64, least: U64)
    requires since >= least >= RELATIVE_TIME && since / AMOUNT_LIMIT == 0xc0
    ensures KindOf(since) == KindOf(least) == Some(Kind(true, Time))
  {
  }

  // ----- Recoveries -----

  /** The `since` of the state cell an accepted recovery consumes. */
  function SinceOf(h: Hashes, child: Child, tx: Transaction, script: Bytes): U64
    requires Run(h, child, tx, script).Some?
    requires Run(h, child, tx, script).value.task.resolved.stateInput.Some?
    requires Run(h, child, tx, script).value.task.resolved.stateInput.value < |tx.inputs|
  {
    tx.inputs[Run(h, child, tx, script).value.task.resolved.stateInput.value].since
  }

  /** The transaction is an accepted recovery of the state, and the chain lets it in. */
  ghost predicate Recovers(h: Hashes, child: Child, tx: Transaction, script: Bytes, s: State.AccountState,
                           chain: Chain)
  {
    && AcceptedOn(h, child, tx, script, s, OP_RECOVERY)
    && Run(h, child, tx, script).value.task.resolved.stateInput.Some?
    && Run(h, child, tx, script).value.task.resolved.stateInput.value < |tx.inputs|
    && Mature(chain, SinceOf(h, child, tx, script))
  }

  /** Every recovery the lock accepts and the chain lets in has waited as long as the state asks. */
  ghost predicate RecoveryWaits(s: State.AccountState) {
    forall h, child, tx, script, chain ::
      Recovers(h, child, tx, script, s, chain) ==> Mature(chain, s.recoverySince)
  }

  lemma RecoveryComparesSince(h: Hashes, child: Child, tx: Transaction, script: Bytes, s: State.AccountState,
                              chain: Chain)
    requires Recovers(h, child, tx, script, s, chain)
    ensures SinceOf(h, child, tx, script) >= s.recoverySince
  {
    hide Run;
    hide ThresholdApproved;
    hide Mature;
    AcceptedIsApproved(h, child, tx, script, Run(h, child, tx, script).value);
  }

  /** A recoverable state can be recovered as soon as any word at least its own is mature. */
  lemma RecoveryWithSince(s: State.AccountState, since: U64, chain: Chain)
    requires State.ValidAccountState(s) && Permits(s, OP_RECOVERY)
    requires since >= s.recoverySince && Mature(chain, since)
    ensures exists h, child, tx, script :: Recovers(h, child, tx, script, s, chain)
  {
    hide Run;
    hide Mature;
    hide Permits;
    hide ChosenHashes;
    hide Unnamed;
    hide Guard;
    hide AlwaysAccepting;
    hide State.ValidAccountState;
    PermittedGrows(s);
    UsageIsAccepted(s, OP_RECOVERY, since);
    var other := Unnamed(s.authenticators);
    UsageWaits(s, since);
    assert Recovers(ChosenHashes(other), AlwaysAccepting(), Usage(s, OP_RECOVERY, since), Guard(other), s, chain);
  }

  lemma PermittedGrows(s: State.AccountState)
    requires Permits(s, OP_RECOVERY)
    ensures s.sequence < U64_MAX
  {
    hide UsableWeight;
  }

  lemma UsageWaits(s: State.AccountState, since: U64)
    requires State.ValidAccountState(s) && s.sequence < U64_MAX
    ensures |Usage(s, OP_RECOVERY, since).inputs| == 1 && Usage(s, OP_RECOVERY, since).inputs[0].since == since
  {
    hide State.ValidAccountState;
    hide Deps;
    hide StateCell;
    hide FullWitness;
  }

  /**
   * For a state that can be recovered at all, every recovery waits as long as the state asks exactly when
   * what it asks is a relative timestamp, or no wait.
   */
  lemma RecoveryWaitsExactly(s: State.AccountState)
    requires State.ValidAccountState(s) && Permits(s, OP_RECOVERY)
    ensures RecoveryWaits(s) <==> s.recoverySince >= RELATIVE_TIME || IsNoWait(s.recoverySince)
  {
    hide Mature;
    hide IsNoWait;
    hide Permits;
    hide Recovers;
    hide SinceOf;
    hide State.ValidAccountState;
    ComparisonEnforcesExactly(s.recoverySince);
    if ComparisonEnforces(s.recoverySince) {
      forall h, child, tx, script, chain | Recovers(h, child, tx, script, s, chain)
        ensures Mature(chain, s.recoverySince)
      {
        RecoveredIsMature(h, child, tx, script, s, chain);
      }
    }
    if RecoveryWaits(s) {
      forall chain, since: U64 | since >= s.recoverySince && Mature(chain, since)
        ensures Mature(chain, s.recoverySince)
      {
        RecoveryWithSince(s, since, chain);
        var h, child, tx, script :| Recovers(h, child, tx, script, s, chain);
      }
    }
  }

  lemma RecoveredIsMature(h: Hashes, child: Child, tx: Transaction, script: Bytes, s: State.AccountState,
                          chain: Chain)
    requires Recovers(h, child, tx, script, s, chain) && ComparisonEnforces(s.recoverySince)
    ensures Mature(chain, s.recoverySince)
  {
    hide Run;
    hide Mature;
    RecoveryComparesSince(h, child, tx, script, s, chain);
  }

  /**
   * A state that asks for an absolute block can be recovered at once, on every chain: with the word for
   * "relative, zero blocks", which is larger than the word for any absolute block.
   */
  lemma PrematureRecovery(s: State.AccountState, chain: Chain)
    requires State.ValidAccountState(s) && Permits(s, OP_RECOVERY)
    requires KindOf(s.recoverySince) == Some(Kind(false, Block))
    ensures RELATIVE_BLOCKS >= s.recoverySince && Mature(chain, RELATIVE_BLOCKS)
    ensures exists h, child, tx, script :: Recovers(h, child, tx, script, s, chain)
  {
    hide Permits;
    hide State.ValidAccountState;
    hide Recovers;
    RecoveryWithSince(s, RELATIVE_BLOCKS, chain);
  }
}
