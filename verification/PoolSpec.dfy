/** What the pool's operations do, as relations between the books before and after. */
module PoolSpecs {
  import opened Transactions
  import opened TxLists
  import opened PoolStates
  import opened PoolLimits
  import opened PoolDemotions
  import opened PoolSteps

  datatype TxError =
    | KnownTx | InvalidGasPrice | OversizedData | NegativeValue | GasLimit | InvalidSender
    | Underpriced | NonceTooLow | InsufficientFunds | IntrinsicGas | ReplaceUnderpriced

  datatype Verdict = Fine | Bad(error: TxError)

  datatype AddResult = Rejected(error: TxError) | Accepted(replaced: bool)

  /** What the pool takes from the transaction itself: its encoded size, signature and intrinsic gas. */
  datatype Facts = Facts(oversized: bool, negative: bool, signed: bool, intrinsicGas: nat)

  /** The pool's books at one moment. */
  datatype Snap = Snap(pending: Book, queue: Book, all: set<Tx>, nonces: map<Address, nat>, locals: set<Address>) {
    ghost predicate Consistent() {
      BooksOk(pending, queue, all)
    }
  }

  /** The checks a transaction must pass, in order. */
  function Check(config: Config, state: ChainState, gasPrice: nat, locals: set<Address>, tx: Tx, local: bool, facts: Facts): Verdict {
    if config.isBitmed && tx.price != 0 then Bad(InvalidGasPrice)
    else if facts.oversized then Bad(OversizedData)
    else if facts.negative then Bad(NegativeValue)
    else if state.maxGas < tx.gas then Bad(GasLimit)
    else if !facts.signed then Bad(InvalidSender)
    else if !config.isBitmed && !local && tx.sender !in locals && gasPrice > tx.price then Bad(Underpriced)
    else if state.Nonce(tx.sender) > tx.nonce then Bad(NonceTooLow)
    else if state.Balance(tx.sender) < tx.Cost() then Bad(InsufficientFunds)
    else if !config.isBitmed && tx.gas < facts.intrinsicGas then Bad(IntrinsicGas)
    else Fine
  }

  /** What each check objects to. */
  predicate Objects(e: TxError, config: Config, state: ChainState, gasPrice: nat, locals: set<Address>, tx: Tx, local: bool, facts: Facts) {
    match e
    case InvalidGasPrice => config.isBitmed && tx.price > 0
    case OversizedData => facts.oversized
    case NegativeValue => facts.negative
    case GasLimit => tx.gas > state.maxGas
    case InvalidSender => !facts.signed
    case Underpriced => !config.isBitmed && !local && tx.sender !in locals && tx.price < gasPrice
    case NonceTooLow => tx.nonce < state.Nonce(tx.sender)
    case InsufficientFunds => tx.Cost() > state.Balance(tx.sender)
    case IntrinsicGas => !config.isBitmed && tx.gas < facts.intrinsicGas
    case KnownTx => false
    case ReplaceUnderpriced => false
  }

  /** The order in which objections are raised. */
  const CHECKS: seq<TxError> :=
    [InvalidGasPrice, OversizedData, NegativeValue, GasLimit, InvalidSender, Underpriced, NonceTooLow, InsufficientFunds, IntrinsicGas]

  /** A transaction is fine if and only if no check objects; otherwise the first that does is reported. */
  lemma CheckMeaning(config: Config, state: ChainState, gasPrice: nat, locals: set<Address>, tx: Tx, local: bool, facts: Facts)
    ensures var v := Check(config, state, gasPrice, locals, tx, local, facts);
      && (v.Fine? <==> forall i :: 0 <= i < |CHECKS| ==> !Objects(CHECKS[i], config, state, gasPrice, locals, tx, local, facts))
      && (forall i :: 0 <= i < |CHECKS| ==>
            (v == Bad(CHECKS[i]) <==>
              && Objects(CHECKS[i], config, state, gasPrice, locals, tx, local, facts)
              && forall j :: 0 <= j < i ==> !Objects(CHECKS[j], config, state, gasPrice, locals, tx, local, facts)))
  {
    hide Tx.Cost;
    assert CHECKS[0] == InvalidGasPrice && CHECKS[1] == OversizedData && CHECKS[2] == NegativeValue;
    assert CHECKS[3] == GasLimit && CHECKS[4] == InvalidSender && CHECKS[5] == Underpriced;
    assert CHECKS[6] == NonceTooLow && CHECKS[7] == InsufficientFunds && CHECKS[8] == IntrinsicGas;
  }

  predicate Rival(t: Tx, tx: Tx) {
    t.sender == tx.sender && t.nonce == tx.nonce
  }

  /** One transaction removed from the pool. */
  ghost predicate Removed(state: ChainState, s: Snap, tx: Tx, s': Snap) {
    var a, p, q := tx.sender, Of(s.pending, tx.sender, true), Of(s.queue, tx.sender, false);
    if tx !in s.all then s' == s
    else
      && s'.all == s.all - {tx} && s'.locals == s.locals
      && if tx.nonce in p.items then
           && s'.pending == With(s.pending, a, p.Remove(tx.nonce))
           && OnlyAt(s.queue, s'.queue, a, false) && Of(s'.queue, a, false).items == q.items + Requeued(p, tx.nonce)
           && s'.nonces == (if VirtualNonce(state, s.nonces, a) > tx.nonce then s.nonces[a := tx.nonce] else s.nonces)
         else s'.pending == s.pending && s'.nonces == s.nonces && s'.queue == With(s.queue, a, q.Remove(tx.nonce))
  }

  /** Transactions removed one by one: `snaps` are the books before each removal and at the end. */
  ghost predicate Removals(state: ChainState, drop: seq<Tx>, snaps: seq<Snap>) {
    |snaps| == |drop| + 1 && forall i :: 0 <= i < |drop| ==> Removed(state, snaps[i], drop[i], snaps[i + 1])
  }

  /** Remote pooled transactions, at most `count`, and fewer only if these are all; none is dearer than a remote one not among them. */
  ghost predicate Cheapest(s: Snap, drop: seq<Tx>, count: nat) {
    && |drop| <= count && (forall t :: t in drop ==> t in s.all && t.sender !in s.locals)
    && (forall d, t :: d in drop && t in s.all && t !in drop && t.sender !in s.locals ==> d.price <= t.price)
    && (|drop| < count ==> forall t :: t in s.all && t !in drop ==> t.sender in s.locals)
  }

  /** A full pool refuses a remote transaction that is no better than any pooled one. */
  ghost predicate Refuses(config: Config, s: Snap, tx: Tx) {
    && |s.all| >= config.Capacity() && !config.isBitmed && tx.sender !in s.locals
    && s.all != {} && forall t :: t in s.all ==> tx.price <= t.price
  }

  /** Room for a transaction: a full pool gives up its cheapest remote ones. */
  ghost predicate Roomed(config: Config, state: ChainState, s: Snap, drop: seq<Tx>, snaps: seq<Snap>) {
    && Removals(state, drop, snaps) && snaps[0] == s
    && if |s.all| < config.Capacity() then drop == [] else Cheapest(s, drop, |s.all| + 1 - config.Capacity())
  }

  lemma RoomAlready(config: Config, state: ChainState, s: Snap)
    requires |s.all| < config.Capacity()
    ensures Roomed(config, state, s, [], [s])
  {
  }

  /** What a discard of the price heap drops is enough if the heap covers the pool. */
  lemma RoomByDropping(config: Config, state: ChainState, s: Snap, items: seq<Tx>, drop: seq<Tx>, snaps: seq<Snap>)
    requires Removals(state, drop, snaps) && snaps[0] == s && |s.all| >= config.Capacity()
    requires |drop| <= |s.all| + 1 - config.Capacity() && forall t :: t in drop ==> t in s.all && t.sender !in s.locals
    requires forall t :: t in s.all ==> t in items || t in drop
    requires forall d, t :: d in drop && t in items && t in s.all && t.sender !in s.locals ==> d.price <= t.price
    requires |drop| < |s.all| + 1 - config.Capacity() ==> forall t :: t in items ==> t.sender in s.locals
    ensures Roomed(config, state, s, drop, snaps)
  {
    hide Removals;
  }

  /** In a pool with room exactly one list changes, and only if the transaction is acceptable there. */
  ghost predicate Placed(config: Config, s: Snap, tx: Tx, r: AddResult, s': Snap) {
    var a, p, q := tx.sender, Of(s.pending, tx.sender, true), Of(s.queue, tx.sender, false);
    && s'.nonces == s.nonces
    && r.Accepted? == (if tx.nonce in p.items then p else q).Accepts(tx, config.priceBump)
    && s'.pending == (if r.Accepted? && tx.nonce in p.items then s.pending[a := p.Add(tx)] else s.pending)
    && s'.queue == (if r.Accepted? && tx.nonce !in p.items then s.queue[a := q.Add(tx)] else s.queue)
    && (r.Accepted? ==> r.replaced == (tx.nonce in p.items || tx.nonce in q.items))
    && (r.Rejected? ==> r.error == ReplaceUnderpriced)
  }

  /** The list, the pool and the local accounts after a transaction was put into place or not. */
  ghost predicate PutInto(config: Config, s: Snap, tx: Tx, local: bool, r: AddResult, s': Snap) {
    && Placed(config, s, tx, r, s')
    && s'.locals == (if r.Accepted? && local && tx.nonce !in Of(s.pending, tx.sender, true).items then s.locals + {tx.sender} else s.locals)
    && (r.Accepted? <==> tx in s'.all) && s'.all <= s.all + {tx} && (forall t :: t in s.all && t !in s'.all ==> Rival(t, tx))
    && |s'.all| == |s.all| + (if r.Accepted? && !r.replaced then 1 else 0)
  }

  /**
  An addition: a known or invalid transaction changes nothing and is reported, a full pool may refuse
  it, and otherwise room is made and the transaction put into place.
  */
  ghost predicate Added(config: Config, state: ChainState, gasPrice: nat, s: Snap, tx: Tx, local: bool, facts: Facts, r: AddResult, s': Snap) {
    var v := Check(config, state, gasPrice, s.locals, tx, local, facts);
    if tx in s.all then r == Rejected(KnownTx) && s' == s
    else if v.Bad? then r == Rejected(v.error) && s' == s
    else if Refuses(config, s, tx) then r == Rejected(Underpriced) && s' == s
    else exists drop, snaps :: AddedVia(config, state, s, drop, snaps, tx, local, r, s')
  }

  ghost predicate AddedVia(config: Config, state: ChainState, s: Snap, drop: seq<Tx>, snaps: seq<Snap>, tx: Tx, local: bool, r: AddResult, s': Snap) {
    Roomed(config, state, s, drop, snaps) && PutInto(config, snaps[|drop|], tx, local, r, s')
  }

  lemma {:induction false} RemovalsAll(state: ChainState, drop: seq<Tx>, snaps: seq<Snap>, i: nat)
    requires Removals(state, drop, snaps) && i <= |drop|
    ensures |snaps| == |drop| + 1 && snaps[i].all == snaps[0].all - Txs(drop[..i]) && snaps[i].locals == snaps[0].locals
  {
    if i > 0 {
      RemovalsAll(state, drop, snaps, i - 1);
      assert Removed(state, snaps[i - 1], drop[i - 1], snaps[i]);
      assert drop[..i] == drop[..i - 1] + [drop[i - 1]];
    } else {
      assert drop[..0] == [];
    }
  }

  lemma RemovalsGrow(state: ChainState, drop: seq<Tx>, snaps: seq<Snap>, i: nat, s: Snap)
    requires i < |drop| && Removals(state, drop[..i], snaps) && Removed(state, snaps[i], drop[i], s)
    ensures Removals(state, drop[..i + 1], snaps + [s])
  {
    hide Removed;
    var snaps' := snaps + [s];
    forall j | 0 <= j < i + 1 ensures Removed(state, snaps'[j], drop[..i + 1][j], snaps'[j + 1]) {
      if j < i {
        assert drop[..i][j] == drop[..i + 1][j] && snaps'[j + 1] == snaps[j + 1];
      }
    }
  }

  ghost function Txs(drop: seq<Tx>): set<Tx> {
    set t | t in drop
  }

  /**
  An accepted transaction is listed at its nonce and pooled; what made room for it was remote and
  no dearer than any remote transaction that is kept.
  */
  ghost predicate Kept(s: Snap, tx: Tx, r: AddResult, s': Snap) {
    && (r.Accepted? <==> tx in s'.all) && (r.Accepted? ==> Listed(s'.pending, tx) || Listed(s'.queue, tx))
    && s'.all <= s.all + {tx}
    && (forall t :: t in s.all && t !in s'.all && !Rival(t, tx) ==> t.sender !in s.locals)
    && (forall d, t :: d in s.all && d !in s'.all && !Rival(d, tx) && t in s'.all && t != tx && t.sender !in s.locals ==> d.price <= t.price)
  }

  lemma AddedKeeps(config: Config, state: ChainState, gasPrice: nat, s: Snap, tx: Tx, local: bool, facts: Facts, r: AddResult, s': Snap)
    requires Added(config, state, gasPrice, s, tx, local, facts, r, s') && tx !in s.all
    ensures Kept(s, tx, r, s')
  {
    hide Check, Refuses, Removals, Rival, Kept, Listed, Placed;
    if drop: seq<Tx>, snaps: seq<Snap> :| AddedVia(config, state, s, drop, snaps, tx, local, r, s') {
      RemovalsAll(state, drop, snaps, |drop|);
      assert drop[..|drop|] == drop;
      if r.Accepted? {
        PlacedListed(config, snaps[|drop|], tx, r, s');
      }
      KeptAfter(s, drop, tx, r, s');
    } else {
      KeptAfter(s, [], tx, r, s');
    }
  }

  lemma KeptAfter(s: Snap, drop: seq<Tx>, tx: Tx, r: AddResult, s': Snap)
    requires (r.Accepted? <==> tx in s'.all) && (r.Accepted? ==> Listed(s'.pending, tx) || Listed(s'.queue, tx))
    requires s'.all <= s.all - Txs(drop) + {tx} && forall t :: t in s.all - Txs(drop) && t !in s'.all ==> Rival(t, tx)
    requires forall t :: t in drop ==> t.sender !in s.locals
    requires forall d, t :: d in drop && t in s.all && t !in drop && t.sender !in s.locals ==> d.price <= t.price
    ensures Kept(s, tx, r, s')
  {
    hide Rival, Listed;
    assert forall t :: t in s.all && t !in s'.all && !Rival(t, tx) ==> t in drop;
  }

  /** An account becomes local exactly by a local transaction of its own that does not replace an executable one. */
  lemma AddedLocals(config: Config, state: ChainState, gasPrice: nat, s: Snap, tx: Tx, local: bool, facts: Facts, r: AddResult, s': Snap)
    requires Added(config, state, gasPrice, s, tx, local, facts, r, s')
    ensures forall a :: a in s'.locals <==> a in s.locals || (a == tx.sender && r.Accepted? && local && !Listed(s'.pending, tx))
  {
    hide Check, Refuses, Removals, Rival, Placed, Listed;
    if drop: seq<Tx>, snaps: seq<Snap> :| AddedVia(config, state, s, drop, snaps, tx, local, r, s') {
      RemovalsAll(state, drop, snaps, |drop|);
      if r.Accepted? {
        RunsIfReplacing(config, snaps[|drop|], tx, r, s');
      }
    }
  }

  lemma RunsIfReplacing(config: Config, s: Snap, tx: Tx, r: AddResult, s': Snap)
    requires Placed(config, s, tx, r, s') && r.Accepted?
    ensures Listed(s'.pending, tx) <==> tx.nonce in Of(s.pending, tx.sender, true).items
  {
  }

  lemma PlacedListed(config: Config, s: Snap, tx: Tx, r: AddResult, s': Snap)
    requires Placed(config, s, tx, r, s') && r.Accepted?
    ensures Listed(s'.pending, tx) || Listed(s'.queue, tx)
  {
  }

  lemma SwapSizes(all: set<Tx>, items: Items, tx: Tx)
    requires tx !in all
    ensures |all + {tx}| == |all| + 1
    ensures tx.nonce in items && items[tx.nonce] in all ==> |all - {items[tx.nonce]} + {tx}| == |all|
  {
  }

  lemma ReplacedInto(config: Config, s: Snap, tx: Tx, local: bool, ok: bool, s': Snap)
    requires tx !in s.all && tx.nonce in Of(s.pending, tx.sender, true).items
    requires var l := Of(s.pending, tx.sender, true); var t := l.items[tx.nonce];
      && ok == l.Accepts(tx, config.priceBump) && Rival(t, tx) && t in s.all
      && s' == if ok then s.(pending := s.pending[tx.sender := l.Add(tx)], all := s.all - {t} + {tx}) else s
    ensures PutInto(config, s, tx, local, if ok then Accepted(true) else Rejected(ReplaceUnderpriced), s')
  {
    hide List.Accepts, List.Add, Of;
    SwapSizes(s.all, Of(s.pending, tx.sender, true).items, tx);
  }

  lemma EnqueuedInto(config: Config, s: Snap, tx: Tx, local: bool, ok: bool, s': Snap)
    requires tx !in s.all && tx.nonce !in Of(s.pending, tx.sender, true).items
    requires var l := Of(s.queue, tx.sender, false);
      && ok == l.Accepts(tx, config.priceBump)
      && (tx.nonce in l.items ==> Rival(l.items[tx.nonce], tx) && l.items[tx.nonce] in s.all)
      && s' == if !ok then s else s.(queue := s.queue[tx.sender := l.Add(tx)],
                                     all := if tx.nonce in l.items then s.all - {l.items[tx.nonce]} + {tx} else s.all + {tx},
                                     locals := if local then s.locals + {tx.sender} else s.locals)
    ensures var replaced := tx.nonce in Of(s.queue, tx.sender, false).items;
      PutInto(config, s, tx, local, if ok then Accepted(replaced) else Rejected(ReplaceUnderpriced), s')
  {
    hide List.Accepts, List.Add, Of;
    SwapSizes(s.all, Of(s.queue, tx.sender, false).items, tx);
  }

  /** In a pool with room nothing is removed. */
  lemma AddedWithRoom(config: Config, state: ChainState, gasPrice: nat, s: Snap, tx: Tx, local: bool, facts: Facts, r: AddResult, s': Snap)
    requires Added(config, state, gasPrice, s, tx, local, facts, r, s')
    requires tx !in s.all && Check(config, state, gasPrice, s.locals, tx, local, facts).Fine? && |s.all| < config.Capacity()
    ensures PutInto(config, s, tx, local, r, s')
  {
    hide Check, PutInto, Removals;
    var drop: seq<Tx>, snaps: seq<Snap> :| AddedVia(config, state, s, drop, snaps, tx, local, r, s');
  }

  /** A pool grows exactly by a new transaction that finds room, or finds nothing remote to give up. */
  lemma AddedGrows(config: Config, state: ChainState, gasPrice: nat, s: Snap, tx: Tx, local: bool, facts: Facts, r: AddResult, s': Snap)
    requires Added(config, state, gasPrice, s, tx, local, facts, r, s')
    ensures |s'.all| <= |s.all| + 1
    ensures |s'.all| > |s.all| <==>
      r.Accepted? && !r.replaced && (|s.all| < config.globalSlots + config.globalQueue || forall t :: t in s.all ==> t.sender in s.locals)
  {
    hide Check, Refuses, Removed, Rival, Placed;
    if drop: seq<Tx>, snaps: seq<Snap> :| tx !in s.all && AddedVia(config, state, s, drop, snaps, tx, local, r, s') {
      RemovalsAll(state, drop, snaps, |drop|);
      assert drop[..|drop|] == drop;
      SomeDropped(config, s, drop, snaps[|drop|].all);
    }
  }

  /** The capacity is exceeded only in a full pool of local transactions. */
  lemma AddedSize(config: Config, state: ChainState, gasPrice: nat, s: Snap, tx: Tx, local: bool, facts: Facts, r: AddResult, s': Snap)
    requires Added(config, state, gasPrice, s, tx, local, facts, r, s') && |s.all| <= config.globalSlots + config.globalQueue
    ensures |s'.all| <= config.globalSlots + config.globalQueue <==>
      !(r.Accepted? && !r.replaced && |s.all| == config.globalSlots + config.globalQueue && forall t :: t in s.all ==> t.sender in s.locals)
  {
    hide Added;
    AddedGrows(config, state, gasPrice, s, tx, local, facts, r, s');
  }

  lemma SomeDropped(config: Config, s: Snap, drop: seq<Tx>, left: set<Tx>)
    requires left == s.all - Txs(drop)
    requires if |s.all| < config.Capacity() then drop == [] else Cheapest(s, drop, |s.all| + 1 - config.Capacity())
    ensures |left| <= |s.all|
    ensures |left| == |s.all| <==> |s.all| < config.Capacity() || forall t :: t in s.all ==> t.sender in s.locals
  {
    assert left + (s.all - left) == s.all;
    assert |left| + |s.all - left| == |s.all|;
    if drop == [] {
      assert left == s.all;
    } else {
      assert drop[0] in drop && drop[0] in s.all - left;
    }
  }

  /** A batch added one by one: `snaps` are the books before each transaction and at the end. */
  ghost predicate Batch(config: Config, state: ChainState, gasPrice: nat, txs: seq<(Tx, Facts)>, local: bool, rs: seq<AddResult>, snaps: seq<Snap>) {
    && |rs| == |txs| && |snaps| == |txs| + 1 && (forall i :: 0 <= i <= |txs| ==> snaps[i].Consistent())
    && forall i :: 0 <= i < |txs| ==> Added(config, state, gasPrice, snaps[i], txs[i].0, local, txs[i].1, rs[i], snaps[i + 1])
  }

  /** The senders for whom a new nonce was queued. */
  function Dirty(txs: seq<(Tx, Facts)>, rs: seq<AddResult>): set<Address>
    requires |rs| == |txs|
  {
    set i | 0 <= i < |txs| && rs[i].Accepted? && !rs[i].replaced :: txs[i].0.sender
  }

  /** Promotion of the given accounts followed by the two global limits. */
  ghost predicate Settled(config: Config, state: ChainState, s: Snap, accounts: set<Address>, beats: map<Address, nat>,
                          promoted: Book, waiting: Book, nonces: map<Address, nat>, s': Snap)
  {
    && s'.locals == s.locals && Shed(s.all, s'.all, s.pending, s.queue, s'.pending, s'.queue)
    && Promotion(config, state, s.locals, accounts, s.pending, s.queue, s.nonces, promoted, waiting, nonces)
    && FairlyCut(promoted, s'.pending, s.locals, config.accountSlots, config.globalSlots)
    && (Total(promoted) <= config.globalSlots ==> s'.nonces == nonces)
    && QueueCut(waiting, s'.queue, s.locals, beats, config.globalQueue)
  }

  /** How a batch went: its results, the books between the additions, and the promotion at the end. */
  datatype BatchTrace = BatchTrace(
    results: seq<AddResult>, snaps: seq<Snap>, promoted: Book, waiting: Book, nonces: map<Address, nat>)

  /** A batch added one by one, and then promotion of the accounts that gained a queued nonce. */
  ghost predicate BatchAdded(config: Config, state: ChainState, gasPrice: nat, txs: seq<(Tx, Facts)>, local: bool,
                             beats: map<Address, nat>, s: Snap, t: BatchTrace, s': Snap)
  {
    && Batch(config, state, gasPrice, txs, local, t.results, t.snaps) && t.snaps[0] == s
    && var dirty, last := Dirty(txs, t.results), t.snaps[|txs|];
       if dirty == {} then s' == last else Settled(config, state, last, dirty, beats, t.promoted, t.waiting, t.nonces, s')
  }

  /** How a reset went: the batch taken back, the books after it and after the demotion, and the final promotion. */
  datatype Trace = Trace(
    batch: BatchTrace, injected: Snap, demoted: Snap, promoted: Book, waiting: Book, nonces: map<Address, nat>)

  /** Demotion of every executable list, and renumbering. */
  ghost predicate Demotes(state: ChainState, s: Snap, s': Snap) {
    && Demotion(state, s.pending.Keys, s.pending, s.queue, s'.pending, s'.queue)
    && Renumbered(state, s'.pending, s.nonces, s'.nonces) && s'.locals == s.locals
    && forall t :: t in s'.all <==> t in s.all && !Drops(state, s.pending, t)
  }

  lemma EmptyBatch(config: Config, state: ChainState, gasPrice: nat, beats: map<Address, nat>, s: Snap, t: BatchTrace, s': Snap)
    requires BatchAdded(config, state, gasPrice, [], false, beats, s, t, s')
    ensures s' == s
  {
    hide Added, Settled;
    assert Dirty([], t.results) == {};
  }

  lemma BatchGrows(config: Config, state: ChainState, gasPrice: nat, txs: seq<(Tx, Facts)>, local: bool,
                   rs: seq<AddResult>, snaps: seq<Snap>, i: nat, r: AddResult, s: Snap)
    requires i < |txs| && Batch(config, state, gasPrice, txs[..i], local, rs, snaps)
    requires Added(config, state, gasPrice, snaps[i], txs[i].0, local, txs[i].1, r, s) && s.Consistent()
    ensures Batch(config, state, gasPrice, txs[..i + 1], local, rs + [r], snaps + [s])
    ensures Dirty(txs[..i + 1], rs + [r]) ==
      if r.Accepted? && !r.replaced then Dirty(txs[..i], rs) + {txs[i].0.sender} else Dirty(txs[..i], rs)
  {
    hide Added;
    var rs', snaps' := rs + [r], snaps + [s];
    forall j | 0 <= j < i + 1
      ensures Added(config, state, gasPrice, snaps'[j], txs[..i + 1][j].0, local, txs[..i + 1][j].1, rs'[j], snaps'[j + 1])
    {
      if j < i {
        assert txs[..i][j] == txs[..i + 1][j] && snaps'[j + 1] == snaps[j + 1];
      }
    }
  }

  /** No account is local, and the pool is within its capacity. */
  ghost predicate WithinCapacity(config: Config, s: Snap) {
    s.locals == {} && |s.all| <= config.globalSlots + config.globalQueue
  }

  lemma SmallerWithin(config: Config, s: Snap, s': Snap)
    requires WithinCapacity(config, s) && s'.all <= s.all && s'.locals == s.locals
    ensures WithinCapacity(config, s')
  {
    assert s'.all + (s.all - s'.all) == s.all;
    assert |s'.all| + |s.all - s'.all| == |s.all|;
  }

  lemma AddedWithin(config: Config, state: ChainState, gasPrice: nat, s: Snap, tx: Tx, facts: Facts, r: AddResult, s': Snap)
    requires Added(config, state, gasPrice, s, tx, false, facts, r, s') && WithinCapacity(config, s) && config.Capacity() > 0
    ensures WithinCapacity(config, s')
  {
    AddedSize(config, state, gasPrice, s, tx, false, facts, r, s');
    if |s.all| == config.Capacity() {
      var t :| t in s.all;
    }
    hide Check, Refuses, Removed, Placed;
    if drop: seq<Tx>, snaps: seq<Snap> :| tx !in s.all && AddedVia(config, state, s, drop, snaps, tx, false, r, s') {
      RemovalsAll(state, drop, snaps, |drop|);
    }
  }

  lemma SettledWithin(config: Config, state: ChainState, s: Snap, accounts: set<Address>, beats: map<Address, nat>,
                      promoted: Book, waiting: Book, nonces: map<Address, nat>, s': Snap)
    requires Settled(config, state, s, accounts, beats, promoted, waiting, nonces, s') && WithinCapacity(config, s)
    ensures WithinCapacity(config, s')
  {
    hide Promotion, FairlyCut, QueueCut, Shed;
    ShedIsLess(s.all, s'.all, s.pending, s.queue, s'.pending, s'.queue);
    SmallerWithin(config, s, s');
  }

  lemma {:induction false} BatchWithin(config: Config, state: ChainState, gasPrice: nat, txs: seq<(Tx, Facts)>,
                                       rs: seq<AddResult>, snaps: seq<Snap>, i: nat)
    requires Batch(config, state, gasPrice, txs, false, rs, snaps) && i <= |txs|
    requires WithinCapacity(config, snaps[0]) && config.Capacity() > 0
    ensures WithinCapacity(config, snaps[i])
  {
    hide Added, WithinCapacity;
    if i > 0 {
      BatchWithin(config, state, gasPrice, txs, rs, snaps, i - 1);
      AddedWithin(config, state, gasPrice, snaps[i - 1], txs[i - 1].0, txs[i - 1].1, rs[i - 1], snaps[i]);
    }
  }

  lemma BatchAddedWithin(config: Config, state: ChainState, gasPrice: nat, txs: seq<(Tx, Facts)>, beats: map<Address, nat>,
                         s: Snap, t: BatchTrace, s': Snap)
    requires BatchAdded(config, state, gasPrice, txs, false, beats, s, t, s') && WithinCapacity(config, s) && config.Capacity() > 0
    ensures WithinCapacity(config, s')
  {
    hide Added, Settled, WithinCapacity;
    BatchWithin(config, state, gasPrice, txs, t.results, t.snaps, |txs|);
    if Dirty(txs, t.results) != {} {
      SettledWithin(config, state, t.snaps[|txs|], Dirty(txs, t.results), beats, t.promoted, t.waiting, t.nonces, s');
    }
  }

  lemma DemotesWithin(config: Config, state: ChainState, s: Snap, s': Snap)
    requires Demotes(state, s, s') && WithinCapacity(config, s)
    ensures WithinCapacity(config, s')
  {
    hide Demotion, Renumbered, Drops;
    SmallerWithin(config, s, s');
  }

  /** A reset: a batch taken back, demotion and renumbering, promotion of every queued account and the two limits. */
  ghost predicate WasReset(config: Config, state: ChainState, gasPrice: nat, s: Snap, reinject: seq<(Tx, Facts)>,
                           beats: map<Address, nat>, t: Trace, s': Snap)
  {
    && BatchAdded(config, state, gasPrice, reinject, false, beats, s.(nonces := map[]), t.batch, t.injected)
    && Demotes(state, t.injected, t.demoted) && t.injected.Consistent() && t.demoted.Consistent()
    && Settled(config, state, t.demoted, t.demoted.queue.Keys, beats, t.promoted, t.waiting, t.nonces, s')
  }

  lemma ResetWithin(config: Config, state: ChainState, gasPrice: nat, s: Snap, reinject: seq<(Tx, Facts)>,
                    beats: map<Address, nat>, t: Trace, s': Snap)
    requires WasReset(config, state, gasPrice, s, reinject, beats, t, s') && WithinCapacity(config, s) && config.Capacity() > 0
    ensures WithinCapacity(config, s')
  {
    hide BatchAdded, Demotes, Settled;
    SmallerWithin(config, s, s.(nonces := map[]));
    BatchAddedWithin(config, state, gasPrice, reinject, beats, s.(nonces := map[]), t.batch, t.injected);
    DemotesWithin(config, state, t.injected, t.demoted);
    SettledWithin(config, state, t.demoted, t.demoted.queue.Keys, beats, t.promoted, t.waiting, t.nonces, s');
  }
}
