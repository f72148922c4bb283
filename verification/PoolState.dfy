/** The books of the transaction pool as values, and the invariants that tie them together. */
module PoolStates {
  import opened Transactions
  import opened TxLists

  datatype Config = Config(
    priceBump: nat, accountSlots: nat, globalSlots: nat, accountQueue: nat, globalQueue: nat, isBitmed: bool)
  {
    /** How many transactions the pool holds before it starts to make room. */
    function Capacity(): nat {
      globalSlots + globalQueue
    }
  }

  /** The chain state the pool is measured against; absent accounts have nonce and balance zero. */
  datatype ChainState = ChainState(nonces: map<Address, nat>, balances: map<Address, nat>, maxGas: nat) {
    function Nonce(a: Address): nat {
      if a in nonces then nonces[a] else 0
    }

    function Balance(a: Address): nat {
      if a in balances then balances[a] else 0
    }
  }

  type Book = map<Address, List>

  /** An account's list; an absent list is an empty one. */
  function Of(book: Book, a: Address, strict: bool): List {
    if a in book then book[a] else List(strict, map[], 0, 0)
  }

  /** The book with an account's list replaced; an empty list is deleted. */
  function With(book: Book, a: Address, l: List): Book {
    if l.items == map[] then book - {a} else book[a := l]
  }

  /** Every transaction of a list belongs to its account and is pooled. */
  ghost predicate Owned(l: List, a: Address, all: set<Tx>) {
    l.Valid() && forall n :: n in l.items ==> l.items[n].sender == a && l.items[n] in all
  }

  /** One account's books: both lists owned, and no nonce in both. */
  ghost predicate AccountOk(a: Address, p: List, q: List, all: set<Tx>) {
    p.strict && !q.strict && Owned(p, a, all) && Owned(q, a, all) && p.items.Keys !! q.items.Keys
  }

  ghost predicate BooksOk(pending: Book, queue: Book, all: set<Tx>) {
    forall a: Address :: AccountOk(a, Of(pending, a, true), Of(queue, a, false), all)
  }

  /** The two books differ at most in the list of `a`. */
  ghost predicate OnlyAt(book: Book, book': Book, a: Address, strict: bool) {
    forall b: Address :: b != a ==> Of(book', b, strict) == Of(book, b, strict)
  }

  /** A change to one account's lists and transactions is checked at that account. */
  lemma AccountChange(pending: Book, queue: Book, all: set<Tx>, pending': Book, queue': Book, all': set<Tx>, a: Address)
    requires BooksOk(pending, queue, all)
    requires OnlyAt(pending, pending', a, true) && OnlyAt(queue, queue', a, false)
    requires forall t :: t in all && t !in all' ==> t.sender == a
    requires AccountOk(a, Of(pending', a, true), Of(queue', a, false), all')
    ensures BooksOk(pending', queue', all')
  {
    forall b: Address ensures AccountOk(b, Of(pending', b, true), Of(queue', b, false), all') {
      assert AccountOk(b, Of(pending, b, true), Of(queue, b, false), all);
    }
  }

  /** An account's pending list runs gap-free from its state nonce up to its virtual nonce. */
  ghost predicate GapFree(l: List, stateNonce: nat, virtualNonce: nat) {
    l.Contiguous(stateNonce) && virtualNonce == stateNonce + |l.items|
  }

  function VirtualNonce(state: ChainState, pendingNonces: map<Address, nat>, a: Address): nat {
    if a in pendingNonces then pendingNonces[a] else state.Nonce(a)
  }

  ghost predicate AllGapFree(state: ChainState, pending: Book, pendingNonces: map<Address, nat>) {
    forall a: Address :: GapFree(Of(pending, a, true), state.Nonce(a), VirtualNonce(state, pendingNonces, a))
  }

  lemma GapFreeChange(state: ChainState, pending: Book, nonces: map<Address, nat>, pending': Book, nonces': map<Address, nat>, a: Address)
    requires AllGapFree(state, pending, nonces)
    requires OnlyAt(pending, pending', a, true)
    requires forall b: Address :: b != a ==> VirtualNonce(state, nonces', b) == VirtualNonce(state, nonces, b)
    requires GapFree(Of(pending', a, true), state.Nonce(a), VirtualNonce(state, nonces', a))
    ensures AllGapFree(state, pending', nonces')
  {
    forall b: Address ensures GapFree(Of(pending', b, true), state.Nonce(b), VirtualNonce(state, nonces', b)) {
      assert GapFree(Of(pending, b, true), state.Nonce(b), VirtualNonce(state, nonces, b));
    }
  }

  /** Adding at the end of a gap-free list. */
  lemma GapFreeAppend(l: List, stateNonce: nat, tx: Tx)
    requires GapFree(l, stateNonce, tx.nonce)
    ensures tx.nonce !in l.items && GapFree(l.Add(tx), stateNonce, tx.nonce + 1)
  {
    assert l.Add(tx).items.Keys == l.items.Keys + {tx.nonce};
  }

  /** Replacing inside a gap-free list. */
  lemma GapFreeReplace(l: List, stateNonce: nat, virtualNonce: nat, tx: Tx)
    requires GapFree(l, stateNonce, virtualNonce) && tx.nonce in l.items
    ensures GapFree(l.Add(tx), stateNonce, virtualNonce)
  {
    assert l.Add(tx).items.Keys == l.items.Keys;
  }

  /** Removing a nonce of a gap-free strict list cuts it there. */
  lemma GapFreeRemove(l: List, stateNonce: nat, virtualNonce: nat, nonce: nat)
    requires GapFree(l, stateNonce, virtualNonce) && l.strict && nonce in l.items
    ensures nonce < virtualNonce && GapFree(l.Remove(nonce), stateNonce, nonce)
  {
    RemoveContiguous(l, stateNonce, nonce);
    RangeSize(Below(l.items, nonce).Keys, stateNonce, nonce);
  }

  /** What waits in the queue of a gap-free account waits at or after the virtual nonce. */
  lemma QueueAfterVirtual(a: Address, p: List, q: List, all: set<Tx>, stateNonce: nat, virtualNonce: nat)
    requires AccountOk(a, p, q, all) && GapFree(p, stateNonce, virtualNonce)
    requires forall n :: n in q.items ==> n >= stateNonce
    ensures forall n :: n in q.items ==> n >= virtualNonce
  {
  }
}
