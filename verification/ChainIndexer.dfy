/**
The section indexer: chain headers are indexed in sections of equal size by a background job
that runs with the lock released, while head and reorg notifications keep arriving.

Every method is one atomic step; the calls may come in any order the job allows.
*/
module ChainIndexers {
  import opened Options
  import opened Ancestry

  /** The background job: `number` is the next header to read, `lastHead` the last one read. */
  datatype Job =
    | Idle
    | Running(section: nat, oldHead: Hash, lastHead: Hash, number: nat, failed: bool)

  /** A step of the indexer or of its surroundings. */
  datatype Step =
    | Rechain(fork: nat, canon: map<nat, Hash>)
    | NewHead(head: nat, reorg: bool)
    | Begin
    | Read(header: Option<Header>)
    | Finish(committed: bool)

  /** `tip` ends a chain of `n` parent-linked headers numbered from `lo` that starts right after `prev`. */
  ghost predicate Chain(headers: map<Hash, Header>, prev: Hash, tip: Hash, lo: nat, n: nat)
    decreases n
  {
    if n == 0 then tip == prev
    else
      && tip != NO_HASH && tip in headers && headers[tip].number == lo + n - 1
      && Chain(headers, prev, headers[tip].parent, lo, n - 1)
  }

  lemma {:induction false} ChainJoin(headers: map<Hash, Header>, a: Hash, b: Hash, c: Hash, lo: nat, n: nat, m: nat)
    requires Chain(headers, a, b, lo, n) && Chain(headers, b, c, lo + n, m)
    ensures Chain(headers, a, c, lo, n + m)
    decreases m
  {
    if m > 0 {
      ChainJoin(headers, a, b, headers[c].parent, lo, n, m - 1);
    }
  }

  /** Multiplication by the section size is monotone. */
  lemma Scaled(a: nat, b: nat, size: nat)
    requires a <= b
    ensures a * size <= b * size && (b + 1) * size == b * size + size
  {
  }

  lemma Divided(head: nat, size: nat)
    requires size > 0
    ensures head / size * size <= head < (head / size + 1) * size
    ensures forall s: nat :: s * size <= head <==> s <= head / size
  {
    forall s: nat ensures s * size <= head <==> s <= head / size {
      if s <= head / size {
        Scaled(s, head / size, size);
      } else {
        Scaled(head / size + 1, s, size);
      }
    }
  }

  function HeadOf(heads: map<nat, Hash>, section: int): Hash {
    if section in heads then heads[section] else NO_HASH
  }

  function WithoutHeads(heads: map<nat, Hash>, lo: nat, hi: nat): map<nat, Hash> {
    map s | s in heads && !(lo <= s < hi) :: heads[s]
  }

  /** A section's head ends a full section of linked headers right after the previous section's head. */
  ghost predicate SectionOk(headers: map<Hash, Header>, size: nat, heads: map<nat, Hash>, s: nat) {
    s in heads && Chain(headers, HeadOf(heads, s - 1), heads[s], s * size, size)
  }

  /** Section heads exist exactly for the stored sections, and each continues the one before. */
  ghost predicate IndexOk(headers: map<Hash, Header>, size: nat, stored: nat, heads: map<nat, Hash>) {
    && (forall s :: s in heads <==> 0 <= s < stored)
    && (forall s: nat {:trigger SectionOk(headers, size, heads, s)} :: s < stored ==> SectionOk(headers, size, heads, s))
  }

  /** No reorg of the list went below the first header of the section. */
  ghost predicate Undisturbed(reorgs: seq<nat>, start: nat) {
    forall i :: 0 <= i < |reorgs| ==> reorgs[i] >= start
  }

  /** Every change of the table below a number has been notified, if need be as a deeper reorg. */
  ghost predicate Notified(forks: seq<nat>, reorgs: seq<nat>, n: nat) {
    forall i :: 0 <= i < |forks| && forks[i] < n ==> exists j :: 0 <= j < |reorgs| && reorgs[j] <= forks[i]
  }

  /** Two canonical tables agree up to a number. */
  predicate Agree(canon: map<nat, Hash>, canon': map<nat, Hash>, n: nat) {
    forall k :: k in canon.Keys + canon'.Keys && k <= n ==> k in canon && k in canon' && canon[k] == canon'[k]
  }

  /** What the job read last is canonical, unless the table has changed below it since the job began. */
  ghost predicate LastCanonical(size: nat, job: Job, canon: map<nat, Hash>, forks: seq<nat>) {
    job.Running? && !job.failed && job.number > job.section * size && Undisturbed(forks, job.number - 1) ==>
      job.number - 1 in canon && canon[job.number - 1] == job.lastHead
  }

  lemma Rechained(size: nat, job: Job, canon: map<nat, Hash>, forks: seq<nat>, fork: nat, canon': map<nat, Hash>)
    requires LastCanonical(size, job, canon, forks) && Agree(canon, canon', fork)
    ensures LastCanonical(size, job, canon', forks + [fork])
  {
    assert (forks + [fork])[|forks|] == fork;
    assert forall i :: 0 <= i < |forks| ==> (forks + [fork])[i] == forks[i];
  }

  /** The chain that ends in `tip` is the canonical one at its `n` numbers from `lo`. */
  ghost predicate AllCanonical(headers: map<Hash, Header>, canon: map<nat, Hash>, tip: Hash, lo: nat, n: nat)
    decreases n
  {
    n > 0 ==>
      && lo + n - 1 in canon && canon[lo + n - 1] == tip
      && tip in headers && AllCanonical(headers, canon, headers[tip].parent, lo, n - 1)
  }

  /** The canonical table lists a chain of linked headers. */
  ghost predicate CanonLinked(headers: map<Hash, Header>, canon: map<nat, Hash>) {
    forall n: nat :: n + 1 in canon && canon[n + 1] in headers ==> n in canon && canon[n] == headers[canon[n + 1]].parent
  }

  lemma {:induction false} TipIsEnough(headers: map<Hash, Header>, canon: map<nat, Hash>, prev: Hash, tip: Hash, lo: nat, n: nat)
    requires CanonLinked(headers, canon) && Chain(headers, prev, tip, lo, n) && n > 0
    requires lo + n - 1 in canon && canon[lo + n - 1] == tip
    ensures AllCanonical(headers, canon, tip, lo, n)
    decreases n
  {
    if n > 1 {
      assert (lo + n - 2) + 1 in canon;
      TipIsEnough(headers, canon, prev, headers[tip].parent, lo, n - 1);
    }
  }

  /** What holds of a job in flight: what it has read is linked, and it notices every reorg below its section. */
  ghost predicate JobOk(headers: map<Hash, Header>, size: nat, stored: nat, heads: map<nat, Hash>, job: Job, reorgs: seq<nat>) {
    job.Running? ==>
      var start := job.section * size;
      && stored <= job.section && (job.oldHead == NO_HASH <==> job.section == 0)
      && (stored == job.section ==> HeadOf(heads, job.section - 1) == job.oldHead)
      && (stored == job.section <==> Undisturbed(reorgs, start))
      && start <= job.number <= start + size
      && (!job.failed ==> Chain(headers, job.oldHead, job.lastHead, start, job.number - start))
  }

  lemma Rollback(headers: map<Hash, Header>, size: nat, stored: nat, heads: map<nat, Hash>, k: nat)
    requires IndexOk(headers, size, stored, heads) && k <= stored
    ensures IndexOk(headers, size, k, WithoutHeads(heads, k, stored))
  {
    hide Chain;
    var heads' := WithoutHeads(heads, k, stored);
    forall s: nat | s < k ensures SectionOk(headers, size, heads', s) {
      assert SectionOk(headers, size, heads, s);
      assert HeadOf(heads', s - 1) == HeadOf(heads, s - 1);
    }
  }

  lemma JobReorged(headers: map<Hash, Header>, size: nat, stored: nat, heads: map<nat, Hash>, job: Job, reorgs: seq<nat>, head: nat)
    requires size > 0 && IndexOk(headers, size, stored, heads) && JobOk(headers, size, stored, heads, job, reorgs)
    ensures var k := if head / size < stored then head / size else stored;
      JobOk(headers, size, k, WithoutHeads(heads, k, stored), job, reorgs + [head])
  {
    hide Chain;
    if job.Running? {
      Divided(head, size);
      ghost var start := job.section * size;
      assert Undisturbed(reorgs + [head], start) <==> Undisturbed(reorgs, start) && head >= start by {
        assert (reorgs + [head])[|reorgs|] == head;
        assert forall i :: 0 <= i < |reorgs| ==> (reorgs + [head])[i] == reorgs[i];
      }
    }
  }

  /** The indexer at one moment, with the table it reads. */
  datatype State = State(
    stored: nat, known: nat, cascaded: nat, heads: map<nat, Hash>, job: Job, canon: map<nat, Hash>, reorgs: seq<nat>, forks: seq<nat>)

  /** A reorg notification: the sections that end at or below it survive, and no counter stays above it. */
  ghost predicate ReorgedTo(size: nat, s: State, head: nat, s': State)
    requires size > 0
  {
    && s' == s.(stored := s'.stored, known := s'.known, cascaded := s'.cascaded, heads := s'.heads, reorgs := s.reorgs + [head])
    && (forall k :: k in s'.heads <==> k in s.heads && (k + 1) * size <= head)
    && (forall k :: k in s'.heads ==> s'.heads[k] == s.heads[k])
    && s'.stored == (if head / size < s.stored then head / size else s.stored)
    && s'.known == (if head / size < s.known then head / size else s.known)
    && s'.cascaded == (if head / size * size < s.cascaded then head / size * size else s.cascaded)
  }

  /** A head notification: known becomes the greatest number of sections with enough confirmations, if that is more. */
  ghost predicate HeadSeen(size: nat, confirms: nat, s: State, head: nat, s': State) {
    && s' == s.(known := s'.known) && s'.known >= s.known
    && (s'.known > s.known ==> s'.known * size + confirms <= head + 1)
    && (forall k: nat :: k * size + confirms <= head + 1 && confirms <= head ==> k <= s'.known)
  }

  ghost predicate Begun(size: nat, s: State, s': State) {
    if s.job == Idle && s.known > s.stored then
      var head := HeadOf(s.heads, s.stored - 1);
      s' == s.(job := Running(s.stored, head, head, s.stored * size, false), reorgs := [], forks := [])
    else s' == s
  }

  predicate Readable(size: nat, job: Job, canon: map<nat, Hash>, header: Option<Header>) {
    && job.Running? && !job.failed && job.number < (job.section + 1) * size
    && (header.Some? ==> job.number in canon && header.value.hash == canon[job.number] && header.value.number == job.number)
  }

  ghost predicate ReadOne(size: nat, s: State, header: Option<Header>, s': State) {
    if Readable(size, s.job, s.canon, header) then
      var n := s.job.number;
      var linked := n in s.canon && s.canon[n] != NO_HASH && header.Some? && header.value.parent == s.job.lastHead;
      s' == s.(job := if linked then s.job.(lastHead := header.value.hash, number := n + 1) else s.job.(failed := true))
    else s' == s
  }

  ghost predicate Finished(size: nat, s: State, committed: bool, s': State) {
    if s.job.Running? && (s.job.failed || s.job.number == (s.job.section + 1) * size) then
      if !s.job.failed && committed && Undisturbed(s.reorgs, s.job.section * size) then
        && s'.cascaded + 1 == (s.job.section + 1) * size && s.stored == s.job.section
        && s' == s.(stored := s.stored + 1, cascaded := s'.cascaded, heads := s.heads[s.job.section := s.job.lastHead], job := Idle)
      else s' == s.(known := s.stored, job := Idle)
    else s' == s
  }

  /** What a step does. */
  ghost predicate Took(size: nat, confirms: nat, s: State, step: Step, s': State)
    requires size > 0
  {
    match step
    case Rechain(fork, canon) => s' == if Agree(s.canon, canon, fork) then s.(canon := canon, forks := s.forks + [fork]) else s
    case NewHead(head, reorg) => if reorg then ReorgedTo(size, s, head, s') else HeadSeen(size, confirms, s, head, s')
    case Begin => Begun(size, s, s')
    case Read(header) => ReadOne(size, s, header, s')
    case Finish(committed) => Finished(size, s, committed, s')
  }

  class ChainIndexer {
    const sectionSize: nat
    const confirmsReq: nat

    /** All headers that the chain database ever shows to the indexer, by hash. */
    ghost const headers: map<Hash, Header>

    var storedSections: nat
    var knownSections: nat
    var cascadedHead: nat

    /** The index database: the persisted section count and the head of each section. */
    var count: nat
    var heads: map<nat, Hash>

    var job: Job

    /** The chain database's canonical table, which others change at any time. */
    var canon: map<nat, Hash>

    /** The reorg points notified since the job began, and the points above which the table has changed. */
    ghost var reorgs: seq<nat>
    ghost var forks: seq<nat>

    ghost predicate Valid()
      reads this
    {
      && sectionSize > 0 && count == storedSections
      && IndexOk(headers, sectionSize, storedSections, heads)
      && cascadedHead <= storedSections * sectionSize
      && JobOk(headers, sectionSize, storedSections, heads, job, reorgs)
      && LastCanonical(sectionSize, job, canon, forks)
    }

    constructor (sectionSize: nat, confirmsReq: nat, ghost headers: map<Hash, Header>, canon: map<nat, Hash>)
      requires sectionSize > 0
      ensures Valid() && this.sectionSize == sectionSize && this.confirmsReq == confirmsReq && this.headers == headers
      ensures storedSections == knownSections == cascadedHead == 0 && heads == map[] && job == Idle && this.canon == canon
    {
      this.sectionSize, this.confirmsReq, this.headers := sectionSize, confirmsReq, headers;
      storedSections, knownSections, cascadedHead, count, heads := 0, 0, 0, 0, map[];
      job, this.canon, reorgs, forks := Idle, canon, [], [];
    }

    /** Sets the number of valid sections and removes the heads above it. */
    method SetValidSections(sections: nat)
      modifies this`storedSections, this`count, this`heads
      ensures count == storedSections == sections
      ensures heads == WithoutHeads(old(heads), sections, old(storedSections))
    {
      count := sections;
      assert heads == WithoutHeads(heads, storedSections, storedSections);
      while storedSections > sections
        invariant storedSections <= old(storedSections) && (storedSections < sections ==> storedSections == old(storedSections))
        invariant count == sections && heads == WithoutHeads(old(heads), storedSections, old(storedSections))
      {
        storedSections := storedSections - 1;
        heads := heads - {storedSections};
      }
      assert heads == WithoutHeads(old(heads), sections, old(storedSections));
      storedSections := sections;
    }

    /** The canonical table changes above a number: it grows, or a reorg replaces what was there. */
    method Rechain(fork: nat, canon': map<nat, Hash>)
      requires Valid() && Agree(canon, canon', fork)
      modifies this`canon, this`forks
      ensures Valid() && canon == canon' && forks == old(forks) + [fork]
    {
      hide JobOk, IndexOk, Agree, LastCanonical;
      Rechained(sectionSize, job, canon, forks, fork, canon');
      canon, forks := canon', forks + [fork];
    }

    /** A notification about a reorg back to the block `head`: every section that ends at or above it is dropped. */
    method Reorg(head: nat)
      requires Valid()
      modifies this`storedSections, this`knownSections, this`cascadedHead, this`count, this`heads, this`reorgs
      ensures Valid() && reorgs == old(reorgs) + [head]
      ensures storedSections == if head / sectionSize < old(storedSections) then head / sectionSize else old(storedSections)
      ensures forall s :: s in heads <==> s in old(heads) && (s + 1) * sectionSize <= head
      ensures forall s :: s in heads ==> heads[s] == old(heads)[s]
      ensures knownSections == if head / sectionSize < old(knownSections) then head / sectionSize else old(knownSections)
      ensures cascadedHead == if head / sectionSize * sectionSize < old(cascadedHead) then head / sectionSize * sectionSize else old(cascadedHead)
      ensures ReorgedTo(sectionSize, old(Now()), head, Now())
    {
      hide JobOk, IndexOk;
      var changed := head / sectionSize;
      Divided(head, sectionSize);
      JobReorged(headers, sectionSize, storedSections, heads, job, reorgs, head);
      Survivors(headers, sectionSize, storedSections, heads, head);
      if changed < knownSections {
        knownSections := changed;
      }
      if changed < storedSections {
        Rollback(headers, sectionSize, storedSections, heads, changed);
        SetValidSections(changed);
      }
      if changed * sectionSize < cascadedHead {
        cascadedHead := changed * sectionSize;
      }
      reorgs := reorgs + [head];
    }

    /** A notification about a new head: sections count as known once they have enough confirmations. */
    method NewHead(head: nat)
      requires Valid()
      modifies this`knownSections
      ensures Valid() && knownSections >= old(knownSections)
      ensures knownSections > old(knownSections) ==> knownSections * sectionSize + confirmsReq <= head + 1
      ensures forall s: nat :: s * sectionSize + confirmsReq <= head + 1 && confirmsReq <= head ==> s <= knownSections
      ensures HeadSeen(sectionSize, confirmsReq, old(Now()), head, Now())
    {
      hide JobOk, IndexOk;
      if head >= confirmsReq {
        var sections := (head + 1 - confirmsReq) / sectionSize;
        Divided(head + 1 - confirmsReq, sectionSize);
        if sections > knownSections {
          knownSections := sections;
        }
      }
    }

    /** Takes the next section to process, if there is one, and remembers the head it must continue. */
    method Begin()
      requires Valid() && job == Idle
      modifies this`job, this`reorgs, this`forks
      ensures Valid() && (job.Running? <==> knownSections > storedSections)
      ensures job.Running? ==>
        var head := HeadOf(heads, storedSections - 1);
        job == Running(storedSections, head, head, storedSections * sectionSize, false)
      ensures job.Running? ==> reorgs == [] && forks == []
      ensures Begun(sectionSize, old(Now()), Now())
    {
      if knownSections > storedSections {
        var oldHead := if storedSections > 0 then heads[storedSections - 1] else NO_HASH;
        assert storedSections > 0 ==> SectionOk(headers, sectionSize, heads, storedSections - 1);
        job := Running(storedSections, oldHead, oldHead, storedSections * sectionSize, false);
        reorgs, forks := [], [];
      }
    }

    /**
    Reads one header, without the lock: the canonical hash of the next number and the header
    stored under it. The job fails if either is missing or the header does not continue the last one.
    */
    method Read(header: Option<Header>)
      requires Valid() && job.Running? && !job.failed && job.number < (job.section + 1) * sectionSize
      requires header.Some? ==> job.number in canon && Stored(headers, canon[job.number], job.number, header.value)
      modifies this`job
      ensures Valid()
      ensures var n := old(job).number;
        var linked := n in canon && canon[n] != NO_HASH && header.Some? && header.value.parent == old(job).lastHead;
        job == if linked then old(job).(lastHead := header.value.hash, number := n + 1) else old(job).(failed := true)
    {
      hide IndexOk;
      var hash := if job.number in canon then canon[job.number] else NO_HASH;
      if hash == NO_HASH || header.None? || header.value.parent != job.lastHead {
        job := job.(failed := true);
      } else {
        job := job.(lastHead := header.value.hash, number := job.number + 1);
      }
    }

    /**
    Ends the job. Its section is stored if every header was linked, the backend committed, and the
    head before the section is still the one the job started from; that is the case exactly if no
    reorg since then went below the section.
    */
    method Finish(committed: bool) returns (stored: bool)
      requires Valid() && job.Running? && (job.failed || job.number == (job.section + 1) * sectionSize)
      modifies this`storedSections, this`knownSections, this`cascadedHead, this`count, this`heads, this`job
      ensures Valid() && job == Idle
      ensures stored <==> !old(job).failed && committed && Undisturbed(reorgs, old(job).section * sectionSize)
      ensures stored ==>
        && storedSections == old(storedSections) + 1 == old(job).section + 1 && heads == old(heads)[old(job).section := old(job).lastHead]
        && cascadedHead + 1 == storedSections * sectionSize && knownSections == old(knownSections)
      ensures !stored ==> storedSections == old(storedSections) == knownSections && heads == old(heads) && cascadedHead == old(cascadedHead)
      ensures stored && CanonLinked(headers, canon) ==>
        var last, head := storedSections * sectionSize - 1, heads[storedSections - 1];
        && (AllCanonical(headers, canon, head, (storedSections - 1) * sectionSize, sectionSize) <==> HeadOf(canon, last) == head)
        && (Undisturbed(forks, last) ==> HeadOf(canon, last) == head)
        && (Undisturbed(reorgs, last) && Notified(forks, reorgs, last) ==> HeadOf(canon, last) == head)
    {
      hide IndexOk, Chain, AllCanonical, CanonLinked;
      stored := !job.failed && committed && job.oldHead == HeadOf(heads, job.section - 1);
      if stored {
        Extended(headers, sectionSize, storedSections, heads, job, reorgs);
        if CanonLinked(headers, canon) {
          FinishedCanonical(headers, sectionSize, storedSections, heads, job, reorgs, canon, forks);
        }
        heads := heads[job.section := job.lastHead];
        SetValidSections(job.section + 1);
        assert heads == old(heads)[job.section := job.lastHead];
        Scaled(1, storedSections, sectionSize);
        cascadedHead := storedSections * sectionSize - 1;
      } else {
        if job.oldHead != HeadOf(heads, job.section - 1) {
          Missed(headers, sectionSize, storedSections, heads, job, reorgs);
        }
        knownSections := storedSections;
      }
      job := Idle;
    }

    ghost function Now(): State
      reads this
    {
      State(storedSections, knownSections, cascadedHead, heads, job, canon, reorgs, forks)
    }

    /** One step of a run, if it is possible at this point. */
    method Take(step: Step)
      requires Valid() && Honest(headers, step)
      modifies this
      ensures Valid() && Took(sectionSize, confirmsReq, old(Now()), step, Now())
    {
      hide IndexOk, JobOk, LastCanonical, Agree, AllCanonical, CanonLinked, ReorgedTo, HeadSeen, Undisturbed;
      match step
      case Rechain(fork, canon') =>
        if Agree(canon, canon', fork) {
          Rechain(fork, canon');
        }
      case NewHead(head, reorg) =>
        if reorg {
          Reorg(head);
        } else {
          NewHead(head);
        }
      case Begin =>
        if job == Idle {
          Begin();
        }
      case Read(header) =>
        if Readable(sectionSize, job, canon, header) {
          Read(header);
        }
      case Finish(committed) =>
        if job.Running? && (job.failed || job.number == (job.section + 1) * sectionSize) {
          var stored := Finish(committed);
        }
    }

    /** Any interleaving of notifications with the job: each step is carried out, and leaves one chain of linked headers, section by section. */
    method Run(steps: seq<Step>) returns (ghost states: seq<State>)
      requires Valid() && forall i :: 0 <= i < |steps| ==> Honest(headers, steps[i])
      modifies this
      ensures |states| == |steps| + 1 && states[0] == old(Now()) && states[|steps|] == Now()
      ensures forall i :: 0 <= i < |steps| ==> Took(sectionSize, confirmsReq, states[i], steps[i], states[i + 1])
      ensures Valid() && (forall s :: s in heads <==> 0 <= s < storedSections)
      ensures forall s: nat :: s < storedSections ==> SectionOk(headers, sectionSize, heads, s)
      ensures Chain(headers, NO_HASH, HeadOf(heads, storedSections - 1), 0, storedSections * sectionSize)
    {
      hide JobOk, Took;
      states := [Now()];
      for i := 0 to |steps|
        invariant Valid() && |states| == i + 1 && states[0] == old(Now()) && states[i] == Now()
        invariant forall j :: 0 <= j < i ==> Took(sectionSize, confirmsReq, states[j], steps[j], states[j + 1])
      {
        Take(steps[i]);
        states := states + [Now()];
      }
      OneChain(headers, sectionSize, storedSections, heads, storedSections);
    }
  }

  /** A header stored under its own hash and number. */
  ghost predicate Stored(headers: map<Hash, Header>, hash: Hash, number: nat, h: Header) {
    h.hash == hash && h.number == number && hash in headers && headers[hash] == h
  }

  /** A header that is read is stored under its own hash. */
  ghost predicate Honest(headers: map<Hash, Header>, step: Step) {
    step.Read? && step.header.Some? ==> Stored(headers, step.header.value.hash, step.header.value.number, step.header.value)
  }

  /** A job that has read both headers of the section of blocks 0 and 1. */
  method SectionRead() returns (c: ChainIndexer)
    ensures fresh(c) && c.Valid() && c.sectionSize == 2 && c.storedSections == 0 && c.knownSections == 1
    ensures c.heads == map[] && c.canon == map[0 := 5, 1 := 6]
    ensures c.job == Running(0, NO_HASH, 6, 2, false) && c.reorgs == []
  {
    var block0, block1 := Header(5, NO_HASH, 0, 1), Header(6, 5, 1, 1);
    c := new ChainIndexer(2, 0, map[5 := block0, 6 := block1], map[0 := 5, 1 := 6]);
    hide IndexOk, JobOk, LastCanonical;
    c.NewHead(1);
    assert c.knownSections == 1 by {
      assert 1 * c.sectionSize + c.confirmsReq <= 2;
    }
    c.Begin();
    c.Read(Some(block0));
    c.Read(Some(block1));
  }

  /**
  The commit test does not see a reorg inside the job's own section: block 1 has been replaced since
  it was read, a reorg back to block 0 was notified, and the section of blocks 0 and 1 is still stored.
  */
  method StaleSection() returns (c: ChainIndexer)
    ensures c.Valid() && c.storedSections == 1 && c.knownSections == 0
    ensures c.heads == map[0 := 6] && c.canon == map[0 := 5, 1 := 7]
  {
    hide IndexOk, JobOk, LastCanonical;
    c := SectionRead();
    c.Rechain(0, map[0 := 5, 1 := 7]);
    c.Reorg(0);
    assert c.heads == map[];
    assert c.reorgs == [0];
    var stored := c.Finish(true);
  }

  lemma Survivors(headers: map<Hash, Header>, size: nat, stored: nat, heads: map<nat, Hash>, head: nat)
    requires size > 0 && IndexOk(headers, size, stored, heads)
    ensures var k := if head / size < stored then head / size else stored;
      forall s :: s in WithoutHeads(heads, k, stored) <==> s in heads && (s + 1) * size <= head
    ensures head / size >= stored ==> WithoutHeads(heads, stored, stored) == heads
  {
    Divided(head, size);
  }

  /** A finished job whose predecessor head is still there extends the index. */
  lemma Extended(headers: map<Hash, Header>, size: nat, stored: nat, heads: map<nat, Hash>, job: Job, reorgs: seq<nat>)
    requires size > 0 && IndexOk(headers, size, stored, heads) && JobOk(headers, size, stored, heads, job, reorgs)
    requires job.Running? && !job.failed && job.number == (job.section + 1) * size && job.oldHead == HeadOf(heads, job.section - 1)
    ensures stored == job.section && IndexOk(headers, size, stored + 1, heads[job.section := job.lastHead])
  {
    hide Chain;
    var heads' := heads[job.section := job.lastHead];
    forall s: nat | s < stored + 1 ensures SectionOk(headers, size, heads', s) {
      if s < stored {
        assert SectionOk(headers, size, heads, s);
      }
      assert HeadOf(heads', s - 1) == HeadOf(heads, s - 1);
    }
  }

  /**
  The section is canonical if and only if its last header is, as it is if the table has not changed
  below that header since the job began, or if every change was notified and no notified reorg is below it.
  */
  lemma FinishedCanonical(headers: map<Hash, Header>, size: nat, stored: nat, heads: map<nat, Hash>, job: Job, reorgs: seq<nat>,
                          canon: map<nat, Hash>, forks: seq<nat>)
    requires size > 0 && JobOk(headers, size, stored, heads, job, reorgs) && LastCanonical(size, job, canon, forks)
    requires job.Running? && !job.failed && job.number == (job.section + 1) * size
    requires CanonLinked(headers, canon)
    ensures AllCanonical(headers, canon, job.lastHead, job.section * size, size) <==> HeadOf(canon, job.number - 1) == job.lastHead
    ensures var last := job.number - 1;
      Undisturbed(forks, last) || (Undisturbed(reorgs, last) && Notified(forks, reorgs, last)) ==> HeadOf(canon, last) == job.lastHead
  {
    hide CanonLinked;
    assert job.number == job.section * size + size;
    if HeadOf(canon, job.number - 1) == job.lastHead {
      TipIsEnough(headers, canon, job.oldHead, job.lastHead, job.section * size, size);
    }
  }

  /** If the predecessor head is gone, a reorg went below the section. */
  lemma Missed(headers: map<Hash, Header>, size: nat, stored: nat, heads: map<nat, Hash>, job: Job, reorgs: seq<nat>)
    requires JobOk(headers, size, stored, heads, job, reorgs) && job.Running? && job.oldHead != HeadOf(heads, job.section - 1)
    ensures !Undisturbed(reorgs, job.section * size)
  {
  }

  /** All stored sections together are one chain of linked headers from number zero. */
  lemma {:induction false} OneChain(headers: map<Hash, Header>, size: nat, stored: nat, heads: map<nat, Hash>, k: nat)
    requires IndexOk(headers, size, stored, heads) && k <= stored
    ensures Chain(headers, NO_HASH, HeadOf(heads, k - 1), 0, k * size)
    decreases k
  {
    if k > 0 {
      OneChain(headers, size, stored, heads, k - 1);
      assert SectionOk(headers, size, heads, k - 1);
      ChainJoin(headers, NO_HASH, HeadOf(heads, k - 2), HeadOf(heads, k - 1), 0, (k - 1) * size, size);
      assert (k - 1) * size + size == k * size;
    }
  }
}
