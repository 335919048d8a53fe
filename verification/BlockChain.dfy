/**
 Canonical-chain maintenance: the head markers, the number->hash markers, the
 transaction lookup table with its cache, and the log streams, through extension,
 reorganisation and rewind.
 */
module BlockChains {
  import opened Options
  import opened Chain
  import opened ChainIndex
  import opened Fork

  datatype TxLocation = TxLocation(blockHash: Hash, blockIndex: nat, index: nat)

  /** The persisted head markers. */
  datatype StoredHeads = StoredHeads(header: Hash, snapBlock: Hash, block: Hash)

  /** The in-memory head markers. */
  datatype CurrentHeads = CurrentHeads(header: Header, snapBlock: Header, block: Header)

  datatype WriteError = Ok | UnknownAncestor | ReorgFailed(error: ReorgError) | StateMissing

  /** How many logs may pile up before an event is sent. */
  const LOG_CHUNK := 512

  /** The position of the first occurrence of tx. */
  function FindTx(txs: seq<Hash>, tx: Hash): Option<nat> {
    if |txs| == 0 then None
    else if txs[0] == tx then Some(0)
    else match FindTx(txs[1..], tx)
      case None => None
      case Some(i) => Some(i + 1)
  }

  /** What the database answers for a transaction: lookup entry, marker, body, position. */
  function ReadTx(table: map<Hash, nat>, marks: map<nat, Hash>, b: Bodies, tx: Hash): Option<TxLocation> {
    if tx !in table || table[tx] !in marks || marks[table[tx]] !in b then None
    else match FindTx(b[marks[table[tx]]].txs, tx)
      case None => None
      case Some(i) => Some(TxLocation(marks[table[tx]], table[tx], i))
  }

  ghost predicate CacheAgrees(cache: map<Hash, TxLocation>, table: map<Hash, nat>, marks: map<nat, Hash>, b: Bodies) {
    forall tx | tx in cache :: ReadTx(table, marks, b, tx) == Some(cache[tx])
  }

  /** Adding a block of fresh transactions on top changes no answer already cached. */
  lemma CacheSurvives(cache: map<Hash, TxLocation>, b: Bodies, line: seq<Hash>, h: Hash)
    requires Covers(b, line) && h in b && TxUnique(b, line + [h])
    requires CacheAgrees(cache, TxIndex(b, line), Marks(line), b)
    ensures TxIndex(b, line + [h]) == TxIndex(b, line) + BlockEntries(b[h], |line|)
    ensures CacheAgrees(cache, TxIndex(b, line + [h]), Marks(line + [h]), b)
  {
    TxEntriesLocal(b, line, line + [h], 0, |line|);
    forall tx | tx in cache ensures tx !in b[h].txs {
      IndexedIsElsewhere(b, line, h, tx);
    }
  }

  /** A transaction of the line is not in a block of fresh transactions. */
  lemma IndexedIsElsewhere(b: Bodies, line: seq<Hash>, h: Hash, tx: Hash)
    requires Covers(b, line) && h in b && TxUnique(b, line + [h]) && tx in TxIndex(b, line)
    ensures tx !in b[h].txs
  {
    TxEntriesKeys(b, line, 0, |line|, tx);
    var n :| 0 <= n < |line| && tx in b[line[n]].txs;
    assert (line + [h])[n] == line[n] && (line + [h])[|line|] == h;
  }

  /** Everything sent plus everything still waiting to be sent. */
  ghost function Stream(events: seq<seq<Log>>, pending: seq<Log>): seq<Log> {
    Concat(events) + pending
  }

  /** Queues the logs of one block and sends the queue once it exceeds a chunk. */
  method Enqueue(events: seq<seq<Log>>, pending: seq<Log>, logs: seq<Log>) returns (sent: seq<seq<Log>>, rest: seq<Log>)
    ensures Stream(sent, rest) == Stream(events, pending) + logs
    ensures |rest| <= LOG_CHUNK && events <= sent
    ensures if |pending + logs| > LOG_CHUNK then sent == events + [pending + logs] && rest == []
            else sent == events && rest == pending + logs
  {
    sent, rest := events, pending + logs;
    assert Concat(events) + (pending + logs) == Stream(events, pending) + logs;
    if |rest| > LOG_CHUNK {
      ConcatSnoc(events, rest);
      sent, rest := events + [rest], [];
    }
  }

  /** Sends what is left in the queue, unless it is empty. */
  method Flush(events: seq<seq<Log>>, pending: seq<Log>) returns (sent: seq<seq<Log>>)
    ensures Concat(sent) == Stream(events, pending) && events <= sent
    ensures |pending| == 0 ==> sent == events
  {
    sent := events;
    if |pending| > 0 {
      ConcatSnoc(events, pending);
      sent := events + [pending];
    }
  }

  /** Markers, lookup table and announced logs, taken together. */
  datatype Index = Index(marks: map<nat, Hash>, table: map<Hash, nat>, logs: seq<Log>)

  lemma LogsStep(sent: seq<Log>, b: Bodies, line: seq<Hash>, lo: nat, hi: nat, removed: bool)
    requires lo < hi <= |line| && Covers(b, line)
    ensures (sent + LineLogs(b, line, lo, hi - 1, removed)) + BlockLogs(b[line[hi - 1]], removed) ==
            sent + LineLogs(b, line, lo, hi, removed)
  {
  }

  /** Every log sent since carries the removed flag. */
  ghost predicate Withdrawn(events: seq<seq<Log>>, events': seq<seq<Log>>) {
    && |Concat(events)| <= |Concat(events')|
    && (forall i | |Concat(events)| <= i < |Concat(events')| :: Concat(events')[i].removed)
  }

  lemma BranchIsWithdrawn(b: Bodies, line: seq<Hash>, lo: nat, hi: nat, events: seq<seq<Log>>, events': seq<seq<Log>>)
    requires lo <= hi <= |line| && Covers(b, line)
    requires Concat(events') == Concat(events) + LineLogs(b, line, lo, hi, true)
    ensures Withdrawn(events, events')
  {
    WithdrawnAreFlagged(b, line, lo, hi);
  }

  lemma TableStep(table: map<Hash, nat>, b: Bodies, line: seq<Hash>, lo: nat, hi: nat)
    requires lo < hi <= |line| && Covers(b, line)
    ensures (table + TxEntries(b, line, lo, hi - 1)) + BlockEntries(b[line[hi - 1]], hi - 1) ==
            table + TxEntries(b, line, lo, hi)
  {
    MergeAssociates(table, TxEntries(b, line, lo, hi - 1), BlockEntries(b[line[hi - 1]], hi - 1));
  }

  /** The transactions of a list of blocks, in order. */
  function ChainTxs(b: Bodies, chain: seq<Header>): seq<Hash>
    requires forall h | h in chain :: h.hash in b
  {
    if chain == [] then [] else ChainTxs(b, chain[..|chain| - 1]) + b[chain[|chain| - 1].hash].txs
  }

  function Elements(xs: seq<Hash>): set<Hash> {
    set x | x in xs
  }

  ghost function Below(m: map<nat, Hash>, k: nat): map<nat, Hash> {
    map i: nat | i in m && i < k :: m[i]
  }

  ghost predicate Contiguous(m: map<nat, Hash>, top: nat) {
    forall i: nat :: i in m <==> i < top
  }

  /** A stored block that may become head: if it has a line, no transaction repeats on it. */
  ghost predicate Eligible(s: Store, b: Bodies, g: Hash, h: Header) {
    && h.hash in s && s[h.hash] == h
    && (Rooted(s, g, h.hash) ==> Covers(b, Line(s, g, h.hash)) && TxUnique(b, Line(s, g, h.hash)))
  }

  /** The operations that may change the head. */
  datatype Op = Import(block: Header, body: Body) | Choose(head: Header, stateReady: bool) | Reuse(known: Header)

  /** What is stored and which block is head. */
  datatype Snapshot = Snapshot(headers: Store, bodies: Bodies, head: Header)

  /** Imported blocks are verified and fresh, the others stored. Any of them may be unconnected. */
  ghost predicate OpOk(g: Hash, x: Snapshot, op: Op) {
    match op
    case Import(block, body) => Fits(x.headers, x.bodies, block, body) && FreshTxs(x.headers, x.bodies, g, block, body)
    case Choose(head, _) => Eligible(x.headers, x.bodies, g, head)
    case Reuse(block) => Eligible(x.headers, x.bodies, g, block)
  }

  /** A block becomes head exactly if it has a full ancestry (and its state is there, if that is checked). */
  ghost function AfterOp(g: Hash, x: Snapshot, op: Op): Snapshot {
    match op
    case Import(block, body) =>
      if Parent(x.headers, block).None? then x
      else Snapshot(x.headers[block.hash := block], x.bodies[block.hash := body],
                    if Rooted(x.headers, g, block.parent) then block else x.head)
    case Choose(head, stateReady) => if stateReady && Rooted(x.headers, g, head.hash) then x.(head := head) else x
    case Reuse(block) => if Rooted(x.headers, g, block.hash) then x.(head := block) else x
  }

  ghost function AfterRun(g: Hash, x: Snapshot, ops: seq<Op>): Snapshot {
    if ops == [] then x else AfterOp(g, AfterRun(g, x, ops[..|ops| - 1]), ops[|ops| - 1])
  }

  ghost predicate RunOk(g: Hash, x: Snapshot, ops: seq<Op>) {
    forall i | 0 <= i < |ops| :: OpOk(g, AfterRun(g, x, ops[..i]), ops[i])
  }

  class BlockChain {
    const genesis: Hash

    // The database.
    var headers: Store
    var bodies: Bodies
    var canonical: map<nat, Hash>
    var txLookup: map<Hash, nat>
    var stored: StoredHeads

    // In-memory markers and the lookup cache.
    var current: CurrentHeads
    var txLookupCache: map<Hash, TxLocation>
    var txLookupLocked: bool

    // What the feeds have been sent so far.
    var removedLogEvents: seq<seq<Log>>
    var logEvents: seq<seq<Log>>

    /** A chain that consists of its genesis. */
    constructor (g: Header, body: Body)
      requires g.number == 0 && g.hash != ZERO_HASH && g.parent != g.hash
      ensures Valid() && current.block == g && genesis == g.hash
      ensures headers == map[g.hash := g] && bodies == map[g.hash := body]
    {
      genesis, headers, bodies := g.hash, map[g.hash := g], map[g.hash := body];
      canonical, txLookup := map[0 := g.hash], BlockEntries(body, 0);
      stored, current := StoredHeads(g.hash, g.hash, g.hash), CurrentHeads(g, g, g);
      txLookupCache, txLookupLocked := map[], false;
      removedLogEvents, logEvents := [], [];
      new;
      var line := LineTo(g.hash);
      assert line == [g.hash];
      assert TxEntries(bodies, line, 0, 0) == map[];
      assert TxIndex(bodies, line) == map[] + BlockEntries(body, 0);
    }

    ghost predicate StoreOk()
      reads `headers, `bodies
    {
      Keyed(headers) && Numbered(headers) && forall h | h in headers :: h in bodies
    }

    ghost function LineTo(h: Hash): seq<Hash>
      requires Rooted(headers, genesis, h)
      reads `headers
    {
      Line(headers, genesis, h)
    }

    /** Markers and lookup table describe the line and nothing else; cached answers agree. */
    ghost predicate Indexes(line: seq<Hash>)
      reads `bodies, `canonical, `txLookup, `txLookupCache, `txLookupLocked
    {
      && Covers(bodies, line) && TxUnique(bodies, line)
      && canonical == Marks(line)
      && txLookup == TxIndex(bodies, line)
      && !txLookupLocked && CacheAgrees(txLookupCache, txLookup, canonical, bodies)
    }

    ghost predicate IndexedTo(h: Hash)
      reads `headers, `bodies, `canonical, `txLookup, `txLookupCache, `txLookupLocked
    {
      StoreOk() && Rooted(headers, genesis, h) && Indexes(LineTo(h))
    }

    ghost predicate HeadIs(h: Header)
      reads `stored, `current
    {
      stored == StoredHeads(h.hash, h.hash, h.hash) && current == CurrentHeads(h, h, h)
    }

    /** The state between operations. */
    ghost predicate Valid()
      reads `headers, `bodies, `canonical, `txLookup, `stored, `current, `txLookupCache, `txLookupLocked
    {
      && HeadIs(current.block)
      && IndexedTo(current.block.hash) && headers[current.block.hash] == current.block
    }

    ghost predicate Candidate(h: Header)
      reads `headers, `bodies
    {
      Eligible(headers, bodies, genesis, h)
    }

    /** Injects a block as head: one atomic batch, then the in-memory markers. */
    method WriteHeadBlock(block: Header)
      requires block.hash in bodies
      modifies `stored, `current, `canonical, `txLookup
      ensures HeadIs(block)
      ensures canonical == old(canonical)[block.number := block.hash]
      ensures txLookup == old(txLookup) + BlockEntries(bodies[block.hash], block.number)
    {
      canonical := canonical[block.number := block.hash];
      txLookup := txLookup + BlockEntries(bodies[block.hash], block.number);
      stored := StoredHeads(block.hash, block.hash, block.hash);
      current := CurrentHeads(block, block, block);
    }

    /** Announces the logs of the dropped branch, oldest block first. */
    method EmitRemovedLogs(ghost o: seq<Hash>, ghost c: nat, oldChain: seq<Header>)
      requires Covers(bodies, o) && Names(o, oldChain) && c == |o| - |oldChain|
      modifies `removedLogEvents
      ensures old(removedLogEvents) <= removedLogEvents
      ensures Concat(removedLogEvents) == Concat(old(removedLogEvents)) + LineLogs(bodies, o, c, |o|, true)
      ensures Withdrawn(old(removedLogEvents), removedLogEvents)
    {
      var events, deletedLogs := removedLogEvents, [];
      var i := |oldChain|;
      while i > 0
        invariant 0 <= i <= |oldChain| && old(removedLogEvents) <= events
        invariant Stream(events, deletedLogs) == Concat(old(removedLogEvents)) + LineLogs(bodies, o, c, |o| - i, true)
      {
        i := i - 1;
        assert oldChain[i].hash == o[|o| - i - 1];
        var logs := CollectLogs(bodies[oldChain[i].hash], true);
        events, deletedLogs := Enqueue(events, deletedLogs, logs);
        LogsStep(Concat(old(removedLogEvents)), bodies, o, c, |o| - i, true);
      }
      removedLogEvents := Flush(events, deletedLogs);
      BranchIsWithdrawn(bodies, o, c, |o|, old(removedLogEvents), removedLogEvents);
    }

    /** Gathers the transactions of a branch given top first. */
    method CollectTxs(ghost line: seq<Hash>, ghost c: nat, chain: seq<Header>) returns (txs: seq<Hash>)
      requires Covers(bodies, line) && Names(line, chain) && c == |line| - |chain|
      ensures (forall h | h in chain :: h.hash in bodies) && txs == ChainTxs(bodies, chain)
      ensures forall tx :: tx in txs <==> tx in TxEntries(bodies, line, c, |line|)
    {
      txs := [];
      for i := 0 to |chain|
        invariant forall h | h in chain :: h.hash in bodies
        invariant txs == ChainTxs(bodies, chain[..i])
        invariant forall tx :: tx in txs <==> exists n :: |line| - i <= n < |line| && tx in bodies[line[n]].txs
      {
        assert chain[i].hash == line[|line| - 1 - i];
        assert chain[..i + 1][..i] == chain[..i];
        txs := txs + bodies[chain[i].hash].txs;
        forall tx ensures tx in txs <==> exists n :: |line| - i - 1 <= n < |line| && tx in bodies[line[n]].txs {
          if tx in bodies[chain[i].hash].txs {
            assert tx in bodies[line[|line| - 1 - i]].txs;
          }
        }
      }
      assert chain[..|chain|] == chain;
      forall tx ensures tx in txs <==> tx in TxEntries(bodies, line, c, |line|) {
        TxEntriesKeys(bodies, line, c, |line|, tx);
      }
    }

    /**
     Announces the logs of the block of n at position at, chunk-wise, and makes it the head;
     x is what the index held before the branch, which starts at c, was adopted.
     */
    method AdoptBlock(ghost x: Index, ghost n: seq<Hash>, ghost c: nat, ghost at: nat, ghost next: nat,
                      block: Header, pending: seq<Log>)
      returns (rest: seq<Log>)
      requires Covers(bodies, n) && c <= at < |n| && next == at + 1 && block.hash == n[at] && block.number == at
      requires canonical == x.marks + Span(n, c, at)
      requires txLookup == x.table + TxEntries(bodies, n, c, at)
      requires Stream(logEvents, pending) == x.logs + LineLogs(bodies, n, c, at, false)
      modifies `stored, `current, `canonical, `txLookup, `logEvents
      ensures canonical == x.marks + Span(n, c, next)
      ensures txLookup == x.table + TxEntries(bodies, n, c, next)
      ensures Stream(logEvents, rest) == x.logs + LineLogs(bodies, n, c, next, false)
      ensures old(logEvents) <= logEvents
    {
      assert next - 1 == at;
      LogsStep(x.logs, bodies, n, c, next, false);
      TableStep(x.table, bodies, n, c, next);
      SpanGrows(x.marks, n, c, at, next);
      var logs := CollectLogs(bodies[block.hash], false);
      logEvents, rest := Enqueue(logEvents, pending, logs);
      WriteHeadBlock(block);
    }

    /** Makes the blocks of the new branch canonical one by one, all but the new head. */
    method ApplyBranch(ghost n: seq<Hash>, ghost c: nat, ghost k: nat, newChain: seq<Header>)
      requires Covers(bodies, n) && Names(n, newChain) && c == |n| - |newChain| && k == Applied(n, newChain)
      modifies `stored, `current, `canonical, `txLookup, `logEvents
      ensures canonical == old(canonical) + Span(n, c, k)
      ensures txLookup == old(txLookup) + TxEntries(bodies, n, c, k)
      ensures old(logEvents) <= logEvents
      ensures Concat(logEvents) == Concat(old(logEvents)) + LineLogs(bodies, n, c, k, false)
    {
      var rebirthLogs: seq<Log> := [];
      ghost var x := Index(canonical, txLookup, Concat(logEvents));
      ghost var hi := c;
      var i := |newChain|;
      while i > 1
        invariant 0 <= i <= |newChain| && (|newChain| > 0 ==> i > 0) && hi == |n| - i
        invariant canonical == x.marks + Span(n, c, hi)
        invariant txLookup == x.table + TxEntries(bodies, n, c, hi)
        invariant Stream(logEvents, rebirthLogs) == x.logs + LineLogs(bodies, n, c, hi, false)
        invariant old(logEvents) <= logEvents
      {
        i := i - 1;
        ghost var next := hi + 1;
        rebirthLogs := AdoptBlock(x, n, c, hi, next, newChain[i], rebirthLogs);
        hi := next;
      }
      assert hi == k;
      logEvents := Flush(logEvents, rebirthLogs);
    }

    /** Deletes the stale lookup entries and the markers above number, in one batch. */
    method DeleteStale(number: nat, ghost k: nat, txs: seq<Hash>, ghost top: nat)
      requires Contiguous(canonical, top) && k == number + 1
      modifies `canonical, `txLookup
      ensures canonical == Below(old(canonical), k)
      ensures txLookup == old(txLookup) - Elements(txs)
    {
      var numbers: set<nat> := {};
      var i := number + 1;
      while i in canonical
        invariant number < i && (i <= top || i == number + 1)
        invariant numbers == set j: nat {:trigger j in canonical} | number < j < i
        decreases top - i
      {
        numbers := numbers + {i};
        i := i + 1;
      }
      txLookup := txLookup - Elements(txs);
      canonical := canonical - numbers;
    }

    /** The transactions of the new branch without its head, oldest block first. */
    method CollectRebirth(ghost n: seq<Hash>, ghost c: nat, ghost k: nat, newChain: seq<Header>)
      returns (txs: seq<Hash>)
      requires Covers(bodies, n) && Names(n, newChain) && c == |n| - |newChain| && k == Applied(n, newChain)
      ensures txs == LineTxs(bodies, n, c, k)
    {
      txs := [];
      ghost var hi := c;
      var i := |newChain|;
      while i > 1
        invariant 0 <= i <= |newChain| && (|newChain| > 0 ==> i > 0) && hi == |n| - i
                  && txs == LineTxs(bodies, n, c, hi)
      {
        i := i - 1;
        ghost var next := hi + 1;
        assert newChain[i].hash == n[hi] && next - 1 == hi;
        txs := txs + bodies[newChain[i].hash].txs;
        hi := next;
      }
      assert hi == k;
    }

    /** The dropped transactions that the new branch does not bring back. */
    method StaleTxs(ghost o: seq<Hash>, ghost n: seq<Hash>, ghost c: nat, ghost k: nat, oldChain: seq<Header>,
                    newChain: seq<Header>)
      returns (stale: seq<Hash>)
      requires Covers(bodies, o) && Covers(bodies, n) && Names(o, oldChain) && Names(n, newChain)
      requires c == |n| - |newChain| == |o| - |oldChain| && k == Applied(n, newChain)
      ensures forall tx :: tx in stale <==> tx in TxEntries(bodies, o, c, |o|) && tx !in TxEntries(bodies, n, c, k)
    {
      var deletedTxs := CollectTxs(o, c, oldChain);
      var rebirthTxs := CollectRebirth(n, c, k, newChain);
      stale := HashDifference(deletedTxs, rebirthTxs);
      forall tx ensures tx in rebirthTxs <==> tx in TxEntries(bodies, n, c, k) {
        LineTxsKeys(bodies, n, c, k, tx);
      }
    }

    /** Applies the new branch and deletes what only the old one explains. */
    method SwapBranch(ghost o: seq<Hash>, ghost n: seq<Hash>, ghost c: nat, ghost k: nat, newChain: seq<Header>,
                      common: Header, stale: seq<Hash>)
      requires Covers(bodies, o) && Covers(bodies, n) && TxUnique(bodies, o) && Names(n, newChain)
      requires 1 <= c == |n| - |newChain| && c <= |o| && o[..c] == n[..c] && common.number == c - 1
      requires k == Applied(n, newChain)
      requires canonical == Marks(o) && txLookup == TxIndex(bodies, o)
      requires forall tx :: tx in stale <==> tx in TxEntries(bodies, o, c, |o|) && tx !in TxEntries(bodies, n, c, k)
      modifies `stored, `current, `canonical, `txLookup, `logEvents
      ensures canonical == Marks(n[..k])
      ensures txLookup == TxIndex(bodies, n[..k])
      ensures old(logEvents) <= logEvents
      ensures Concat(logEvents) == Concat(old(logEvents)) + LineLogs(bodies, n, c, k, false)
    {
      ApplyBranch(n, c, k, newChain);
      var number := if |newChain| > 1 then newChain[1].number else common.number;
      assert number + 1 == k;
      ReorgedTxIndex(bodies, o, n, c, k, txLookup, Elements(stale));
      ghost var top := if |o| > k then |o| else k;
      MarksReorged(o, n, c, k, top);
      DeleteStale(number, k, stale, top);
    }

    /** The locked part of a reorganisation: swaps one branch for the other in the index. */
    method Rewire(ghost o: seq<Hash>, ghost n: seq<Hash>, ghost c: nat, ghost k: nat,
                  oldChain: seq<Header>, newChain: seq<Header>, common: Header)
      requires Covers(bodies, o) && Covers(bodies, n) && TxUnique(bodies, o) && Names(o, oldChain) && Names(n, newChain)
      requires 1 <= c == |n| - |newChain| == |o| - |oldChain| && o[..c] == n[..c] && common.number == c - 1
      requires k == Applied(n, newChain)
      requires canonical == Marks(o) && txLookup == TxIndex(bodies, o) && !txLookupLocked
      modifies `stored, `current, `canonical, `txLookup, `txLookupCache, `txLookupLocked, `removedLogEvents, `logEvents
      ensures canonical == Marks(n[..k])
      ensures txLookup == TxIndex(bodies, n[..k])
      ensures txLookupCache == map[] && !txLookupLocked
      ensures old(removedLogEvents) <= removedLogEvents && old(logEvents) <= logEvents
      ensures Concat(removedLogEvents) == Concat(old(removedLogEvents)) + LineLogs(bodies, o, c, |o|, true)
      ensures Concat(logEvents) == Concat(old(logEvents)) + LineLogs(bodies, n, c, k, false)
    {
      txLookupLocked := true;
      EmitRemovedLogs(o, c, oldChain);
      var stale := StaleTxs(o, n, c, k, oldChain, newChain);
      SwapBranch(o, n, c, k, newChain, common, stale);
      txLookupCache := map[];
      txLookupLocked := false;
    }

    /**
     Moves the index from the line of oldHead to the line of newHead, all but newHead itself.
     It fails, and then changes nothing, exactly when newHead has no complete ancestry.
     */
    method Reorg(oldHead: Header, newHead: Header) returns (err: ReorgError)
      requires IndexedTo(oldHead.hash) && headers[oldHead.hash] == oldHead && Candidate(newHead)
      modifies `stored, `current, `canonical, `txLookup, `txLookupCache, `txLookupLocked,
               `removedLogEvents, `logEvents
      ensures err.NoError? <==> Rooted(headers, genesis, newHead.hash)
      ensures !err.NoError? ==> unchanged(this)
      ensures err.NoError? ==> Indexes(LineTo(newHead.hash)[..Base(LineTo(oldHead.hash), LineTo(newHead.hash))])
      ensures err.NoError? ==> LogsMoved(bodies, LineTo(oldHead.hash), LineTo(newHead.hash),
                                         old(removedLogEvents), removedLogEvents, old(logEvents), logEvents)
    {
      var oldChain, newChain, common;
      err, oldChain, newChain, common := FindFork(headers, genesis, oldHead, newHead);
      if !err.NoError? {
        return;
      }
      ghost var o, n := LineTo(oldHead.hash), LineTo(newHead.hash);
      ghost var k := Base(o, n);
      Rewire(o, n, Shared(o, n), k, oldChain, newChain, common);
      PrefixKeepsUnique(bodies, n, k);
    }

    /** Answers a lookup from the cache, else from the database, filling the cache. Needs the read lock. */
    method GetCanonicalTransaction(tx: Hash) returns (r: Option<TxLocation>)
      requires !txLookupLocked && CacheAgrees(txLookupCache, txLookup, canonical, bodies)
      modifies `txLookupCache
      ensures r == ReadTx(txLookup, canonical, bodies, tx)
      ensures CacheAgrees(txLookupCache, txLookup, canonical, bodies)
    {
      if tx in txLookupCache {
        return Some(txLookupCache[tx]);
      }
      r := ReadTx(txLookup, canonical, bodies, tx);
      if r.Some? {
        txLookupCache := txLookupCache[tx := r.value];
      }
    }

    /** Lookups by other goroutines, in any number, while the lock is free. */
    method Lookups(queries: seq<Hash>)
      requires !txLookupLocked && CacheAgrees(txLookupCache, txLookup, canonical, bodies)
      modifies `txLookupCache
      ensures CacheAgrees(txLookupCache, txLookup, canonical, bodies)
    {
      for i := 0 to |queries|
        invariant CacheAgrees(txLookupCache, txLookup, canonical, bodies)
      {
        var _ := GetCanonicalTransaction(queries[i]);
      }
    }

    /** Puts the head on top of an index that lacks at most the head; lookups may run before. */
    method CompleteHead(ghost n: seq<Hash>, ghost k: nat, block: Header, queries: seq<Hash>)
      requires |n| == block.number + 1 && block.number <= k <= |n| && block.hash == n[block.number]
      requires Covers(bodies, n) && TxUnique(bodies, n) && Indexes(n[..k])
      modifies `stored, `current, `canonical, `txLookup, `txLookupCache
      ensures HeadIs(block) && Indexes(n)
    {
      Lookups(queries);
      IndexHead(bodies, n, k, block.number, txLookupCache);
      WriteHeadBlock(block);
    }

    /** Brings the index to the line of a block, up to that block, unless it extends the head. */
    method Connect(block: Header) returns (e: ReorgError)
      requires Valid() && Candidate(block)
      modifies `stored, `current, `canonical, `txLookup, `txLookupCache, `txLookupLocked, `removedLogEvents, `logEvents
      ensures e.NoError? <==> Rooted(headers, genesis, block.hash)
      ensures !e.NoError? ==> unchanged(this)
      ensures e.NoError? ==> Indexes(LineTo(block.hash)[..Base(old(LineTo(current.block.hash)), LineTo(block.hash))])
      ensures e.NoError? ==> LogsMoved(bodies, old(LineTo(current.block.hash)), LineTo(block.hash),
                                       old(removedLogEvents), removedLogEvents, old(logEvents), logEvents)
    {
      e := NoError;
      if block.parent != current.block.hash {
        e := Reorg(current.block, block);
      } else {
        ghost var o := LineTo(current.block.hash);
        DirectChild(headers, genesis, current.block.hash, block);
        ChildLogs(bodies, o, block.hash, removedLogEvents, logEvents);
      }
    }

    /**
     Makes a stored block the head, reorganising first when it does not extend the head.
     Lookups may run between the two steps, where the lookup lock is free.
     */
    method WriteKnownBlock(block: Header, queries: seq<Hash>) returns (err: WriteError)
      requires Valid() && Candidate(block)
      modifies `stored, `current, `canonical, `txLookup, `txLookupCache, `txLookupLocked, `removedLogEvents, `logEvents
      ensures Valid()
      ensures err.Ok? <==> Rooted(headers, genesis, block.hash)
      ensures !err.Ok? ==> err.ReorgFailed? && unchanged(this)
      ensures err.Ok? ==> current.block == block
      ensures err.Ok? ==> LogsMoved(bodies, LineTo(old(current.block.hash)), LineTo(block.hash),
                                    old(removedLogEvents), removedLogEvents, old(logEvents), logEvents)
    {
      ghost var o := LineTo(current.block.hash);
      var e := Connect(block);
      if !e.NoError? {
        return ReorgFailed(e);
      }
      ghost var n := LineTo(block.hash);
      CompleteHead(n, Base(o, n), block, queries);
      return Ok;
    }

    /** Announces the logs of the new head itself, unless there are none. */
    method AnnounceHead(logs: seq<Log>)
      modifies `logEvents
      ensures old(logEvents) <= logEvents && Concat(logEvents) == Concat(old(logEvents)) + logs
    {
      logEvents := Flush(logEvents, logs);
    }

    /** Makes a stored block the head and announces its logs after those of its branch. */
    method InstallHead(head: Header, logs: seq<Log>, queries: seq<Hash>) returns (err: WriteError)
      requires Valid() && Candidate(head) && logs == BlockLogs(bodies[head.hash], false)
      modifies `stored, `current, `canonical, `txLookup, `txLookupCache, `txLookupLocked, `removedLogEvents, `logEvents
      ensures Valid()
      ensures err.Ok? <==> Rooted(headers, genesis, head.hash)
      ensures !err.Ok? ==> err.ReorgFailed? && unchanged(this)
      ensures err.Ok? ==> current.block == head
      ensures err.Ok? ==> HeadLogs(bodies, LineTo(old(current.block.hash)), LineTo(head.hash),
                                   old(removedLogEvents), removedLogEvents, old(logEvents), logEvents)
    {
      err := WriteKnownBlock(head, queries);
      if err.Ok? {
        ghost var o, n, sent := LineTo(old(current.block.hash)), LineTo(head.hash), logEvents;
        AnnounceHead(logs);
        HeadLogsFrom(bodies, o, n, old(removedLogEvents), removedLogEvents, old(logEvents), sent, logEvents);
      }
    }

    /**
     Sets the head to a stored block. If its state is missing and cannot be recovered
     (stateReady is false) nothing happens.
     */
    method SetCanonical(head: Header, stateReady: bool, queries: seq<Hash>) returns (err: WriteError)
      requires Valid() && Candidate(head)
      modifies `stored, `current, `canonical, `txLookup, `txLookupCache, `txLookupLocked, `removedLogEvents, `logEvents
      ensures Valid()
      ensures err.Ok? <==> stateReady && Rooted(headers, genesis, head.hash)
      ensures !err.Ok? ==> unchanged(this)
      ensures err.Ok? ==> current.block == head
      ensures err.Ok? ==> HeadLogs(bodies, LineTo(old(current.block.hash)), LineTo(head.hash),
                                   old(removedLogEvents), removedLogEvents, old(logEvents), logEvents)
    {
      if !stateReady {
        return StateMissing;
      }
      var logs := CollectLogs(bodies[head.hash], false);
      err := InstallHead(head, logs, queries);
    }

    /** Writes a block and its receipts; the batch is atomic and touches no marker. */
    method StoreBlock(block: Header, body: Body)
      requires Valid() && Fits(headers, bodies, block, body)
      modifies `headers, `bodies
      ensures Valid()
      ensures headers == old(headers)[block.hash := block] && bodies == old(bodies)[block.hash := body]
    {
      ghost var s, b := headers, bodies;
      headers := headers[block.hash := block];
      bodies := bodies[block.hash := body];
      StoreGrows(s, headers, b, bodies, genesis, current.block.hash, txLookupCache, block, body);
    }

    /** Stores a block whose parent is known; it is then eligible as head. */
    method StoreEligible(block: Header, body: Body)
      requires Valid() && Fits(headers, bodies, block, body) && Parent(headers, block).Some?
      requires FreshTxs(headers, bodies, genesis, block, body)
      modifies `headers, `bodies
      ensures Valid() && Candidate(block)
      ensures headers == old(headers)[block.hash := block] && bodies == old(bodies)[block.hash := body]
      ensures Rooted(headers, genesis, block.hash) <==> old(Rooted(headers, genesis, block.parent))
      ensures LineTo(current.block.hash) == old(LineTo(current.block.hash))
    {
      ghost var s, b := headers, bodies;
      StoreBlock(block, body);
      LineGrows(s, headers, genesis, current.block.hash);
      StoredCandidate(s, headers, b, bodies, genesis, block, body);
    }

    /** Executes on top of a known parent: stores the block and makes it the head. */
    method WriteBlockAndSetHead(block: Header, body: Body, logs: seq<Log>, queries: seq<Hash>) returns (err: WriteError)
      requires Valid() && Fits(headers, bodies, block, body) && logs == BlockLogs(body, false)
      requires FreshTxs(headers, bodies, genesis, block, body)
      modifies this
      ensures Valid()
      ensures err == UnknownAncestor <==> old(Parent(headers, block).None?)
      ensures err == UnknownAncestor ==> unchanged(this)
      ensures err != UnknownAncestor ==>
                headers == old(headers)[block.hash := block] && bodies == old(bodies)[block.hash := body]
      ensures current.block == if err.Ok? then block else old(current.block)
      ensures err.Ok? <==> old(Rooted(headers, genesis, block.parent) && Parent(headers, block).Some?)
      ensures err.Ok? ==> HeadLogs(bodies, old(LineTo(current.block.hash)), LineTo(block.hash),
                                   old(removedLogEvents), removedLogEvents, old(logEvents), logEvents)
    {
      if Parent(headers, block).None? {
        return UnknownAncestor;
      }
      StoreEligible(block, body);
      err := InstallHead(block, logs, queries);
    }

    ghost function Shot(): Snapshot
      reads `headers, `bodies, `current
    {
      Snapshot(headers, bodies, current.block)
    }

    method Apply(op: Op, queries: seq<Hash>)
      requires Valid() && OpOk(genesis, Shot(), op)
      modifies this
      ensures Valid() && Shot() == AfterOp(genesis, old(Shot()), op)
    {
      var err;
      match op
      case Import(block, body) =>
        var logs := CollectLogs(body, false);
        err := WriteBlockAndSetHead(block, body, logs, queries);
      case Choose(head, stateReady) =>
        err := SetCanonical(head, stateReady, queries);
      case Reuse(block) =>
        err := WriteKnownBlock(block, queries);
    }

    /**
     Any run of imports, head changes and reused blocks, with lookups in between: the markers,
     the lookup table and the cache always describe exactly the line of the block that became
     head last.
     */
    method Run(ops: seq<Op>, queries: seq<seq<Hash>>)
      requires Valid() && RunOk(genesis, Shot(), ops) && |queries| == |ops|
      modifies this
      ensures Valid() && Shot() == AfterRun(genesis, old(Shot()), ops)
    {
      for i := 0 to |ops|
        invariant Valid() && Shot() == AfterRun(genesis, old(Shot()), ops[..i])
      {
        assert ops[..i + 1][..i] == ops[..i];
        Apply(ops[i], queries[i]);
      }
      assert ops[..|ops|] == ops;
    }
  }

  /** Where the line of the new head ends once its branch, without the head, is applied. */
  function Applied(n: seq<Hash>, newChain: seq<Header>): int {
    if |newChain| == 0 then |n| else |n| - 1
  }

  /** How much of n the index covers after a reorganisation: the new head, unless old, is left out. */
  ghost function Base(o: seq<Hash>, n: seq<Hash>): (k: nat)
    ensures Shared(o, n) <= k <= |n|
  {
    if Shared(o, n) == |n| then |n| else |n| - 1
  }

  /** Exactly the logs of the old branch were withdrawn and those of the new one, up to its head, announced. */
  ghost predicate LogsMoved(b: Bodies, o: seq<Hash>, n: seq<Hash>,
                            removed: seq<seq<Log>>, removed': seq<seq<Log>>, added: seq<seq<Log>>,
                            added': seq<seq<Log>>)
    requires Covers(b, o) && Covers(b, n)
  {
    var c := Shared(o, n);
    && removed <= removed' && added <= added'
    && Concat(removed') == Concat(removed) + LineLogs(b, o, c, |o|, true)
    && Concat(added') == Concat(added) + LineLogs(b, n, c, Base(o, n), false)
  }

  lemma PrefixKeepsUnique(b: Bodies, n: seq<Hash>, k: nat)
    requires Covers(b, n) && TxUnique(b, n) && k <= |n|
    ensures Covers(b, n[..k]) && TxUnique(b, n[..k])
  {
  }

  lemma MarksReorged(o: seq<Hash>, n: seq<Hash>, c: nat, k: nat, top: nat)
    requires c <= k <= |n| && c <= |o| && o[..c] == n[..c] && top == if |o| > k then |o| else k
    ensures Contiguous(Marks(o) + Span(n, c, k), top)
    ensures Below(Marks(o) + Span(n, c, k), k) == Marks(n[..k])
  {
    assert forall i | 0 <= i < c :: o[..c][i] == o[i] && n[..c][i] == n[i];
    MarksBelow(o, n, c, k, Marks(o) + Span(n, c, k));
  }

  /** Up to k the overwritten markers are those of the new line. */
  lemma MarksBelow(o: seq<Hash>, n: seq<Hash>, c: nat, k: nat, m: map<nat, Hash>)
    requires c <= k <= |n| && c <= |o| && m == Marks(o) + Span(n, c, k) && forall i | 0 <= i < c :: o[i] == n[i]
    ensures Below(m, k) == Marks(n[..k])
  {
    var l := n[..k];
    forall i: nat | i < k ensures i in m && m[i] == l[i] {
      assert l[i] == n[i];
    }
  }

  /** Extending the head by one block withdraws no log and leaves the announcing to the caller. */
  lemma ChildLogs(b: Bodies, o: seq<Hash>, h: Hash, removed: seq<seq<Log>>, added: seq<seq<Log>>)
    requires Covers(b, o) && h in b
    ensures (o + [h])[..Base(o, o + [h])] == o
    ensures LogsMoved(b, o, o + [h], removed, removed, added, added)
  {
    SharedIsUnique(o, o + [h], |o|);
    assert Concat(added) + [] == Concat(added);
    assert Concat(removed) + [] == Concat(removed);
  }

  /** Writing the top block of a line over an index that lacks at most that block completes it. */
  lemma IndexHead(b: Bodies, n: seq<Hash>, k: nat, top: nat, cache: map<Hash, TxLocation>)
    requires |n| == top + 1 && Covers(b, n) && TxUnique(b, n) && top <= k <= |n|
    requires CacheAgrees(cache, TxIndex(b, n[..k]), Marks(n[..k]), b)
    ensures Marks(n[..k])[top := n[top]] == Marks(n)
    ensures TxIndex(b, n[..k]) + BlockEntries(b[n[top]], top) == TxIndex(b, n)
    ensures CacheAgrees(cache, TxIndex(b, n), Marks(n), b)
  {
    if k == |n| {
      assert n[..k] == n;
      HeadAgain(b, n, top, |n|);
    } else {
      assert n[..k] + [n[top]] == n;
      CacheSurvives(cache, b, n[..k], n[top]);
      MarksExtend(n[..k], n[top]);
    }
  }

  /** Writing the top block once more changes nothing. */
  lemma HeadAgain(b: Bodies, n: seq<Hash>, top: nat, hi: nat)
    requires hi == |n| == top + 1 && Covers(b, n)
    ensures Marks(n)[top := n[top]] == Marks(n)
    ensures TxIndex(b, n) + BlockEntries(b[n[top]], top) == TxIndex(b, n)
  {
    assert hi - 1 == top && TxIndex(b, n) == TxEntries(b, n, 0, top) + BlockEntries(b[n[top]], top);
  }

  /**
   A head off the old line: the withdrawn logs are the old branch, the announced ones the
   whole new branch, both oldest first. A head on the old line is announced once more.
   */
  ghost predicate HeadLogs(b: Bodies, o: seq<Hash>, n: seq<Hash>,
                           removed: seq<seq<Log>>, removed': seq<seq<Log>>, added: seq<seq<Log>>, added': seq<seq<Log>>)
  {
    && Covers(b, o) && Covers(b, n) && |n| > 0
    && removed <= removed' && added <= added' && Withdrawn(removed, removed')
    && var c := Shared(o, n);
    && Concat(removed') == Concat(removed) + LineLogs(b, o, c, |o|, true)
    && Concat(added') == Concat(added) +
                         if c < |n| then LineLogs(b, n, c, |n|, false) else BlockLogs(b[n[|n| - 1]], false)
  }

  lemma HeadLogsFrom(b: Bodies, o: seq<Hash>, n: seq<Hash>, removed: seq<seq<Log>>, removed': seq<seq<Log>>,
                     added: seq<seq<Log>>, sent: seq<seq<Log>>, added': seq<seq<Log>>)
    requires Covers(b, o) && Covers(b, n) && |n| > 0
    requires LogsMoved(b, o, n, removed, removed', added, sent)
    requires sent <= added' && Concat(added') == Concat(sent) + BlockLogs(b[n[|n| - 1]], false)
    ensures HeadLogs(b, o, n, removed, removed', added, added')
  {
    var c := Shared(o, n);
    BranchIsWithdrawn(b, o, c, |o|, removed, removed');
    if c < |n| {
      LogsStep(Concat(added), b, n, c, |n|, false);
    } else {
      assert Concat(added) + [] == Concat(added);
    }
  }

  /** A block that can be added to a store of verified blocks with collision-free hashes. */
  ghost predicate Fits(s: Store, b: Bodies, block: Header, body: Body) {
    && block.hash != ZERO_HASH && block.parent != block.hash
    && (block.hash in s ==> s[block.hash] == block) && (block.hash in b ==> b[block.hash] == body)
    && (block.parent in s ==> block.number == s[block.parent].number + 1)
    && (forall h | h in s && s[h].parent == block.hash :: s[h].number == block.number + 1)
  }

  /** The block repeats no transaction of the line it extends, nor does that line repeat its own. */
  ghost predicate FreshTxs(s: Store, b: Bodies, g: Hash, block: Header, body: Body) {
    Rooted(s, g, block.parent) ==>
      var line := Line(s, g, block.parent);
      && Covers(b, line) && TxUnique(b, line)
      && forall n, tx | 0 <= n < |line| && tx in b[line[n]].txs :: tx !in body.txs
  }

  lemma StoredCandidate(s: Store, s': Store, b: Bodies, b': Bodies, g: Hash, block: Header, body: Body)
    requires Keyed(s') && Numbered(s') && s' == s[block.hash := block] && b' == b[block.hash := body]
    requires Fits(s, b, block, body) && FreshTxs(s, b, g, block, body) && Parent(s, block).Some?
    ensures Rooted(s', g, block.hash) <==> Rooted(s, g, block.parent)
    ensures Rooted(s', g, block.hash) ==> Covers(b', Line(s', g, block.hash)) && TxUnique(b', Line(s', g, block.hash))
  {
    if Rooted(s, g, block.parent) {
      LineGrows(s, s', g, block.parent);
    } else {
      StaysUnrooted(s, s', g, block, block.parent);
    }
  }

  /** Storing a block gives no line to headers that do not descend from it. */
  lemma {:induction false} StaysUnrooted(s: Store, s': Store, g: Hash, block: Header, h: Hash)
    requires Keyed(s') && s' == s[block.hash := block] && (block.hash in s ==> s[block.hash] == block)
    requires h in s && s[h].number < block.number
    requires !Rooted(s, g, h)
    ensures !Rooted(s', g, h)
    decreases s[h].number
  {
    assert s'[h] == s[h];
    if s[h].number > 0 && s[h].parent in s && s[s[h].parent].number == s[h].number - 1 {
      StaysUnrooted(s, s', g, block, s[h].parent);
    }
  }

  /** The database answers a lookup exactly for the transactions of the canonical line. */
  lemma LookupIsExact(b: Bodies, line: seq<Hash>, tx: Hash, n: nat)
    requires Covers(b, line) && TxUnique(b, line)
    ensures (n < |line| && tx in b[line[n]].txs) <==>
            (var r := ReadTx(TxIndex(b, line), Marks(line), b, tx);
             && r.Some? && r.value.blockIndex == n && n < |line| && r.value.blockHash == line[n]
             && r.value.index < |b[line[n]].txs| && b[line[n]].txs[r.value.index] == tx)
  {
    TxIndexIsExact(b, line, tx, n);
    if n < |line| {
      FindTxFinds(b[line[n]].txs, tx);
    }
  }

  lemma {:induction false} FindTxFinds(txs: seq<Hash>, tx: Hash)
    ensures FindTx(txs, tx).Some? <==> tx in txs
    ensures FindTx(txs, tx).Some? ==> FindTx(txs, tx).value < |txs| && txs[FindTx(txs, tx).value] == tx
  {
    if txs != [] {
      FindTxFinds(txs[1..], tx);
    }
  }

  /** Storing a block leaves the lines, tables and cached answers of the stored ones alone. */
  lemma StoreGrows(s: Store, s': Store, b: Bodies, b': Bodies, g: Hash, h: Hash, cache: map<Hash, TxLocation>,
                   block: Header, body: Body)
    requires Keyed(s) && Numbered(s) && Rooted(s, g, h) && Fits(s, b, block, body)
    requires s' == s[block.hash := block] && b' == b[block.hash := body]
    requires Covers(b, Line(s, g, h)) && TxUnique(b, Line(s, g, h))
    requires CacheAgrees(cache, TxIndex(b, Line(s, g, h)), Marks(Line(s, g, h)), b)
    ensures Keyed(s') && Numbered(s') && Rooted(s', g, h) && Line(s', g, h) == Line(s, g, h)
    ensures Covers(b', Line(s, g, h)) && TxUnique(b', Line(s, g, h))
    ensures TxIndex(b', Line(s, g, h)) == TxIndex(b, Line(s, g, h))
    ensures CacheAgrees(cache, TxIndex(b, Line(s, g, h)), Marks(Line(s, g, h)), b')
  {
    StoredIsVerified(s, s', b, block, body);
    LineGrows(s, s', g, h);
    BodiesGrow(b, b', Line(s, g, h), cache);
  }

  lemma StoredIsVerified(s: Store, s': Store, b: Bodies, block: Header, body: Body)
    requires Keyed(s) && Numbered(s) && Fits(s, b, block, body) && s' == s[block.hash := block]
    ensures Keyed(s') && Numbered(s')
  {
  }

  lemma BodiesGrow(b: Bodies, b': Bodies, line: seq<Hash>, cache: map<Hash, TxLocation>)
    requires Covers(b, line) && TxUnique(b, line) && forall h | h in b :: h in b' && b'[h] == b[h]
    requires CacheAgrees(cache, TxIndex(b, line), Marks(line), b)
    ensures Covers(b', line) && TxUnique(b', line) && TxIndex(b', line) == TxIndex(b, line)
    ensures CacheAgrees(cache, TxIndex(b, line), Marks(line), b')
  {
    TxEntriesFrame(b, b', line, 0, |line|);
    CacheFrame(cache, TxIndex(b, line), Marks(line), b, b');
  }

  lemma CacheFrame(cache: map<Hash, TxLocation>, table: map<Hash, nat>, marks: map<nat, Hash>, b: Bodies, b': Bodies)
    requires CacheAgrees(cache, table, marks, b)
    requires forall h | h in b :: h in b' && b'[h] == b[h]
    ensures CacheAgrees(cache, table, marks, b')
  {
  }
}
