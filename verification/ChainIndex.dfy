/**
 What the database keeps per canonical block besides its marker: transaction lookup
 entries and logs, described over a line of block hashes.
 */
module ChainIndex {
  import opened Chain

  datatype Log = Log(data: int, removed: bool)

  datatype Body = Body(txs: seq<Hash>, receipts: seq<seq<Log>>)

  type Bodies = map<Hash, Body>

  ghost predicate Covers(b: Bodies, line: seq<Hash>) {
    forall n | 0 <= n < |line| :: line[n] in b
  }

  /** The lookup entries written for one block. */
  function Entries(txs: seq<Hash>, number: nat): (m: map<Hash, nat>)
    ensures forall tx :: tx in m <==> tx in txs
    ensures forall tx | tx in m :: m[tx] == number
  {
    if txs == [] then map[] else Entries(txs[..|txs| - 1], number)[txs[|txs| - 1] := number]
  }

  function BlockEntries(body: Body, number: nat): map<Hash, nat> {
    Entries(body.txs, number)
  }

  /** The lookup entries left by writing the blocks line[lo..hi] in chain order. */
  ghost function TxEntries(b: Bodies, line: seq<Hash>, lo: nat, hi: nat): map<Hash, nat>
    requires lo <= hi <= |line| && Covers(b, line)
  {
    if lo == hi then map[]
    else TxEntries(b, line, lo, hi - 1) + BlockEntries(b[line[hi - 1]], hi - 1)
  }

  ghost function TxIndex(b: Bodies, line: seq<Hash>): map<Hash, nat>
    requires Covers(b, line)
  {
    TxEntries(b, line, 0, |line|)
  }

  /** No transaction occurs in two blocks of the line. */
  ghost predicate TxUnique(b: Bodies, line: seq<Hash>)
    requires Covers(b, line)
  {
    forall n, m, tx | 0 <= n < m < |line| && tx in b[line[n]].txs :: tx !in b[line[m]].txs
  }

  lemma {:induction false} TxEntriesKeys(b: Bodies, line: seq<Hash>, lo: nat, hi: nat, tx: Hash)
    requires lo <= hi <= |line| && Covers(b, line)
    ensures tx in TxEntries(b, line, lo, hi) <==> exists n :: lo <= n < hi && tx in b[line[n]].txs
    ensures tx in TxEntries(b, line, lo, hi) ==>
              var n := TxEntries(b, line, lo, hi)[tx];
              lo <= n < hi && tx in b[line[n]].txs
    decreases hi - lo
  {
    if lo < hi {
      TxEntriesKeys(b, line, lo, hi - 1, tx);
    }
  }

  /** The transactions of the blocks line[lo..hi], in chain order. */
  ghost function LineTxs(b: Bodies, line: seq<Hash>, lo: nat, hi: nat): seq<Hash>
    requires lo <= hi <= |line| && Covers(b, line)
  {
    if lo == hi then [] else LineTxs(b, line, lo, hi - 1) + b[line[hi - 1]].txs
  }

  lemma {:induction false} LineTxsSplit(b: Bodies, line: seq<Hash>, lo: nat, mid: nat, hi: nat)
    requires lo <= mid <= hi <= |line| && Covers(b, line)
    ensures LineTxs(b, line, lo, hi) == LineTxs(b, line, lo, mid) + LineTxs(b, line, mid, hi)
    decreases hi - mid
  {
    if mid < hi {
      LineTxsSplit(b, line, lo, mid, hi - 1);
    }
  }

  lemma {:induction false} LineTxsKeys(b: Bodies, line: seq<Hash>, lo: nat, hi: nat, tx: Hash)
    requires lo <= hi <= |line| && Covers(b, line)
    ensures tx in LineTxs(b, line, lo, hi) <==> tx in TxEntries(b, line, lo, hi)
    decreases hi - lo
  {
    if lo < hi {
      LineTxsKeys(b, line, lo, hi - 1, tx);
    }
  }

  /** On a line without repeated transactions the entries are exactly the pairs (tx, its block). */
  lemma TxIndexIsExact(b: Bodies, line: seq<Hash>, tx: Hash, n: nat)
    requires Covers(b, line) && TxUnique(b, line)
    ensures (tx in TxIndex(b, line) && TxIndex(b, line)[tx] == n) <==> (n < |line| && tx in b[line[n]].txs)
  {
    TxEntriesKeys(b, line, 0, |line|, tx);
  }

  lemma {:induction false} TxEntriesSplit(b: Bodies, line: seq<Hash>, lo: nat, mid: nat, hi: nat)
    requires lo <= mid <= hi <= |line| && Covers(b, line)
    ensures TxEntries(b, line, lo, hi) == TxEntries(b, line, lo, mid) + TxEntries(b, line, mid, hi)
    decreases hi - mid
  {
    if mid < hi {
      TxEntriesSplit(b, line, lo, mid, hi - 1);
      MergeAssociates(TxEntries(b, line, lo, mid), TxEntries(b, line, mid, hi - 1),
                      BlockEntries(b[line[hi - 1]], hi - 1));
    }
  }

  lemma MergeAssociates(x: map<Hash, nat>, y: map<Hash, nat>, z: map<Hash, nat>)
    ensures (x + y) + z == x + (y + z)
  {
  }

  /** Replacing an overlay whose keys the base does not have. */
  lemma SwapOverlay(base: map<Hash, nat>, out: map<Hash, nat>, into: map<Hash, nat>)
    requires base.Keys !! out.Keys
    ensures (base + out) + into - (out.Keys - into.Keys) == base + into
  {
  }

  /** Entries depend only on the stretch of the line they cover. */
  lemma {:induction false} TxEntriesLocal(b: Bodies, line: seq<Hash>, other: seq<Hash>, lo: nat, hi: nat)
    requires lo <= hi <= |line| && hi <= |other| && Covers(b, line) && Covers(b, other)
    requires forall n | lo <= n < hi :: line[n] == other[n]
    ensures TxEntries(b, line, lo, hi) == TxEntries(b, other, lo, hi)
    decreases hi - lo
  {
    if lo < hi {
      TxEntriesLocal(b, line, other, lo, hi - 1);
    }
  }

  /** The lookup table never depends on blocks stored off the line. */
  lemma {:induction false} TxEntriesFrame(b: Bodies, c: Bodies, line: seq<Hash>, lo: nat, hi: nat)
    requires lo <= hi <= |line| && Covers(b, line)
    requires forall h | h in b :: h in c && c[h] == b[h]
    ensures Covers(c, line) && TxEntries(c, line, lo, hi) == TxEntries(b, line, lo, hi)
    decreases hi - lo
  {
    if lo < hi {
      TxEntriesFrame(b, c, line, lo, hi - 1);
    }
  }

  /**
   The edit a reorganisation makes to the lookup table: write the entries of the new
   branch up to k over the old table, then drop the transactions of the old branch that
   the new branch did not bring back. The result is exactly the table of the new line.
   */
  lemma ReorgedTxIndex(b: Bodies, old_: seq<Hash>, new_: seq<Hash>, c: nat, k: nat, table: map<Hash, nat>,
                       dropped: set<Hash>)
    requires Covers(b, old_) && Covers(b, new_) && TxUnique(b, old_)
    requires c <= k <= |new_| && c <= |old_| && old_[..c] == new_[..c]
    requires table == TxIndex(b, old_) + TxEntries(b, new_, c, k)
    requires dropped == TxEntries(b, old_, c, |old_|).Keys - TxEntries(b, new_, c, k).Keys
    ensures table - dropped == TxIndex(b, new_[..k])
  {
    TxEntriesSplit(b, old_, 0, c, |old_|);
    TxEntriesSplit(b, new_, 0, c, k);
    assert forall n | 0 <= n < c :: old_[..c][n] == old_[n] && new_[..c][n] == new_[n];
    TxEntriesLocal(b, old_, new_, 0, c);
    TxEntriesLocal(b, new_[..k], new_, 0, k);
    var base, out := TxEntries(b, old_, 0, c), TxEntries(b, old_, c, |old_|);
    forall tx | tx in base ensures tx !in out {
      TxEntriesKeys(b, old_, 0, c, tx);
      TxEntriesKeys(b, old_, c, |old_|, tx);
    }
    SwapOverlay(base, out, TxEntries(b, new_, c, k));
  }

  /** The same logs in the same order; being withdrawn sets their flag, being announced leaves it alone. */
  ghost predicate SameLogs(logs: seq<Log>, flagged: seq<Log>, removed: bool) {
    && |flagged| == |logs|
    && (forall i | 0 <= i < |logs| ::
          flagged[i].data == logs[i].data && flagged[i].removed == (removed || logs[i].removed))
  }

  /** All logs of a block in receipt order, flagged when they are being withdrawn. */
  ghost function Flagged(logs: seq<Log>, removed: bool): (flagged: seq<Log>)
    ensures SameLogs(logs, flagged, removed)
  {
    if logs == [] then []
    else
      var last := logs[|logs| - 1];
      Flagged(logs[..|logs| - 1], removed) + [if removed then last.(removed := true) else last]
  }

  ghost function Concat(parts: seq<seq<Log>>): seq<Log> {
    if parts == [] then [] else Concat(parts[..|parts| - 1]) + parts[|parts| - 1]
  }

  ghost function BlockLogs(body: Body, removed: bool): seq<Log> {
    Flagged(Concat(body.receipts), removed)
  }

  /** The logs of the blocks line[lo..hi], oldest block first. */
  ghost function LineLogs(b: Bodies, line: seq<Hash>, lo: nat, hi: nat, removed: bool): seq<Log>
    requires lo <= hi <= |line| && Covers(b, line)
  {
    if lo == hi then [] else LineLogs(b, line, lo, hi - 1, removed) + BlockLogs(b[line[hi - 1]], removed)
  }

  /** The logs of a stretch of the line are those of its lower part followed by those of its upper part. */
  lemma {:induction false} LineLogsSplit(b: Bodies, line: seq<Hash>, lo: nat, mid: nat, hi: nat, removed: bool)
    requires lo <= mid <= hi <= |line| && Covers(b, line)
    ensures LineLogs(b, line, lo, hi, removed) ==
            LineLogs(b, line, lo, mid, removed) + LineLogs(b, line, mid, hi, removed)
    decreases hi - mid
  {
    if mid < hi {
      var top := hi - 1;
      LineLogsSplit(b, line, lo, mid, top, removed);
      Associates(LineLogs(b, line, lo, mid, removed), LineLogs(b, line, mid, top, removed),
                 BlockLogs(b[line[top]], removed));
    }
  }

  lemma Associates(x: seq<Log>, y: seq<Log>, z: seq<Log>)
    ensures (x + y) + z == x + (y + z)
  {
  }

  /** Withdrawn logs are the announced ones, each with its flag set. */
  lemma {:induction false} WithdrawnAreFlagged(b: Bodies, line: seq<Hash>, lo: nat, hi: nat)
    requires lo <= hi <= |line| && Covers(b, line)
    ensures SameLogs(LineLogs(b, line, lo, hi, false), LineLogs(b, line, lo, hi, true), true)
    decreases hi - lo
  {
    if lo < hi {
      var top := hi - 1;
      var body := b[line[top]];
      WithdrawnAreFlagged(b, line, lo, top);
      BlockIsFlagged(body);
      SameLogsConcat(LineLogs(b, line, lo, top, false), LineLogs(b, line, lo, top, true),
                     BlockLogs(body, false), BlockLogs(body, true));
    }
  }

  lemma BlockIsFlagged(body: Body)
    ensures SameLogs(BlockLogs(body, false), BlockLogs(body, true), true)
  {
  }

  lemma SameLogsConcat(x: seq<Log>, x': seq<Log>, y: seq<Log>, y': seq<Log>)
    requires SameLogs(x, x', true) && SameLogs(y, y', true)
    ensures SameLogs(x + y, x' + y', true)
  {
  }

  lemma ConcatSnoc(parts: seq<seq<Log>>, p: seq<Log>)
    ensures Concat(parts + [p]) == Concat(parts) + p
  {
    assert (parts + [p])[..|parts|] == parts;
  }

  /** Gathers the logs of a block, receipt by receipt. */
  method CollectLogs(body: Body, removed: bool) returns (logs: seq<Log>)
    ensures logs == BlockLogs(body, removed) && SameLogs(Concat(body.receipts), logs, removed)
  {
    logs := [];
    for i := 0 to |body.receipts|
      invariant logs == Flagged(Concat(body.receipts[..i]), removed)
    {
      assert body.receipts[..i + 1] == body.receipts[..i] + [body.receipts[i]];
      ConcatSnoc(body.receipts[..i], body.receipts[i]);
      logs := AppendReceipt(logs, Concat(body.receipts[..i]), body.receipts[i], removed);
    }
    assert body.receipts[..|body.receipts|] == body.receipts;
  }

  method AppendReceipt(logs: seq<Log>, ghost before: seq<Log>, receipt: seq<Log>, removed: bool) returns (r: seq<Log>)
    requires logs == Flagged(before, removed)
    ensures r == Flagged(before + receipt, removed)
  {
    r := logs;
    assert before + receipt[..0] == before;
    for j := 0 to |receipt|
      invariant r == Flagged(before + receipt[..j], removed)
    {
      r := r + [if removed then receipt[j].(removed := true) else receipt[j]];
      assert (before + receipt[..j + 1])[..|before| + j] == before + receipt[..j];
    }
    assert before + receipt[..|receipt|] == before + receipt;
  }

  /** The elements of a that are not in b, in order and as often as in a. */
  function Difference(a: seq<Hash>, b: seq<Hash>): (keep: seq<Hash>)
    ensures forall x :: x in keep <==> x in a && x !in b
  {
    if a == [] then []
    else
      var rest, last := Difference(a[..|a| - 1], b), a[|a| - 1];
      if last in b then rest else rest + [last]
  }

  /** What is left of two lists put together is what is left of each, so order and repetitions are kept. */
  lemma {:induction false} DifferenceSplits(a: seq<Hash>, a': seq<Hash>, b: seq<Hash>)
    ensures Difference(a + a', b) == Difference(a, b) + Difference(a', b)
    decreases |a'|
  {
    if a' == [] {
      assert a + a' == a;
    } else {
      DifferenceSplits(a, a'[..|a'| - 1], b);
      assert (a + a')[..|a + a'| - 1] == a + a'[..|a'| - 1];
    }
  }

  method HashDifference(a: seq<Hash>, b: seq<Hash>) returns (keep: seq<Hash>)
    ensures keep == Difference(a, b)
  {
    keep := [];
    var remove: set<Hash> := {};
    for i := 0 to |b|
      invariant forall x :: x in remove <==> x in b[..i]
    {
      remove := remove + {b[i]};
    }
    for i := 0 to |a|
      invariant keep == Difference(a[..i], b)
    {
      assert a[..i + 1][..i] == a[..i];
      if a[i] !in remove {
        keep := keep + [a[i]];
      }
    }
    assert a[..|a|] == a;
  }
}
