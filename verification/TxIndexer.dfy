/** The background indexer that keeps the lookup entries of a window of recent blocks. */
module TxIndexers {
  import opened Options
  import opened Words
  import opened Chain
  import opened ChainIndex

  /** The transactions of the canonical blocks, by number. */
  type Blocks = seq<seq<Hash>>

  ghost predicate Unique(blocks: Blocks) {
    forall n, m, tx | 0 <= n < m < |blocks| && tx in blocks[n] :: tx !in blocks[m]
  }

  /** The table holds exactly the transactions of a set of blocks, each with its block. */
  ghost predicate Shows(index: map<Hash, nat>, blocks: Blocks, shown: set<nat>) {
    && (forall tx | tx in index :: index[tx] in shown && index[tx] < |blocks| && tx in blocks[index[tx]])
    && (forall n, tx | n in shown && n < |blocks| && tx in blocks[n] :: tx in index)
  }

  /** Of the blocks up to head the table holds exactly those from lo on. */
  ghost predicate Exact(index: map<Hash, nat>, blocks: Blocks, lo: nat, head: nat) {
    && (forall tx | tx in index && index[tx] <= head :: lo <= index[tx] < |blocks| && tx in blocks[index[tx]])
    && (forall n, tx | lo <= n <= head && n < |blocks| && tx in blocks[n] :: tx in index && index[tx] == n)
  }

  /** The first block of the configured window. */
  function WindowStart(limit: nat, cutoff: nat, head: nat): nat {
    var from := if limit != 0 && head >= limit then head - limit + 1 else 0;
    if from < cutoff then cutoff else from
  }

  /** The window: the last limit blocks up to the head, or all if there is no limit, but none below the cutoff. */
  lemma WindowIs(limit: nat, cutoff: nat, head: nat, n: nat)
    requires n <= head
    ensures WindowStart(limit, cutoff, head) <= n <==> cutoff <= n && (limit == 0 || head - n < limit)
  {
  }

  /** The set of blocks determines the whole table. */
  lemma ShowsIsUnique(a: map<Hash, nat>, b: map<Hash, nat>, blocks: Blocks, shown: set<nat>)
    requires Unique(blocks) && Shows(a, blocks, shown) && Shows(b, blocks, shown)
    ensures a == b
  {
    assert forall tx | tx in a :: tx in b && tx in blocks[a[tx]] && tx in blocks[b[tx]];
    assert forall tx | tx in b :: tx in a;
  }

  /** Writing the entries of a block, whether they are there or not. */
  lemma ShowsMore(index: map<Hash, nat>, blocks: Blocks, shown: set<nat>, n: nat)
    requires Unique(blocks) && n < |blocks| && Shows(index, blocks, shown)
    ensures Shows(index + Entries(blocks[n], n), blocks, shown + {n})
  {
    forall tx | tx in index ensures tx in blocks[n] ==> index[tx] == n {
      assert tx in blocks[index[tx]];
    }
  }

  /** Deleting the entries of a block, whether they are there or not. */
  lemma ShowsLess(index: map<Hash, nat>, blocks: Blocks, shown: set<nat>, n: nat)
    requires Unique(blocks) && n < |blocks| && Shows(index, blocks, shown)
    ensures Shows(index - (set tx | tx in blocks[n]), blocks, shown - {n})
  {
    var t := index - set tx | tx in blocks[n];
    forall m, tx | m in shown - {n} && m < |blocks| && tx in blocks[m] ensures tx in t {
      assert tx in index && tx !in blocks[n];
    }
  }

  /** Importing the next block writes its entries. */
  lemma ShowsImport(index: map<Hash, nat>, blocks: Blocks, all: Blocks, next: nat, shown: set<nat>)
    requires Unique(all) && Shows(index, blocks, shown) && next == |blocks| && next !in shown
    requires |all| == next + 1 && forall n | 0 <= n < next :: all[n] == blocks[n]
    ensures Shows(index + Entries(all[next], next), all, shown + {next})
  {
    ShowsSame(index, blocks, all, shown);
    ShowsMore(index, all, shown, next);
  }

  lemma ShowsSame(index: map<Hash, nat>, blocks: Blocks, all: Blocks, shown: set<nat>)
    requires Shows(index, blocks, shown) && |blocks| <= |all| && forall n | 0 <= n < |blocks| :: all[n] == blocks[n]
    requires forall n | n in shown :: n < |blocks| || n >= |all|
    ensures Shows(index, all, shown)
  {
  }

  /** A table is exactly the window iff all blocks in which the sets differ are empty. */
  lemma WindowIff(index: map<Hash, nat>, blocks: Blocks, shown: set<nat>, lo: nat, head: nat)
    requires Unique(blocks) && head < |blocks| && Shows(index, blocks, shown)
    ensures Exact(index, blocks, lo, head) <==>
            forall n | 0 <= n <= head && !(n in shown <==> lo <= n) :: blocks[n] == []
  {
    forall n | 0 <= n <= head && !(n in shown <==> lo <= n) && blocks[n] != [] ensures !Exact(index, blocks, lo, head) {
      var tx := blocks[n][0];
      assert tx in blocks[n];
      if tx in index {
        assert tx in blocks[index[tx]];
      }
    }
    if forall n | 0 <= n <= head && !(n in shown <==> lo <= n) :: blocks[n] == [] {
      forall n, tx | lo <= n <= head && n < |blocks| && tx in blocks[n] ensures tx in index && index[tx] == n {
        assert n in shown && tx in index && tx in blocks[index[tx]];
      }
    }
  }

  /**
   Two blocks indexed as they were imported, no tail stored, a limit of one block: the run
   indexes the window from block 2 on, and the entry of block 1 stays. On the next start the
   tail is stored and there is nothing to do, so it still stays.
   */
  lemma StaleEntries()
    ensures var blocks: Blocks, index: map<Hash, nat> := [[], [11], [12]], map[11 := 1, 12 := 2];
            && Unique(blocks) && Shows(index, blocks, {1, 2}) && WindowStart(1, 0, 2) == 2
            && Plan(1, 0, 2, RepairedTail(0, 2, None)) == Index(2, 3)
            && !Exact(index + Entries(blocks[2], 2), blocks, 2, 2)
            && Plan(1, 0, 2, RepairedTail(0, 2, Some(2))) == Unindex(2, 2)
  {
    var blocks: Blocks, index: map<Hash, nat> := [[], [11], [12]], map[11 := 1, 12 := 2];
    var after := index + Entries(blocks[2], 2);
    assert 11 in after && after[11] == 1;
  }

  /** Numbers of a range delivered in any order, each at most once; all of them unless interrupted. */
  ghost predicate Delivered(numbers: seq<int>, from: int, to: int) {
    && (forall i | 0 <= i < |numbers| :: from <= numbers[i] < to)
    && (forall i, j | 0 <= i < j < |numbers| :: numbers[i] != numbers[j])
  }

  ghost predicate Complete(numbers: seq<int>, from: int, to: int) {
    forall n | from <= n < to :: n in numbers
  }

  /** What a run is going to do: nothing, index a range, or drop one. */
  datatype Task = Nothing | Index(from: nat, to: nat) | Unindex(from: nat, to: nat)

  function Plan(limit: nat, cutoff: nat, head: nat, tail: Option<nat>): Task {
    if head == 0 || head < cutoff then Nothing
    else match tail
      case None =>
        var from := if limit != 0 && head >= limit then head - limit + 1 else 0;
        Index(if from < cutoff then cutoff else from, head + 1)
      case Some(t) =>
        if limit == 0 || head < limit then
          if t > 0 then Index(cutoff, t) else Nothing
        else
          var from := if head - limit + 1 < cutoff then cutoff else head - limit + 1;
          if from < t then Index(from, t) else Unindex(t, from)
  }

  /** A tail survives a repair only within [cutoff, head]; one below the cutoff is moved up to it. */
  ghost function RepairedTail(cutoff: nat, head: nat, tail: Option<nat>): Option<nat> {
    if tail.None? || tail.value > head || head < cutoff then None
    else if tail.value < cutoff then Some(cutoff) else tail
  }

  /** A repair deletes everything if the tail lies above the head or the head below the cutoff. */
  ghost predicate Purged(cutoff: nat, head: nat, tail: Option<nat>) {
    tail.Some? && (tail.value > head || head < cutoff)
  }

  /** The blocks still indexed after a repair. */
  ghost function RepairedShown(cutoff: nat, head: nat, tail: Option<nat>, shown: set<nat>): set<nat> {
    if Purged(cutoff, head, tail) then {}
    else if tail.Some? && tail.value < cutoff then set n | n in shown && n >= cutoff
    else shown
  }

  ghost function Range(lo: nat, hi: nat): (s: set<nat>)
    ensures forall n: nat :: n in s <==> lo <= n < hi
  {
    if lo >= hi then {} else Range(lo, hi - 1) + {hi - 1}
  }

  /** The tail a task leaves: it gets as far as blocks were delivered without a gap. */
  ghost predicate Stopped(task: Task, numbers: seq<int>, tail: Option<nat>, tail': Option<nat>) {
    match task
    case Nothing => tail' == tail
    case Index(from, to) =>
      if from >= to then tail' == tail
      else
        && tail'.Some? && from <= tail'.value <= to && Complete(numbers, tail'.value, to)
        && (tail'.value == from || tail'.value - 1 !in numbers)
    case Unindex(from, to) =>
      if from >= to then tail' == tail
      else
        && tail'.Some? && from <= tail'.value <= to && Complete(numbers, from, tail'.value)
        && (tail'.value == to || tail'.value !in numbers)
  }

  /** The blocks a task leaves indexed. */
  ghost function ShownAfter(task: Task, shown: set<nat>, tail: nat): set<nat> {
    match task
    case Nothing => shown
    case Index(from, to) => if from >= to then shown else shown + Range(tail, to)
    case Unindex(from, to) => if from >= to then shown else shown - Range(from, tail)
  }

  /** A finished task leaves the tail at the start of the window. */
  lemma FinishedAtWindow(limit: nat, cutoff: nat, head: nat, tail: Option<nat>, numbers: seq<int>, tail': Option<nat>)
    requires head >= 1 && head >= cutoff && (tail.Some? ==> cutoff <= tail.value)
    requires Finished(Plan(limit, cutoff, head, tail), numbers)
             && Stopped(Plan(limit, cutoff, head, tail), numbers, tail, tail')
    ensures tail' == Some(WindowStart(limit, cutoff, head))
  {
  }

  /** The blocks indexed below the window that neither repair nor run looks at. */
  ghost predicate Stale(tail: Option<nat>, shown: set<nat>, from: nat, n: nat) {
    n in shown && n < from && (tail.Some? ==> n < tail.value)
  }

  /** After repair and a finished run the window is indexed, and below it exactly the stale blocks not purged. */
  lemma StartShows(limit: nat, cutoff: nat, head: nat, tail: Option<nat>, shown: set<nat>, n: nat)
    requires head >= 1 && head >= cutoff && n <= head
    requires tail.Some? && tail.value <= head ==> forall m: nat | tail.value <= m <= head :: m in shown
    ensures var from, repaired := WindowStart(limit, cutoff, head), RepairedTail(cutoff, head, tail);
            n in ShownAfter(Plan(limit, cutoff, head, repaired), RepairedShown(cutoff, head, tail, shown), from) <==>
            n >= from || (!Purged(cutoff, head, tail) && !(tail.Some? && tail.value < cutoff)
                          && Stale(tail, shown, from, n))
  {
  }

  ghost predicate Served(task: Task, numbers: seq<int>) {
    match task
    case Nothing => true
    case Index(from, to) => Delivered(numbers, from, to)
    case Unindex(from, to) => Delivered(numbers, from, to)
  }

  ghost predicate Finished(task: Task, numbers: seq<int>) {
    match task
    case Nothing => true
    case Index(from, to) => Complete(numbers, from, to)
    case Unindex(from, to) => Complete(numbers, from, to)
  }

  class TxIndexer {
    const limit: nat
    const cutoff: nat
    var tail: Option<nat>
    // the database
    var storedTail: Option<nat>
    var index: map<Hash, nat>

    constructor (limit: nat, cutoff: nat, storedTail: Option<nat>, index: map<Hash, nat>)
      ensures this.limit == limit && this.cutoff == cutoff
      ensures this.tail == this.storedTail == storedTail && this.index == index
    {
      this.limit, this.cutoff := limit, cutoff;
      this.tail, this.storedTail, this.index := storedTail, storedTail, index;
    }

    /** Indexes what is queued without a gap right below last; the front of the queue is its maximum. */
    method DrainDown(blocks: Blocks, from: nat, last: nat, queue: set<int>, ghost shown: set<nat>)
      returns (last': nat, rest: set<int>)
      requires Unique(blocks) && from <= last <= |blocks| && Shows(index, blocks, shown)
      requires forall n | n in queue :: from <= n < last
      modifies `index
      ensures from <= last' <= last && Shows(index, blocks, shown + Range(last', last))
      ensures forall n | last' <= n < last :: n in queue
      ensures forall n :: n in rest <==> n in queue && n < last'
      ensures last' - 1 !in rest
    {
      last', rest := last, queue;
      assert shown + Range(last, last) == shown;
      // everything queued is below last', so the front of the queue is last' - 1 or there is a gap
      while last' - 1 in rest
        invariant from <= last' <= last && Shows(index, blocks, shown + Range(last', last))
        invariant forall n | last' <= n < last :: n in queue
        invariant forall n :: n in rest <==> n in queue && n < last'
        decreases last'
      {
        var n := last' - 1;
        rest := rest - {n};
        ShowsMore(index, blocks, shown + Range(last', last), n);
        assert shown + Range(last', last) + {n} == shown + Range(n, last);
        index := index + Entries(blocks[n], n);
        last' := n;
      }
    }

    method DrainUp(blocks: Blocks, from: nat, next: nat, to: nat, queue: set<int>, ghost shown: set<nat>)
      returns (next': nat, rest: set<int>)
      requires Unique(blocks) && from <= next <= to <= |blocks| && Shows(index, blocks, shown - Range(from, next))
      requires forall n | n in queue :: next <= n < to
      modifies `index
      ensures next <= next' <= to && Shows(index, blocks, shown - Range(from, next'))
      ensures forall n | next <= n < next' :: n in queue
      ensures forall n :: n in rest <==> n in queue && n >= next'
      ensures next' !in rest
    {
      next', rest := next, queue;
      while next' in rest
        invariant next <= next' <= to && Shows(index, blocks, shown - Range(from, next'))
        invariant forall n | next <= n < next' :: n in queue
        invariant forall n :: n in rest <==> n in queue && n >= next'
        decreases |blocks| - next'
      {
        var n := next';
        rest := rest - {n};
        next' := n + 1;
        ShowsLess(index, blocks, shown - Range(from, n), n);
        assert shown - Range(from, n) - {n} == shown - Range(from, next');
        index := index - set tx | tx in blocks[n];
      }
    }

    /**
     Indexes [from, to) downwards. Blocks arrive in any order; out-of-order ones wait in a
     queue, so whatever is missing, the stored tail never gets ahead of a gap.
     */
    method IndexTransactions(blocks: Blocks, from: nat, to: nat, numbers: seq<int>, ghost shown: set<nat>)
      requires Unique(blocks) && to <= |blocks| && Delivered(numbers, from, to) && Shows(index, blocks, shown)
      modifies `storedTail, `index
      ensures Stopped(Index(from, to), numbers, old(storedTail), storedTail)
      ensures if from < to then Shows(index, blocks, shown + Range(storedTail.value, to)) else index == old(index)
    {
      if from >= to {
        return;
      }
      var last := to;
      var queue: set<int> := {};
      assert shown + Range(to, to) == shown;
      for i := 0 to |numbers|
        invariant from <= last <= to && Shows(index, blocks, shown + Range(last, to))
        invariant forall n | n in queue :: from <= n < last && n in numbers[..i]
        invariant forall j | 0 <= j < i :: numbers[j] in queue || numbers[j] >= last
        invariant last - 1 !in queue && Complete(numbers[..i], last, to)
      {
        assert numbers[i] !in numbers[..i];
        queue := queue + {numbers[i]};
        assert numbers[..i + 1] == numbers[..i] + [numbers[i]];
        ghost var above := last;
        last, queue := DrainDown(blocks, from, last, queue, shown + Range(last, to));
        assert shown + Range(above, to) + Range(last, above) == shown + Range(last, to);
      }
      assert numbers[..|numbers|] == numbers;
      storedTail := Some(last);
    }

    /** Drops the entries of [from, to) upwards, in the same order-tolerant way. */
    method UnindexTransactions(blocks: Blocks, from: nat, to: nat, numbers: seq<int>, ghost shown: set<nat>)
      requires Unique(blocks) && to <= |blocks| && Delivered(numbers, from, to) && Shows(index, blocks, shown)
      modifies `storedTail, `index
      ensures Stopped(Unindex(from, to), numbers, old(storedTail), storedTail)
      ensures if from < to then Shows(index, blocks, shown - Range(from, storedTail.value)) else index == old(index)
    {
      if from >= to {
        return;
      }
      var next := from;
      var queue: set<int> := {};
      assert shown - Range(from, from) == shown;
      for i := 0 to |numbers|
        invariant from <= next <= to && Shows(index, blocks, shown - Range(from, next))
        invariant forall n | n in queue :: next <= n < to && n in numbers[..i]
        invariant forall j | 0 <= j < i :: numbers[j] in queue || numbers[j] < next
        invariant next !in queue && Complete(numbers[..i], from, next)
      {
        assert numbers[i] !in numbers[..i];
        queue := queue + {numbers[i]};
        assert numbers[..i + 1] == numbers[..i] + [numbers[i]];
        next, queue := DrainUp(blocks, from, next, to, queue, shown);
      }
      assert numbers[..|numbers|] == numbers;
      storedTail := Some(next);
    }

    /** Discards stored indexes that do not fit the head and the cutoff. What is purged may be anything. */
    method Repair(blocks: Blocks, head: nat, ghost shown: set<nat>)
      requires Unique(blocks) && (Purged(cutoff, head, storedTail) || Shows(index, blocks, shown))
      modifies `tail, `storedTail, `index
      ensures storedTail == RepairedTail(cutoff, head, old(storedTail))
      ensures Shows(index, blocks, RepairedShown(cutoff, head, old(storedTail), shown))
      ensures old(tail == storedTail) ==> tail == storedTail
    {
      if storedTail.None? {
        return;
      }
      var t := storedTail.value;
      if t > head {
        tail, storedTail, index := None, None, map[];
        return;
      }
      if head < cutoff {
        tail, storedTail, index := None, None, map[];
        return;
      }
      if t < cutoff {
        tail, storedTail := Some(cutoff), Some(cutoff);
        forall n, tx | n in shown && n < |blocks| && tx in blocks[n] ensures tx in index && index[tx] == n {
          assert tx in blocks[index[tx]];
        }
        index := map tx | tx in index && index[tx] >= cutoff :: index[tx];
      }
    }

    /**
     One indexing task, interrupted or not, on a chain that may have grown past head: which
     tail it stores and which blocks are indexed then.
     */
    method Run(blocks: Blocks, head: nat, numbers: seq<int>, ghost shown: set<nat>)
      requires head < |blocks| && Unique(blocks) && Shows(index, blocks, shown)
      requires storedTail.Some? ==> cutoff <= storedTail.value <= |blocks|
      requires Served(Plan(limit, cutoff, head, storedTail), numbers)
      modifies `storedTail, `index
      ensures Stopped(old(Plan(limit, cutoff, head, storedTail)), numbers, old(storedTail), storedTail)
      ensures head == 0 || head < cutoff ==> storedTail == old(storedTail) && index == old(index)
      ensures head >= 1 && head >= cutoff ==>
                && storedTail.Some? && cutoff <= storedTail.value <= |blocks|
                && Shows(index, blocks, ShownAfter(old(Plan(limit, cutoff, head, storedTail)), shown, storedTail.value))
      ensures head >= 1 && head >= cutoff && Finished(old(Plan(limit, cutoff, head, storedTail)), numbers) ==>
                storedTail == Some(WindowStart(limit, cutoff, head))
    {
      match Plan(limit, cutoff, head, storedTail)
      case Nothing =>
      case Index(from, to) => IndexTransactions(blocks, from, to, numbers, shown);
      case Unindex(from, to) => UnindexTransactions(blocks, from, to, numbers, shown);
    }

    /**
     Startup: repair, then an uninterrupted run. The blocks from a stored tail on are assumed
     to be indexed, and are so again afterwards. Exactly the configured window is indexed if
     and only if repair deleted what lies below, or the indexed blocks below are empty.
     */
    method RepairAndRun(blocks: Blocks, head: nat, numbers: seq<int>, ghost shown: set<nat>)
      returns (ghost shown': set<nat>)
      requires head < |blocks| && Unique(blocks) && head >= 1 && head >= cutoff
      requires Purged(cutoff, head, storedTail) || Shows(index, blocks, shown)
      requires storedTail.Some? && storedTail.value <= head ==>
               forall n: nat | storedTail.value <= n <= head :: n in shown
      requires Served(Plan(limit, cutoff, head, RepairedTail(cutoff, head, storedTail)), numbers)
      requires Finished(Plan(limit, cutoff, head, RepairedTail(cutoff, head, storedTail)), numbers)
      modifies `tail, `storedTail, `index
      ensures storedTail == Some(WindowStart(limit, cutoff, head))
      ensures Shows(index, blocks, shown') && forall n: nat | storedTail.value <= n <= head :: n in shown'
      ensures shown' == ShownAfter(Plan(limit, cutoff, head, RepairedTail(cutoff, head, old(storedTail))),
                                   RepairedShown(cutoff, head, old(storedTail), shown), storedTail.value)
      ensures Exact(index, blocks, WindowStart(limit, cutoff, head), head) <==>
              || (old(storedTail).Some? && (old(storedTail).value > head || old(storedTail).value < cutoff))
              || forall n: nat | Stale(old(storedTail), shown, WindowStart(limit, cutoff, head), n) :: blocks[n] == []
    {
      ghost var was, from := storedTail, WindowStart(limit, cutoff, head);
      Repair(blocks, head, shown);
      shown' := RepairedShown(cutoff, head, was, shown);
      ghost var task := Plan(limit, cutoff, head, storedTail);
      Run(blocks, head, numbers, shown');
      shown' := ShownAfter(task, shown', from);
      forall n: nat | n <= head
        ensures n in shown' <==>
                n >= from || (!Purged(cutoff, head, was) && !(was.Some? && was.value < cutoff)
                              && Stale(was, shown, from, n))
      {
        StartShows(limit, cutoff, head, was, shown, n);
      }
      WindowIff(index, blocks, shown', from, head);
    }
  }

  datatype Progress = Progress(indexed: nat, remaining: nat)

  /** Progress in 64-bit arithmetic: the subtractions below wrap around. */
  function Report(limit: nat, cutoff: nat, head: nat, tail: Option<nat>): Progress {
    if head < cutoff then Progress(0, 0)
    else
      var wanted := if limit == 0 || limit > head then head + 1 else limit;
      var available := head - cutoff + 1;
      var total := if wanted > available then available else wanted;
      var indexed := if tail.Some? then (head - tail.value + 1) % TWO_64 else 0;
      Progress(indexed, if indexed < total then total - indexed else 0)
  }

  /** With a tail at most one above the head, Remaining is the part of the window below the tail. */
  lemma ReportIsExact(limit: nat, cutoff: nat, head: nat, tail: Option<nat>)
    requires cutoff <= head < TWO_64 - 1 && (tail.Some? ==> tail.value <= head + 1)
    ensures var from := WindowStart(limit, cutoff, head);
            var t := if tail.Some? then tail.value else head + 1;
            var r := Report(limit, cutoff, head, tail);
            && r.indexed == head + 1 - t
            && r.remaining == (if from < t then t - from else 0)
  {
  }

  /** A finished window is reported complete for its head and for every later head. */
  lemma CompleteStaysComplete(limit: nat, cutoff: nat, head: nat, later: nat)
    requires cutoff <= head <= later < TWO_64 - 1
    ensures Report(limit, cutoff, later, Some(WindowStart(limit, cutoff, head))).remaining == 0
    ensures Report(limit, cutoff, later, Some(WindowStart(limit, cutoff, head))).indexed >=
            head + 1 - WindowStart(limit, cutoff, head)
  {
    ReportIsExact(limit, cutoff, later, Some(WindowStart(limit, cutoff, head)));
  }

  /** With the tail further above the head, the count of indexed blocks wraps around and indexing is reported done. */
  lemma ReportWraps(limit: nat, cutoff: nat, head: nat, tail: nat)
    requires cutoff <= head && head + 1 < tail < TWO_64
    ensures Report(limit, cutoff, head, Some(tail)).indexed == TWO_64 + head + 1 - tail
    ensures Report(limit, cutoff, head, Some(tail)).remaining == 0
  {
  }

  /**
   The scheduler loop. done names the task whose channel the loop holds; running are the
   tasks still at work; published is the tail queries see, stored the one in the database.
   */
  datatype Loop = Loop(done: Option<nat>, running: set<nat>, next: nat,
                       published: Option<nat>, stored: Option<nat>, stopping: bool, terminated: bool)

  datatype Event = HeadArrived | TaskWrote(id: nat, tail: Option<nat>) | TaskExited(id: nat)
                 | DoneReceived | TermReceived | TermAnswered

  predicate Enabled(s: Loop, e: Event) {
    match e
    case HeadArrived => !s.stopping && !s.terminated
    case TaskWrote(id, _) => id in s.running
    case TaskExited(id) => id in s.running
    case DoneReceived => !s.stopping && !s.terminated && s.done.Some? && s.done.value !in s.running
    case TermReceived => !s.stopping && !s.terminated
    case TermAnswered => s.stopping && !s.terminated && (s.done.Some? ==> s.done.value !in s.running)
  }

  function Next(s: Loop, e: Event): Loop {
    match e
    case HeadArrived =>
      if s.done.None? then s.(done := Some(s.next), running := s.running + {s.next}, next := s.next + 1) else s
    case TaskWrote(_, tail) => s.(stored := tail)
    case TaskExited(id) => s.(running := s.running - {id})
    case DoneReceived => s.(done := None, published := s.stored)
    case TermReceived => s.(stopping := true)
    case TermAnswered => s.(terminated := true)
  }

  /** The running task, if any, is the one the loop waits for; idle, queries see the stored tail. */
  ghost predicate OneTask(s: Loop) {
    && (forall id | id in s.running :: s.done == Some(id)) && (s.done.Some? ==> s.done.value < s.next)
    && (s.done.None? ==> s.published == s.stored)
    && (s.terminated ==> s.running == {})
  }

  /** What each event does: a head starts a new task exactly if the loop waits for none. */
  lemma EventDoes(s: Loop, e: Event)
    requires OneTask(s) && Enabled(s, e)
    ensures var n := Next(s, e);
            match e
            case HeadArrived =>
              if s.done.None?
              then |n.running - s.running| == 1 && s.running == {} && n.done.Some? && n.running == {n.done.value}
              else n == s
            case TaskWrote(_, tail) => n.stored == tail && n.running == s.running && n.published == s.published
            case TaskExited(id) => id in s.running && n.running == {} && n.done == Some(id) && n.stored == s.stored
            case DoneReceived => s.running == n.running == {} && n.done.None? && n.published == n.stored == s.stored
            case TermReceived => n.stopping && !n.terminated && n.running == s.running
            case TermAnswered => n.terminated && n.running == {} && n.stored == s.stored
  {
    if e.HeadArrived? && s.done.None? {
      assert Next(s, e).running == {s.next} == Next(s, e).running - s.running;
    }
  }

  /** The loop is not stuck before it has terminated, and afterwards nothing happens any more. */
  lemma LoopGoesOn(s: Loop, id: nat, tail: Option<nat>)
    requires OneTask(s)
    ensures !s.stopping && !s.terminated ==> Enabled(s, HeadArrived) && Enabled(s, TermReceived)
    ensures id in s.running ==> Enabled(s, TaskWrote(id, tail)) && Enabled(s, TaskExited(id))
    ensures s.done.Some? && s.running == {} && !s.terminated ==>
              Enabled(s, if s.stopping then TermAnswered else DoneReceived)
    ensures s.stopping && !s.terminated && s.done.None? ==> Enabled(s, TermAnswered)
    ensures s.terminated ==> forall e :: !Enabled(s, e)
  {
  }

  /** Over every run: once shutdown is asked for, no task starts any more. */
  lemma {:induction false} ShutdownIsFinal(states: seq<Loop>, events: seq<Event>, i: nat, j: nat)
    requires Trace(states, events) && i <= j <= |events| && (states[i].stopping || states[i].terminated)
    ensures (states[j].stopping || states[j].terminated) && states[j].running <= states[i].running
    decreases j
  {
    if i < j {
      ShutdownIsFinal(states, events, i, j - 1);
      assert Enabled(states[j - 1], events[j - 1]) && states[j] == Next(states[j - 1], events[j - 1]);
    }
  }

  ghost predicate Trace(states: seq<Loop>, events: seq<Event>) {
    && |states| == |events| + 1
    && (forall i | 0 <= i < |events| :: Enabled(states[i], events[i]) && states[i + 1] == Next(states[i], events[i]))
  }

  /** Over every run: never two tasks at once, and none after shutdown. */
  lemma {:induction false} NeverTwoTasks(states: seq<Loop>, events: seq<Event>, i: nat)
    requires Trace(states, events) && OneTask(states[0]) && i <= |events|
    ensures OneTask(states[i])
    ensures forall a, b | a in states[i].running && b in states[i].running :: a == b
  {
    if i > 0 {
      NeverTwoTasks(states, events, i - 1);
      assert Enabled(states[i - 1], events[i - 1]) && states[i] == Next(states[i - 1], events[i - 1]);
    }
  }
}
