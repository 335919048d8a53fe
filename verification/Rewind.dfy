/** Searching downwards for a head block whose state is available. */
module Rewind {
  import opened Options
  import opened Chain

  /** How far below the head the hash scheme looks for a state. */
  const FULL_IMMUTABILITY_THRESHOLD := 90000

  /** The new head and the number at which the requested root was found; or a nil dereference. */
  datatype Rewound = Rewound(head: Header, rootNumber: nat) | Crashed

  /** All stored chains end in the genesis g, the only header of number 0. */
  ghost predicate Genesis(s: Store, g: Header) {
    Keyed(s) && g.number == 0 && g.hash in s && s[g.hash] == g && forall h | h in s && s[h].number == 0 :: h == g.hash
  }

  /** The oldest block the search in hash mode considers. */
  function SearchLimit(top: Header, pivot: Option<nat>): nat {
    if pivot.Some? then pivot.value
    else if top.number > FULL_IMMUTABILITY_THRESHOLD then top.number - FULL_IMMUTABILITY_THRESHOLD
    else 0
  }

  /** The pivot if there is one, else 90000 blocks below the head, or as far as there are blocks. */
  lemma SearchLimitIs(top: Header, pivot: Option<nat>)
    ensures pivot.Some? ==> SearchLimit(top, pivot) == pivot.value
    ensures pivot.None? && top.number >= 90000 ==> SearchLimit(top, pivot) + 90000 == top.number
    ensures pivot.None? && top.number < 90000 ==> SearchLimit(top, pivot) == 0
  {
  }

  /** Some block of the line from n upwards carries the root, or none was asked for. */
  ghost predicate Passed(s: Store, line: seq<Hash>, root: Hash, n: nat)
    requires forall m | 0 <= m < |line| :: line[m] in s
  {
    root == ZERO_HASH || exists m :: n <= m < |line| && s[line[m]].root == root
  }

  /** Position n is an acceptable head in hash mode. */
  ghost predicate HashGood(s: Store, line: seq<Hash>, root: Hash, limit: nat, states: set<Hash>, n: nat)
    requires (forall m | 0 <= m < |line| :: line[m] in s) && n < |line|
  {
    n > 0 && limit <= n && s[line[n]].root in states && Passed(s, line, root, n)
  }

  /** Where the parent links end: the genesis, or the block above a gap. */
  ghost function Bottom(s: Store, h: Header): (b: Header)
    ensures b.number <= h.number
    decreases h.number
  {
    match Parent(s, h)
    case None => h
    case Some(p) => Bottom(s, p)
  }

  /** No block from h down to the end of the parent links carries the root. */
  ghost predicate Unmatched(s: Store, h: Header, root: Hash)
    decreases h.number
  {
    h.root != root && match Parent(s, h)
                      case None => true
                      case Some(p) => Unmatched(s, p, root)
  }

  /**
   The one way the hash-mode search fails: the chain has a gap, the block above the gap is
   within the limit and has state, and the requested root is nowhere down to it.
   */
  ghost predicate NilWalk(s: Store, top: Header, root: Hash, limit: nat, states: set<Hash>) {
    var b := Bottom(s, top);
    b.number > 0 && limit <= b.number && root != ZERO_HASH && b.root in states && Unmatched(s, top, root)
  }

  /** The highest acceptable block of the line, or the genesis. */
  ghost predicate HashBest(s: Store, line: seq<Hash>, root: Hash, limit: nat, states: set<Hash>, head: Header)
    requires forall m | 0 <= m < |line| :: line[m] in s
  {
    && head.number < |line| && head == s[line[head.number]]
    && (head.number > 0 ==> HashGood(s, line, root, limit, states, head.number))
    && (forall n | head.number < n < |line| :: !HashGood(s, line, root, limit, states, n))
  }

  /** The number reported for the root is its highest block, found at or above the new head. */
  ghost predicate RootReported(s: Store, line: seq<Hash>, root: Hash, head: Header, rootNumber: nat)
    requires forall m | 0 <= m < |line| :: line[m] in s
  {
    && (rootNumber > 0 ==> root != ZERO_HASH && head.number <= rootNumber < |line| && s[line[rootNumber]].root == root
                           && forall m | rootNumber < m < |line| :: s[line[m]].root != root)
    && (head.number > 0 && root != ZERO_HASH ==> rootNumber > 0)
  }

  ghost predicate OnLine(s: Store, line: seq<Hash>) {
    forall m | 0 <= m < |line| :: line[m] in s
  }

  /** The outcome of the hash-mode search from head on. */
  function HashSearch(s: Store, g: Header, head: Header, root: Hash, limit: nat, states: set<Hash>,
                      beyondRoot: bool, rootNumber: nat): Rewound
    decreases head.number
  {
    var hit := !beyondRoot && head.root == root;
    var beyond, number := beyondRoot || hit, if hit then head.number else rootNumber;
    var parent := Parent(s, head);
    if head.number < limit then Rewound(g, number)
    else if head.root !in states then
      if parent.None? then Rewound(g, number)
      else if parent.value.number == 0 then Rewound(parent.value, number)
      else HashSearch(s, g, parent.value, root, limit, states, beyond, number)
    else if beyond || head.number == 0 then Rewound(head, number)
    else if parent.None? then Crashed
    else HashSearch(s, g, parent.value, root, limit, states, beyond, number)
  }

  /** rewindHead in the hash scheme. */
  method RewindHashHead(s: Store, g: Header, top: Header, root: Hash, pivot: Option<nat>, states: set<Hash>)
    returns (r: Rewound)
    requires Genesis(s, g) && top.hash in s && s[top.hash] == top
    ensures r == HashSearch(s, g, top, root, SearchLimit(top, pivot), states, root == ZERO_HASH, 0)
    ensures r.Crashed? <==> NilWalk(s, top, root, SearchLimit(top, pivot), states)
    ensures r.Rewound? ==> r.head.hash in s && s[r.head.hash] == r.head && r.head.number <= top.number
    ensures r.Rewound? ==> r.head == g || r.head.root in states
    ensures Rooted(s, g.hash, top.hash) ==>
              var line := Line(s, g.hash, top.hash);
              && OnLine(s, line) && r.Rewound?
              && HashBest(s, line, root, SearchLimit(top, pivot), states, r.head)
              && RootReported(s, line, root, r.head, r.rootNumber)
  {
    var limit := SearchLimit(top, pivot);
    var beyondRoot, rootNumber, head := root == ZERO_HASH, 0, top;
    HashSearchOutcome(s, g, top, root, limit, states, beyondRoot, 0);
    HashSearchBest(s, g, top, root, limit, states);
    while true
      invariant HashSearch(s, g, head, root, limit, states, beyondRoot, rootNumber) ==
                HashSearch(s, g, top, root, limit, states, root == ZERO_HASH, 0)
      decreases head.number
    {
      if !beyondRoot && head.root == root {
        beyondRoot, rootNumber := true, head.number;
      }
      if head.number < limit {
        return Rewound(g, rootNumber);
      }
      var parent := Parent(s, head);
      if head.root !in states {
        if parent.None? {
          return Rewound(g, rootNumber);
        }
        head := parent.value;
        if head.number == 0 {
          return Rewound(head, rootNumber);
        }
      } else {
        if beyondRoot || head.number == 0 {
          return Rewound(head, rootNumber);
        }
        if parent.None? {
          return Crashed;
        }
        head := parent.value;
      }
    }
  }

  /** When the search fails, and what it returns otherwise, on any store. */
  lemma {:induction false} HashSearchOutcome(s: Store, g: Header, head: Header, root: Hash, limit: nat,
                                             states: set<Hash>, beyondRoot: bool, rootNumber: nat)
    requires Genesis(s, g) && head.hash in s && s[head.hash] == head && (root == ZERO_HASH ==> beyondRoot)
    ensures var r := HashSearch(s, g, head, root, limit, states, beyondRoot, rootNumber);
            && (r.Crashed? <==> !beyondRoot && NilWalk(s, head, root, limit, states))
            && (r.Rewound? ==> r.head.hash in s && s[r.head.hash] == r.head && r.head.number <= head.number)
            && (r.Rewound? ==> r.head == g || r.head.root in states)
    decreases head.number
  {
    var parent := Parent(s, head);
    if parent.Some? {
      var hit := !beyondRoot && head.root == root;
      HashSearchOutcome(s, g, parent.value, root, limit, states, beyondRoot || hit,
                        if hit then head.number else rootNumber);
    }
  }

  /** A gap under block 5, whose state is there, and a root nobody carries: the walk runs into nil. */
  lemma GapCrashes()
    ensures var g, h := Header(1, 0, 0, 7, 0), Header(2, 9, 5, 8, 0);
            var s: Store := map[1 := g, 2 := h];
            Genesis(s, g) && HashSearch(s, g, h, 42, SearchLimit(h, None), {8}, false, 0).Crashed?
  {
    var g, h := Header(1, 0, 0, 7, 0), Header(2, 9, 5, 8, 0);
    var s: Store := map[1 := g, 2 := h];
    assert Parent(s, h).None?;
  }

  lemma HashSearchBest(s: Store, g: Header, top: Header, root: Hash, limit: nat, states: set<Hash>)
    requires Genesis(s, g) && top.hash in s && s[top.hash] == top
    ensures Rooted(s, g.hash, top.hash) ==>
              var line := Line(s, g.hash, top.hash);
              var r := HashSearch(s, g, top, root, limit, states, root == ZERO_HASH, 0);
              && OnLine(s, line) && r.Rewound?
              && HashBest(s, line, root, limit, states, r.head)
              && RootReported(s, line, root, r.head, r.rootNumber)
  {
    if Rooted(s, g.hash, top.hash) {
      LineIsLinked(s, g.hash, top.hash);
      HashSearchDown(s, g, Line(s, g.hash, top.hash), top, top.number + 1, root, limit, states, root == ZERO_HASH, 0);
    }
  }

  /** The search continued at position n of a line, nothing above having been acceptable. */
  lemma {:induction false} HashSearchDown(s: Store, g: Header, line: seq<Hash>, head: Header, above: nat, root: Hash,
                                          limit: nat, states: set<Hash>, beyondRoot: bool, rootNumber: nat)
    requires Genesis(s, g) && Linked(s, g.hash, line) && head.number < |line| && head == s[line[head.number]]
    requires above == head.number + 1 && OnLine(s, line)
    requires Tracked(s, line, root, above, beyondRoot, rootNumber) && NoneAbove(s, line, root, limit, states, above)
    ensures var r := HashSearch(s, g, head, root, limit, states, beyondRoot, rootNumber);
            && r.Rewound?
            && HashBest(s, line, root, limit, states, r.head)
            && RootReported(s, line, root, r.head, r.rootNumber)
    decreases head.number
  {
    Track(s, line, root, above, head.number, beyondRoot, rootNumber);
    var hit := !beyondRoot && head.root == root;
    var beyond, number := beyondRoot || hit, if hit then head.number else rootNumber;
    if head.number < limit || (head.root in states && (beyond || head.number == 0)) {
    } else {
      assert !HashGood(s, line, root, limit, states, head.number);
      if head.number > 0 && !(head.root !in states && head.number == 1) {
        assert s[line[head.number]].parent == line[head.number - 1];
        HashSearchDown(s, g, line, Parent(s, head).value, head.number, root, limit, states, beyond, number);
      }
    }
  }

  /** A search that has inspected the line down to position above: what it knows of the root. */
  ghost predicate Tracked(s: Store, line: seq<Hash>, root: Hash, above: nat, beyondRoot: bool, rootNumber: nat) {
    && OnLine(s, line)
    && (beyondRoot <==> Passed(s, line, root, above))
    && (beyondRoot && root != ZERO_HASH ==> Highest(s, line, root, rootNumber) && above <= rootNumber)
    && (!beyondRoot || root == ZERO_HASH ==> rootNumber == 0)
  }

  /** Inspecting one more block. */
  lemma Track(s: Store, line: seq<Hash>, root: Hash, above: nat, n: nat, beyondRoot: bool, rootNumber: nat)
    requires Tracked(s, line, root, above, beyondRoot, rootNumber) && above == n + 1 && n < |line|
    ensures var hit := !beyondRoot && s[line[n]].root == root;
            Tracked(s, line, root, n, beyondRoot || hit, if hit then n else rootNumber)
  {
  }

  /** No position from above upwards is acceptable. */
  ghost predicate NoneAbove(s: Store, line: seq<Hash>, root: Hash, limit: nat, states: set<Hash>, above: nat)
    requires OnLine(s, line)
  {
    forall n | above <= n < |line| :: !HashGood(s, line, root, limit, states, n)
  }

  ghost predicate Highest(s: Store, line: seq<Hash>, root: Hash, n: nat)
    requires OnLine(s, line)
  {
    n < |line| && s[line[n]].root == root && forall m | n < m < |line| :: s[line[m]].root != root
  }

  /** In path mode the search also stops looking for a root that can no longer be had once a state is met. */
  ghost predicate PathBeyond(s: Store, line: seq<Hash>, root: Hash, noState: bool, states: set<Hash>, n: nat)
    requires OnLine(s, line)
  {
    Passed(s, line, root, n) || (noState && exists m :: n <= m < |line| && s[line[m]].root in states)
  }

  /** Position n is an acceptable head in path mode: available or recoverable, and not below the pivot. */
  ghost predicate PathGood(s: Store, line: seq<Hash>, root: Hash, noState: bool, pivot: Option<nat>,
                           states: set<Hash>, recoverable: set<Hash>, n: nat)
    requires OnLine(s, line) && n < |line|
  {
    && (n > 0 || n == |line| - 1)
    && PathBeyond(s, line, root, noState, states, n)
    && (s[line[n]].root in states || s[line[n]].root in recoverable)
    && (n == |line| - 1 || pivot.None? || pivot.value <= n)
  }

  ghost predicate PathBest(s: Store, line: seq<Hash>, root: Hash, noState: bool, pivot: Option<nat>,
                           states: set<Hash>, recoverable: set<Hash>, head: Header)
    requires OnLine(s, line)
  {
    && head.number < |line| && head == s[line[head.number]]
    && (head.number > 0 ==> PathGood(s, line, root, noState, pivot, states, recoverable, head.number))
    && (forall n | head.number < n < |line| :: !PathGood(s, line, root, noState, pivot, states, recoverable, n))
  }

  /**
   A reported number is the highest block with the root, at or above the new head. None is
   reported for a head above the genesis only if no root was asked for or it cannot be had.
   */
  ghost predicate PathReported(s: Store, line: seq<Hash>, root: Hash, noState: bool, head: nat, rootNumber: nat)
    requires OnLine(s, line)
  {
    && (rootNumber > 0 ==> root != ZERO_HASH && head <= rootNumber && Highest(s, line, root, rootNumber))
    && (rootNumber == 0 && head > 0 && root != ZERO_HASH ==> noState)
  }

  /** The outcome of the path-mode search: head, number of the root, and whether to keep that block's state. */
  function PathSearch(s: Store, g: Header, head: Header, root: Hash, noState: bool, pivot: Option<nat>,
                      states: set<Hash>, recoverable: set<Hash>, beyondRoot: bool, rootNumber: nat): (Header, nat, bool)
    decreases head.number
  {
    var hit := !beyondRoot && head.root == root;
    var beyond := beyondRoot || hit || (noState && head.root in states);
    var number := if hit then head.number else rootNumber;
    var parent := Parent(s, head);
    if beyond && (head.root in states || head.root in recoverable) then (head, number, true)
    else if pivot.Some? && pivot.value >= head.number then (g, number, false)
    else if parent.None? then (g, number, false)
    else if parent.value.number == 0 then (parent.value, number, false)
    else PathSearch(s, g, parent.value, root, noState, pivot, states, recoverable, beyond, number)
  }

  /** The loop of the path-mode search; found tells whether it stopped at a block to keep. */
  method SearchPath(s: Store, g: Header, top: Header, root: Hash, noState: bool, pivot: Option<nat>,
                    states: set<Hash>, recoverable: set<Hash>)
    returns (head: Header, rootNumber: nat, found: bool)
    requires Genesis(s, g) && top.hash in s && s[top.hash] == top
    ensures (head, rootNumber, found) == PathSearch(s, g, top, root, noState, pivot, states, recoverable,
                                                    root == ZERO_HASH, 0)
    ensures if found then head.root in states || head.root in recoverable else head == g
  {
    ghost var want := PathSearch(s, g, top, root, noState, pivot, states, recoverable, root == ZERO_HASH, 0);
    var beyondRoot := root == ZERO_HASH;
    head, rootNumber := top, 0;
    while true
      invariant PathSearch(s, g, head, root, noState, pivot, states, recoverable, beyondRoot, rootNumber) == want
      decreases head.number
    {
      if !beyondRoot && head.root == root {
        beyondRoot, rootNumber := true, head.number;
      }
      if !beyondRoot && noState && head.root in states {
        beyondRoot := true;
      }
      if beyondRoot && (head.root in states || head.root in recoverable) {
        return head, rootNumber, true;
      }
      if pivot.Some? && pivot.value >= head.number {
        return g, rootNumber, false;
      }
      var parent := Parent(s, head);
      if parent.None? {
        return g, rootNumber, false;
      }
      head := parent.value;
      if head.number == 0 {
        return head, rootNumber, false;
      }
    }
  }

  /**
   rewindHead in the path scheme. The state of the returned block is recovered if need be,
   so states' is what is available afterwards.
   */
  method RewindPathHead(s: Store, g: Header, top: Header, root: Hash, pivot: Option<nat>, states: set<Hash>,
                        recoverable: set<Hash>)
    returns (head: Header, rootNumber: nat, states': set<Hash>)
    requires Genesis(s, g) && top.hash in s && s[top.hash] == top
    ensures head.hash in s && s[head.hash] == head && head.number <= top.number
    ensures var r := PathSearch(s, g, top, root, root !in states && root !in recoverable, pivot, states, recoverable,
                                root == ZERO_HASH, 0);
            (head, rootNumber) == (r.0, r.1) && states' == if r.2 then states + {head.root} else states
    ensures head == g || head.root in states'
    ensures Rooted(s, g.hash, top.hash) ==>
              var line := Line(s, g.hash, top.hash);
              var noState := root !in states && root !in recoverable;
              && OnLine(s, line) && PathBest(s, line, root, noState, pivot, states, recoverable, head)
              && PathReported(s, line, root, noState, head.number, rootNumber)
  {
    var noState, found := root !in states && root !in recoverable, false;
    head, rootNumber, found := SearchPath(s, g, top, root, noState, pivot, states, recoverable);
    PathSearchOutcome(s, g, top, root, noState, pivot, states, recoverable, root == ZERO_HASH, 0);
    PathSearchBest(s, g, top, root, noState, pivot, states, recoverable);
    states' := if found && head.root !in states then states + {head.root} else states;
  }

  lemma {:induction false} PathSearchOutcome(s: Store, g: Header, head: Header, root: Hash, noState: bool,
                                             pivot: Option<nat>, states: set<Hash>, recoverable: set<Hash>,
                                             beyondRoot: bool, rootNumber: nat)
    requires Genesis(s, g) && head.hash in s && s[head.hash] == head
    ensures var r := PathSearch(s, g, head, root, noState, pivot, states, recoverable, beyondRoot, rootNumber).0;
            && r.hash in s && s[r.hash] == r && r.number <= head.number
            && (r == g || r.root in states || r.root in recoverable)
    decreases head.number
  {
    var parent := Parent(s, head);
    if parent.Some? {
      var hit := !beyondRoot && head.root == root;
      PathSearchOutcome(s, g, parent.value, root, noState, pivot, states, recoverable,
                        beyondRoot || hit || (noState && head.root in states), if hit then head.number else rootNumber);
    }
  }

  /** A block other than the genesis is found only with its state to be kept. */
  lemma {:induction false} PathSearchKeeps(s: Store, g: Header, head: Header, root: Hash, noState: bool,
                                           pivot: Option<nat>, states: set<Hash>, recoverable: set<Hash>,
                                           beyondRoot: bool, rootNumber: nat)
    requires Genesis(s, g) && head.hash in s && s[head.hash] == head
    ensures var r := PathSearch(s, g, head, root, noState, pivot, states, recoverable, beyondRoot, rootNumber);
            if r.2 then r.0.root in states || r.0.root in recoverable else r.0 == g
    decreases head.number
  {
    var parent := Parent(s, head);
    if parent.Some? {
      var hit := !beyondRoot && head.root == root;
      PathSearchKeeps(s, g, parent.value, root, noState, pivot, states, recoverable,
                      beyondRoot || hit || (noState && head.root in states), if hit then head.number else rootNumber);
    }
  }

  lemma PathSearchBest(s: Store, g: Header, top: Header, root: Hash, noState: bool, pivot: Option<nat>,
                       states: set<Hash>, recoverable: set<Hash>)
    requires Genesis(s, g) && top.hash in s && s[top.hash] == top
    ensures Rooted(s, g.hash, top.hash) ==>
              var line := Line(s, g.hash, top.hash);
              var r := PathSearch(s, g, top, root, noState, pivot, states, recoverable, root == ZERO_HASH, 0);
              && OnLine(s, line)
              && PathBest(s, line, root, noState, pivot, states, recoverable, r.0)
              && PathReported(s, line, root, noState, r.0.number, r.1)
  {
    if Rooted(s, g.hash, top.hash) {
      LineIsLinked(s, g.hash, top.hash);
      PathSearchDown(s, g, Line(s, g.hash, top.hash), top, top.number + 1, root, noState, pivot, states, recoverable,
                     root == ZERO_HASH, 0);
    }
  }

  lemma {:induction false} PathSearchDown(s: Store, g: Header, line: seq<Hash>, head: Header, above: nat, root: Hash,
                                          noState: bool, pivot: Option<nat>, states: set<Hash>, recoverable: set<Hash>,
                                          beyondRoot: bool, rootNumber: nat)
    requires Genesis(s, g) && Linked(s, g.hash, line) && head.number < |line| && head == s[line[head.number]]
    requires above == head.number + 1 && OnLine(s, line)
    requires beyondRoot <==> PathBeyond(s, line, root, noState, states, above)
    requires above < |line| ==> pivot.None? || pivot.value < above
    requires forall n | above <= n < |line| :: !PathGood(s, line, root, noState, pivot, states, recoverable, n)
    requires rootNumber > 0 ==> root != ZERO_HASH && above <= rootNumber && Highest(s, line, root, rootNumber)
    requires beyondRoot && rootNumber == 0 && root != ZERO_HASH ==> noState
    ensures var r := PathSearch(s, g, head, root, noState, pivot, states, recoverable, beyondRoot, rootNumber);
            && PathBest(s, line, root, noState, pivot, states, recoverable, r.0)
            && PathReported(s, line, root, noState, r.0.number, r.1)
    decreases head.number
  {
    var hit := !beyondRoot && head.root == root;
    var beyond := beyondRoot || hit || (noState && head.root in states);
    assert beyond <==> PathBeyond(s, line, root, noState, states, head.number);
    if beyond && (head.root in states || head.root in recoverable) {
    } else {
      assert !PathGood(s, line, root, noState, pivot, states, recoverable, head.number);
      if !(pivot.Some? && pivot.value >= head.number) && head.number > 1 {
        assert s[line[head.number]].parent == line[head.number - 1];
        PathSearchDown(s, g, line, Parent(s, head).value, head.number, root, noState, pivot, states, recoverable,
                       beyond, if hit then head.number else rootNumber);
      }
    }
  }
}
