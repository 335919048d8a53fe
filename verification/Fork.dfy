/** Finding the fork point of two heads by walking both chains down. */
module Fork {
  import opened Options
  import opened Chain

  datatype ReorgError = NoError | InvalidOldChain | InvalidNewChain

  /** The header i places below the top of the line. */
  ghost function FromTop(s: Store, line: seq<Hash>, i: nat): Option<Header> {
    if i < |line| && line[|line| - 1 - i] in s then Some(s[line[|line| - 1 - i]]) else None
  }

  /** chain holds the headers of the line from its top downwards. */
  ghost predicate Walked(s: Store, line: seq<Hash>, chain: seq<Header>) {
    forall i | 0 <= i < |chain| :: FromTop(s, line, i) == Some(chain[i])
  }

  /** chain names the blocks of the line from its top downwards. */
  ghost predicate Names(line: seq<Hash>, chain: seq<Header>) {
    && |chain| <= |line|
    && forall i | 0 <= i < |chain| :: chain[i].hash == line[|line| - 1 - i] && chain[i].number == |line| - 1 - i
  }

  lemma WalkedNames(s: Store, g: Hash, line: seq<Hash>, chain: seq<Header>)
    requires Keyed(s) && Linked(s, g, line) && |chain| <= |line| && Walked(s, line, chain)
    ensures Names(line, chain)
  {
    forall i | 0 <= i < |chain| ensures chain[i].hash == line[|line| - 1 - i] && chain[i].number == |line| - 1 - i {
      assert FromTop(s, line, i) == Some(chain[i]);
    }
  }

  /** The cursor stands |chain| blocks below the top of the line. */
  ghost predicate At(s: Store, line: seq<Hash>, chain: seq<Header>, cursor: Option<Header>) {
    && |chain| < |line|
    && cursor.Some? && cursor == FromTop(s, line, |chain|)
    && Walked(s, line, chain)
  }

  lemma StepDown(s: Store, g: Hash, line: seq<Hash>, chain: seq<Header>, cursor: Header)
    requires Linked(s, g, line) && At(s, line, chain, Some(cursor)) && cursor.number > 0
    ensures At(s, line, chain + [cursor], Parent(s, cursor))
  {
    var k := |line| - 1 - |chain|;
    assert line[k - 1] in s && s[line[k]].parent == line[k - 1];
  }

  /** Where the walk from the new head stands. A head with no line (line == []) never gains one. */
  ghost predicate NewSide(s: Store, g: Hash, line: seq<Hash>, top: nat, chain: seq<Header>, cursor: Option<Header>) {
    && (line != [] ==> Linked(s, g, line) && At(s, line, chain, cursor))
    && (line == [] && cursor.Some? ==> Unrooted(s, g, cursor.value))
    && (cursor.Some? ==> cursor.value.number + |chain| == top)
  }

  ghost predicate Unrooted(s: Store, g: Hash, h: Header) {
    h.hash in s && s[h.hash] == h && !Rooted(s, g, h.hash)
  }

  lemma StepNew(s: Store, g: Hash, line: seq<Hash>, top: nat, chain: seq<Header>, cursor: Header)
    requires Keyed(s) && NewSide(s, g, line, top, chain, Some(cursor))
    ensures cursor.number > 0 ==> NewSide(s, g, line, top, chain + [cursor], Parent(s, cursor))
    ensures cursor.number == 0 && cursor.hash != g ==> line == []
  {
    if line != [] && cursor.number > 0 {
      StepDown(s, g, line, chain, cursor);
    }
  }

  /** What a successful search returns: both branches above the last shared block, top first. */
  ghost predicate Branches(o: seq<Hash>, n: seq<Hash>, oldChain: seq<Header>, newChain: seq<Header>, common: Header) {
    var c := Shared(o, n);
    && c >= 1 && common.hash == o[c - 1] && common.number == c - 1
    && Names(o, oldChain) && |oldChain| == |o| - c
    && Names(n, newChain) && |newChain| == |n| - c
  }

  lemma LinkedAgreeBelow(s: Store, g: Hash, o: seq<Hash>, n: seq<Hash>, k: nat)
    requires Linked(s, g, o) && Linked(s, g, n) && k < |o| && k < |n| && o[k] == n[k]
    ensures o[..k + 1] == n[..k + 1]
  {
    LinkedIsLine(s, g, o[..k + 1]);
    LinkedIsLine(s, g, n[..k + 1]);
  }

  lemma ForkFound(s: Store, g: Hash, o: seq<Hash>, n: seq<Hash>, top: nat, oldChain: seq<Header>, newChain: seq<Header>,
                  common: Header)
    requires Keyed(s) && Linked(s, g, o) && At(s, o, oldChain, Some(common))
    requires n != [] && NewSide(s, g, n, top, newChain, Some(common))
    requires |oldChain| > 0 && |newChain| > 0 ==> oldChain[|oldChain| - 1].hash != newChain[|newChain| - 1].hash
    ensures Branches(o, n, oldChain, newChain, common)
  {
    var k := common.number;
    LinkedAgreeBelow(s, g, o, n, k);
    SharedIsUnique(o, n, k + 1);
    WalkedNames(s, g, o, oldChain);
    WalkedNames(s, g, n, newChain);
  }

  lemma LinkedIsRooted(s: Store, g: Hash, line: seq<Hash>, k: nat)
    requires Linked(s, g, line) && k < |line|
    ensures Rooted(s, g, line[k])
  {
    LinkedIsLine(s, g, line[..k + 1]);
  }

  /** Brings the higher of two heads down to the height of the lower one. */
  method Level(s: Store, ghost g: Hash, ghost o: seq<Hash>, ghost n: seq<Hash>, oldTop: Header, newTop: Header)
    returns (oldHead: Header, newHead: Option<Header>, oldChain: seq<Header>, newChain: seq<Header>)
    requires Keyed(s) && Linked(s, g, o) && At(s, o, [], Some(oldTop))
             && NewSide(s, g, n, newTop.number, [], Some(newTop))
    ensures At(s, o, oldChain, Some(oldHead)) && NewSide(s, g, n, newTop.number, newChain, newHead)
    ensures newHead.None? ==> n == []
    ensures newHead.Some? ==> oldHead.number == newHead.value.number
    ensures oldChain == [] || newChain == []
  {
    oldChain, newChain := [], [];
    oldHead, newHead := oldTop, Some(newTop);
    if oldTop.number > newTop.number {
      while oldHead.number != newTop.number
        invariant At(s, o, oldChain, Some(oldHead)) && oldHead.number >= newTop.number
        decreases oldHead.number
      {
        StepDown(s, g, o, oldChain, oldHead);
        oldChain := oldChain + [oldHead];
        oldHead := Parent(s, oldHead).value;
      }
    } else {
      while newHead.Some? && newHead.value.number != oldTop.number
        invariant NewSide(s, g, n, newTop.number, newChain, newHead)
        invariant newHead.Some? ==> newHead.value.number >= oldTop.number
        decreases if newHead.Some? then newHead.value.number + 1 else 0
      {
        StepNew(s, g, n, newTop.number, newChain, newHead.value);
        newChain := newChain + [newHead.value];
        newHead := Parent(s, newHead.value);
      }
    }
  }

  /** Walks both chains down from one height until they meet or one of them ends. */
  method Meet(s: Store, ghost g: Hash, ghost o: seq<Hash>, ghost n: seq<Hash>, ghost top: nat,
              oldTop: Header, newTop: Header, oldStart: seq<Header>, newStart: seq<Header>)
    returns (err: ReorgError, oldChain: seq<Header>, newChain: seq<Header>, common: Header)
    requires Keyed(s) && Linked(s, g, o) && At(s, o, oldStart, Some(oldTop))
             && NewSide(s, g, n, top, newStart, Some(newTop))
    requires oldTop.number == newTop.number && (oldStart == [] || newStart == [])
    ensures err.NoError? <==> n != []
    ensures err.NoError? ==> Branches(o, n, oldChain, newChain, common)
  {
    oldChain, newChain, common := oldStart, newStart, oldTop;
    var oldHead, newHead := oldTop, newTop;
    while oldHead.hash != newHead.hash
      invariant At(s, o, oldChain, Some(oldHead))
      invariant NewSide(s, g, n, top, newChain, Some(newHead))
      invariant oldHead.number == newHead.number
      invariant |oldChain| > 0 && |newChain| > 0 ==> oldChain[|oldChain| - 1].hash != newChain[|newChain| - 1].hash
      decreases oldHead.number
    {
      StepNew(s, g, n, top, newChain, newHead);
      if oldHead.number > 0 {
        StepDown(s, g, o, oldChain, oldHead);
      }
      oldChain, newChain := oldChain + [oldHead], newChain + [newHead];
      var oldParent := Parent(s, oldHead);
      if oldParent.None? {
        return InvalidOldChain, oldChain, newChain, common;
      }
      var newParent := Parent(s, newHead);
      if newParent.None? {
        return InvalidNewChain, oldChain, newChain, common;
      }
      oldHead, newHead := oldParent.value, newParent.value;
    }
    common := oldHead;
    LinkedIsRooted(s, g, o, oldHead.number);
    ForkFound(s, g, o, n, top, oldChain, newChain, common);
    return NoError, oldChain, newChain, common;
  }

  /** Walks the longer chain down to the height of the shorter, then both until they meet. */
  method FindFork(s: Store, ghost g: Hash, oldTop: Header, newTop: Header)
    returns (err: ReorgError, oldChain: seq<Header>, newChain: seq<Header>, common: Header)
    requires Keyed(s) && Rooted(s, g, oldTop.hash) && s[oldTop.hash] == oldTop
    requires newTop.hash in s && s[newTop.hash] == newTop
    ensures err.NoError? <==> Rooted(s, g, newTop.hash)
    ensures err.NoError? ==>
              Branches(Line(s, g, oldTop.hash), Line(s, g, newTop.hash), oldChain, newChain, common)
  {
    common := oldTop;
    ghost var o := Line(s, g, oldTop.hash);
    ghost var n := if Rooted(s, g, newTop.hash) then Line(s, g, newTop.hash) else [];
    LineIsLinked(s, g, oldTop.hash);
    if n != [] {
      LineIsLinked(s, g, newTop.hash);
    }
    var oldHead, newHead;
    oldHead, newHead, oldChain, newChain := Level(s, g, o, n, oldTop, newTop);
    if newHead.None? {
      return InvalidNewChain, oldChain, newChain, common;
    }
    err, oldChain, newChain, common := Meet(s, g, o, n, newTop.number, oldHead, newHead.value, oldChain, newChain);
  }
}
