/** The header chain: batches of headers, header-only reorganisation and ancestor queries. */
module HeaderChains {
  import opened Options
  import opened Chain

  datatype HeaderError = Ok | UnknownAncestor | MissingParent(number: nat, hash: Hash)

  datatype WriteStatus = NonStat | Canon

  /** All chains share the stored genesis. */
  ghost predicate OneGenesis(s: Store, g: Hash) {
    forall h | h in s && s[h].number == 0 :: h == g
  }

  /** A validated batch: consecutive numbers, each header the parent of the next. */
  ghost predicate Batch(hs: seq<Header>) {
    forall i | 0 < i < |hs| :: hs[i].parent == hs[i - 1].hash && hs[i].number == hs[i - 1].number + 1
  }

  ghost predicate Held(s: Store, hs: seq<Header>) {
    forall i | 0 <= i < |hs| :: hs[i].hash in s && s[hs[i].hash] == hs[i]
  }

  ghost function Hashes(hs: seq<Header>): (r: seq<Hash>)
    ensures |r| == |hs| && forall i | 0 <= i < |hs| :: r[i] == hs[i].hash
  {
    if hs == [] then [] else Hashes(hs[..|hs| - 1]) + [hs[|hs| - 1].hash]
  }

  /** The line of the last header of a stored batch, given that of the header below it. */
  lemma BatchLine(s: Store, g: Hash, line: seq<Hash>, hs: seq<Header>)
    requires Keyed(s) && Batch(hs) && Held(s, hs) && |hs| > 0
    requires Linked(s, g, line) && hs[0].parent == line[|line| - 1] && hs[0].number == |line|
    ensures Rooted(s, g, hs[|hs| - 1].hash)
    ensures Line(s, g, hs[|hs| - 1].hash) == line + Hashes(hs)
    ensures forall i | 0 <= i < |hs| :: hs[i].number == |line| + i
  {
    BatchNumbers(hs);
    var l := line + Hashes(hs);
    forall n | 0 < n < |l| ensures l[n] in s && s[l[n]].number == n && s[l[n]].parent == l[n - 1] {
      if n >= |line| {
        assert l[n] == hs[n - |line|].hash;
      }
    }
    LinkedIsLine(s, g, l);
  }

  lemma {:induction false} BatchNumbers(hs: seq<Header>)
    requires Batch(hs)
    ensures forall i | 0 <= i < |hs| :: hs[i].number == hs[0].number + i
    decreases |hs|
  {
    if |hs| > 1 {
      BatchNumbers(hs[..|hs| - 1]);
      assert forall i | 0 <= i < |hs| - 1 :: hs[..|hs| - 1][i] == hs[i];
      assert hs[|hs| - 1].number == hs[|hs| - 2].number + 1;
    }
  }

  /** If the first header of a batch has no line, nor has the last. */
  lemma {:induction false} BatchUnrooted(s: Store, g: Hash, hs: seq<Header>)
    requires Keyed(s) && Batch(hs) && Held(s, hs) && |hs| > 0
    ensures Rooted(s, g, hs[|hs| - 1].hash) <==> Rooted(s, g, hs[0].hash)
    decreases |hs|
  {
    if |hs| > 1 {
      var shorter := hs[..|hs| - 1];
      BatchUnrooted(s, g, shorter);
      assert shorter[|shorter| - 1] == hs[|hs| - 2];
    }
  }

  /** No marker of o is right for l from lo up to hi. */
  ghost predicate Wrong(o: seq<Hash>, l: seq<Hash>, lo: nat, hi: int) {
    forall i | lo <= i < hi && i < |l| && i < |o| :: o[i] != l[i]
  }

  /** The markers that survive and those written when the chain moves from line o to line l. */
  lemma MarksMoved(o: seq<Hash>, l: seq<Hash>, x: nat, deletes: set<nat>)
    requires Agree(o, l, x)
    requires forall n :: n in deletes <==> |l| <= n < |o|
    ensures Marks(o) - deletes + Span(l, x, |l|) == Marks(l)
  {
  }

  lemma {:induction false} SpanLocal(l: seq<Hash>, l': seq<Hash>, lo: nat, hi: nat)
    requires lo <= hi <= |l| && hi <= |l'| && forall n | lo <= n < hi :: l[n] == l'[n]
    ensures Span(l, lo, hi) == Span(l', lo, hi)
    decreases hi - lo
  {
    if lo < hi {
      SpanLocal(l, l', lo, hi - 1);
    }
  }

  class HeaderChain {
    const genesis: Hash

    // The database.
    var headers: Store
    var canonical: map<nat, Hash>
    var headHeaderHash: Hash

    // In-memory head.
    var currentHeader: Header
    var currentHeaderHash: Hash

    /** A chain that consists of its genesis. */
    constructor (g: Header)
      requires g.number == 0 && g.hash != ZERO_HASH && g.parent != g.hash
      ensures Valid() && currentHeader == g && genesis == g.hash && headers == map[g.hash := g]
    {
      genesis, headers, canonical := g.hash, map[g.hash := g], map[0 := g.hash];
      headHeaderHash, currentHeader, currentHeaderHash := g.hash, g, g.hash;
      new;
      assert Line(headers, genesis, g.hash) == [g.hash];
    }

    ghost predicate StoreOk()
      reads `headers
    {
      Keyed(headers) && Numbered(headers) && OneGenesis(headers, genesis)
    }

    /** The markers are exactly the ancestry of the current header. */
    ghost predicate Valid()
      reads this
    {
      && StoreOk() && headHeaderHash == currentHeaderHash == currentHeader.hash
      && Rooted(headers, genesis, currentHeaderHash) && headers[currentHeaderHash] == currentHeader
      && canonical == Marks(Line(headers, genesis, currentHeaderHash))
    }

    /** Collects the markers above number for deletion. */
    method MarkersAbove(number: nat, ghost top: nat) returns (deletes: set<nat>)
      requires forall n: nat :: n in canonical <==> n < top
      ensures forall n :: n in deletes <==> number < n < top
    {
      deletes := {};
      var i := number + 1;
      while i in canonical
        invariant number < i && (i <= top || i == number + 1)
        invariant forall n :: n in deletes <==> number < n < i
        decreases top - i
      {
        deletes := deletes + {i};
        i := i + 1;
      }
    }

    /**
     Walks down from first, staging markers, until it meets a marker that is already right.
     x is the length of the part of first's line that needs no writing.
     */
    method CrossLink(first: Header, ghost o: seq<Hash>, ghost l: seq<Hash>)
      returns (err: HeaderError, puts: map<nat, Hash>, ghost x: nat)
      requires StoreOk() && canonical == Marks(o) && Linked(headers, genesis, o)
      requires first.hash in headers && headers[first.hash] == first
      requires if Rooted(headers, genesis, first.hash) then l == Line(headers, genesis, first.hash) else l == []
      ensures (err.Ok? || err.MissingParent?) && (err == Ok <==> Rooted(headers, genesis, first.hash))
      ensures err == Ok ==> Agree(o, l, x) && puts == Span(l, x, |l|) && Wrong(o, l, x, |l|)
    {
      puts := map[];
      ghost var s := headers;
      var header, headNumber, headHash := first, first.number, first.hash;
      if l != [] {
        LineIsLinked(headers, genesis, first.hash);
      }
      x := first.number + 1;
      while headNumber !in canonical || canonical[headNumber] != headHash
        invariant header.hash == headHash && header.number == headNumber && x == headNumber + 1
        invariant headHash in headers && headers[headHash] == header
        invariant Rooted(headers, genesis, headHash) <==> l != []
        invariant l != [] ==> x <= |l| && l[headNumber] == headHash && puts == Span(l, x, |l|) && Wrong(o, l, x, |l|)
        decreases headNumber
      {
        if headNumber == 0 {
          // Every header of number 0 is the genesis, whose marker is right.
          assert false;
        }
        puts := puts[headNumber := headHash];
        if l != [] {
          ghost var y := x - 1;
          assert y + 1 == x;
          SpanFront(l, y, x, |l|);
          x := y;
        }
        var parent := GetHeader(headers, header.parent, headNumber - 1);
        if parent.None? {
          return MissingParent(headNumber - 1, header.parent), puts, x;
        }
        header, headNumber, headHash := parent.value, headNumber - 1, header.parent;
        x := headNumber + 1;
      }
      CrossLinked(headers, genesis, o, l, headNumber, x);
      return Ok, puts, x;
    }

    /** Stages the markers of the batch itself on top of those below it. */
    method ExtendMarks(hs: seq<Header>, puts: map<nat, Hash>, ghost below: seq<Hash>, ghost l: seq<Hash>, ghost x: nat)
      returns (r: map<nat, Hash>)
      requires x <= |below| && puts == Span(below, x, |below|) && l == below + Hashes(hs)
      requires forall i | 0 <= i < |hs| :: hs[i].number == |below| + i
      ensures r == Span(l, x, |l|)
    {
      r := puts;
      SpanLocal(below, l, x, |below|);
      ghost var hi := |below|;
      assert r == Span(l, x, hi);
      for i := 0 to |hs|
        invariant hi == |below| + i && r == Span(l, x, hi)
      {
        ghost var next := hi + 1;
        SpanGrows(map[], l, x, hi, next);
        assert hs[i].number == hi && hs[i].hash == l[hi];
        r := r[hs[i].number := hs[i].hash];
        hi := next;
      }
      assert hi == |l|;
    }

    /** First header not on top of the head: markers above go, and the cross link is searched for. */
    method StageFork(first: Header, last: Header, ghost o: seq<Hash>)
      returns (err: HeaderError, deletes: set<nat>, puts: map<nat, Hash>, ghost x: nat, ghost l: seq<Hash>)
      requires StoreOk() && canonical == Marks(o) && Linked(headers, genesis, o)
      requires first.hash in headers && headers[first.hash] == first
      ensures (err.Ok? || err.MissingParent?) && (err.Ok? <==> Rooted(headers, genesis, first.hash))
      ensures err.Ok? ==> l == Line(headers, genesis, first.hash)
      ensures err.Ok? ==> x < |l| && Agree(o, l, x) && puts == Span(l, x, |l|) && Wrong(o, l, x, |l| - 1)
      ensures forall n :: n in deletes <==> last.number < n < |o|
    {
      deletes := MarkersAbove(last.number, |o|);
      l := if Rooted(headers, genesis, first.hash) then Line(headers, genesis, first.hash) else [];
      err, puts, x := CrossLink(first, o, l);
      if err.Ok? {
        assert first.number == |l| - 1 && first.hash == l[|l| - 1];
        puts := puts[first.number := first.hash];
        x := SpanTop(l, x, puts);
      }
    }

    /** First header on top of the head: one marker, nothing to delete. */
    method StageChild(first: Header, ghost o: seq<Hash>)
      returns (puts: map<nat, Hash>, ghost x: nat, ghost l: seq<Hash>)
      requires StoreOk() && Rooted(headers, genesis, currentHeaderHash)
               && o == Line(headers, genesis, currentHeaderHash)
      requires first.hash in headers && headers[first.hash] == first && first.parent == currentHeaderHash
      ensures Rooted(headers, genesis, first.hash) && l == Line(headers, genesis, first.hash) && |l| == |o| + 1
      ensures x == |o| && Agree(o, l, x) && puts == Span(l, x, |l|)
    {
      x := |o|;
      DirectChild(headers, genesis, currentHeaderHash, first);
      l := Line(headers, genesis, first.hash);
      puts := map[first.number := first.hash];
      OneMark(l, x, puts);
    }

    /** The part of the batch's line below its second header: cross link, or plain extension. */
    method StageFirst(hs: seq<Header>, ghost o: seq<Hash>)
      returns (err: HeaderError, deletes: set<nat>, puts: map<nat, Hash>, ghost x: nat, ghost l: seq<Hash>)
      requires StoreOk() && Batch(hs) && Held(headers, hs) && |hs| > 0 && canonical == Marks(o)
      requires Rooted(headers, genesis, currentHeaderHash) && o == Line(headers, genesis, currentHeaderHash)
      ensures (err.Ok? || err.MissingParent?) && (err.Ok? <==> Rooted(headers, genesis, hs[0].hash))
      ensures err.Ok? ==> l == Line(headers, genesis, hs[0].hash)
      ensures err.Ok? ==> x < |l| && Agree(o, l, x) && puts == Span(l, x, |l|) && Wrong(o, l, x, |l| - 1)
      ensures err.Ok? ==> forall n :: n in deletes <==> hs[|hs| - 1].number < n < |o|
    {
      if hs[0].parent != currentHeaderHash {
        LineIsLinked(headers, genesis, currentHeaderHash);
        err, deletes, puts, x, l := StageFork(hs[0], hs[|hs| - 1], o);
      } else {
        BatchNumbers(hs);
        err, deletes := Ok, {};
        puts, x, l := StageChild(hs[0], o);
      }
    }

    /** Stages the whole write: applied to the markers it leaves exactly the line of the last header. */
    method Stage(hs: seq<Header>) returns (err: HeaderError, deletes: set<nat>, puts: map<nat, Hash>)
      requires Valid() && Batch(hs) && Held(headers, hs) && |hs| > 0
      ensures (err.Ok? || err.MissingParent?) && (err.Ok? <==> Rooted(headers, genesis, hs[|hs| - 1].hash))
      ensures err.Ok? ==> canonical - deletes + puts == Marks(Line(headers, genesis, hs[|hs| - 1].hash))
    {
      ghost var o := Line(headers, genesis, currentHeaderHash);
      ghost var x, l;
      err, deletes, puts, x, l := StageFirst(hs, o);
      BatchUnrooted(headers, genesis, hs);
      if err.Ok? {
        ghost var line := Line(headers, genesis, hs[|hs| - 1].hash);
        BatchReady(headers, genesis, o, hs, l, x, deletes, line);
        puts := ExtendMarks(hs[1..], puts, l, line, x);
        MarksMoved(o, line, x, deletes);
      }
    }

    /**
     Makes a stored batch canonical. Fails, and then changes nothing, exactly when the
     batch does not lead down to the genesis.
     */
    method Reorg(hs: seq<Header>) returns (err: HeaderError)
      requires Valid() && Batch(hs) && Held(headers, hs)
      modifies `canonical, `headHeaderHash, `currentHeader, `currentHeaderHash
      ensures Valid() && (err.Ok? || err.MissingParent?)
      ensures hs == [] ==> err.Ok? && unchanged(this)
      ensures hs != [] ==> (err.Ok? <==> Rooted(headers, genesis, hs[|hs| - 1].hash))
      ensures !err.Ok? ==> unchanged(this)
      ensures hs != [] && err.Ok? ==> currentHeader == hs[|hs| - 1]
    {
      if |hs| == 0 {
        return Ok;
      }
      var last := hs[|hs| - 1];
      var deletes, puts;
      err, deletes, puts := Stage(hs);
      if !err.Ok? {
        return;
      }
      canonical := canonical - deletes + puts;
      headHeaderHash := last.hash;
      currentHeaderHash := last.hash;
      currentHeader := last;
    }

    /**
     Stores a batch whose parent is known. Headers are skipped as long as they are already
     stored; from the first unknown one on all are written.
     */
    method WriteHeaders(hs: seq<Header>) returns (inserted: nat, err: HeaderError)
      requires Consistent(headers, hs)
      modifies `headers
      ensures err.Ok? || err.UnknownAncestor?
      ensures err.UnknownAncestor? <==> hs != [] && Parent(old(headers), hs[0]).None?
      ensures err.UnknownAncestor? ==> inserted == 0 && headers == old(headers)
      ensures err.Ok? ==> headers == Merge(old(headers), hs) && inserted == |hs| - KnownPrefix(old(headers), hs)
    {
      if |hs| == 0 {
        return 0, Ok;
      }
      if Parent(headers, hs[0]).None? {
        return 0, UnknownAncestor;
      }
      inserted := 0;
      var s, parentKnown, batch: Store := headers, true, map[];
      ghost var known := 0;
      assert s + batch == Merge(s, hs[..0]);
      for i := 0 to |hs|
        invariant s + batch == Merge(s, hs[..i])
        invariant known <= i && inserted == i - known && (parentKnown <==> known == i)
        invariant forall j | 0 <= j < known :: hs[j].hash in s
        invariant known < i ==> hs[known].hash !in s
      {
        MergeStep(s, batch, hs, i, i + 1);
        var alreadyKnown := parentKnown && hs[i].hash in s && s[hs[i].hash].number == hs[i].number;
        if alreadyKnown {
          known := known + 1;
        } else {
          batch := batch[hs[i].hash := hs[i]];
          inserted := inserted + 1;
        }
        parentKnown := alreadyKnown;
      }
      assert hs[..|hs|] == hs;
      KnownPrefixIs(s, hs, known);
      headers := s + batch;
      return inserted, Ok;
    }

    /** Storing a batch keeps the chain valid and gives its last header a line if its parent had one. */
    method ImportHeaders(hs: seq<Header>) returns (imported: nat, err: HeaderError)
      requires Valid() && Batch(hs) && Joins(headers, hs) && |hs| > 0
      modifies `headers
      ensures Valid() && (err.Ok? || err.UnknownAncestor?)
      ensures err.UnknownAncestor? <==> old(Parent(headers, hs[0]).None?)
      ensures err.UnknownAncestor? ==> headers == old(headers)
      ensures Line(headers, genesis, currentHeaderHash) == old(Line(headers, genesis, currentHeaderHash))
      ensures err.Ok? ==> headers == Merge(old(headers), hs) && Held(headers, hs)
      ensures err.Ok? ==> imported <= |hs| && |hs| - imported == KnownPrefix(old(headers), hs)
      ensures err.Ok? ==> (Rooted(headers, genesis, hs[|hs| - 1].hash) <==> old(Rooted(headers, genesis, hs[0].parent)))
    {
      ghost var s := headers;
      imported, err := WriteHeaders(hs);
      if err.Ok? {
        Imported(s, headers, genesis, currentHeaderHash, hs);
      }
    }

    /**
     Stores a batch and makes its last header the head, unless that header is canonical
     already: then the chain is left as long as it is.
     */
    method WriteHeadersAndSetHead(hs: seq<Header>)
      returns (err: HeaderError, status: WriteStatus, ignored: nat, imported: nat)
      requires Valid() && Batch(hs) && Joins(headers, hs) && |hs| > 0
      modifies this
      ensures Valid()
      ensures err.UnknownAncestor? <==> old(Parent(headers, hs[0]).None?)
      ensures err.UnknownAncestor? ==> unchanged(this)
      ensures !err.UnknownAncestor? ==> headers == Merge(old(headers), hs)
      ensures err.MissingParent? ==> unchanged(`canonical, `currentHeader, `currentHeaderHash, `headHeaderHash)
      ensures err.Ok? ==> ignored + imported == |hs| && ignored == KnownPrefix(old(headers), hs)
      ensures err.Ok? && hs[|hs| - 1].hash in old(Line(headers, genesis, currentHeaderHash)) ==>
                status == NonStat && unchanged(`canonical, `currentHeader, `currentHeaderHash, `headHeaderHash)
      ensures err.Ok? && hs[|hs| - 1].hash !in old(Line(headers, genesis, currentHeaderHash)) ==>
                status == Canon && currentHeader == hs[|hs| - 1]
      ensures !err.UnknownAncestor? ==> (err.Ok? <==> old(Rooted(headers, genesis, hs[0].parent)))
    {
      status, ignored := NonStat, 0;
      imported, err := ImportHeaders(hs);
      if !err.Ok? {
        return;
      }
      ignored := |hs| - imported;
      var last := hs[|hs| - 1];
      OnLine(headers, genesis, currentHeaderHash, last);
      if last.number in canonical && canonical[last.number] == last.hash && last.number <= currentHeader.number {
        return;
      }
      err := Reorg(hs);
      if err.Ok? {
        status := Canon;
      }
    }
  }

  lemma SpanFront(l: seq<Hash>, y: nat, x: nat, hi: nat)
    requires x == y + 1 && x <= hi <= |l|
    ensures Span(l, x, hi)[y := l[y]] == Span(l, y, hi)
  {
  }

  /** A walk that meets a canonical marker belongs to a rooted header and agrees from there down. */
  lemma CrossLinked(s: Store, g: Hash, o: seq<Hash>, l: seq<Hash>, n: nat, x: nat)
    requires Linked(s, g, o) && n < |o| && x == n + 1
    requires Rooted(s, g, o[n]) ==> Linked(s, g, l) && n < |l| && l[n] == o[n]
    ensures Rooted(s, g, o[n]) && Agree(o, l, x)
  {
    LinkedIsLine(s, g, o[..x]);
    LinkedIsLine(s, g, l[..x]);
    assert forall i | 0 <= i < x :: o[..x][i] == o[i] && l[..x][i] == l[i];
  }

  /** The line of a batch, given the line l of its first header. */
  lemma FirstLine(s: Store, g: Hash, hs: seq<Header>, l: seq<Hash>)
    requires Keyed(s) && Batch(hs) && Held(s, hs) && |hs| > 0
    requires Rooted(s, g, hs[0].hash) && l == Line(s, g, hs[0].hash)
    ensures |l| == hs[0].number + 1
    ensures forall i | 0 <= i < |hs[1..]| :: hs[1..][i].number == |l| + i
    ensures Rooted(s, g, hs[|hs| - 1].hash) && Line(s, g, hs[|hs| - 1].hash) == l + Hashes(hs[1..])
  {
    LineIsLinked(s, g, hs[0].hash);
    if |hs| > 1 {
      assert forall i | 0 <= i < |hs[1..]| :: hs[1..][i] == hs[i + 1];
      BatchLine(s, g, l, hs[1..]);
    }
  }

  lemma BatchReady(s: Store, g: Hash, o: seq<Hash>, hs: seq<Header>, l: seq<Hash>, x: nat, deletes: set<nat>,
                   line: seq<Hash>)
    requires Keyed(s) && Batch(hs) && Held(s, hs) && |hs| > 0
    requires Rooted(s, g, hs[0].hash) && l == Line(s, g, hs[0].hash) && Agree(o, l, x)
    requires Rooted(s, g, hs[|hs| - 1].hash) && line == Line(s, g, hs[|hs| - 1].hash)
    requires forall n :: n in deletes <==> hs[|hs| - 1].number < n < |o|
    ensures line == l + Hashes(hs[1..]) && Agree(o, line, x)
    ensures forall i | 0 <= i < |hs[1..]| :: hs[1..][i].number == |l| + i
    ensures forall n :: n in deletes <==> |line| <= n < |o|
  {
    FirstLine(s, g, hs, l);
  }

  lemma OneMark(l: seq<Hash>, x: nat, puts: map<nat, Hash>)
    requires x + 1 == |l| && puts == map[x := l[x]]
    ensures puts == Span(l, x, |l|)
  {
  }

  /** Rewriting the top marker of a span, which may be the only one missing. */
  lemma SpanTop(l: seq<Hash>, x: nat, puts: map<nat, Hash>) returns (x': nat)
    requires |l| > 0 && x <= |l| && puts == Span(l, x, |l|)[|l| - 1 := l[|l| - 1]]
    ensures x' == (if x == |l| then |l| - 1 else x) && puts == Span(l, x', |l|)
  {
    x' := if x == |l| then |l| - 1 else x;
  }

  /** Equal hashes mean equal headers. */
  ghost predicate Consistent(s: Store, hs: seq<Header>) {
    forall i | 0 <= i < |hs| && hs[i].hash in s :: s[hs[i].hash] == hs[i]
  }

  /** A batch that can join a store of verified headers with collision-free hashes. */
  ghost predicate Joins(s: Store, hs: seq<Header>) {
    && Consistent(s, hs)
    && (forall i | 0 <= i < |hs| :: hs[i].hash != ZERO_HASH)
    && (forall i, j | 0 <= i < j < |hs| :: hs[i].hash != hs[j].hash)
    && (forall i | 0 <= i < |hs| && hs[i].parent in s :: hs[i].number == s[hs[i].parent].number + 1)
    && (forall i, j | 0 <= i < |hs| && 0 <= j < |hs| && hs[i].parent == hs[j].hash :: hs[i].number == hs[j].number + 1)
    && (forall i, h | 0 <= i < |hs| && h in s && s[h].parent == hs[i].hash :: s[h].number == hs[i].number + 1)
  }

  ghost function Merge(s: Store, hs: seq<Header>): Store {
    if hs == [] then s else Merge(s, hs[..|hs| - 1])[hs[|hs| - 1].hash := hs[|hs| - 1]]
  }

  /** How many headers at the start of a batch are stored already. */
  ghost function KnownPrefix(s: Store, hs: seq<Header>): nat {
    if hs == [] || hs[0].hash !in s then 0 else 1 + KnownPrefix(s, hs[1..])
  }

  lemma {:induction false} KnownPrefixIs(s: Store, hs: seq<Header>, k: nat)
    requires k <= |hs| && (forall j | 0 <= j < k :: hs[j].hash in s) && (k < |hs| ==> hs[k].hash !in s)
    ensures KnownPrefix(s, hs) == k
    decreases |hs|
  {
    if k > 0 {
      KnownPrefixIs(s, hs[1..], k - 1);
    }
  }

  lemma {:induction false} KnownPrefixBound(s: Store, hs: seq<Header>)
    ensures KnownPrefix(s, hs) <= |hs|
    decreases |hs|
  {
    if hs != [] && hs[0].hash in s {
      KnownPrefixBound(s, hs[1..]);
    }
  }

  /** Merging keeps what is stored and adds exactly the batch. */
  lemma {:induction false} MergeKeeps(s: Store, hs: seq<Header>)
    requires Consistent(s, hs)
    ensures forall h | h in s :: h in Merge(s, hs) && Merge(s, hs)[h] == s[h]
    ensures forall h | h in Merge(s, hs) ::
              h in s || exists i :: 0 <= i < |hs| && hs[i].hash == h && Merge(s, hs)[h] == hs[i]
    decreases |hs|
  {
    if hs != [] {
      var shorter := hs[..|hs| - 1];
      MergeKeeps(s, shorter);
      forall h | h in Merge(s, hs) && h !in s
        ensures exists i :: 0 <= i < |hs| && hs[i].hash == h && Merge(s, hs)[h] == hs[i]
      {
        if h == hs[|hs| - 1].hash {
          assert hs[|hs| - 1].hash == h;
        } else {
          var i :| 0 <= i < |shorter| && shorter[i].hash == h && Merge(s, shorter)[h] == shorter[i];
          assert hs[i] == shorter[i];
        }
      }
    }
  }

  lemma MergeStep(s: Store, batch: Store, hs: seq<Header>, i: nat, next: nat)
    requires i < |hs| && next == i + 1 && Consistent(s, hs)
    requires s + batch == Merge(s, hs[..i])
    ensures s + batch[hs[i].hash := hs[i]] == Merge(s, hs[..next])
    ensures hs[i].hash in s ==> s + batch == Merge(s, hs[..next])
  {
    var m := Merge(s, hs[..i]);
    assert hs[..next][..i] == hs[..i];
    assert Merge(s, hs[..next]) == m[hs[i].hash := hs[i]];
    if hs[i].hash in s {
      MergeKeeps(s, hs[..i]);
      assert m[hs[i].hash] == hs[i];
    }
  }

  lemma {:induction false} MergeHolds(s: Store, hs: seq<Header>)
    requires forall i, j | 0 <= i < j < |hs| :: hs[i].hash != hs[j].hash
    ensures Held(Merge(s, hs), hs)
    decreases |hs|
  {
    if hs != [] {
      var shorter := hs[..|hs| - 1];
      MergeHolds(s, shorter);
      assert forall i | 0 <= i < |shorter| :: shorter[i] == hs[i];
    }
  }

  /** A joined batch leaves a well-formed store. */
  lemma Joined(s: Store, t: Store, g: Hash, hs: seq<Header>)
    requires Keyed(s) && Numbered(s) && OneGenesis(s, g) && Batch(hs) && Joins(s, hs) && t == Merge(s, hs)
    requires |hs| > 0 && Parent(s, hs[0]).Some?
    ensures Keyed(t) && Numbered(t) && OneGenesis(t, g) && Held(t, hs)
    ensures forall h | h in s :: h in t && t[h] == s[h]
  {
    MergeKeeps(s, hs);
    MergeHolds(s, hs);
    BatchNumbers(hs);
  }

  /** A joined batch leaves the current line alone and has a line itself iff its parent had one. */
  lemma Imported(s: Store, t: Store, g: Hash, head: Hash, hs: seq<Header>)
    requires Keyed(s) && Numbered(s) && OneGenesis(s, g) && Batch(hs) && Joins(s, hs) && t == Merge(s, hs)
    requires |hs| > 0 && Parent(s, hs[0]).Some? && Rooted(s, g, head)
    ensures Keyed(t) && Numbered(t) && OneGenesis(t, g) && Held(t, hs)
    ensures Rooted(t, g, head) && Line(t, g, head) == Line(s, g, head) && t[head] == s[head]
    ensures KnownPrefix(s, hs) <= |hs|
    ensures Rooted(t, g, hs[|hs| - 1].hash) <==> Rooted(s, g, hs[0].parent)
  {
    Joined(s, t, g, hs);
    LineGrows(s, t, g, head);
    KnownPrefixBound(s, hs);
    RootedBatch(s, t, g, hs);
  }

  lemma OnLine(s: Store, g: Hash, head: Hash, last: Header)
    requires Rooted(s, g, head) && last.hash in s && s[last.hash] == last
    ensures var m := Marks(Line(s, g, head));
            last.hash in Line(s, g, head) <==>
            (last.number in m && m[last.number] == last.hash && last.number <= s[head].number)
    ensures last.hash in Line(s, g, head) ==> Rooted(s, g, last.hash)
  {
    LineIsLinked(s, g, head);
    if last.hash in Line(s, g, head) {
      LinePrefix(s, g, head, last.number);
    }
  }

  /** The batch has a line exactly if the stored header below it had one. */
  lemma RootedBatch(s: Store, t: Store, g: Hash, hs: seq<Header>)
    requires Keyed(t) && Batch(hs) && Held(t, hs) && |hs| > 0 && Parent(s, hs[0]).Some?
    requires Joins(s, hs) && t == Merge(s, hs)
    ensures Rooted(t, g, hs[|hs| - 1].hash) <==> Rooted(s, g, hs[0].parent)
  {
    BatchUnrooted(t, g, hs);
    MergeKeeps(s, hs);
    BatchNumbers(hs);
    if Rooted(s, g, hs[0].parent) {
      LineGrows(s, t, g, hs[0].parent);
    } else {
      StaysUnrooted(s, t, g, hs, hs[0].parent);
    }
  }

  /** A header below a batch gains no line from it. */
  lemma {:induction false} StaysUnrooted(s: Store, t: Store, g: Hash, hs: seq<Header>, h: Hash)
    requires |hs| > 0 && (forall k | k in s :: k in t && t[k] == s[k])
    requires forall k | k in t && k !in s :: t[k].number >= hs[0].number
    requires h in s && s[h].number < hs[0].number && !Rooted(s, g, h)
    ensures !Rooted(t, g, h)
    decreases s[h].number
  {
    if s[h].number > 0 && Parent(s, s[h]).Some? {
      StaysUnrooted(s, t, g, hs, s[h].parent);
    }
  }
}
