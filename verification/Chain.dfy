/**
 Headers, the header store and the parent-linked line that leads from the genesis to a
 header. Every statement about canonical markers is made against that line.
 */
module Chain {
  import opened Options

  /** A Keccak hash; only equality matters. The zero hash is what a missing key reads as. */
  type Hash = nat

  const ZERO_HASH: Hash := 0

  datatype Header = Header(hash: Hash, parent: Hash, number: nat, root: Hash, time: nat)

  type Store = map<Hash, Header>

  /** Every header is stored under its own, non-zero hash. Nothing is said about parents. */
  ghost predicate Keyed(s: Store) {
    forall h | h in s :: s[h].hash == h && h != ZERO_HASH
  }

  /** Verified headers carry the number after that of their parent. */
  ghost predicate Numbered(s: Store) {
    forall h | h in s && s[h].parent in s :: s[h].number == s[s[h].parent].number + 1
  }

  /** A header is read by hash and number together, as the key holds both. */
  function GetHeader(s: Store, hash: Hash, number: nat): Option<Header> {
    if hash in s && s[hash].number == number then Some(s[hash]) else None
  }

  /** The header one below; below number 0 the wrapped-around number finds nothing. */
  function Parent(s: Store, h: Header): Option<Header> {
    if h.number == 0 then None else GetHeader(s, h.parent, h.number - 1)
  }

  /** h is stored and the parent links lead from it, one number at a time, to the genesis g. */
  ghost predicate Rooted(s: Store, g: Hash, h: Hash)
    decreases if h in s then s[h].number else 0
  {
    h in s &&
    if s[h].number == 0 then h == g
    else Parent(s, s[h]).Some? && Rooted(s, g, s[h].parent)
  }

  /** The hashes from the genesis up to h; position n holds the ancestor with number n. */
  ghost function Line(s: Store, g: Hash, h: Hash): (line: seq<Hash>)
    requires Rooted(s, g, h)
    ensures |line| == s[h].number + 1 && line[0] == g && line[|line| - 1] == h
    decreases s[h].number
  {
    if s[h].number == 0 then [h] else Line(s, g, s[h].parent) + [h]
  }

  /** The same notion without recursion: a linked run of stored headers above the genesis. */
  ghost predicate Linked(s: Store, g: Hash, line: seq<Hash>) {
    && |line| > 0 && line[0] == g
    && (forall n | 0 <= n < |line| :: line[n] in s && s[line[n]].number == n)
    && (forall n | 0 < n < |line| :: s[line[n]].parent == line[n - 1])
  }

  lemma {:induction false} LineIsLinked(s: Store, g: Hash, h: Hash)
    requires Rooted(s, g, h)
    ensures Linked(s, g, Line(s, g, h))
    decreases s[h].number
  {
    if s[h].number != 0 {
      LineIsLinked(s, g, s[h].parent);
    }
  }

  /** A linked run is the line of its last element: ancestry is unique. */
  lemma {:induction false} LinkedIsLine(s: Store, g: Hash, line: seq<Hash>)
    requires Linked(s, g, line)
    ensures Rooted(s, g, line[|line| - 1]) && Line(s, g, line[|line| - 1]) == line
    decreases |line|
  {
    if |line| > 1 {
      var shorter := line[..|line| - 1];
      LinkedIsLine(s, g, shorter);
      assert line == shorter + [line[|line| - 1]];
    }
  }

  /** Every prefix of a line is the line of the ancestor it ends in. */
  lemma LinePrefix(s: Store, g: Hash, h: Hash, n: nat)
    requires Rooted(s, g, h) && n <= s[h].number
    ensures Rooted(s, g, Line(s, g, h)[n])
    ensures Line(s, g, Line(s, g, h)[n]) == Line(s, g, h)[..n + 1]
  {
    LineIsLinked(s, g, h);
    LinkedIsLine(s, g, Line(s, g, h)[..n + 1]);
  }

  /** Storing more headers leaves the lines of the headers already there alone. */
  lemma {:induction false} LineGrows(s: Store, t: Store, g: Hash, h: Hash)
    requires Rooted(s, g, h)
    requires forall k | k in s :: k in t && t[k] == s[k]
    ensures Rooted(t, g, h) && Line(t, g, h) == Line(s, g, h)
    decreases s[h].number
  {
    if s[h].number != 0 {
      LineGrows(s, t, g, s[h].parent);
    }
  }

  /** A verified child of a rooted header is rooted, one step up. */
  lemma DirectChild(s: Store, g: Hash, h: Hash, child: Header)
    requires Keyed(s) && Numbered(s) && Rooted(s, g, h) && child.hash in s && s[child.hash] == child
             && child.parent == h
    ensures Rooted(s, g, child.hash) && Line(s, g, child.hash) == Line(s, g, h) + [child.hash]
  {
  }

  /** The number->hash markers of the stretch line[lo..hi]. */
  ghost function Span(line: seq<Hash>, lo: nat, hi: nat): (m: map<nat, Hash>)
    requires lo <= hi <= |line|
    ensures forall n: nat :: n in m <==> lo <= n < hi
    ensures forall n: nat | n in m :: m[n] == line[n]
  {
    if lo == hi then map[] else Span(line, lo, hi - 1)[hi - 1 := line[hi - 1]]
  }

  /** Writing the marker after a span, over whatever is there, extends the span. */
  lemma SpanGrows(m: map<nat, Hash>, line: seq<Hash>, lo: nat, hi: nat, next: nat)
    requires lo <= hi < |line| && next == hi + 1
    ensures (m + Span(line, lo, hi))[hi := line[hi]] == m + Span(line, lo, next)
    ensures Span(line, lo, hi)[hi := line[hi]] == Span(line, lo, next)
  {
  }

  /** The markers that describe exactly a given line. */
  ghost function Marks(line: seq<Hash>): map<nat, Hash> {
    Span(line, 0, |line|)
  }

  lemma MarksExtend(line: seq<Hash>, h: Hash)
    ensures Marks(line)[|line| := h] == Marks(line + [h])
  {
  }

  /** The lines agree on their first x places. */
  ghost predicate Agree(a: seq<Hash>, b: seq<Hash>, x: nat) {
    x <= |a| && x <= |b| && forall i | 0 <= i < x :: a[i] == b[i]
  }

  /** The length of the part two lines share from the genesis on. */
  ghost function Shared(a: seq<Hash>, b: seq<Hash>): (c: nat)
    ensures c <= |a| && c <= |b| && a[..c] == b[..c]
    ensures c < |a| && c < |b| ==> a[c] != b[c]
  {
    if |a| == 0 || |b| == 0 || a[0] != b[0] then 0
    else
      var c := 1 + Shared(a[1..], b[1..]);
      assert a[..c] == [a[0]] + a[1..][..c - 1];
      assert b[..c] == [b[0]] + b[1..][..c - 1];
      c
  }

  lemma SharedIsUnique(a: seq<Hash>, b: seq<Hash>, c: nat)
    requires c <= |a| && c <= |b| && a[..c] == b[..c]
    requires c < |a| && c < |b| ==> a[c] != b[c]
    ensures c == Shared(a, b)
  {
    var d := Shared(a, b);
    assert forall i | 0 <= i < d :: a[..d][i] == a[i] && b[..d][i] == b[i];
    assert forall i | 0 <= i < c :: a[..c][i] == a[i] && b[..c][i] == b[i];
  }
}
