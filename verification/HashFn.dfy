/** BLOCKHASH: the ancestor hashes of a block being executed, with a cache that only grows. */
module HashFns {
  import opened Options
  import opened Chain
  import opened Ancestors

  /** What an uncached parent walk from ref answers; unknown and future blocks read as zero. */
  function Answer(s: Store, ref: Header, n: nat): Hash {
    if ref.number <= n then ZERO_HASH
    else match Walk(s, ref.parent, ref.number - 1, ref.number - 1 - n)
      case None => ZERO_HASH
      case Some(hash) => hash
  }

  /** Taking one more step at the end of a walk. */
  lemma {:induction false} WalkSnoc(s: Store, hash: Hash, number: nat, k: nat)
    requires k < number
    ensures Walk(s, hash, number, k + 1) ==
            match Walk(s, hash, number, k)
            case None => None
            case Some(h) => if GetHeader(s, h, number - k).Some? then Some(s[h].parent) else None
    decreases k
  {
    if k > 0 && GetHeader(s, hash, number).Some? {
      WalkSnoc(s, s[hash].parent, number - 1, k - 1);
    }
  }

  /** A walk that ends early does not get further by asking for more steps. */
  lemma {:induction false} WalkStuck(s: Store, hash: Hash, number: nat, k: nat, more: nat)
    requires k <= more <= number && Walk(s, hash, number, k) == None
    ensures Walk(s, hash, number, more) == None
    decreases more
  {
    if k < more {
      WalkStuck(s, hash, number, k, more - 1);
      WalkSnoc(s, hash, number, more - 1);
    }
  }

  lemma {:induction false} WalkGrows(s: Store, t: Store, hash: Hash, number: nat, k: nat)
    requires k <= number && Walk(s, hash, number, k).Some?
    requires forall h | h in s :: h in t && t[h] == s[h]
    ensures Walk(t, hash, number, k) == Walk(s, hash, number, k)
    decreases k
  {
    if k > 0 {
      WalkGrows(s, t, s[hash].parent, number - 1, k - 1);
    }
  }

  /** Entry i is the hash of the block i + 1 below ref; no entry lies below the genesis. */
  ghost predicate CacheOk(s: Store, ref: Header, cache: seq<Hash>) {
    && |cache| <= ref.number
    && (forall i | 0 <= i < |cache| :: Walk(s, ref.parent, ref.number - 1, i) == Some(cache[i]))
  }

  /** Headers stored later do not invalidate the cache. */
  lemma CacheGrows(s: Store, t: Store, ref: Header, cache: seq<Hash>)
    requires CacheOk(s, ref, cache) && forall h | h in s :: h in t && t[h] == s[h]
    ensures CacheOk(t, ref, cache)
  {
    forall i | 0 <= i < |cache| ensures Walk(t, ref.parent, ref.number - 1, i) == Some(cache[i]) {
      assert Walk(s, ref.parent, ref.number - 1, i) == Some(cache[i]);
      WalkGrows(s, t, ref.parent, ref.number - 1, i);
    }
  }

  /** On a complete chain the answer is the canonical ancestor of ref with that number. */
  lemma AnswerIsAncestor(s: Store, g: Hash, ref: Header, n: nat)
    requires Rooted(s, g, ref.parent) && s[ref.parent].number + 1 == ref.number && n < ref.number
    ensures Answer(s, ref, n) == Line(s, g, ref.parent)[n]
  {
    LineIsLinked(s, g, ref.parent);
    WalkDownLine(s, g, Line(s, g, ref.parent), ref.number - 1, ref.number - 1 - n);
  }

  lemma {:induction false} WalkDownLine(s: Store, g: Hash, line: seq<Hash>, number: nat, k: nat)
    requires Linked(s, g, line) && k <= number < |line|
    ensures Walk(s, line[number], number, k) == Some(line[number - k])
    decreases k
  {
    if k > 0 {
      WalkDownLine(s, g, line, number - 1, k - 1);
    }
  }

  class HashFn {
    const ref: Header
    var cache: seq<Hash>

    constructor (ref: Header)
      ensures this.ref == ref && cache == []
    {
      this.ref := ref;
      cache := [];
    }

    /** One query against the headers stored now: the uncached answer, and a cache that stays correct. */
    method Query(s: Store, n: nat) returns (hash: Hash)
      requires CacheOk(s, ref, cache)
      modifies this
      ensures hash == Answer(s, ref, n)
      ensures CacheOk(s, ref, cache) && old(cache) <= cache
      ensures hash != ZERO_HASH ==> ref.number - n <= |cache|
    {
      if ref.number <= n {
        return ZERO_HASH;
      }
      if |cache| == 0 {
        cache := [ref.parent];
      }
      var idx := ref.number - n - 1;
      if idx < |cache| {
        return cache[idx];
      }
      var lastKnownHash := cache[|cache| - 1];
      var lastKnownNumber := ref.number - |cache|;
      while true
        invariant CacheOk(s, ref, cache) && old(cache) <= cache && 0 < |cache| <= idx
        invariant lastKnownHash == cache[|cache| - 1] && lastKnownNumber == ref.number - |cache|
        decreases idx - |cache|
      {
        var header := GetHeader(s, lastKnownHash, lastKnownNumber);
        WalkSnoc(s, ref.parent, ref.number - 1, |cache| - 1);
        if header.None? {
          WalkStuck(s, ref.parent, ref.number - 1, |cache|, idx);
          break;
        }
        cache := cache + [header.value.parent];
        lastKnownHash := header.value.parent;
        lastKnownNumber := header.value.number - 1;
        if n == lastKnownNumber {
          return lastKnownHash;
        }
      }
      return ZERO_HASH;
    }

    /** Any sequence of queries, with headers being added in between. */
    method Queries(stores: seq<Store>, ns: seq<nat>) returns (hashes: seq<Hash>)
      requires |stores| == |ns| && (forall s | s in stores :: CacheOk(s, ref, cache))
      requires forall i, j, h | 0 <= i < j < |stores| && h in stores[i] ::
                 h in stores[j] && stores[j][h] == stores[i][h]
      modifies this
      ensures |hashes| == |ns| && forall i | 0 <= i < |ns| :: hashes[i] == Answer(stores[i], ref, ns[i])
    {
      hashes := [];
      for i := 0 to |ns|
        invariant |hashes| == i && forall j | 0 <= j < i :: hashes[j] == Answer(stores[j], ref, ns[j])
        invariant forall j | i <= j < |stores| :: CacheOk(stores[j], ref, cache)
      {
        var hash := Query(stores[i], ns[i]);
        hashes := hashes + [hash];
        forall j | i < j < |stores| ensures CacheOk(stores[j], ref, cache) {
          CacheGrows(stores[i], stores[j], ref, cache);
        }
      }
    }
  }
}
