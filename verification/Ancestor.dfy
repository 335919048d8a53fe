/** Ancestor queries: the canonical markers as a shortcut for walking parent links. */
module Ancestors {
  import opened Options
  import opened Chain

  /** A missing marker reads as the zero hash. */
  function ReadMark(marks: map<nat, Hash>, n: nat): Hash {
    if n in marks then marks[n] else ZERO_HASH
  }

  /** The markers form a parent-linked chain of stored headers. */
  ghost predicate MarksLinked(s: Store, marks: map<nat, Hash>) {
    && (forall n | n in marks :: marks[n] in s && s[marks[n]].number == n)
    && (forall n | n in marks && n > 0 :: n - 1 in marks && s[marks[n]].parent == marks[n - 1])
  }

  /** Only the genesis has the zero hash as parent. */
  ghost predicate ParentsNonZero(s: Store) {
    Keyed(s) && forall h | h in s && s[h].number > 0 :: s[h].parent != ZERO_HASH
  }

  /** The plain k-step parent walk; it fails on a missing header. */
  function Walk(s: Store, hash: Hash, number: nat, k: nat): Option<Hash>
    requires k <= number
    decreases k
  {
    if k == 0 then Some(hash)
    else match GetHeader(s, hash, number)
      case None => None
      case Some(header) => Walk(s, header.parent, number - 1, k - 1)
  }

  /** How many non-canonical blocks the walk touches before it stops. */
  function Visited(s: Store, marks: map<nat, Hash>, hash: Hash, number: nat, k: nat): nat
    requires k <= number
    decreases k
  {
    if k == 0 || ReadMark(marks, number) == hash then 0
    else match GetHeader(s, hash, number)
      case None => 1
      case Some(header) => 1 + Visited(s, marks, header.parent, number - 1, k - 1)
  }

  /** It goes through blocks off the chain until it has gone k steps, is on the chain, or finds nothing. */
  lemma {:induction false} VisitedIs(s: Store, marks: map<nat, Hash>, hash: Hash, number: nat, k: nat, j: nat)
    requires k <= number
    ensures var v := Visited(s, marks, hash, number, k);
            && v <= k
            && (j < v ==> Walk(s, hash, number, j) !in {None, Some(ReadMark(marks, number - j))})
            && (v == k || Walk(s, hash, number, v) in {None, Some(ReadMark(marks, number - v))})
    decreases k
  {
    if k > 0 && ReadMark(marks, number) != hash && GetHeader(s, hash, number).Some? {
      VisitedIs(s, marks, GetHeader(s, hash, number).value.parent, number - 1, k - 1, if j > 0 then j - 1 else 0);
    }
  }

  /** Along the markers the walk is a lookup. */
  lemma {:induction false} WalkMarks(s: Store, marks: map<nat, Hash>, n: nat, k: nat)
    requires MarksLinked(s, marks) && n in marks && k <= n
    ensures n - k in marks && Walk(s, marks[n], n, k) == Some(marks[n - k])
    decreases k
  {
    if k > 0 {
      WalkMarks(s, marks, n - 1, k - 1);
    }
  }

  /**
   The k-th ancestor of a block, with a budget for blocks off the canonical chain. It
   answers what the walk answers unless k exceeds the number, the budget runs out, or the
   walk meets a missing header; the budget drops by the blocks visited, except for k == 1.
   Asked about the zero hash at an unmarked number it takes the missing marker for a match.
   */
  method GetAncestor(s: Store, marks: map<nat, Hash>, hash: Hash, number: nat, k: nat, budget: nat)
    returns (h: Hash, n: nat, left: nat)
    requires MarksLinked(s, marks) && ParentsNonZero(s)
    ensures k > number ==> h == ZERO_HASH && n == 0 && left == budget
    ensures k == 1 <= number ==>
              left == budget &&
              match Walk(s, hash, number, 1)
              case None => h == ZERO_HASH && n == 0
              case Some(a) => h == a && n == number - 1
    ensures k != 1 && k <= number && (hash != ZERO_HASH || number in marks || k == 0) ==>
              if Visited(s, marks, hash, number, k) > budget then h == ZERO_HASH && n == 0 && left == 0
              else
                && left == budget - Visited(s, marks, hash, number, k)
                && match Walk(s, hash, number, k)
                   case None => h == ZERO_HASH && n == 0
                   case Some(a) => h == a && n == number - k
    ensures 1 < k <= number && hash == ZERO_HASH && number !in marks ==>
              h == ReadMark(marks, number - k) && n == number - k && left == budget
  {
    left := budget;
    if k > number {
      return ZERO_HASH, 0, left;
    }
    if k == 1 {
      var header := GetHeader(s, hash, number);
      if header.Some? {
        return header.value.parent, number - 1, left;
      }
      return ZERO_HASH, 0, left;
    }
    h, n := hash, number;
    var ancestor: nat := k;
    while ancestor != 0
      invariant ancestor <= n && n - ancestor == number - k && left <= budget
      invariant (h == hash && n == number && ancestor == k && left == budget) || (hash != ZERO_HASH && h != ZERO_HASH)
      invariant hash != ZERO_HASH || number in marks || k == 0 ==>
                  && Walk(s, h, n, ancestor) == Walk(s, hash, number, k)
                  && left + Visited(s, marks, hash, number, k) == budget + Visited(s, marks, h, n, ancestor)
      decreases ancestor
    {
      if ReadMark(marks, n) == h {
        var ancestorHash := ReadMark(marks, n - ancestor);
        if n in marks {
          WalkMarks(s, marks, n, ancestor);
        }
        return ancestorHash, n - ancestor, left;
      }
      if left == 0 {
        return ZERO_HASH, 0, left;
      }
      left := left - 1;
      var header := GetHeader(s, h, n);
      if header.None? {
        return ZERO_HASH, 0, left;
      }
      ancestor, h, n := ancestor - 1, header.value.parent, n - 1;
    }
  }

  /**
   Asked about the zero hash at an unmarked number, the walk finds nothing, so the answer
   agrees with it exactly if the number k below has no marker either.
   */
  lemma ZeroHashWalk(s: Store, marks: map<nat, Hash>, number: nat, k: nat)
    requires MarksLinked(s, marks) && ParentsNonZero(s) && 1 < k <= number && number !in marks
    ensures Walk(s, ZERO_HASH, number, k) == None
    ensures ReadMark(marks, number - k) == ZERO_HASH <==> number - k !in marks
  {
  }

  /** Two marked blocks; hash 0 at number 5 is answered with block 1, where the walk finds nothing. */
  lemma ZeroHashTaken()
    ensures var g, h := Header(7, 0, 0, 0, 0), Header(8, 7, 1, 0, 0);
            var s: Store, marks: map<nat, Hash> := map[7 := g, 8 := h], map[0 := 7, 1 := 8];
            && MarksLinked(s, marks) && ParentsNonZero(s) && 5 !in marks
            && ReadMark(marks, 5 - 4) == 8 && Walk(s, ZERO_HASH, 5, 4) == None
  {
    var g, h := Header(7, 0, 0, 0, 0), Header(8, 7, 1, 0, 0);
    var s: Store, marks: map<nat, Hash> := map[7 := g, 8 := h], map[0 := 7, 1 := 8];
    ZeroHashWalk(s, marks, 5, 4);
  }
}
