/** The list of select cases a feed sends to, edited in place. */
module CaseLists {

  /** A channel; only identity matters. Channel 0 is the feed's own removal channel. */
  type Chan = nat

  const REMOVE_SUB: Chan := 0

  /** A select case. The id tells apart cases of different subscriptions to the same channel. */
  datatype Case = Case(id: nat, ch: Chan)

  /** The index of the first case with the channel, or -1. */
  function FindCase(cs: seq<Case>, ch: Chan): int {
    if cs == [] then -1
    else if cs[0].ch == ch then 0
    else
      var i := FindCase(cs[1..], ch);
      if i == -1 then -1 else i + 1
  }

  lemma {:induction false} FindCaseFinds(cs: seq<Case>, ch: Chan)
    ensures -1 <= FindCase(cs, ch) < |cs|
    ensures FindCase(cs, ch) == -1 <==> forall i | 0 <= i < |cs| :: cs[i].ch != ch
    ensures FindCase(cs, ch) != -1 ==> cs[FindCase(cs, ch)].ch == ch
    ensures FindCase(cs, ch) != -1 ==> forall i | 0 <= i < FindCase(cs, ch) :: cs[i].ch != ch
  {
    if cs != [] {
      FindCaseFinds(cs[1..], ch);
      assert forall i | 0 < i < |cs| :: cs[i] == cs[1..][i - 1];
    }
  }

  function Without(cs: seq<Case>, i: nat): seq<Case>
    requires i < |cs|
  {
    cs[..i] + cs[i + 1..]
  }

  /** Moves the case at i out of the first n, to place n - 1. */
  function Deactivated(cs: seq<Case>, n: nat, i: nat): seq<Case>
    requires i < n <= |cs|
  {
    cs[i := cs[n - 1]][n - 1 := cs[i]]
  }

  /** What is where after a deletion: the cases behind the deleted one move up by one. */
  lemma WithoutAt(cs: seq<Case>, i: nat, k: nat)
    requires i < |cs| && k < |cs| - 1
    ensures |Without(cs, i)| == |cs| - 1 && Without(cs, i)[k] == if k < i then cs[k] else cs[k + 1]
  {
  }

  /** What is where after a deactivation: the case and the last active one have changed places. */
  lemma DeactivatedAt(cs: seq<Case>, n: nat, i: nat, k: nat)
    requires i < n <= |cs| && k < |cs|
    ensures |Deactivated(cs, n, i)| == |cs|
    ensures Deactivated(cs, n, i)[k] == if k == i then cs[n - 1] else if k == n - 1 then cs[i] else cs[k]
  {
  }

  lemma KeptWithout(cs: seq<Case>, i: nat, c: Case)
    requires i < |cs| && c in cs && c != cs[i]
    ensures c in Without(cs, i)
  {
    var k :| 0 <= k < |cs| && cs[k] == c;
    assert Without(cs, i)[if k < i then k else k - 1] == c;
  }

  lemma KeptDeactivated(cs: seq<Case>, n: nat, i: nat, c: Case)
    requires i < n <= |cs| && c in cs
    ensures c in Deactivated(cs, n, i)
  {
    var k :| 0 <= k < |cs| && cs[k] == c;
    assert Deactivated(cs, n, i)[if k == i then n - 1 else if k == n - 1 then i else k] == c;
  }

  lemma CasesWithout(cs: seq<Case>, i: nat)
    requires i < |cs|
    ensures multiset(Without(cs, i)) + multiset{cs[i]} == multiset(cs)
  {
    assert cs == cs[..i] + [cs[i]] + cs[i + 1..];
  }

  lemma CasesDeactivated(cs: seq<Case>, n: nat, i: nat)
    requires i < n <= |cs|
    ensures multiset(Deactivated(cs, n, i)) == multiset(cs)
  {
  }

  method Find(a: array<Case>, n: nat, ch: Chan) returns (index: int)
    requires n <= a.Length
    ensures index == FindCase(a[..n], ch)
  {
    FindCaseFinds(a[..n], ch);
    for i := 0 to n
      invariant forall j | 0 <= j < i :: a[j].ch != ch
    {
      if a[i].ch == ch {
        return i;
      }
    }
    return -1;
  }

  /** Deletes by shifting the rest of the first n cases down; the slot left over keeps its case. */
  method Delete(a: array<Case>, n: nat, index: nat)
    requires index < n <= a.Length
    modifies a
    ensures a[..n - 1] == Without(old(a[..n]), index)
    ensures a[n - 1..] == old(a[n - 1..])
  {
    var i := index;
    while i < n - 1
      invariant index <= i <= n - 1
      invariant a[..i] == Without(old(a[..n]), index)[..i]
      invariant forall j | i <= j < a.Length :: a[j] == old(a[j])
    {
      a[i] := a[i + 1];
      assert a[..i + 1] == a[..i] + [a[i]];
      i := i + 1;
    }
  }

  /** Swaps a case to the end of the first n; the caller goes on with n - 1 of them. */
  method Deactivate(a: array<Case>, n: nat, index: nat)
    requires index < n <= a.Length
    modifies a
    ensures a[..] == Deactivated(old(a[..]), n, index)
  {
    a[index], a[n - 1] := a[n - 1], a[index];
  }

  /** How many cases have the channel. */
  ghost function Count(cs: seq<Case>, ch: Chan): nat {
    if cs == [] then 0 else Count(cs[..|cs| - 1], ch) + if cs[|cs| - 1].ch == ch then 1 else 0
  }

  lemma {:induction false} CountConcat(a: seq<Case>, b: seq<Case>, ch: Chan)
    ensures Count(a + b, ch) == Count(a, ch) + Count(b, ch)
    decreases |b|
  {
    if b == [] {
      assert a + b == a;
    } else {
      CountConcat(a, b[..|b| - 1], ch);
      assert (a + b)[..|a + b| - 1] == a + b[..|b| - 1];
    }
  }

  lemma CountWithout(cs: seq<Case>, i: nat, ch: Chan)
    requires i < |cs|
    ensures Count(cs, ch) == Count(Without(cs, i), ch) + if cs[i].ch == ch then 1 else 0
  {
    CountConcat(cs[..i], cs[i + 1..], ch);
    CountConcat(cs[..i + 1], cs[i + 1..], ch);
    assert cs[..i + 1] + cs[i + 1..] == cs;
    assert cs[..i + 1][..i] == cs[..i];
  }

  lemma {:induction false} CountPositive(cs: seq<Case>, ch: Chan)
    ensures Count(cs, ch) > 0 <==> exists i :: 0 <= i < |cs| && cs[i].ch == ch
    decreases |cs|
  {
    if cs != [] {
      CountPositive(cs[..|cs| - 1], ch);
    }
  }

  /** Overwriting one case. */
  lemma CountUpdate(cs: seq<Case>, i: nat, c: Case, ch: Chan)
    requires i < |cs|
    ensures Count(cs[i := c], ch) + (if cs[i].ch == ch then 1 else 0) == Count(cs, ch) + if c.ch == ch then 1 else 0
  {
    CountWithout(cs, i, ch);
    CountWithout(cs[i := c], i, ch);
    assert Without(cs[i := c], i) == Without(cs, i);
  }

  lemma CountDeactivated(cs: seq<Case>, n: nat, i: nat, ch: Chan)
    requires i < n <= |cs|
    ensures Count(Deactivated(cs, n, i), ch) == Count(cs, ch)
  {
    CountUpdate(cs, i, cs[n - 1], ch);
    CountUpdate(cs[i := cs[n - 1]], n - 1, cs[i], ch);
  }
}
