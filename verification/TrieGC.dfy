/** Which recent state tries are kept alive in memory by a node that is not an archive. */
module TrieGCs {
  import opened Chain

  const TRIES_IN_MEMORY := 128

  /** A root that was referenced when the block with this number was written. */
  datatype Entry = Entry(root: Hash, number: nat)

  /** How many queued entries of a root have a number above the bound. */
  function Above(q: seq<Entry>, root: Hash, bound: int): nat {
    if q == [] then 0
    else Above(q[..|q| - 1], root, bound) + Weight(q[|q| - 1], root, bound)
  }

  function Weight(e: Entry, root: Hash, bound: int): nat {
    if e.root == root && e.number > bound then 1 else 0
  }

  lemma AboveSnoc(q: seq<Entry>, e: Entry, root: Hash, bound: int)
    ensures Above(q + [e], root, bound) == Above(q, root, bound) + Weight(e, root, bound)
  {
    assert (q + [e])[..|q|] == q;
  }

  lemma {:induction false} AboveWithout(q: seq<Entry>, i: nat, root: Hash, bound: int)
    requires i < |q|
    ensures Above(q, root, bound) == Above(q[..i] + q[i + 1..], root, bound) + Weight(q[i], root, bound)
    decreases |q|
  {
    var last := |q| - 1;
    if i == last {
      assert q[..i] + q[i + 1..] == q[..last];
    } else {
      AboveWithout(q[..last], i, root, bound);
      assert q[..last][..i] + q[..last][i + 1..] == q[..i] + q[i + 1..last];
      assert q[..i] + q[i + 1..] == (q[..i] + q[i + 1..last]) + [q[last]];
      AboveSnoc(q[..i] + q[i + 1..last], q[last], root, bound);
    }
  }

  /** If everything queued lies above a bound, counting from further down finds no more. */
  lemma {:induction false} AllAbove(q: seq<Entry>, root: Hash, bound: int, low: int)
    requires low <= bound && forall e | e in q :: e.number > bound
    ensures Above(q, root, low) == Above(q, root, bound)
  {
    if q != [] {
      AllAbove(q[..|q| - 1], root, bound, low);
      assert q[|q| - 1] in q;
    }
  }

  lemma {:induction false} QueuedIsCounted(q: seq<Entry>, i: nat)
    requires i < |q|
    ensures Above(q, q[i].root, -1) > 0
  {
    AboveWithout(q, i, q[i].root, -1);
  }

  function Count(refs: map<Hash, nat>, root: Hash): nat {
    if root in refs then refs[root] else 0
  }

  class TrieGC {
    var queue: seq<Entry>
    var refs: map<Hash, nat>

    /** The references held equal the multiplicity of the root in the queue. */
    ghost predicate Valid()
      reads this
    {
      forall root :: Count(refs, root) == Above(queue, root, -1)
    }

    constructor ()
      ensures Valid() && queue == []
    {
      queue, refs := [], map[];
    }

    /** The entry with the lowest number; which of several equal ones is not specified. */
    method Pop() returns (e: Entry)
      requires queue != []
      modifies `queue
      ensures e in old(queue) && |queue| == |old(queue)| - 1
      ensures forall x | x in old(queue) :: e.number <= x.number
      ensures forall x | x in queue :: x in old(queue)
      ensures forall root, bound :: Above(old(queue), root, bound) == Above(queue, root, bound) + Weight(e, root, bound)
    {
      var at := 0;
      for i := 1 to |queue|
        invariant at < |queue| && forall j | 0 <= j < i :: queue[at].number <= queue[j].number
      {
        if queue[i].number < queue[at].number {
          at := i;
        }
      }
      e := queue[at];
      forall root, bound: int
        ensures Above(queue, root, bound) ==
                Above(queue[..at] + queue[at + 1..], root, bound) + Weight(e, root, bound) {
        AboveWithout(queue, at, root, bound);
      }
      queue := queue[..at] + queue[at + 1..];
    }

    method Push(e: Entry)
      modifies `queue
      ensures queue == old(queue) + [e]
      ensures forall root, bound :: Above(queue, root, bound) == Above(old(queue), root, bound) + Weight(e, root, bound)
    {
      forall root, bound: int
        ensures Above(queue + [e], root, bound) == Above(queue, root, bound) + Weight(e, root, bound) {
        AboveSnoc(queue, e, root, bound);
      }
      queue := queue + [e];
    }

    method Reference(root: Hash)
      modifies `refs
      ensures forall r :: Count(refs, r) == Count(old(refs), r) + if r == root then 1 else 0
    {
      refs := refs[root := Count(refs, root) + 1];
    }

    /** Never called on a root without references. */
    method Dereference(root: Hash)
      requires Count(refs, root) > 0
      modifies `refs
      ensures forall r :: Count(refs, r) == Count(old(refs), r) - if r == root then 1 else 0
    {
      refs := refs[root := Count(refs, root) - 1];
    }

    /**
     Releases what lies at or below the chosen number: afterwards nothing so low is queued,
     everything above is still queued as often as before, and the references agree.
     */
    method Release(chosen: nat)
      requires Valid()
      modifies this
      ensures Valid()
      ensures forall e | e in queue :: e.number > chosen && e in old(queue)
      ensures forall root, bound: int | bound >= chosen :: Above(queue, root, bound) == Above(old(queue), root, bound)
      ensures forall root :: Count(refs, root) == Above(old(queue), root, chosen)
    {
      ghost var q0 := queue;
      while queue != []
        invariant Valid() && forall e | e in queue :: e in q0
        invariant forall root, bound: int | bound >= chosen :: Above(queue, root, bound) == Above(q0, root, bound)
        decreases |queue|
      {
        ghost var before := queue;
        var e := Pop();
        if e.number > chosen {
          Push(e);
          break;
        }
        assert Weight(e, e.root, -1) == 1;
        Dereference(e.root);
      }
      forall root ensures Count(refs, root) == Above(q0, root, chosen) {
        AllAbove(queue, root, chosen, -1);
      }
    }

    /** Writing a block of any number, on any branch. */
    method WriteBlock(root: Hash, number: nat)
      requires Valid()
      modifies this
      ensures Valid() && (forall e | e in queue :: Count(refs, e.root) > 0)
      ensures number <= TRIES_IN_MEMORY ==> queue == old(queue) + [Entry(root, number)]
      ensures number > TRIES_IN_MEMORY ==> forall e | e in queue :: e.number > number - TRIES_IN_MEMORY
      ensures number > TRIES_IN_MEMORY ==>
                forall r :: Count(refs, r) == Above(old(queue) + [Entry(root, number)], r, number - TRIES_IN_MEMORY)
    {
      Reference(root);
      Push(Entry(root, number));
      if number > TRIES_IN_MEMORY {
        Release(number - TRIES_IN_MEMORY);
      }
      forall e | e in queue ensures Count(refs, e.root) > 0 {
        var i :| 0 <= i < |queue| && queue[i] == e;
        QueuedIsCounted(queue, i);
      }
    }

    /** Shutdown gives every reference back. */
    method Stop()
      requires Valid()
      modifies this
      ensures queue == [] && forall root :: Count(refs, root) == 0
    {
      while queue != []
        invariant Valid()
        decreases |queue|
      {
        var e := Pop();
        assert Weight(e, e.root, -1) == 1;
        Dereference(e.root);
      }
    }

    /** Any sequence of written blocks followed by a shutdown leaves no reference behind. */
    method Run(blocks: seq<Entry>)
      requires Valid()
      modifies this
      ensures queue == [] && forall root :: Count(refs, root) == 0
    {
      for i := 0 to |blocks|
        invariant Valid()
      {
        WriteBlock(blocks[i].root, blocks[i].number);
      }
      Stop();
    }
  }
}
