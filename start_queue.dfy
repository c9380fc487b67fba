/** The coordinator's start queue: a FIFO of shard ids in which an id is
    pending at most once. */
module StartQueue {

  /** No id occurs twice. */
  ghost predicate NoDup(q: seq<int>) {
    forall i, j :: 0 <= i < j < |q| ==> q[i] != q[j]
  }

  /** The order after enqueueing x: x goes to the back unless it is already pending. */
  function Enqueued(q: seq<int>, x: int): (r: seq<int>)
    ensures x in r
    ensures forall y :: y in r <==> y in q || y == x
    ensures x in q ==> r == q
    ensures |q| <= |r| <= |q| + 1 && r[..|q|] == q
    ensures NoDup(q) ==> NoDup(r)
  {
    if x in q then q else q + [x]
  }

  /** The order after enqueueing every id of ids, first to last. */
  function EnqueueAll(q: seq<int>, ids: seq<int>): seq<int>
    decreases |ids|
  {
    if ids == [] then q else Enqueued(EnqueueAll(q, ids[..|ids| - 1]), ids[|ids| - 1])
  }

  /** Enqueueing a batch and then one more id is enqueueing the longer batch. */
  lemma EnqueueAllSnoc(q: seq<int>, ids: seq<int>, x: int)
    ensures EnqueueAll(q, ids + [x]) == Enqueued(EnqueueAll(q, ids), x)
  {
    assert (ids + [x])[..|ids|] == ids;
  }

  /** Enqueueing a batch keeps what was pending, in front and in order, adds
      exactly the ids of the batch, and never makes an id pending twice. */
  lemma {:induction false} EnqueueAllFacts(q: seq<int>, ids: seq<int>)
    ensures forall y :: y in EnqueueAll(q, ids) <==> y in q || y in ids
    ensures |q| <= |EnqueueAll(q, ids)| <= |q| + |ids|
    ensures EnqueueAll(q, ids)[..|q|] == q
    ensures NoDup(q) ==> NoDup(EnqueueAll(q, ids))
    decreases |ids|
  {
    if ids != [] {
      var init := ids[..|ids| - 1];
      EnqueueAllFacts(q, init);
      var mid := EnqueueAll(q, init);
      assert forall y :: y in ids <==> y in init || y == ids[|ids| - 1] by {
        assert ids == init + [ids[|ids| - 1]];
      }
      assert Enqueued(mid, ids[|ids| - 1])[..|mid|] == mid;
      assert mid[..|q|] == q;
    }
  }

  /** ShardsCoordinatorQueue: a queue of ids paired with the set of ids
      currently in it. */
  class ShardsCoordinatorQueue {
    var order: seq<int>
    var pending: set<int>

    /** The set is exactly the queue's elements, and the queue has no duplicates. */
    ghost predicate Valid()
      reads this
    {
      NoDup(order) && pending == set x | x in order
    }

    constructor ()
      ensures Valid() && order == [] && pending == {}
    {
      order, pending := [], {};
    }

    /** The number of pending ids. */
    method Count() returns (n: nat)
      requires Valid()
      ensures n == |order| == |pending|
    {
      n := |order|;
      assert |pending| == |order| by { DistinctCard(order); }
    }

    /** Puts i at the back unless it is already pending; a pending i leaves
        both the queue and the set as they were. */
    method Enqueue(i: int)
      requires Valid()
      modifies this
      ensures Valid()
      ensures order == Enqueued(old(order), i)
      ensures pending == old(pending) + {i}
      ensures i in old(pending) ==> order == old(order) && pending == old(pending)
    {
      if i !in pending {
        pending := pending + {i};
        order := order + [i];
      }
    }

    /** Pops the front id and clears its membership; on an empty queue
        answers false, leaves everything as it was and yields the default 0. */
    method TryDequeue() returns (ok: bool, id: int)
      requires Valid()
      modifies this
      ensures Valid()
      ensures ok <==> old(order) != []
      ensures ok ==> id == old(order)[0] && order == old(order)[1..] && pending == old(pending) - {id}
      ensures ok ==> id !in pending
      ensures !ok ==> id == 0 && order == old(order) && pending == old(pending)
    {
      if order == [] {
        ok, id := false, 0;
      } else {
        ok, id := true, order[0];
        order := order[1..];
        pending := pending - {id};
        assert pending == set x | x in order by {
          forall x ensures x in pending <==> x in order {
            if x in order {
              var k :| 0 <= k < |order| && order[k] == x;
              assert old(order)[k + 1] == x;
            }
          }
        }
      }
    }
  }

  /** A duplicate-free sequence has as many distinct elements as entries. */
  lemma {:induction false} DistinctCard(q: seq<int>)
    requires NoDup(q)
    ensures |set x | x in q| == |q|
    decreases |q|
  {
    if q != [] {
      var rest := q[1..];
      DistinctCard(rest);
      assert (set x | x in q) == (set x | x in rest) + {q[0]};
      assert q[0] !in rest;
    }
  }
}
