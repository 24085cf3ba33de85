/** The search frontier: a bag of (item, priority) entries. The repository
    uses a `PriorityQueue<T>` whose implementation is not part of this model,
    so only its observable contract is fixed here: `Dequeue` removes and
    returns SOME entry of least priority, whatever the tie-break. */
module PriorityQueue {

  datatype Queue<T> = Queue(entries: seq<(T, int)>)

  function Empty<T>(): (q: Queue<T>)
    ensures Count(q) == 0
  {
    Queue([])
  }

  function Count<T>(q: Queue<T>): nat {
    |q.entries|
  }

  /** The items currently queued, whatever their priorities. */
  function Items<T(==)>(q: Queue<T>): set<T> {
    set i | 0 <= i < |q.entries| :: q.entries[i].0
  }

  /** Entry `k` has a priority no greater than any other entry's. */
  predicate IsMinimalAt<T>(q: Queue<T>, k: int) {
    0 <= k < |q.entries| && forall i :: 0 <= i < |q.entries| ==> q.entries[k].1 <= q.entries[i].1
  }

  function Enqueue<T(==)>(q: Queue<T>, item: T, priority: int): (q': Queue<T>)
    ensures Count(q') == Count(q) + 1
    ensures Items(q') == Items(q) + {item}
    ensures multiset(q'.entries) == multiset(q.entries) + multiset{(item, priority)}
  {
    var q' := Queue(q.entries + [(item, priority)]);
    assert q'.entries[|q.entries|].0 == item;
    assert forall i :: 0 <= i < |q.entries| ==> q'.entries[i] == q.entries[i];
    q'
  }

  /** Position of a least-priority entry, found by a linear scan. */
  function MinimalIndex<T>(entries: seq<(T, int)>): (k: nat)
    requires |entries| > 0
    ensures IsMinimalAt(Queue(entries), k)
  {
    if |entries| == 1 then 0
    else
      var k := MinimalIndex(entries[1..]);
      if entries[0].1 <= entries[k + 1].1 then 0 else k + 1
  }

  /** Removes an entry of least priority, chosen arbitrarily among the tied
      ones, and returns its item. */
  method Dequeue<T(==)>(q: Queue<T>) returns (item: T, q': Queue<T>)
    requires Count(q) > 0
    ensures Count(q') == Count(q) - 1
    ensures exists k :: IsMinimalAt(q, k) && q.entries[k].0 == item
                        && q'.entries == q.entries[..k] + q.entries[k + 1..]
    ensures item in Items(q)
    ensures Items(q') <= Items(q)
    ensures Items(q) - {item} <= Items(q')
  {
    assert IsMinimalAt(q, MinimalIndex(q.entries));
    var k :| 0 <= k < |q.entries| && IsMinimalAt(q, k);
    item := q.entries[k].0;
    q' := Queue(q.entries[..k] + q.entries[k + 1..]);
    forall x | x in Items(q') ensures x in Items(q) {
      var i :| 0 <= i < |q'.entries| && q'.entries[i].0 == x;
      if i < k { assert q'.entries[i] == q.entries[i]; }
      else { assert q'.entries[i] == q.entries[i + 1]; }
    }
    forall x | x in Items(q) && x != item ensures x in Items(q') {
      var i :| 0 <= i < |q.entries| && q.entries[i].0 == x;
      if i < k { assert q'.entries[i] == q.entries[i]; }
      else { assert q'.entries[i - 1] == q.entries[i]; }
    }
  }
}
