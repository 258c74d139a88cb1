/** Sequences compared as multisets. */
module Shuffles {
  lemma ConcatAsMultiset<T>(a: seq<T>, b: seq<T>)
    ensures multiset(a + b) == multiset(a) + multiset(b)
  {
  }

  /** A shuffle of `front + [last]` holds `last` somewhere, and a shuffle of `front` around it. */
  lemma TakeFromShuffle<T>(front: seq<T>, last: T, shuffled: seq<T>) returns (k: nat)
    requires multiset(shuffled) == multiset(front + [last])
    ensures k < |shuffled| && shuffled == shuffled[..k] + [last] + shuffled[k + 1..]
    ensures multiset(shuffled[..k] + shuffled[k + 1..]) == multiset(front)
  {
    assert last in multiset(front + [last]);
    assert last in multiset(shuffled);
    k :| 0 <= k < |shuffled| && shuffled[k] == last;
    Cancel(front, last, shuffled[..k], shuffled[k + 1..], shuffled);
  }

  lemma Cancel<T>(front: seq<T>, last: T, left: seq<T>, right: seq<T>, whole: seq<T>)
    requires whole == left + [last] + right && multiset(whole) == multiset(front + [last])
    ensures multiset(left + right) == multiset(front)
  {
    ConcatAsMultiset(left + [last], right);
    ConcatAsMultiset(left, [last]);
    ConcatAsMultiset(front, [last]);
    ConcatAsMultiset(left, right);
    CancelMultiset(multiset(left), multiset([last]), multiset(right), multiset(front));
  }

  lemma CancelMultiset<T>(left: multiset<T>, mid: multiset<T>, right: multiset<T>, front: multiset<T>)
    requires left + mid + right == front + mid
    ensures left + right == front
  {
    forall e
      ensures (left + right)[e] == front[e]
    {
      assert (left + mid + right)[e] == (front + mid)[e];
    }
  }

  lemma ShuffleOfEmpty<T>(shuffled: seq<T>)
    requires multiset(shuffled) == multiset([])
    ensures shuffled == []
  {
    assert |multiset(shuffled)| == |shuffled|;
  }

  lemma SubsetIsSmaller<T>(a: set<T>, b: set<T>)
    requires a <= b
    ensures |a| <= |b|
  {
    assert b == a + (b - a);
  }
}
