/**
 Making room in the public buffer. The two code paths use different loops: `push`
 interleaves expiry with dropping the oldest element, confirmation expires once and then
 trims. Both are proved against one declarative description of what may stay.
 */
module Eviction {
  import opened Wrappers
  import opened U64
  import opened Seqs
  import opened Entries
  import opened OrderedBuffer

  predicate Fresh(e: Entry, expiry: Option<u64>, now: u64) {
    expiry.Some? ==> SaturatingSub(now, e.outgoingTimestamp) < expiry.value
  }

  /** An entry expires when the configured time has passed since it was sent. */
  lemma FreshExactly(e: Entry, expiry: Option<u64>, now: u64)
    ensures Fresh(e, expiry, now) <==>
      expiry == None || (expiry.value > 0 && now < e.outgoingTimestamp + expiry.value)
  {
  }

  function Unexpired(q: seq<Entry>, expiry: Option<u64>, now: u64): seq<Entry> {
    Filter((e: Entry) => Fresh(e, expiry, now), q)
  }

  function Last(q: seq<Entry>, k: nat): seq<Entry> {
    if |q| <= k then q else q[|q| - k..]
  }

  /** What stays before an insertion: everything while there is room, otherwise the latest
      unexpired entries, leaving one place free. */
  function Evicted(q: seq<Entry>, capacity: u64, expiry: Option<u64>, now: u64): seq<Entry>
    requires capacity >= 1
  {
    if |q| < capacity then q else Last(Unexpired(q, expiry, now), capacity - 1)
  }

  lemma UnexpiredStable(q: seq<Entry>, k: nat, expiry: Option<u64>, now: u64)
    requires forall x | x in q :: Fresh(x, expiry, now)
    requires k <= |q|
    ensures Unexpired(q[k..], expiry, now) == q[k..]
  {
    FilterIn((e: Entry) => Fresh(e, expiry, now), q[k..]);
  }

  /** The loop of `push`: expire, then drop the oldest element if that was not enough. */
  method EvictInterleaved(q0: seq<Entry>, capacity: u64, expiry: Option<u64>, now: u64) returns (q: seq<Entry>)
    requires capacity >= 1
    ensures q == Evicted(q0, capacity, expiry, now)
  {
    q := q0;
    ghost var kept := Unexpired(q0, expiry, now);
    FilterIn((e: Entry) => Fresh(e, expiry, now), q0);
    ghost var dropped: nat := 0;
    while |q| >= capacity
      invariant dropped <= |kept|
      invariant dropped == 0 ==> q == q0 || (q == kept && |kept| < capacity <= |q0|)
      invariant dropped > 0 ==> |q0| >= capacity && q == kept[dropped..] && |q| + 1 >= capacity
      decreases |q|
    {
      ghost var before := q;
      if expiry.Some? {
        q := Unexpired(q, expiry, now);
      }
      assert q == kept[dropped..] && |q| <= |before| by {
        if dropped > 0 {
          UnexpiredStable(kept, dropped, expiry, now);
        } else {
          assert kept[0..] == kept;
        }
      }
      if |q| >= capacity {
        q := q[1..];
        dropped := dropped + 1;
        assert q == kept[dropped..];
      }
    }
  }

  /** Confirmation: expire once if the buffer is full, then drop the oldest elements. */
  method EvictRetainTrim(q0: seq<Entry>, capacity: u64, expiry: Option<u64>, now: u64) returns (q: seq<Entry>)
    requires capacity >= 1
    ensures q == Evicted(q0, capacity, expiry, now)
  {
    q := q0;
    ghost var kept := Unexpired(q0, expiry, now);
    FilterIn((e: Entry) => Fresh(e, expiry, now), q0);
    if |q| >= capacity {
      if expiry.Some? {
        q := Unexpired(q, expiry, now);
      }
    }
    ghost var start := q;
    ghost var dropped: nat := 0;
    while |q| >= capacity
      invariant dropped <= |start|
      invariant q == start[dropped..]
      invariant dropped > 0 ==> |q| + 1 >= capacity
    {
      q := q[1..];
      dropped := dropped + 1;
    }
  }

  lemma LastMeaning(u: seq<Entry>, k: nat)
    requires Sorted(u)
    ensures Sorted(Last(u, k)) && |Last(u, k)| <= k
    ensures forall x | x in Last(u, k) :: x in u
    ensures forall x | x in u && x !in Last(u, k) :: |Last(u, k)| == k
    ensures forall x, y | x in u && x !in Last(u, k) && y in Last(u, k) :: KeyLess(x, y)
  {
  }

  /** Eviction keeps a sorted part of the buffer with room for one more element. It drops
      an unexpired entry only if `capacity - 1` later unexpired entries stay, and it drops
      nothing while there is room. */
  lemma EvictedMeaning(q: seq<Entry>, capacity: u64, expiry: Option<u64>, now: u64)
    requires capacity >= 1 && Sorted(q)
    ensures var r := Evicted(q, capacity, expiry, now);
      && Sorted(r)
      && |r| < capacity
      && (forall x | x in r :: x in q)
      && (|q| < capacity ==> r == q)
      && (|q| >= capacity ==> forall x | x in r :: Fresh(x, expiry, now))
      && (forall x | x in q && x !in r && Fresh(x, expiry, now) :: |r| == capacity - 1)
      && (forall x, y | x in q && x !in r && Fresh(x, expiry, now) && y in r :: KeyLess(x, y))
  {
    var p := (e: Entry) => Fresh(e, expiry, now);
    FilterIn(p, q);
    FilterSorted(p, q);
    LastMeaning(Unexpired(q, expiry, now), capacity - 1);
  }

  /** The insertion that follows eviction respects the capacity. */
  lemma RoomAfterEviction(q: seq<Entry>, e: Entry, capacity: u64, expiry: Option<u64>, now: u64)
    requires capacity >= 1 && Sorted(q)
    ensures |Insert(Evicted(q, capacity, expiry, now), e)| <= capacity
  {
    EvictedMeaning(q, capacity, expiry, now);
    InsertCorrect(Evicted(q, capacity, expiry, now), e);
  }
}
