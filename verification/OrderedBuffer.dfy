/**
 The public buffer of a replica network: a set of entries that is unique by
 (clock, message id) and iterated in that order, represented by its strictly
 increasing sequence.
 */
module OrderedBuffer {
  import opened Seqs
  import opened Entries

  ghost predicate Sorted(q: seq<Entry>) {
    forall i, j | 0 <= i < j < |q| :: KeyLess(q[i], q[j])
  }

  ghost predicate HasKey(q: seq<Entry>, e: Entry) {
    exists x :: x in q && SameKey(x, e)
  }

  /** Insertion keeps the element already present under an equal key. */
  function Insert(q: seq<Entry>, e: Entry): seq<Entry> {
    if q == [] || KeyLess(e, q[0]) then [e] + q
    else if SameKey(e, q[0]) then q
    else [q[0]] + Insert(q[1..], e)
  }

  function InsertAll(q: seq<Entry>, es: seq<Entry>): seq<Entry>
    decreases |es|
  {
    if es == [] then q else InsertAll(Insert(q, es[0]), es[1..])
  }

  lemma SortedTail(q: seq<Entry>)
    requires Sorted(q) && q != []
    ensures Sorted(q[1..])
    ensures forall x | x in q[1..] :: KeyLess(q[0], x)
  {
  }

  lemma SortedCons(e: Entry, q: seq<Entry>)
    requires Sorted(q) && forall x | x in q :: KeyLess(e, x)
    ensures Sorted([e] + q)
  {
  }

  /** Insertion keeps the order, keeps every element, and adds the new element
      exactly when its key was free. */
  lemma {:induction false} InsertCorrect(q: seq<Entry>, e: Entry)
    requires Sorted(q)
    ensures Sorted(Insert(q, e))
    ensures forall x :: x in Insert(q, e) <==> x in q || (x == e && !HasKey(q, e))
    ensures |Insert(q, e)| == if HasKey(q, e) then |q| else |q| + 1
  {
    if q == [] {
      assert !HasKey(q, e);
      return;
    }
    var hd, tl := q[0], q[1..];
    assert q == [hd] + tl;
    SortedTail(q);
    KeyLessTotal(e, hd);
    if KeyLess(e, hd) {
      forall x | x in q ensures KeyLess(e, x) && !SameKey(x, e) {
        if x in tl {
          KeyLessTrans(e, hd, x);
        }
        KeyLessTotal(e, x);
      }
      SortedCons(e, q);
    } else if SameKey(e, hd) {
      assert hd in q && SameKey(hd, e);
    } else {
      InsertCorrect(tl, e);
      assert HasKey(q, e) <==> HasKey(tl, e) by {
        assert forall x :: x in q <==> x == hd || x in tl;
      }
      SortedCons(hd, Insert(tl, e));
    }
  }

  lemma {:induction false} InsertAllCorrect(q: seq<Entry>, es: seq<Entry>)
    requires Sorted(q)
    ensures Sorted(InsertAll(q, es))
    ensures forall x | x in q :: x in InsertAll(q, es)
    ensures forall x | x in InsertAll(q, es) :: x in q || x in es
    ensures forall x | x in es :: HasKey(InsertAll(q, es), x)
    decreases |es|
  {
    if es != [] {
      var q' := Insert(q, es[0]);
      InsertCorrect(q, es[0]);
      InsertAllCorrect(q', es[1..]);
      assert es == [es[0]] + es[1..];
      assert HasKey(q', es[0]) by {
        if HasKey(q, es[0]) {
          var x :| x in q && SameKey(x, es[0]);
          assert x in q';
        } else {
          assert es[0] in q' && SameKey(es[0], es[0]);
        }
      }
      var x :| x in q' && SameKey(x, es[0]);
      assert x in InsertAll(q, es);
    }
  }

  lemma HeadIn(q: seq<Entry>)
    ensures q != [] ==> q[0] in q
  {
  }

  /** A buffer is determined by its elements. */
  lemma {:induction false} SortedUnique(q: seq<Entry>, r: seq<Entry>)
    requires Sorted(q) && Sorted(r)
    requires forall x :: x in q <==> x in r
    ensures q == r
  {
    HeadIn(q);
    HeadIn(r);
    if q != [] {
      SortedTail(q);
      SortedTail(r);
      assert q == [q[0]] + q[1..] && r == [r[0]] + r[1..];
      assert q[0] in r && r[0] in q;
      KeyLessTotal(q[0], r[0]);
      assert q[0] == r[0];
      forall x ensures x in q[1..] <==> x in r[1..] {
        KeyLessTotal(q[0], q[0]);
        assert x in q <==> x == q[0] || x in q[1..];
        assert x in r <==> x == r[0] || x in r[1..];
      }
      SortedUnique(q[1..], r[1..]);
    }
  }

  lemma {:induction false} FilterSorted(p: Entry -> bool, q: seq<Entry>)
    requires Sorted(q)
    ensures Sorted(Filter(p, q))
  {
    if q != [] {
      SortedTail(q);
      FilterSorted(p, q[1..]);
      FilterIn(p, q[1..]);
      if p(q[0]) {
        SortedCons(q[0], Filter(p, q[1..]));
      }
    }
  }

  /** Of several new elements with one key the first is kept, unless the key was taken. */
  lemma {:induction false} FirstIsKept(q: seq<Entry>, es: seq<Entry>, i: nat)
    requires Sorted(q) && i < |es| && !HasKey(q, es[i])
    requires forall j | 0 <= j < i :: !SameKey(es[j], es[i])
    ensures es[i] in InsertAll(q, es)
    decreases |es|
  {
    var rest := Insert(q, es[0]);
    InsertCorrect(q, es[0]);
    InsertAllCorrect(rest, es[1..]);
    if i > 0 {
      assert !HasKey(rest, es[i]);
      FirstIsKept(rest, es[1..], i - 1);
    }
  }
}
