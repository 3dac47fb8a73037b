/**
 Joining text parts with a delimiter and splitting at the leftmost delimiter, as
 Rust's `join` and `str::split` do. The delimiters of the protocol are several
 characters long, so the end of a part can overlap the delimiter that follows it;
 `Separable` is the exact condition under which splitting undoes joining.
 */
module Framing {
  import opened Wrappers

  /** The delimiter `d` occurs in `s` at position `k`. */
  predicate At(s: string, d: string, k: nat) {
    k + |d| <= |s| && s[k..k + |d|] == d
  }

  /** The position of the first occurrence of `d` in `s`. */
  function Find(s: string, d: string): (r: Option<nat>)
    requires d != ""
    ensures r.Some? ==> At(s, d, r.value) && forall j: nat | j < r.value :: !At(s, d, j)
    ensures r.None? ==> forall j: nat :: !At(s, d, j)
  {
    if |s| < |d| then None
    else if At(s, d, 0) then Some(0)
    else
      var tail := Find(s[1..], d);
      assert forall j: nat | j > 0 && At(s, d, j) :: At(s[1..], d, j - 1);
      assert forall j: nat | At(s[1..], d, j) :: At(s, d, j + 1) by {
        forall j: nat | At(s[1..], d, j) ensures At(s, d, j + 1) {
          assert s[1..][j..j + |d|] == s[j + 1..j + 1 + |d|];
        }
      }
      match tail
      case None => None
      case Some(k) => Some(k + 1)
  }

  predicate Contains(s: string, d: string)
    requires d != ""
  {
    Find(s, d).Some?
  }

  function Split(s: string, d: string): (parts: seq<string>)
    requires d != ""
    ensures parts != []
    decreases |s|
  {
    match Find(s, d)
    case None => [s]
    case Some(k) => [s[..k]] + Split(s[k + |d|..], d)
  }

  function Join(parts: seq<string>, d: string): string {
    if parts == [] then ""
    else if |parts| == 1 then parts[0]
    else parts[0] + d + Join(parts[1..], d)
  }

  /** No delimiter starts inside a part, not even one that borrows its tail from the
      delimiter written behind the part. */
  predicate Closed(part: string, d: string)
    requires d != ""
  {
    Find(part + d, d) == Some(|part|)
  }

  predicate Separable(parts: seq<string>, d: string)
    requires d != ""
  {
    && parts != []
    && (forall i | 0 <= i < |parts| - 1 :: Closed(parts[i], d))
    && !Contains(parts[|parts| - 1], d)
  }

  lemma FindUnique(s: string, d: string, k: nat)
    requires d != ""
    requires At(s, d, k) && forall j: nat | j < k :: !At(s, d, j)
    ensures Find(s, d) == Some(k)
  {
  }

  /** Whether a delimiter starts in `p` before the one written behind it is not affected
      by what follows. */
  lemma ClosedInContext(p: string, d: string, rest: string)
    requires d != ""
    ensures Closed(p, d) <==> Find(p + d + rest, d) == Some(|p|)
  {
    var s, t := p + d, p + d + rest;
    assert s[|p|..|p| + |d|] == d && t[|p|..|p| + |d|] == d;
    forall j: nat | j <= |p| ensures At(s, d, j) <==> At(t, d, j) {
      assert s[j..j + |d|] == t[j..j + |d|];
    }
    if Closed(p, d) {
      FindUnique(t, d, |p|);
    }
    if Find(t, d) == Some(|p|) {
      FindUnique(s, d, |p|);
    }
  }

  lemma {:induction false} JoinOfSplit(s: string, d: string)
    requires d != ""
    ensures Join(Split(s, d), d) == s
    decreases |s|
  {
    match Find(s, d)
    case None =>
    case Some(k) =>
      var rest := s[k + |d|..];
      JoinOfSplit(rest, d);
      assert Split(s, d)[1..] == Split(rest, d);
      assert s == s[..k] + s[k..k + |d|] + rest;
  }

  /** Splitting takes the front part off exactly if it is closed. */
  lemma SplitFront(p: string, rest: string, d: string)
    requires d != ""
    ensures Closed(p, d) ==> Split(p + d + rest, d) == [p] + Split(rest, d)
    ensures !Closed(p, d) ==> Split(p + d + rest, d)[0] != p
  {
    ClosedInContext(p, d, rest);
    var s := p + d + rest;
    assert s[..|p|] == p && s[|p| + |d|..] == rest;
    assert s[|p|..|p| + |d|] == d;
    assert At(s, d, |p|);
    var k := Find(s, d).value;
    assert |Split(s, d)[0]| == k;
  }

  /** A list of parts is separable if its first part is closed and the rest is separable. */
  lemma SeparableCons(p: string, parts: seq<string>, d: string)
    requires d != "" && parts != []
    ensures Separable([p] + parts, d) <==> Closed(p, d) && Separable(parts, d)
  {
    var all := [p] + parts;
    assert all[0] == p && all[|all| - 1] == parts[|parts| - 1];
    assert forall i | 0 < i < |all| - 1 :: all[i] == parts[i - 1];
    assert forall i | 0 <= i < |parts| - 1 :: parts[i] == all[i + 1];
  }

  /** Splitting undoes joining exactly for separable parts. */
  lemma {:induction false} SplitOfJoin(parts: seq<string>, d: string)
    requires d != ""
    ensures Split(Join(parts, d), d) == parts <==> Separable(parts, d)
    decreases |parts|
  {
    if |parts| == 1 {
      SplitOfOne(parts[0], d);
    } else if |parts| > 1 {
      var p, tail := parts[0], parts[1..];
      assert parts == [p] + tail;
      SeparableCons(p, tail, d);
      SplitFront(p, Join(tail, d), d);
      SplitOfJoin(tail, d);
      var rest := Split(Join(tail, d), d);
      assert [p] + rest == [p] + tail ==> ([p] + rest)[1..] == ([p] + tail)[1..];
    }
  }

  lemma SplitOfOne(p: string, d: string)
    requires d != ""
    ensures Split(p, d) == [p] <==> !Contains(p, d)
  {
  }

  /** What splitting any text returns is separable. */
  lemma SplitIsSeparable(s: string, d: string)
    requires d != ""
    ensures Separable(Split(s, d), d)
  {
    JoinOfSplit(s, d);
    SplitOfJoin(Split(s, d), d);
  }

  /** A part without the delimiter's first character is closed and contains no delimiter. */
  lemma PlainIsClosed(p: string, d: string)
    requires d != "" && d[0] !in p
    ensures Closed(p, d) && !Contains(p, d)
  {
    var s := p + d;
    assert s[|p|..|p| + |d|] == d;
    forall j: nat | j < |p| ensures !At(s, d, j) && !At(p, d, j) {
      assert s[j] == p[j] != d[0];
      assert j + |d| <= |s| ==> s[j..j + |d|][0] == s[j];
      assert j + |d| <= |p| ==> p[j..j + |d|][0] == p[j];
    }
    FindUnique(s, d, |p|);
  }

  /** A closed part contains no delimiter. */
  lemma ClosedContainsNone(p: string, d: string)
    requires d != "" && Closed(p, d)
    ensures !Contains(p, d)
  {
    if Contains(p, d) {
      var k := Find(p, d).value;
      assert (p + d)[k..k + |d|] == p[k..k + |d|];
      assert At(p + d, d, k);
    }
  }

  /** A text keeps the occurrences of its pieces. */
  lemma ContainsInContext(before: string, s: string, after: string, d: string)
    requires d != "" && Contains(s, d)
    ensures Contains(before + s + after, d)
  {
    var k := Find(s, d).value;
    var t := before + s + after;
    assert t[|before| + k..|before| + k + |d|] == s[k..k + |d|];
    assert At(t, d, |before| + k);
  }

  function LastPart(s: string, d: string): string
    requires d != ""
  {
    var parts := Split(s, d);
    parts[|parts| - 1]
  }

  lemma FindExtend(s: string, t: string, d: string)
    requires d != "" && Find(s, d).Some?
    ensures Find(s + t, d) == Find(s, d)
  {
    var k := Find(s, d).value;
    assert (s + t)[k..k + |d|] == s[k..k + |d|];
    forall j: nat | j < k ensures !At(s + t, d, j) {
      assert !At(s, d, j);
      assert (s + t)[j..j + |d|] == s[j..j + |d|];
    }
    FindUnique(s + t, d, k);
  }

  lemma SplitUnfold(s: string, d: string, k: nat)
    requires d != "" && Find(s, d) == Some(k)
    ensures Split(s, d) == [s[..k]] + Split(s[k + |d|..], d)
    ensures LastPart(s, d) == LastPart(s[k + |d|..], d)
  {
  }

  lemma Reassemble<T>(x: T, xs: seq<T>, more: seq<T>)
    requires xs != []
    ensures [x] + (xs[..|xs| - 1] + more) == ([x] + xs)[..|xs|] + more
  {
  }

  /** What follows a text changes only the last of its parts. */
  lemma {:induction false} SplitExtend(s: string, t: string, d: string)
    requires d != ""
    ensures Split(s + t, d) == Split(s, d)[..|Split(s, d)| - 1] + Split(LastPart(s, d) + t, d)
    decreases |s|
  {
    match Find(s, d)
    case None =>
    case Some(k) =>
      var rest := s[k + |d|..];
      FindExtend(s, t, d);
      assert (s + t)[..k] == s[..k] && (s + t)[k + |d|..] == rest + t;
      SplitUnfold(s, d, k);
      SplitUnfold(s + t, d, k);
      SplitExtend(rest, t, d);
      Reassemble(s[..k], Split(rest, d), Split(LastPart(s, d) + t, d));
  }

  /** The last part ends the text; it is empty only behind a delimiter. */
  lemma {:induction false} LastPartEnds(s: string, d: string)
    requires d != ""
    ensures var l := LastPart(s, d);
      && |l| <= |s| && s[|s| - |l|..] == l && !Contains(l, d)
      && (l == "" && s != "" ==> s[|s| - 1] == d[|d| - 1])
    decreases |s|
  {
    match Find(s, d)
    case None =>
    case Some(k) =>
      var rest := s[k + |d|..];
      LastPartEnds(rest, d);
      SplitUnfold(s, d, k);
      EndsOf(s, d, k, LastPart(rest, d));
  }

  lemma EndsOf(s: string, d: string, k: nat, l: string)
    requires d != "" && At(s, d, k) && |l| <= |s| - k - |d|
    ensures s[|s| - |l|..] == s[k + |d|..][|s| - k - |d| - |l|..]
    ensures s[|s| - 1] == if k + |d| == |s| then d[|d| - 1] else s[k + |d|..][|s| - k - |d| - 1]
  {
    assert s[k..k + |d|][|d| - 1] == s[k + |d| - 1];
  }

  lemma Regroup<T>(a: seq<T>, b: seq<T>, c: seq<T>)
    ensures a + b + c == a + (b + c)
  {
  }

  lemma InnerAndLast(s: string, d: string)
    requires d != ""
    ensures Split(s, d) == Split(s, d)[..|Split(s, d)| - 1] + [LastPart(s, d)]
  {
  }

  /** A delimiter behind a text whose last part is closed separates it from what follows. */
  lemma SplitApart(s: string, more: string, d: string)
    requires d != "" && Closed(LastPart(s, d), d)
    ensures Split(s + d + more, d) == Split(s, d) + Split(more, d)
  {
    var end := LastPart(s, d);
    var inner := Split(s, d)[..|Split(s, d)| - 1];
    Regroup(s, d, more);
    Regroup(end, d, more);
    SplitExtend(s, d + more, d);
    SplitFront(end, more, d);
    InnerAndLast(s, d);
    Regroup(inner, [end], Split(more, d));
  }
}
