/** The value types shared by every component. */
module Wrappers {
  datatype Option<+T> = None | Some(value: T) {
    function GetOr(default: T): T {
      match this
      case Some(v) => v
      case None => default
    }
  }

  datatype Result<+T, +E> = Ok(value: T) | Err(error: E)

  /** The errors a network operation reports to the application. */
  datatype NetworkError =
    | MissingReplNetwork
    | RpcDataFetchError
    | ShardNotFound
    | MissingShardNodesError
    | DataForwardingError
    | ShardingFailureError
    | ShardingFetchError
}

/** The source's `u64`: a bounded natural with saturating arithmetic. */
module U64 {
  const MAX: nat := 0xFFFF_FFFF_FFFF_FFFF

  type u64 = n: nat | n <= MAX

  function SaturatingAdd(a: u64, b: u64): u64 {
    if a + b <= MAX then a + b else MAX
  }

  /** Sums stop at the largest number, differences at zero. */
  lemma Saturates(a: u64, b: u64)
    ensures SaturatingAdd(a, b) <= a + b && (a + b <= MAX ==> SaturatingAdd(a, b) == a + b)
    ensures a + b > MAX ==> SaturatingAdd(a, b) == 0xFFFF_FFFF_FFFF_FFFF
    ensures a >= b ==> SaturatingSub(a, b) == a - b
    ensures a < b ==> SaturatingSub(a, b) == 0
    ensures Max(a, b) >= a && Max(a, b) >= b && (Max(a, b) == a || Max(a, b) == b)
  {
  }

  function SaturatingSub(a: u64, b: u64): u64 {
    if b <= a then a - b else 0
  }

  function Max(a: u64, b: u64): u64 {
    if a < b then b else a
  }
}

/** Mapping over sequences. */
module Seqs {
  function Map<A, B>(f: A -> B, xs: seq<A>): (ys: seq<B>)
    ensures |ys| == |xs| && forall i | 0 <= i < |xs| :: ys[i] == f(xs[i])
  {
    if xs == [] then [] else [f(xs[0])] + Map(f, xs[1..])
  }

  function FlatMap<A, B>(f: A -> seq<B>, xs: seq<A>): seq<B> {
    if xs == [] then [] else f(xs[0]) + FlatMap(f, xs[1..])
  }

  function Filter<T>(p: T -> bool, xs: seq<T>): seq<T> {
    if xs == [] then []
    else if p(xs[0]) then [xs[0]] + Filter(p, xs[1..])
    else Filter(p, xs[1..])
  }

  lemma MapStep<A, B>(f: A -> B, xs: seq<A>, i: nat)
    requires i < |xs|
    ensures Map(f, xs[..i + 1]) == Map(f, xs[..i]) + [f(xs[i])]
    ensures |Map(f, xs[..i])| == i
  {
  }

  lemma {:induction false} FlatMapStep<A, B>(f: A -> seq<B>, xs: seq<A>, i: nat)
    requires i < |xs|
    ensures FlatMap(f, xs[..i + 1]) == FlatMap(f, xs[..i]) + f(xs[i])
  {
    if i == 0 {
      assert xs[..1] == [xs[0]] && xs[..1][1..] == [];
    } else {
      FlatMapStep(f, xs[1..], i - 1);
      assert xs[..i + 1][1..] == xs[1..][..i] && xs[..i][1..] == xs[1..][..i - 1];
    }
  }

  lemma {:induction false} FlatMapAppend<A, B>(f: A -> seq<B>, xs: seq<A>, ys: seq<A>)
    ensures FlatMap(f, xs + ys) == FlatMap(f, xs) + FlatMap(f, ys)
  {
    if xs == [] {
      assert xs + ys == ys;
    } else {
      assert (xs + ys)[0] == xs[0] && (xs + ys)[1..] == xs[1..] + ys;
      FlatMapAppend(f, xs[1..], ys);
    }
  }

  lemma {:induction false} FlatMapIn<A, B>(f: A -> seq<B>, xs: seq<A>, y: B)
    ensures y in FlatMap(f, xs) <==> exists x :: x in xs && y in f(x)
  {
    if xs != [] {
      FlatMapIn(f, xs[1..], y);
      assert xs == [xs[0]] + xs[1..];
    }
  }

  lemma {:induction false} FilterIn<T>(p: T -> bool, xs: seq<T>)
    ensures forall x :: x in Filter(p, xs) <==> x in xs && p(x)
    ensures |Filter(p, xs)| <= |xs|
    ensures (forall x | x in xs :: p(x)) ==> Filter(p, xs) == xs
  {
    if xs != [] {
      FilterIn(p, xs[1..]);
      assert xs == [xs[0]] + xs[1..];
    }
  }
}
