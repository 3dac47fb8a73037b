/**
 Routing data to a shard. A node outside the shard asks the shard's peers one after the
 other in a shuffled order until one answers.
 */
module ShardRouting {
  import opened Wrappers
  import opened Entries
  import opened ShardState

  /** A peer's answer to a request. */
  datatype Reply = Failed | Rpc(data: seq<string>) | Other

  /** The order in which the peers are asked is some arrangement of the set. */
  ghost predicate Shuffle(order: seq<PeerId>, nodes: set<PeerId>) {
    && (forall p :: p in order <==> p in nodes)
    && (forall i, j | 0 <= i < j < |order| :: order[i] != order[j])
  }

  lemma {:induction false} OnceEach(order: seq<PeerId>)
    requires forall i, j | 0 <= i < j < |order| :: order[i] != order[j]
    ensures forall p :: multiset(order)[p] == if p in order then 1 else 0
  {
    if order != [] {
      var last := |order| - 1;
      OnceEach(order[..last]);
      assert order == order[..last] + [order[last]];
    }
  }

  /** A shuffle has every peer exactly once. */
  lemma ShuffleExactly(order: seq<PeerId>, nodes: set<PeerId>)
    ensures Shuffle(order, nodes) <==> multiset(order) == multiset(nodes)
  {
    if Shuffle(order, nodes) {
      OnceEach(order);
      assert forall p :: multiset(order)[p] == multiset(nodes)[p];
    }
    if multiset(order) == multiset(nodes) {
      assert forall p :: p in order <==> p in multiset(order);
      forall i, j | 0 <= i < j < |order| ensures order[i] != order[j] {
        assert order == order[..j] + [order[j]] + order[j + 1..];
        assert order[..j][i] in multiset(order[..j]);
        assert multiset(order[..j])[order[i]] + multiset([order[j]])[order[i]] <= multiset(nodes)[order[i]] <= 1;
      }
    }
  }

  /** How `shard` ends when the node is outside the shard: the first accepting peer wins. */
  method Forward(order: seq<PeerId>, replies: PeerId -> Reply) returns (r: Result<Option<seq<string>>, NetworkError>, asked: seq<PeerId>)
    ensures asked <= order
    ensures r == if exists p :: p in order && !replies(p).Failed? then Ok(None) else Err(DataForwardingError)
    ensures r.Ok? ==> asked != [] && !replies(asked[|asked| - 1]).Failed?
    ensures r.Ok? ==> forall i | 0 <= i < |asked| - 1 :: replies(asked[i]).Failed?
    ensures r.Err? ==> asked == order
  {
    asked := [];
    for i := 0 to |order|
      invariant asked == order[..i]
      invariant forall j | 0 <= j < i :: replies(order[j]).Failed?
    {
      asked := asked + [order[i]];
      if !replies(order[i]).Failed? {
        return Ok(None), asked;
      }
    }
    return Err(DataForwardingError), asked;
  }

  /** Sending data to the shard that stores a key; `shard` is the located shard, if any. The
      second result says that the node replicates the data itself. */
  method Shard(self: PeerId, shards: ShardMap, shard: Option<string>, data: seq<string>,
               order: seq<PeerId>, replies: PeerId -> Reply)
    returns (r: Result<Option<seq<string>>, NetworkError>, replicates: bool, asked: seq<PeerId>)
    requires shard.Some? && shard.value in shards ==> Shuffle(order, shards[shard.value])
    ensures shard.None? ==> r == Err(ShardNotFound) && !replicates && asked == []
    ensures shard.Some? && shard.value !in shards ==> r == Err(MissingShardNodesError) && !replicates && asked == []
    ensures shard.Some? && shard.value in shards && self in shards[shard.value] ==>
      r == Ok(Some(data)) && replicates && asked == []
    ensures shard.Some? && shard.value in shards && self !in shards[shard.value] ==>
      && !replicates && asked <= order
      && r == (if exists p :: p in shards[shard.value] && !replies(p).Failed? then Ok(None) else Err(DataForwardingError))
      && (forall i | 0 <= i < |asked| :: !replies(asked[i]).Failed? <==> r.Ok? && i == |asked| - 1)
      && (r.Err? ==> asked == order)
  {
    replicates, asked := false, [];
    match shard {
      case None => r := Err(ShardNotFound);
      case Some(id) =>
        if id !in shards {
          r := Err(MissingShardNodesError);
        } else if self in shards[id] {
          r, replicates := Ok(Some(data)), true;
        } else {
          r, asked := Forward(order, replies);
        }
    }
  }

  /** Reading from a shard: only an answer that carries data ends the search. */
  method Fetch(self: PeerId, shards: ShardMap, shard: Option<string>, order: seq<PeerId>, replies: PeerId -> Reply)
    returns (r: Result<Option<seq<string>>, NetworkError>)
    requires shard.Some? && shard.value in shards ==> Shuffle(order, shards[shard.value])
    ensures shard.None? ==> r == Err(ShardingFailureError)
    ensures shard.Some? && shard.value !in shards ==> r == Err(ShardingFetchError)
    ensures shard.Some? && shard.value in shards && self in shards[shard.value] ==> r == Ok(None)
    ensures shard.Some? && shard.value in shards && self !in shards[shard.value] ==>
      if exists p :: p in shards[shard.value] && replies(p).Rpc?
      then exists i :: 0 <= i < |order| && replies(order[i]).Rpc? && r == Ok(Some(replies(order[i]).data))
                       && forall j | 0 <= j < i :: !replies(order[j]).Rpc?
      else r == Err(ShardingFetchError)
  {
    match shard {
      case None => return Err(ShardingFailureError);
      case Some(id) =>
        if id !in shards {
          return Err(ShardingFetchError);
        }
        if self in shards[id] {
          return Ok(None);
        }
        for i := 0 to |order|
          invariant forall j | 0 <= j < i :: !replies(order[j]).Rpc?
        {
          if replies(order[i]).Rpc? {
            return Ok(Some(replies(order[i]).data));
          }
        }
        return Err(ShardingFetchError);
    }
  }
}
