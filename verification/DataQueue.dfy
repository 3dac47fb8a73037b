/** The bounded first-in first-out queue of the event loop: a full queue drops its oldest element. */
module DataQueue {
  import opened Wrappers
  import opened Seqs

  const MAX_QUEUE_ELEMENTS: nat := 300

  /** How an element left the queue. */
  datatype Departure<T> = Popped(item: T) | Dropped(item: T)

  function Item<T>(d: Departure<T>): T {
    d.item
  }

  class DataQueue<T> {
    var buffer: seq<T>
    ghost var pushed: seq<T>                // history: everything pushed
    ghost var departed: seq<Departure<T>>   // history: everything that left, in order

    /** What was pushed is what left followed by what is held. */
    ghost predicate Valid()
      reads this
    {
      |buffer| <= MAX_QUEUE_ELEMENTS && pushed == Map(Item, departed) + buffer
    }

    constructor ()
      ensures Valid() && buffer == [] && pushed == [] && departed == []
    {
      buffer, pushed, departed := [], [], [];
    }

    method Pop() returns (item: Option<T>)
      requires Valid()
      modifies this
      ensures Valid() && pushed == old(pushed)
      ensures old(buffer) == [] ==> item == None && buffer == [] && departed == old(departed)
      ensures old(buffer) != [] ==>
        item == Some(old(buffer)[0]) && buffer == old(buffer)[1..] && departed == old(departed) + [Popped(item.value)]
    {
      item := None;
      if buffer != [] {
        item := Some(buffer[0]);
        departed := departed + [Popped(buffer[0])];
        assert Map(Item, departed) == Map(Item, old(departed)) + [buffer[0]];
        buffer := buffer[1..];
      }
    }

    /** An element is dropped only if the queue is full, and then it is the oldest. */
    method Push(item: T)
      requires Valid()
      modifies this
      ensures Valid() && pushed == old(pushed) + [item] && |buffer| <= 300
      ensures |old(buffer)| < 300 ==> buffer == old(buffer) + [item] && departed == old(departed)
      ensures |old(buffer)| == 300 ==>
        buffer == old(buffer)[1..] + [item] && departed == old(departed) + [Dropped(old(buffer)[0])]
    {
      if |buffer| >= MAX_QUEUE_ELEMENTS {
        departed := departed + [Dropped(buffer[0])];
        assert Map(Item, departed) == Map(Item, old(departed)) + [buffer[0]];
        buffer := buffer[1..];
      }
      buffer := buffer + [item];
      pushed := pushed + [item];
    }
  }
}
