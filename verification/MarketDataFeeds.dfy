/**
 The market data feed as its threads see it one call at a time: market_data_feed.cpp. The values that
 the consumer loop loads from running_ are a parameter; FeedProtocol.dfy interleaves the loop with
 publishing, starting and stopping.
 */
module MarketDataFeeds {
  import opened OrderTypes
  import opened Masks
  import opened RingBuffers

  const RING_SIZE := 8192

  lemma RingSize()
    ensures RING_SIZE == Pow2(13)
  {
    assert Pow2(8) == 256;
  }

  class MarketDataFeed {
    const ring: SPSCRingBuffer<Tick>
    var running: bool
    var published: nat
    var consumed: nat
    var dropped: nat
    /** Ticks that publish() accepted, and ticks the handler was called on. */
    ghost var accepted: seq<Tick>
    ghost var handled: seq<Tick>

    ghost predicate Valid()
      reads this, ring, ring.buffer
    {
      && ring.Valid() && ring.capacity == RING_SIZE
      && published == |accepted| && consumed == |handled|
      && accepted == handled + ring.Contents()
    }

    constructor ()
      ensures Valid() && !running && accepted == [] && handled == [] && dropped == 0
      ensures fresh(ring) && fresh(ring.buffer)
    {
      RingSize();
      ring := new SPSCRingBuffer(13, RING_SIZE);
      running, published, consumed, dropped := false, 0, 0, 0;
      accepted, handled := [], [];
    }

    method Publish(tick: Tick) returns (ok: bool)
      requires Valid()
      modifies this`published, this`dropped, this`accepted, ring`head, ring.buffer
      ensures Valid()
      ensures ok <==> old(published - consumed) < RING_SIZE - 1
      ensures accepted == if ok then old(accepted) + [tick] else old(accepted)
      ensures published + dropped == old(published + dropped) + 1
    {
      ok := ring.Push(tick);
      if ok {
        published := published + 1;
        accepted := accepted + [tick];
      } else {
        dropped := dropped + 1;
      }
    }

    /**
     consumer_loop(). `loads` is what its first loads of running_ see, one turn each;
     after them running_ reads false, and the loop goes on until the ring is empty.
     */
    method ConsumerLoop(loads: seq<bool>)
      requires Valid()
      modifies this`consumed, this`handled, ring`tail
      ensures Valid() && ring.Contents() == []
      ensures handled == accepted && consumed == published
    {
      var i := 0;
      var empty := ring.Empty();
      while (i < |loads| && loads[i]) || !empty
        invariant Valid() && 0 <= i <= |loads| && accepted == old(accepted)
        invariant empty <==> ring.Contents() == []
        decreases |loads| - i + |ring.Contents()|
      {
        Turn();
        i := if i < |loads| then i + 1 else i;
        empty := ring.Empty();
      }
    }

    /** One turn of the loop: a tick is popped, handed to the handler and counted, if there is one. */
    method Turn()
      requires Valid()
      modifies this`consumed, this`handled, ring`tail
      ensures Valid()
      ensures if old(ring.Contents()) == [] then handled == old(handled) && ring.Contents() == []
              else handled == old(handled) + [old(ring.Contents())[0]] && ring.Contents() == old(ring.Contents())[1..]
    {
      var tick := ring.Pop();
      if tick.Some? {
        handled := handled + [tick.value];
        consumed := consumed + 1;
      }
    }

    /** Sets running_; the consumer thread that the source starts here is in FeedProtocol.dfy. */
    method Start()
      requires Valid()
      modifies this`running
      ensures Valid() && running
    {
      running := true;
    }

    /** A running feed is stopped and flushed; a stopped one is left alone. */
    method Stop()
      requires Valid()
      modifies this`running, this`consumed, this`handled, ring`tail
      ensures Valid() && !running && accepted == old(accepted)
      ensures if old(running) then handled == accepted && published == consumed else handled == old(handled)
    {
      if !running {
        return;
      }
      running := false;
      ConsumerLoop([]);
    }
  }
}
