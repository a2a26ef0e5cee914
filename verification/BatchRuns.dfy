/** BatchLoop and batching transparency together: what the loop writes does not depend on how its events
    cut the stream. */
module BatchRuns {
  import opened Common
  import opened Conv
  import opened Messages
  import opened Sql
  import opened Store
  import opened StoreFacts
  import opened Confluence
  import opened Batching
  import opened StoreWorkers

  lemma {:induction false} MsgsOfAppend(a: seq<Item>, b: seq<Item>)
    ensures MsgsOf(a + b) == MsgsOf(a) + MsgsOf(b)
  {
    if b == [] {
      assert a + b == a;
    } else {
      MsgsOfAppend(a, b[..|b| - 1]);
      assert (a + b)[..|a + b| - 1] == a + b[..|b| - 1];
    }
  }

  /** The flushes of any batches store the messages of the batches in order. */
  lemma {:induction false} CallsStream(o: Oracle, t: nat, batches: seq<seq<Item>>)
    ensures Stream(Calls(o, t, batches)) == MsgsOf(Concat(batches))
  {
    hide Flush;
    if batches != [] {
      var b, last := batches[..|batches| - 1], batches[|batches| - 1];
      CallsStream(o, t, b);
      var calls := Calls(o, t, b);
      var ev := Flushed(o, TickAfter(o, t, b), MsgsOf(last));
      assert (calls + [ev])[..|calls|] == calls;
      MsgsOfAppend(Concat(b), last);
    }
  }

  lemma {:induction false} CallsSmooth(o: Oracle, t: nat, batches: seq<seq<Item>>, roster: int64 -> seq<int64>)
    requires Fair(o) && AllSucceed(o, roster)
    ensures Smooth(o.shard, roster, Calls(o, t, batches))
  {
    hide Flush;
    hide Fair;
    hide AllSucceed;
    if batches != [] {
      CallsSmooth(o, t, batches[..|batches| - 1], roster);
    }
  }

  /** One batch per record. */
  function OneByOne(items: seq<Item>): seq<seq<Item>> {
    if items == [] then [] else OneByOne(items[..|items| - 1]) + [[items[|items| - 1]]]
  }

  lemma {:induction false} OneByOneConcat(items: seq<Item>)
    ensures Concat(OneByOne(items)) == items
  {
    if items != [] {
      var b, last := items[..|items| - 1], items[|items| - 1];
      OneByOneConcat(b);
      ConcatSnoc(OneByOne(b), [last]);
      assert b + [last] == items;
    }
  }

  /** When every statement succeeds, whatever arrivals, ticks, closes and cancellations cut the stream
      into, the database that BatchLoop leaves is the one of storing each record on its own. */
  lemma LoopTransparent(o: Oracle, t: nat, t1: nat, db: Db, roster: int64 -> seq<int64>, events: seq<LoopEvent>)
    requires ValidDb(db) && Fair(o) && AllSucceed(o, roster) && RunLoop(events).1 == []
    requires var msgs := MsgsOf(ParseAll(Taken(events))); DecimalIds(msgs) && GoodPairs(msgs)
    ensures ApplyAll(db, HistTrace(Calls(o, t, RunLoop(events).0))) ==
            ApplyAll(db, HistTrace(Calls(o, t1, OneByOne(ParseAll(Taken(events))))))
  {
    hide *;
    var items, batches := ParseAll(Taken(events)), RunLoop(events).0;
    assert Concat(batches) == items by {
      FlushedExactlyOnce(events);
      HeldAll(events);
    }
    var h1, h2 := Calls(o, t, batches), Calls(o, t1, OneByOne(items));
    CallsStream(o, t, batches);
    CallsStream(o, t1, OneByOne(items));
    OneByOneConcat(items);
    CallsSmooth(o, t, batches, roster);
    CallsSmooth(o, t1, OneByOne(items), roster);
    BatchingTransparent(o.shard, roster, db, h1, h2);
  }

  lemma HeldAll(events: seq<LoopEvent>)
    requires RunLoop(events).1 == []
    ensures Held(LoopState(events)) == Concat(RunLoop(events).0)
  {
  }
}
