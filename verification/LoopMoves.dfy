/** BatchLoop and the job machine: a run of the loop, with the fetch loop and the senders going on between
    its events, is a run of Receive and FlushPending moves, and leaves what that run leaves. */
module LoopMoves {
  import opened Common
  import opened Messages
  import opened Sql
  import opened Store
  import opened StoreFacts
  import opened Confluence
  import opened StoreWorkers
  import opened Pipeline
  import opened FetchLoop

  /** What the fetch loop and the senders did, then what the select of BatchLoop saw. */
  datatype LoopTurn = LoopTurn(before: seq<Other>, ev: LoopEvent)

  ghost predicate FetchSide(o: Other) {
    match o
    case Grow(m) => RowOf(m).Some?
    case Did(mv) => mv.Fetch? || mv.HandOff? || mv.Cancel?
  }

  function Receives(n: nat): seq<Other> { if n == 0 then [] else Receives(n - 1) + [Did(Receive)] }

  /** The moves one event amounts to, with so many records pending before it. */
  function EventMoves(pending: nat, ev: LoopEvent): seq<Other> {
    match ev
    case Arrived(_) => if pending + 1 >= STORE_BATCH_SIZE then [Did(Receive), Did(FlushPending)] else [Did(Receive)]
    case Ticked => [Did(FlushPending)]
    case Closed => [Did(FlushPending)]
    case Cancelled(drained) => Receives(|drained|) + [Did(FlushPending)]
  }

  function Events(turns: seq<LoopTurn>): seq<LoopEvent> {
    if turns == [] then [] else Events(turns[..|turns| - 1]) + [turns[|turns| - 1].ev]
  }

  /** The machine after these turns; once the loop has ended only the others move. */
  function Played(env: Env, w: World, turns: seq<LoopTurn>): World {
    if turns == [] then w
    else
      var b, last := turns[..|turns| - 1], turns[|turns| - 1];
      var w1 := PlayAll(env, Played(env, w, b), last.before);
      if LoopState(Events(b)).Ended? then w1 else PlayAll(env, w1, EventMoves(|w1.job.pending|, last.ev))
  }

  function RecordsAt(log: seq<Msg>, idx: seq<nat>): seq<Record> {
    if idx == [] then [] else RecordsAt(log, idx[..|idx| - 1]) + [RecordAt(log, idx[|idx| - 1])]
  }

  /** The event takes from the channel what is in it. */
  predicate Fed(w: World, ev: LoopEvent) {
    match ev
    case Arrived(km) => w.job.chan != [] && km == RecordAt(w.log, w.job.chan[0])
    case Cancelled(drained) => drained == RecordsAt(w.log, w.job.chan)
    case _ => true
  }

  ghost predicate AllFed(env: Env, w: World, turns: seq<LoopTurn>) {
    turns == [] ||
    (var b, last := turns[..|turns| - 1], turns[|turns| - 1];
     && AllFed(env, w, b) && (forall o :: o in last.before ==> FetchSide(o))
     && (LoopState(Events(b)).Running? ==> Fed(PlayAll(env, Played(env, w, b), last.before), last.ev)))
  }

  // ---------------------------------------------------------------- the two sides of a state

  function Positions(kms: seq<Record>): seq<nat> {
    if kms == [] then [] else Positions(kms[..|kms| - 1]) + [kms[|kms| - 1].pos]
  }

  /** The offsets after committing these batches in turn. */
  function Offsets(env: Env, log: seq<Msg>, base: map<nat, nat>, commits: seq<seq<Record>>): map<nat, nat> {
    if commits == [] then base
    else Offsets(env, log, base, commits[..|commits| - 1]) + Stash(env, log, Positions(commits[|commits| - 1]))
  }

  ghost predicate InsideAll(log: seq<Msg>, commits: seq<seq<Record>>) {
    forall c :: c in commits ==> Inside(log, Positions(c))
  }

  /** Where the comparison starts: the books, the trace and the offsets. */
  datatype Start = Start(books: Books, trace: seq<Stmt>, committed: map<nat, nat>)

  function BooksNow(env: Env, x: Start, batches: seq<seq<Item>>): Books { BooksAfter(env.o, env.sink, x.books, batches) }

  ghost predicate DoneIs(d: Done, b: Books) {
    d.tick == b.tick && d.dlq == b.dlq && d.dlqTick == b.dlqTick && d.commitTick == b.commitTick
  }

  /** The machine is where the loop is after flushing these batches with these items pending. */
  ghost predicate Matches(env: Env, w: World, x: Start, batches: seq<seq<Item>>, pending: seq<Item>) {
    var b := BooksNow(env, x, batches);
    && Sound(env, w) && ItemsAt(w.log, w.job.pending) == pending
    && w.job.done.trace == x.trace + HistTrace(Calls(env.o, x.books.tick, batches)) && DoneIs(w.job.done, b)
    && x.books.committed <= b.committed && InsideAll(w.log, b.committed[|x.books.committed|..])
    && w.job.committed == Offsets(env, w.log, x.committed, b.committed[|x.books.committed|..])
  }

  lemma PendingInside(env: Env, w: World)
    requires Sound(env, w)
    ensures Inside(w.log, w.job.pending)
  {
    hide PartAt;
    hide Accounted;
    hide RowsFromLog;
    assert forall k :: k in w.job.pending ==> k in Line(w.job) && Between(env, w.log, w.job, k);
  }

  // ---------------------------------------------------------------- the log may grow

  lemma InsidePrefix(log: seq<Msg>, idx: seq<nat>)
    requires Inside(log, idx) && idx != []
    ensures Inside(log, idx[..|idx| - 1])
  {
    var b := idx[..|idx| - 1];
    assert b + [idx[|idx| - 1]] == idx;
    forall i: nat | i in b
      ensures i < |log|
    {
      assert i in b + [idx[|idx| - 1]];
    }
  }

  lemma {:induction false} ItemsStay(log: seq<Msg>, log': seq<Msg>, idx: seq<nat>)
    requires log <= log' && Inside(log, idx)
    ensures ItemsAt(log', idx) == ItemsAt(log, idx)
  {
    if idx != [] {
      assert idx[|idx| - 1] in idx;
      InsidePrefix(log, idx);
      ItemsStay(log, log', idx[..|idx| - 1]);
    }
  }

  lemma {:induction false} StashStays(env: Env, log: seq<Msg>, log': seq<Msg>, idx: seq<nat>)
    requires log <= log' && Inside(log, idx)
    ensures Stash(env, log', idx) == Stash(env, log, idx)
  {
    if idx != [] {
      assert idx[|idx| - 1] in idx;
      InsidePrefix(log, idx);
      StashStays(env, log, log', idx[..|idx| - 1]);
    }
  }

  lemma {:induction false} OffsetsStay(env: Env, log: seq<Msg>, log': seq<Msg>, base: map<nat, nat>, commits: seq<seq<Record>>)
    requires log <= log' && InsideAll(log, commits)
    ensures Offsets(env, log', base, commits) == Offsets(env, log, base, commits) && InsideAll(log', commits)
  {
    hide Stash;
    if commits != [] {
      var last := commits[|commits| - 1];
      assert last in commits;
      OffsetsStay(env, log, log', base, commits[..|commits| - 1]);
      StashStays(env, log, log', Positions(last));
    }
  }

  lemma SideFrame(env: Env, w: World, o: Other)
    requires FetchSide(o)
    ensures var w' := Play(env, w, o);
            && w.log <= w'.log && w'.job.pending == w.job.pending && w'.job.done == w.job.done
            && w'.job.committed == w.job.committed
  {
    hide IsNext;
    hide FlushDone;
    hide CrashDone;
    hide Stash;
    hide RowOf;
  }

  lemma SideStep(env: Env, w: World, x: Start, batches: seq<seq<Item>>, pending: seq<Item>, o: Other)
    requires Matches(env, w, x, batches, pending) && FetchSide(o)
    ensures Matches(env, Play(env, w, o), x, batches, pending)
  {
    hide Sound;
    hide Play;
    hide RowOf;
    hide ItemsAt;
    hide HistTrace;
    hide Calls;
    hide BooksNow;
    hide Offsets;
    hide InsideAll;
    SideFrame(env, w, o);
    PlaySound(env, w, o);
    PendingInside(env, w);
    ItemsStay(w.log, Play(env, w, o).log, w.job.pending);
    OffsetsStay(env, w.log, Play(env, w, o).log, x.committed, BooksNow(env, x, batches).committed[|x.books.committed|..]);
  }

  lemma {:induction false} SideRun(env: Env, w: World, x: Start, batches: seq<seq<Item>>, pending: seq<Item>, os: seq<Other>)
    requires Matches(env, w, x, batches, pending) && forall o :: o in os ==> FetchSide(o)
    ensures Matches(env, PlayAll(env, w, os), x, batches, pending)
  {
    hide Matches;
    hide FetchSide;
    hide Play;
    if os != [] {
      assert os[|os| - 1] in os;
      SideRun(env, w, x, batches, pending, os[..|os| - 1]);
      SideStep(env, PlayAll(env, w, os[..|os| - 1]), x, batches, pending, os[|os| - 1]);
    }
  }

  // ---------------------------------------------------------------- the loop's own moves

  lemma ItemsSnoc(log: seq<Msg>, idx: seq<nat>, i: nat)
    ensures ItemsAt(log, idx + [i]) == ItemsAt(log, idx) + [ParseStoreItem(RecordAt(log, i))]
  {
    hide RecordAt;
    assert (idx + [i])[..|idx|] == idx;
  }

  lemma ReceiveStep(env: Env, w: World, x: Start, batches: seq<seq<Item>>, pending: seq<Item>)
    requires Matches(env, w, x, batches, pending) && w.job.chan != []
    ensures var w' := Play(env, w, Did(Receive));
            && Matches(env, w', x, batches, pending + [ParseStoreItem(RecordAt(w.log, w.job.chan[0]))])
            && w'.log == w.log && w'.job.chan == w.job.chan[1..] && |w'.job.pending| == |w.job.pending| + 1
  {
    hide Sound;
    hide ItemsAt;
    hide HistTrace;
    hide Calls;
    hide BooksNow;
    hide Offsets;
    hide InsideAll;
    hide RecordAt;
    PlaySound(env, w, Did(Receive));
    ItemsSnoc(w.log, w.job.pending, w.job.chan[0]);
  }

  lemma PositionsSnoc(items: seq<Item>, it: Item)
    ensures Positions(Records(items + [it])) == Positions(Records(items)) + [it.km.pos]
  {
    var kms := Records(items + [it]);
    assert kms == Records(items) + [it.km];
    assert kms[..|kms| - 1] == Records(items);
  }

  lemma {:induction false} PositionsOf(log: seq<Msg>, idx: seq<nat>)
    ensures Positions(Records(ItemsAt(log, idx))) == idx && |ItemsAt(log, idx)| == |idx|
  {
    if idx != [] {
      var b, i := idx[..|idx| - 1], idx[|idx| - 1];
      PositionsOf(log, b);
      ItemsSnoc(log, b, i);
      PositionsSnoc(ItemsAt(log, b), ParseStoreItem(RecordAt(log, i)));
      hide Positions;
      hide Records;
      hide ItemsAt;
      assert b + [i] == idx;
    }
  }

  lemma OffsetsSnoc(env: Env, log: seq<Msg>, base: map<nat, nat>, commits: seq<seq<Record>>, c: seq<Record>)
    ensures Offsets(env, log, base, commits + [c]) == Offsets(env, log, base, commits) + Stash(env, log, Positions(c))
    ensures InsideAll(log, commits) && Inside(log, Positions(c)) ==> InsideAll(log, commits + [c])
  {
    hide Stash;
    hide Positions;
    hide Inside;
    assert (commits + [c])[..|commits|] == commits;
  }

  lemma TraceSnoc(o: Oracle, t: nat, batches: seq<seq<Item>>, items: seq<Item>)
    ensures HistTrace(Calls(o, t, batches + [items])) ==
            HistTrace(Calls(o, t, batches)) + Store.Flush(o, TickAfter(o, t, batches), MsgsOf(items)).trace
  {
    hide Store.Flush;
    assert (batches + [items])[..|batches|] == batches;
    var calls := Calls(o, t, batches);
    var ev := Flushed(o, TickAfter(o, t, batches), MsgsOf(items));
    assert (calls + [ev])[..|calls|] == calls;
  }

  /** The machine's flush, field by field. */
  lemma FlushFields(env: Env, log: seq<Msg>, j: Job, items: seq<Item>)
    requires j.pending != [] && items == ItemsAt(log, j.pending)
    ensures var e, j' := Store.Flush(env.o, j.done.tick, MsgsOf(items)), Move1(env, log, j, FlushPending);
            && j'.pending == [] && j'.done.trace == j.done.trace + e.trace && j'.done.tick == e.tick
            && j'.done.dlq == j.done.dlq + (if e.ok then [] else DeadLetters(env.sink, j.done.dlqTick, items))
            && j'.done.dlqTick == (if e.ok then j.done.dlqTick else j.done.dlqTick + |items|)
            && j'.done.commitTick == j.done.commitTick + 1
            && j'.committed == if env.sink.commit(j.done.commitTick).Applied()
                               then j.committed + Stash(env, log, j.pending) else j.committed
  {
    hide Store.Flush;
    hide DeadLetters;
    hide ItemsAt;
    hide MsgsOf;
    hide Stash;
    hide Unsent;
  }

  lemma FlushStep(env: Env, w: World, x: Start, batches: seq<seq<Item>>, pending: seq<Item>)
    requires Matches(env, w, x, batches, pending)
    ensures Matches(env, Play(env, w, Did(FlushPending)), x, NonEmpty(batches, pending), [])
    ensures Play(env, w, Did(FlushPending)).job.pending == []
  {
    PositionsOf(w.log, w.job.pending);
    if pending == [] {
      assert w.job.pending == [];
      assert Play(env, w, Did(FlushPending)) == w by {
        hide FlushDone;
        hide Stash;
      }
    } else {
      PlaySound(env, w, Did(FlushPending));
      PendingInside(env, w);
      FlushFields(env, w.log, w.job, pending);
      FlushBooks(env, w, x, batches, pending);
    }
  }

  lemma BooksNextIs(o: Oracle, sink: Sink, b: Books, items: seq<Item>)
    ensures var e, b' := Store.Flush(o, b.tick, MsgsOf(items)), BooksNext(o, sink, b, items);
            && b'.tick == e.tick && b'.dlq == b.dlq + (if e.ok then [] else DeadLetters(sink, b.dlqTick, items))
            && b'.dlqTick == b.dlqTick + (if e.ok then 0 else |items|) && b'.commitTick == b.commitTick + 1
            && b'.committed == b.committed + if sink.commit(b.commitTick).Applied() then [Records(items)] else []
  {
    hide Store.Flush;
    hide DeadLetters;
    hide MsgsOf;
  }

  lemma MatchesParts(env: Env, w: World, x: Start, batches: seq<seq<Item>>, pending: seq<Item>)
    requires Matches(env, w, x, batches, pending)
    ensures var b := BooksAfter(env.o, env.sink, x.books, batches);
            && Sound(env, w) && ItemsAt(w.log, w.job.pending) == pending
            && w.job.done.trace == x.trace + HistTrace(Calls(env.o, x.books.tick, batches))
            && w.job.done.tick == b.tick && w.job.done.dlq == b.dlq && w.job.done.dlqTick == b.dlqTick
            && w.job.done.commitTick == b.commitTick
            && x.books.committed <= b.committed && InsideAll(w.log, b.committed[|x.books.committed|..])
            && w.job.committed == Offsets(env, w.log, x.committed, b.committed[|x.books.committed|..])
  {
    hide Sound;
    hide InsideAll;
  }

  lemma DoneFrom(d: Done, b: Books)
    requires d.tick == b.tick && d.dlq == b.dlq && d.dlqTick == b.dlqTick && d.commitTick == b.commitTick
    ensures DoneIs(d, b)
  {
  }

  lemma BooksNowIs(env: Env, x: Start, batches: seq<seq<Item>>)
    ensures BooksNow(env, x, batches) == BooksAfter(env.o, env.sink, x.books, batches)
  {
  }

  /** Trace, dead letters and counters after the flush. */
  lemma FlushDoneBooks(env: Env, w: World, x: Start, batches: seq<seq<Item>>, pending: seq<Item>)
    requires Matches(env, w, x, batches, pending) && w.job.pending != []
    ensures var d' := Move1(env, w.log, w.job, FlushPending).done;
            && DoneIs(d', BooksNow(env, x, batches + [pending]))
            && d'.trace == x.trace + HistTrace(Calls(env.o, x.books.tick, batches + [pending]))
  {
    hide *;
    MatchesParts(env, w, x, batches, pending);
    BooksNowIs(env, x, batches + [pending]);
    var b := BooksAfter(env.o, env.sink, x.books, batches);
    FlushFields(env, w.log, w.job, pending);
    BooksSnoc(env.o, env.sink, x.books, batches, pending);
    BooksNextIs(env.o, env.sink, b, pending);
    BooksTick(env.o, env.sink, x.books, batches);
    TraceSnoc(env.o, x.books.tick, batches, pending);
    DoneFrom(Move1(env, w.log, w.job, FlushPending).done, BooksNow(env, x, batches + [pending]));
  }

  /** The offsets after its commit. */
  lemma FlushOffsets(env: Env, w: World, x: Start, batches: seq<seq<Item>>, pending: seq<Item>)
    requires Matches(env, w, x, batches, pending) && w.job.pending != []
    requires Inside(w.log, w.job.pending) && Positions(Records(pending)) == w.job.pending
    ensures var b', n := BooksNow(env, x, batches + [pending]), |x.books.committed|;
            && x.books.committed <= b'.committed && InsideAll(w.log, b'.committed[n..])
            && Move1(env, w.log, w.job, FlushPending).committed == Offsets(env, w.log, x.committed, b'.committed[n..])
  {
    hide *;
    MatchesParts(env, w, x, batches, pending);
    BooksNowIs(env, x, batches + [pending]);
    var b, n := BooksAfter(env.o, env.sink, x.books, batches), |x.books.committed|;
    FlushFields(env, w.log, w.job, pending);
    BooksSnoc(env.o, env.sink, x.books, batches, pending);
    BooksNextIs(env.o, env.sink, b, pending);
    OffsetsSnoc(env, w.log, x.committed, b.committed[n..], Records(pending));
    assert (b.committed + [Records(pending)])[n..] == b.committed[n..] + [Records(pending)];
    assert b.committed + [] == b.committed;
  }

  lemma FlushBooks(env: Env, w: World, x: Start, batches: seq<seq<Item>>, pending: seq<Item>)
    requires Matches(env, w, x, batches, pending) && pending != [] && w.job.pending != []
    requires Sound(env, Play(env, w, Did(FlushPending))) && Inside(w.log, w.job.pending)
    requires Positions(Records(pending)) == w.job.pending
    ensures Matches(env, Play(env, w, Did(FlushPending)), x, batches + [pending], [])
  {
    FlushFields(env, w.log, w.job, pending);
    PlayFlush(env, w);
    NoItems(w.log);
    FlushDoneBooks(env, w, x, batches, pending);
    FlushOffsets(env, w, x, batches, pending);
    hide Play;
    hide Move1;
    hide Sound;
    hide ItemsAt;
    hide HistTrace;
    hide Calls;
    hide BooksNow;
    hide DoneIs;
    hide Offsets;
    hide InsideAll;
    MatchesFrom(env, Play(env, w, Did(FlushPending)), x, batches + [pending]);
  }

  lemma MatchesFrom(env: Env, w: World, x: Start, batches: seq<seq<Item>>)
    requires Sound(env, w) && ItemsAt(w.log, w.job.pending) == []
    requires w.job.done.trace == x.trace + HistTrace(Calls(env.o, x.books.tick, batches))
    requires var b := BooksNow(env, x, batches);
             && DoneIs(w.job.done, b)
             && x.books.committed <= b.committed && InsideAll(w.log, b.committed[|x.books.committed|..])
             && w.job.committed == Offsets(env, w.log, x.committed, b.committed[|x.books.committed|..])
    ensures Matches(env, w, x, batches, [])
  {
    hide Sound;
  }

  lemma PlayFlush(env: Env, w: World)
    ensures Play(env, w, Did(FlushPending)) == World(w.log, Move1(env, w.log, w.job, FlushPending))
  {
    hide Move1;
  }

  lemma NoItems(log: seq<Msg>)
    ensures ItemsAt(log, []) == []
  {
  }

  lemma {:induction false} DrainSteps(env: Env, w: World, x: Start, batches: seq<seq<Item>>, pending: seq<Item>, n: nat)
    requires Matches(env, w, x, batches, pending) && n <= |w.job.chan|
    ensures var w' := PlayAll(env, w, Receives(n));
            && Matches(env, w', x, batches, pending + ParseAll(RecordsAt(w.log, w.job.chan[..n])))
            && w'.log == w.log && w'.job.chan == w.job.chan[n..]
  {
    hide Matches;
    hide Play;
    if n == 0 {
      assert w.job.chan[..0] == [] && pending + [] == pending;
    } else {
      DrainSteps(env, w, x, batches, pending, n - 1);
      var w1, c := PlayAll(env, w, Receives(n - 1)), w.job.chan;
      PlaySnoc(env, w, Receives(n - 1), Did(Receive));
      ReceiveStep(env, w1, x, batches, pending + ParseAll(RecordsAt(w.log, c[..n - 1])));
      assert c[..n][..n - 1] == c[..n - 1];
      var kms, km := RecordsAt(w.log, c[..n - 1]), RecordAt(w.log, c[n - 1]);
      assert RecordsAt(w.log, c[..n]) == kms + [km] && (kms + [km])[..|kms|] == kms;
      assert pending + ParseAll(kms) + [ParseStoreItem(km)] == pending + (ParseAll(kms) + [ParseStoreItem(km)]);
    }
  }

  lemma {:induction false} RecordsSize(log: seq<Msg>, idx: seq<nat>)
    ensures |RecordsAt(log, idx)| == |idx|
  {
    if idx != [] {
      RecordsSize(log, idx[..|idx| - 1]);
    }
  }

  lemma MatchedSize(env: Env, w: World, x: Start, batches: seq<seq<Item>>, pending: seq<Item>)
    requires Matches(env, w, x, batches, pending)
    ensures |w.job.pending| == |pending|
  {
    ItemsAtRecords(w.log, w.job.pending);
  }

  lemma TwoMoves(env: Env, w: World, a: Other, b: Other)
    ensures PlayAll(env, w, [a]) == Play(env, w, a) && PlayAll(env, w, [a, b]) == Play(env, Play(env, w, a), b)
  {
    hide Play;
    PlayNone(env, w);
    PlaySnoc(env, w, [], a);
    PlaySnoc(env, w, [a], b);
    assert [] + [a] == [a] && [a] + [b] == [a, b];
  }

  /** One event: the loop's step on one side, its moves on the other. */
  lemma EventStep(env: Env, w: World, x: Start, batches: seq<seq<Item>>, pending: seq<Item>, ev: LoopEvent)
    requires Matches(env, w, x, batches, pending) && Fed(w, ev)
    ensures var s := LoopStep(Running(batches, pending), ev);
            Matches(env, PlayAll(env, w, EventMoves(|w.job.pending|, ev)), x, s.batches, if s.Running? then s.pending else [])
  {
    hide Matches;
    hide Play;
    hide ParseStoreItem;
    MatchedSize(env, w, x, batches, pending);
    LoopSteps(batches, pending, ev);
    TwoMoves(env, w, Did(FlushPending), Did(FlushPending));
    match ev
    case Arrived(km) =>
      TwoMoves(env, w, Did(Receive), Did(FlushPending));
      ReceiveStep(env, w, x, batches, pending);
      FlushStep(env, Play(env, w, Did(Receive)), x, batches, pending + [ParseStoreItem(km)]);
    case Ticked =>
      FlushStep(env, w, x, batches, pending);
    case Closed =>
      FlushStep(env, w, x, batches, pending);
    case Cancelled(drained) =>
      RecordsSize(w.log, w.job.chan);
      var n := |drained|;
      assert w.job.chan[..n] == w.job.chan;
      DrainSteps(env, w, x, batches, pending, n);
      PlaySnoc(env, w, Receives(n), Did(FlushPending));
      FlushStep(env, PlayAll(env, w, Receives(n)), x, batches, pending + ParseAll(drained));
  }

  /** The whole loop: after any turns the machine is where the loop is, in batches, pending items, tables,
      dead letters and offsets. */
  lemma {:induction false} LoopIsMoves(env: Env, w: World, x: Start, turns: seq<LoopTurn>)
    requires Matches(env, w, x, [], []) && AllFed(env, w, turns)
    ensures var s := LoopState(Events(turns));
            Matches(env, Played(env, w, turns), x, s.batches, if s.Running? then s.pending else [])
  {
    hide Matches;
    hide FetchSide;
    hide Fed;
    hide LoopStep;
    if turns != [] {
      var b, last := turns[..|turns| - 1], turns[|turns| - 1];
      LoopIsMoves(env, w, x, b);
      var s, es := LoopState(Events(b)), Events(b);
      assert (es + [last.ev])[..|es|] == es;
      SideRun(env, Played(env, w, b), x, s.batches, if s.Running? then s.pending else [], last.before);
      if s.Running? {
        EventStep(env, PlayAll(env, Played(env, w, b), last.before), x, s.batches, s.pending, last.ev);
      } else {
        StaysEnded(s, last.ev);
      }
    }
  }

  lemma StaysEnded(s: LoopStatus, ev: LoopEvent)
    requires s.Ended?
    ensures LoopStep(s, ev) == s
  {
  }

  /** Running BatchLoop on the events of some turns leaves, in the database, the dead letters and the
      counters, what the machine's run leaves, and the machine's offsets are those of the loop's commits. */
  method LoopAsMachine(worker: StoreWorkers.StoreWorker, env: Env, ghost w: World, turns: seq<LoopTurn>)
    requires Sound(env, w) && w.job.pending == [] && Mirrors(worker, env, w.job.done) && AllFed(env, w, turns)
    modifies worker
    ensures var w' := Played(env, w, turns);
            && Sound(env, w') && Mirrors(worker, env, w'.job.done) && old(worker.committed) <= worker.committed
            && w'.job.committed == Offsets(env, w'.log, w.job.committed, worker.committed[|old(worker.committed)|..])
  {
    ghost var x := Start(worker.Accounts(), w.job.done.trace, w.job.committed);
    MatchesAtStart(env, w, x);
    assert Fair(env.o);
    LoopIsMoves(env, w, x, turns);
    hide Played;
    hide AllFed;
    hide Sound;
    hide Fair;
    hide Events;
    hide ApplyAll;
    hide HistTrace;
    hide Calls;
    hide BooksAfter;
    hide LoopState;
    ghost var batches, waiting;
    batches, waiting := worker.BatchLoop(Events(turns));
    ghost var s := LoopState(Events(turns));
    ApplyAppend(EMPTY, x.trace, HistTrace(Calls(env.o, x.books.tick, s.batches)));
  }

  lemma MatchesAtStart(env: Env, w: World, x: Start)
    requires Sound(env, w) && w.job.pending == [] && x.trace == w.job.done.trace && x.committed == w.job.committed
    requires DoneIs(w.job.done, x.books)
    ensures Matches(env, w, x, [], [])
  {
    hide Sound;
    assert x.trace + [] == x.trace;
    assert x.books.committed[|x.books.committed|..] == [];
  }
}
