/** The store job as a machine: the fetch loop of internal/job/runloop.go, the channel, the batch, the
    flush, offset commits, cancellation and crashes, interleaved in any order. Records are named by their
    position in the log; positions within one Kafka partition keep their order. A flush may happen
    whenever something is pending, which covers the count, tick and drain cases of BatchLoop. */
module Pipeline {
  import opened Common
  import opened Decimal
  import opened Conv
  import opened Messages
  import opened Sql
  import opened Trace
  import opened Store
  import opened StoreFacts
  import opened Confluence
  import opened StoreWorkers

  const CHANNEL_SIZE := 256

  datatype Env = Env(o: Oracle, sink: Sink, part: string -> nat)

  /** What outlives the process, with the ticks of the environment. unsent names the records whose DLQ
      send failed and was only logged. */
  datatype Done = Done(
    trace: seq<Stmt>, dlq: seq<Record>, unsent: set<nat>, tick: nat, dlqTick: nat, commitTick: nat)

  /** next is the reader's position per partition, hand the record fetched but not yet sent to the channel. */
  datatype Job = Job(
    next: map<nat, nat>, hand: Option<nat>, stopped: bool, chan: seq<nat>, pending: seq<nat>,
    committed: map<nat, nat>, done: Done)

  const IDLE := Job(map[], None, false, [], [], map[], Done([], [], {}, 0, 0, 0))

  datatype Move =
    | Fetch(i: nat)
    | HandOff
    | Cancel                            // the context ends; a record in hand is not delivered any more
    | Receive
    | FlushPending
    | Crash(stmts: nat, letters: nat)   // also in the middle of a flush; the next process starts afresh
    | Outside(st: Stmt)                 // join rows and MarkRead

  function Pos(m: map<nat, nat>, p: nat): nat { if p in m then m[p] else 0 }

  function PartAt(env: Env, log: seq<Msg>, i: nat): nat { if i < |log| then env.part(log[i].convId) else 0 }

  function RecordAt(log: seq<Msg>, i: nat): Record { Record(i, if i < |log| then Some(log[i]) else None) }

  function ItemsAt(log: seq<Msg>, idx: seq<nat>): seq<Item> {
    if idx == [] then []
    else ItemsAt(log, idx[..|idx| - 1]) + [ParseStoreItem(RecordAt(log, idx[|idx| - 1]))]
  }

  /** Record i is the next one of its partition. */
  predicate IsNext(env: Env, log: seq<Msg>, next: map<nat, nat>, i: nat) {
    && i < |log| && Pos(next, PartAt(env, log, i)) <= i
    && forall k: nat :: Pos(next, PartAt(env, log, i)) <= k < i ==> PartAt(env, log, k) != PartAt(env, log, i)
  }

  /** The offsets of CommitMessages: one past the highest record per partition. */
  function Stash(env: Env, log: seq<Msg>, idx: seq<nat>): map<nat, nat> {
    if idx == [] then map[]
    else
      var m, i := Stash(env, log, idx[..|idx| - 1]), idx[|idx| - 1];
      var p := PartAt(env, log, i);
      m[p := if Pos(m, p) > i + 1 then Pos(m, p) else i + 1]
  }

  function Unsent(sink: Sink, t: nat, idx: seq<nat>): set<nat> {
    set k | 0 <= k < |idx| && !sink.dlqSend(t + k).Applied() :: idx[k]
  }

  /** What StoreWorker.Flush leaves behind. */
  function FlushDone(env: Env, log: seq<Msg>, d: Done, idx: seq<nat>): Done {
    var items := ItemsAt(log, idx);
    var e := Flush(env.o, d.tick, MsgsOf(items));
    Done(d.trace + e.trace,
         d.dlq + (if e.ok then [] else DeadLetters(env.sink, d.dlqTick, items)),
         d.unsent + (if e.ok then {} else Unsent(env.sink, d.dlqTick, idx)),
         e.tick, if e.ok then d.dlqTick else d.dlqTick + |items|, d.commitTick + 1)
  }

  function Least(a: nat, b: nat): nat { if a <= b then a else b }

  /** A process killed during a flush after some statements and dead letters. */
  function CrashDone(env: Env, log: seq<Msg>, d: Done, idx: seq<nat>, stmts: nat, letters: nat): Done {
    var items := ItemsAt(log, idx);
    var e := Flush(env.o, d.tick, MsgsOf(items));
    var dead := DeadLetters(env.sink, d.dlqTick, items);
    Done(d.trace + e.trace[..Least(stmts, |e.trace|)], d.dlq + dead[..Least(letters, |dead|)], d.unsent,
         e.tick, d.dlqTick + |items|, d.commitTick + 1)
  }

  /** What the other components write to the rows: read cursors, and the join rows of valid group events. */
  predicate FromOthers(st: Stmt) {
    match st
    case JoinRow(uid, conv, gid, _) => uid > 0 && gid > 0 && conv == GroupId(gid)
    case MarkRead(_, _, _, _) => true
    case _ => false
  }

  function Move1(env: Env, log: seq<Msg>, j: Job, mv: Move): Job {
    match mv
    case Fetch(i) =>
      if j.hand.None? && !j.stopped && IsNext(env, log, j.next, i)
      then j.(next := j.next[PartAt(env, log, i) := i + 1], hand := Some(i)) else j
    case HandOff =>
      if j.hand.Some? && !j.stopped && |j.chan| < CHANNEL_SIZE
      then j.(chan := j.chan + [j.hand.value], hand := None) else j
    case Cancel => j.(stopped := true)
    case Receive =>
      if j.chan != [] then j.(pending := j.pending + [j.chan[0]], chan := j.chan[1..]) else j
    case FlushPending =>
      if j.pending == [] then j
      else
        j.(pending := [], done := FlushDone(env, log, j.done, j.pending),
           committed := if env.sink.commit(j.done.commitTick).Applied()
                        then j.committed + Stash(env, log, j.pending) else j.committed)
    case Crash(stmts, letters) =>
      Job(j.committed, None, false, [], [], j.committed, CrashDone(env, log, j.done, j.pending, stmts, letters))
    case Outside(st) =>
      if FromOthers(st) then j.(done := j.done.(trace := j.done.trace + [st])) else j
  }

  // ---------------------------------------------------------------- what has been dealt with

  /** The row of m reached its shard table. */
  ghost predicate Offered(env: Env, trace: seq<Stmt>, m: Msg) {
    RowOf(m).Some? && RowOf(m).value in RowsAt(trace, env.o.shard(m.convId))
  }

  ghost predicate Handled(env: Env, log: seq<Msg>, d: Done, i: nat) {
    i < |log| && (Offered(env, d.trace, log[i]) || RecordAt(log, i) in d.dlq || i in d.unsent)
  }

  ghost predicate FromLog(env: Env, log: seq<Msg>, s: Shard, r: MsgRow) {
    exists m :: m in log && env.o.shard(m.convId) == s && RowOf(m) == Some(r)
  }

  /** Only rows of logged messages ever reach the tables. */
  ghost predicate RowsFromLog(env: Env, log: seq<Msg>, trace: seq<Stmt>) {
    forall s: Shard, r :: r in RowsAt(trace, s) ==> FromLog(env, log, s, r)
  }

  ghost predicate Inside(log: seq<Msg>, idx: seq<nat>) { forall i :: i in idx ==> i < |log| }

  ghost predicate Among(log: seq<Msg>, idx: seq<nat>, m: Msg) { exists i :: i in idx && i < |log| && log[i] == m }

  lemma {:induction false} ItemsAtRecords(log: seq<Msg>, idx: seq<nat>)
    ensures |ItemsAt(log, idx)| == |idx|
    ensures forall k :: 0 <= k < |idx| ==> ItemsAt(log, idx)[k].km == RecordAt(log, idx[k])
  {
    hide RecordAt;
    if idx != [] {
      ItemsAtRecords(log, idx[..|idx| - 1]);
    }
  }

  lemma AmongSnoc(log: seq<Msg>, b: seq<nat>, i: nat, m: Msg)
    requires i < |log|
    ensures Among(log, b + [i], m) <==> Among(log, b, m) || m == log[i]
  {
    if m == log[i] {
      assert i in b + [i];
    }
    if Among(log, b, m) {
      var k :| k in b && k < |log| && log[k] == m;
      assert k in b + [i];
    }
  }

  lemma {:induction false} ItemsAtMsgs(log: seq<Msg>, idx: seq<nat>)
    requires Inside(log, idx)
    ensures forall m :: m in MsgsOf(ItemsAt(log, idx)) <==> Among(log, idx, m)
  {
    if idx != [] {
      var b, i := idx[..|idx| - 1], idx[|idx| - 1];
      assert i in idx && forall k :: k in b ==> k in idx;
      ItemsAtMsgs(log, b);
      MsgsOfLast(ItemsAt(log, b), RecordAt(log, i));
      assert ItemsAt(log, idx) == ItemsAt(log, b) + [ParseStoreItem(RecordAt(log, i))] && b + [i] == idx;
      hide MsgsOf;
      hide ItemsAt;
      hide Among;
      forall m
        ensures m in MsgsOf(ItemsAt(log, idx)) <==> Among(log, idx, m)
      {
        AmongSnoc(log, b, i, m);
      }
    }
  }

  lemma ItemsAtFacts(log: seq<Msg>, idx: seq<nat>)
    requires Inside(log, idx)
    ensures |ItemsAt(log, idx)| == |idx|
    ensures forall k :: 0 <= k < |idx| ==> ItemsAt(log, idx)[k].km == RecordAt(log, idx[k])
    ensures forall m :: m in MsgsOf(ItemsAt(log, idx)) <==> Among(log, idx, m)
  {
    hide *;
    ItemsAtRecords(log, idx);
    ItemsAtMsgs(log, idx);
  }

  lemma MsgsOfLast(items: seq<Item>, km: Record)
    ensures MsgsOf(items + [ParseStoreItem(km)]) == MsgsOf(items) + if km.payload.Some? then [km.payload.value] else []
  {
    assert (items + [ParseStoreItem(km)])[..|items|] == items;
  }

  lemma {:induction false} DeadLettersFacts(sink: Sink, t: nat, items: seq<Item>, k: nat)
    requires k < |items| && sink.dlqSend(t + k).Applied()
    ensures items[k].km in DeadLetters(sink, t, items)
  {
    if k < |items| - 1 {
      DeadLettersFacts(sink, t, items[..|items| - 1], k);
    }
  }

  lemma OfferedMore(env: Env, a: seq<Stmt>, b: seq<Stmt>, m: Msg)
    ensures Offered(env, a, m) || Offered(env, b, m) <==> Offered(env, a + b, m)
  {
    hide RowOf;
    hide RowsAt;
    RowsAtAppend(a, b, env.o.shard(m.convId));
  }

  lemma HandledStays(env: Env, log: seq<Msg>, log': seq<Msg>, d: Done, d': Done, more: seq<Stmt>, i: nat)
    requires Handled(env, log, d, i) && log <= log' && d'.trace == d.trace + more && d.dlq <= d'.dlq && d.unsent <= d'.unsent
    ensures Handled(env, log', d', i)
  {
    hide Offered;
    OfferedMore(env, d.trace, more, log[i]);
  }

  /** A flush deals with every record of its batch. */
  lemma FlushHandles(env: Env, log: seq<Msg>, d: Done, idx: seq<nat>, i: nat)
    requires Fair(env.o) && DecimalIds(log) && Inside(log, idx) && i in idx
    ensures Handled(env, log, FlushDone(env, log, d, idx), i)
  {
    hide Flush;
    hide RowOf;
    hide RowsAt;
    hide DeadLetters;
    hide MsgsOf;
    hide ItemsAt;
    ItemsAtFacts(log, idx);
    var items, k :| items == ItemsAt(log, idx) && 0 <= k < |idx| && idx[k] == i;
    var msgs := MsgsOf(items);
    var e, s := Flush(env.o, d.tick, msgs), env.o.shard(log[i].convId);
    if e.ok {
      FlushRows(env.o, d.tick, msgs, s);
      assert Among(log, idx, log[i]) && log[i] in log;
      assert DecimalIds(msgs);
      assert RowFrom(env.o, msgs, s, RowOf(log[i]).value);
      assert Offered(env, e.trace, log[i]);
      OfferedMore(env, d.trace, e.trace, log[i]);
    } else if env.sink.dlqSend(d.dlqTick + k).Applied() {
      DeadLettersFacts(env.sink, d.dlqTick, items, k);
    } else {
      assert idx[k] in Unsent(env.sink, d.dlqTick, idx);
    }
  }

  lemma {:induction false} DeadLettersExactly(sink: Sink, t: nat, items: seq<Item>, km: Record)
    ensures km in DeadLetters(sink, t, items) <==>
            exists k :: 0 <= k < |items| && items[k].km == km && sink.dlqSend(t + k).Applied()
  {
    if items != [] {
      var b, n := items[..|items| - 1], |items| - 1;
      DeadLettersExactly(sink, t, b, km);
      assert forall k :: 0 <= k < n ==> b[k] == items[k];
    }
  }

  /** When a flush keeps a record: exactly when it succeeds, or this record's dead-letter send takes effect,
      or an attempt had offered its row before the flush failed, or it had been kept already. */
  lemma FlushKeepsExactly(env: Env, log: seq<Msg>, d: Done, idx: seq<nat>, k: nat, i: nat)
    requires Fair(env.o) && DecimalIds(log) && Inside(log, idx) && k < |idx| && idx[k] == i && i < |log|
    requires forall a, b :: 0 <= a < b < |idx| ==> idx[a] != idx[b]
    ensures var d' := FlushDone(env, log, d, idx);
            var e := Flush(env.o, d.tick, MsgsOf(ItemsAt(log, idx)));
            (Offered(env, d'.trace, log[i]) || RecordAt(log, i) in d'.dlq) <==>
            || Offered(env, d.trace, log[i]) || RecordAt(log, i) in d.dlq
            || e.ok || env.sink.dlqSend(d.dlqTick + k).Applied() || Offered(env, e.trace, log[i])
    ensures var d' := FlushDone(env, log, d, idx);
            var e := Flush(env.o, d.tick, MsgsOf(ItemsAt(log, idx)));
            RecordAt(log, i) in d'.dlq <==> RecordAt(log, i) in d.dlq || (!e.ok && env.sink.dlqSend(d.dlqTick + k).Applied())
  {
    hide Flush;
    hide RowOf;
    hide RowsAt;
    hide DeadLetters;
    hide MsgsOf;
    hide ItemsAt;
    ItemsAtFacts(log, idx);
    var items := ItemsAt(log, idx);
    var msgs := MsgsOf(items);
    var e, s := Flush(env.o, d.tick, msgs), env.o.shard(log[i].convId);
    OfferedMore(env, d.trace, e.trace, log[i]);
    DeadLettersExactly(env.sink, d.dlqTick, items, RecordAt(log, i));
    assert idx[k] in idx;
    if e.ok {
      FlushRows(env.o, d.tick, msgs, s);
      assert Among(log, idx, log[i]) && log[i] in log;
      assert DecimalIds(msgs);
      assert RowFrom(env.o, msgs, s, RowOf(log[i]).value);
    } else {
      forall a | 0 <= a < |items| && items[a].km == RecordAt(log, i)
        ensures a == k
      {
        assert items[a].km == RecordAt(log, idx[a]);
      }
    }
  }

  /** What a commit writes for partition p: one past its highest record in the batch, or nothing. */
  ghost predicate CommitsUpTo(env: Env, log: seq<Msg>, idx: seq<nat>, m: map<nat, nat>, p: nat) {
    if exists i :: i in idx && PartAt(env, log, i) == p then
      && p in m && (exists i :: i in idx && PartAt(env, log, i) == p && m[p] == i + 1)
      && forall i :: i in idx && PartAt(env, log, i) == p ==> i < m[p]
    else p !in m
  }

  lemma {:induction false} StashExactly(env: Env, log: seq<Msg>, idx: seq<nat>, p: nat)
    ensures CommitsUpTo(env, log, idx, Stash(env, log, idx), p)
  {
    hide PartAt;
    if idx != [] {
      var b, last := idx[..|idx| - 1], idx[|idx| - 1];
      StashExactly(env, log, b, p);
      assert forall i :: i in idx <==> i in b || i == last;
    }
  }

  /** A flush whose commit takes effect moves each partition of the batch behind its highest record and no
      other; a failed commit moves nothing. */
  lemma CommitMoves(env: Env, log: seq<Msg>, j: Job, p: nat)
    requires j.pending != []
    ensures var j' := Move1(env, log, j, FlushPending);
            && j'.pending == []
            && if env.sink.commit(j.done.commitTick).Applied() && (exists i :: i in j.pending && PartAt(env, log, i) == p)
               then && (exists i :: i in j.pending && PartAt(env, log, i) == p && Pos(j'.committed, p) == i + 1)
                    && forall i :: i in j.pending && PartAt(env, log, i) == p ==> i < Pos(j'.committed, p)
               else Pos(j'.committed, p) == Pos(j.committed, p)
  {
    hide PartAt;
    hide FlushDone;
    StashExactly(env, log, j.pending, p);
    hide Stash;
  }

  /** A restarted process reads on from what was committed, with nothing in flight. */
  lemma CrashRestarts(env: Env, log: seq<Msg>, j: Job, stmts: nat, letters: nat, i: nat)
    ensures var j' := Move1(env, log, j, Crash(stmts, letters));
            && (IsNext(env, log, j'.next, i) <==> IsNext(env, log, j.committed, i)) && j'.committed == j.committed
            && j'.hand == None && !j'.stopped && j'.chan == [] && j'.pending == []
  {
    hide CrashDone;
    hide IsNext;
  }

  lemma FlushRowsFromLog(env: Env, log: seq<Msg>, d: Done, idx: seq<nat>)
    requires Fair(env.o) && Inside(log, idx)
    ensures RowsFromLog(env, log, FlushTrace(env, log, d, idx))
  {
    hide Flush;
    hide RowOf;
    hide RowsAt;
    hide MsgsOf;
    hide ItemsAt;
    ItemsAtFacts(log, idx);
    var msgs := MsgsOf(ItemsAt(log, idx));
    var e := Flush(env.o, d.tick, msgs);
    forall s: Shard, r | r in RowsAt(e.trace, s)
      ensures FromLog(env, log, s, r)
    {
      FlushRows(env.o, d.tick, msgs, s);
      var m :| m in msgs && env.o.shard(m.convId) == s && RowOf(m) == Some(r);
      assert Among(log, idx, m);
      assert m in log;
    }
  }

  lemma RowsFromLogMore(env: Env, log: seq<Msg>, a: seq<Stmt>, b: seq<Stmt>)
    ensures RowsFromLog(env, log, a) && RowsFromLog(env, log, b) <==> RowsFromLog(env, log, a + b)
  {
    hide FromLog;
    hide RowsAt;
    forall s: Shard | true
      ensures RowsAt(a + b, s) == RowsAt(a, s) + RowsAt(b, s)
    {
      RowsAtAppend(a, b, s);
    }
  }

  lemma RowsFromLogPrefix(env: Env, log: seq<Msg>, a: seq<Stmt>, n: nat)
    requires RowsFromLog(env, log, a) && n <= |a|
    ensures RowsFromLog(env, log, a[..n])
  {
    hide RowsFromLog;
    RowsFromLogMore(env, log, a[..n], a[n..]);
    assert a[..n] + a[n..] == a;
  }

  // ---------------------------------------------------------------- the line of records in flight

  function HandSeq(j: Job): seq<nat> { if j.hand.Some? then [j.hand.value] else [] }

  function Line(j: Job): seq<nat> { j.pending + j.chan + HandSeq(j) }

  ghost predicate Ascending(env: Env, log: seq<Msg>, line: seq<nat>) {
    forall a, b :: 0 <= a < b < |line| && PartAt(env, log, line[a]) == PartAt(env, log, line[b]) ==> line[a] < line[b]
  }

  ghost predicate Between(env: Env, log: seq<Msg>, j: Job, i: nat) {
    i < |log| && Pos(j.committed, PartAt(env, log, i)) <= i < Pos(j.next, PartAt(env, log, i))
  }

  /** Commits lag behind the reader, which lags behind the log. */
  ghost predicate Ordered(log: seq<Msg>, j: Job) {
    forall p: nat :: Pos(j.committed, p) <= Pos(j.next, p) <= |log|
  }

  /** Whatever the reader has passed is in flight or dealt with. */
  ghost predicate Accounted(env: Env, log: seq<Msg>, j: Job) {
    forall i: nat :: i < |log| && i < Pos(j.next, PartAt(env, log, i)) ==> i in Line(j) || Handled(env, log, j.done, i)
  }

  ghost predicate JobInv(env: Env, log: seq<Msg>, j: Job) {
    && Ascending(env, log, Line(j))
    && (forall i :: i in Line(j) ==> Between(env, log, j, i))
    && Ordered(log, j)
    && Accounted(env, log, j)
    && RowsFromLog(env, log, j.done.trace)
  }

  /** A record covered by a commit has been dealt with. */
  lemma Covered(env: Env, log: seq<Msg>, j: Job, i: nat)
    requires JobInv(env, log, j) && i < |log| && i < Pos(j.committed, PartAt(env, log, i))
    ensures Handled(env, log, j.done, i)
  {
    hide Handled;
    assert Pos(j.committed, PartAt(env, log, i)) <= Pos(j.next, PartAt(env, log, i));
  }

  lemma {:induction false} StashFacts(env: Env, log: seq<Msg>, idx: seq<nat>, p: nat)
    ensures p in Stash(env, log, idx) <==> exists i :: i in idx && PartAt(env, log, i) == p
    ensures p in Stash(env, log, idx) ==>
              var c := Stash(env, log, idx)[p];
              && c > 0 && c - 1 in idx && PartAt(env, log, c - 1) == p
              && forall i :: i in idx && PartAt(env, log, i) == p ==> i < c
  {
    hide PartAt;
    if idx != [] {
      var b := idx[..|idx| - 1];
      StashFacts(env, log, b, p);
      assert forall i :: i in idx <==> i in b || i == idx[|idx| - 1];
    }
  }

  // ---------------------------------------------------------------- every move keeps the invariant

  lemma FetchKeeps(env: Env, log: seq<Msg>, j: Job, i: nat)
    requires JobInv(env, log, j) && j.hand.None? && IsNext(env, log, j.next, i)
    ensures JobInv(env, log, j.(next := j.next[PartAt(env, log, i) := i + 1], hand := Some(i)))
  {
    hide PartAt;
    hide Handled;
    hide RowsFromLog;
    var p, j' := PartAt(env, log, i), j.(next := j.next[PartAt(env, log, i) := i + 1], hand := Some(i));
    assert Line(j') == Line(j) + [i];
    assert Pos(j.committed, p) <= Pos(j.next, p);
    forall k | k in Line(j')
      ensures Between(env, log, j', k)
    {
      assert k in Line(j) ==> Between(env, log, j, k);
    }
    forall a, b | 0 <= a < b < |Line(j')| && PartAt(env, log, Line(j')[a]) == PartAt(env, log, Line(j')[b])
      ensures Line(j')[a] < Line(j')[b]
    {
      assert Line(j')[a] == Line(j)[a] && Line(j)[a] in Line(j);
      assert Between(env, log, j, Line(j)[a]);
    }
    forall q: nat
      ensures Pos(j'.committed, q) <= Pos(j'.next, q) <= |log|
    {
      assert Pos(j.committed, q) <= Pos(j.next, q) <= |log|;
    }
  }

  /** Moving records along the line, or cancelling, changes nothing else. */
  lemma SameLineKeeps(env: Env, log: seq<Msg>, j: Job, j': Job)
    requires JobInv(env, log, j) && Line(j') == Line(j) && j'.next == j.next && j'.committed == j.committed && j'.done == j.done
    ensures JobInv(env, log, j')
  {
    hide PartAt;
    hide Handled;
    hide RowsFromLog;
    hide Line;
    assert forall i :: Between(env, log, j, i) ==> Between(env, log, j', i);
  }

  lemma Earlier(env: Env, log: seq<Msg>, a: seq<nat>, b: seq<nat>, x: nat, y: nat)
    requires Ascending(env, log, a + b) && x in a && y in b && PartAt(env, log, x) == PartAt(env, log, y)
    ensures x < y
  {
    hide PartAt;
    var i, k :| 0 <= i < |a| && a[i] == x && 0 <= k < |b| && b[k] == y;
    assert (a + b)[i] == x && (a + b)[|a| + k] == y;
  }

  lemma CommitKeeps(env: Env, log: seq<Msg>, j: Job, c: map<nat, nat>)
    requires JobInv(env, log, j) && (c == j.committed || c == j.committed + Stash(env, log, j.pending))
    ensures forall p: nat :: Pos(j.committed, p) <= Pos(c, p) <= Pos(j.next, p)
    ensures forall i :: i in j.chan + HandSeq(j) ==> Pos(c, PartAt(env, log, i)) <= i
  {
    hide PartAt;
    hide Handled;
    hide Accounted;
    hide RowsFromLog;
    hide Ascending;
    hide Stash;
    var tail := j.chan + HandSeq(j);
    assert Line(j) == j.pending + tail;
    forall p: nat | true
      ensures Pos(j.committed, p) <= Pos(c, p) <= Pos(j.next, p)
    {
      StashFacts(env, log, j.pending, p);
      if c != j.committed && p in Stash(env, log, j.pending) {
        var top := Stash(env, log, j.pending)[p] - 1;
        assert top in Line(j) && Between(env, log, j, top);
      }
    }
    forall i | i in tail
      ensures Pos(c, PartAt(env, log, i)) <= i
    {
      var p := PartAt(env, log, i);
      assert i in Line(j) && Between(env, log, j, i);
      StashFacts(env, log, j.pending, p);
      if c != j.committed && p in Stash(env, log, j.pending) {
        Earlier(env, log, j.pending, tail, Stash(env, log, j.pending)[p] - 1, i);
      }
    }
  }

  lemma AscendingTail(env: Env, log: seq<Msg>, a: seq<nat>, b: seq<nat>)
    requires Ascending(env, log, a + b)
    ensures Ascending(env, log, b)
  {
    hide PartAt;
    forall x, y | 0 <= x < y < |b| && PartAt(env, log, b[x]) == PartAt(env, log, b[y])
      ensures b[x] < b[y]
    {
      assert (a + b)[|a| + x] == b[x] && (a + b)[|a| + y] == b[y];
    }
  }

  lemma FlushKeeps(env: Env, log: seq<Msg>, j: Job)
    requires Fair(env.o) && DecimalIds(log) && JobInv(env, log, j) && j.pending != []
    ensures JobInv(env, log, Move1(env, log, j, FlushPending))
  {
    hide PartAt;
    hide Handled;
    hide RowsFromLog;
    hide Stash;
    hide DecimalIds;
    hide FlushDone;
    hide FlushTrace;
    hide Ascending;
    var j', tail := Move1(env, log, j, FlushPending), j.chan + HandSeq(j);
    assert Line(j) == j.pending + tail && Line(j') == tail;
    CommitKeeps(env, log, j, j'.committed);
    AscendingTail(env, log, j.pending, tail);
    FlushDoneGrows(env, log, j.done, j.pending);
    forall i | i in Line(j')
      ensures Between(env, log, j', i)
    {
      assert i in Line(j) && Between(env, log, j, i);
    }
    forall i: nat | i < |log| && i < Pos(j'.next, PartAt(env, log, i))
      ensures i in Line(j') || Handled(env, log, j'.done, i)
    {
      if i in j.pending {
        assert forall k :: k in j.pending ==> k in Line(j) && Between(env, log, j, k);
        FlushHandles(env, log, j.done, j.pending, i);
      } else if i !in tail {
        HandledStays(env, log, log, j.done, j'.done, FlushTrace(env, log, j.done, j.pending), i);
      }
    }
    assert forall k :: k in j.pending ==> k in Line(j) && Between(env, log, j, k);
    FlushRowsFromLog(env, log, j.done, j.pending);
    RowsFromLogMore(env, log, j.done.trace, FlushTrace(env, log, j.done, j.pending));
  }

  function FlushTrace(env: Env, log: seq<Msg>, d: Done, idx: seq<nat>): seq<Stmt> {
    Flush(env.o, d.tick, MsgsOf(ItemsAt(log, idx))).trace
  }

  lemma FlushDoneGrows(env: Env, log: seq<Msg>, d: Done, idx: seq<nat>)
    ensures var d' := FlushDone(env, log, d, idx);
            d'.trace == d.trace + FlushTrace(env, log, d, idx) && d.dlq <= d'.dlq && d.unsent <= d'.unsent
  {
  }

  lemma CrashKeeps(env: Env, log: seq<Msg>, j: Job, stmts: nat, letters: nat)
    requires Fair(env.o) && JobInv(env, log, j)
    ensures JobInv(env, log, Move1(env, log, j, Crash(stmts, letters)))
  {
    hide PartAt;
    hide Handled;
    hide RowsFromLog;
    hide Flush;
    hide DeadLetters;
    hide ItemsAt;
    hide MsgsOf;
    var j', all := Move1(env, log, j, Crash(stmts, letters)), FlushTrace(env, log, j.done, j.pending);
    var cut := all[..Least(stmts, |all|)];
    forall i: nat | i < |log| && i < Pos(j'.next, PartAt(env, log, i))
      ensures Handled(env, log, j'.done, i)
    {
      Covered(env, log, j, i);
      HandledStays(env, log, log, j.done, j'.done, cut, i);
    }
    forall p: nat
      ensures Pos(j'.committed, p) <= Pos(j'.next, p) <= |log|
    {
      assert Pos(j.committed, p) <= Pos(j.next, p) <= |log|;
    }
    assert forall k :: k in j.pending ==> k in Line(j) && Between(env, log, j, k);
    FlushRowsFromLog(env, log, j.done, j.pending);
    RowsFromLogPrefix(env, log, all, Least(stmts, |all|));
    RowsFromLogMore(env, log, j.done.trace, cut);
  }

  lemma OutsideKeeps(env: Env, log: seq<Msg>, j: Job, st: Stmt)
    requires JobInv(env, log, j) && (st.JoinRow? || st.MarkRead?)
    ensures JobInv(env, log, j.(done := j.done.(trace := j.done.trace + [st])))
  {
    assert RowsFromLog(env, log, [st]) by {
      forall s: Shard | true
        ensures RowsAt([st], s) == []
      {
        SingleStmt(st, s, (0, ""));
      }
    }
    hide PartAt;
    hide Handled;
    hide RowsFromLog;
    var j' := j.(done := j.done.(trace := j.done.trace + [st]));
    forall i: nat | i < |log| && Handled(env, log, j.done, i)
      ensures Handled(env, log, j'.done, i)
    {
      HandledStays(env, log, log, j.done, j'.done, [st], i);
    }
    assert forall i :: Between(env, log, j, i) ==> Between(env, log, j', i);
    RowsFromLogMore(env, log, j.done.trace, [st]);
  }

  lemma MoveKeeps(env: Env, log: seq<Msg>, j: Job, mv: Move)
    requires Fair(env.o) && DecimalIds(log) && JobInv(env, log, j)
    ensures JobInv(env, log, Move1(env, log, j, mv))
  {
    hide JobInv;
    hide DecimalIds;
    hide IsNext;
    hide FlushDone;
    hide CrashDone;
    hide Stash;
    match mv
    case Fetch(i) =>
      if j.hand.None? && IsNext(env, log, j.next, i) { FetchKeeps(env, log, j, i); }
    case HandOff =>
      if Move1(env, log, j, mv) != j {
        assert Line(Move1(env, log, j, mv)) == Line(j);
        SameLineKeeps(env, log, j, Move1(env, log, j, mv));
      }
    case Cancel =>
      SameLineKeeps(env, log, j, Move1(env, log, j, mv));
    case Receive =>
      if j.chan != [] {
        assert j.chan == [j.chan[0]] + j.chan[1..];
        assert Line(Move1(env, log, j, mv)) == Line(j);
        SameLineKeeps(env, log, j, Move1(env, log, j, mv));
      }
    case FlushPending =>
      if j.pending != [] { FlushKeeps(env, log, j); }
    case Crash(stmts, letters) =>
      CrashKeeps(env, log, j, stmts, letters);
    case Outside(st) =>
      if FromOthers(st) { OutsideKeeps(env, log, j, st); }
  }

  /** The log may grow at any time. */
  lemma LogGrows(env: Env, log: seq<Msg>, log': seq<Msg>, j: Job)
    requires JobInv(env, log, j) && log <= log'
    ensures JobInv(env, log', j)
  {
    hide Handled;
    hide RowsAt;
    hide RowOf;
    assert forall i: nat :: i < |log| ==> PartAt(env, log', i) == PartAt(env, log, i);
    assert forall i :: i in Line(j) ==> Between(env, log, j, i);
    forall a, b | 0 <= a < b < |Line(j)| && PartAt(env, log', Line(j)[a]) == PartAt(env, log', Line(j)[b])
      ensures Line(j)[a] < Line(j)[b]
    {
      assert Line(j)[a] in Line(j) && Line(j)[b] in Line(j);
    }
    forall i: nat | i < |log'| && i < Pos(j.next, PartAt(env, log', i))
      ensures i in Line(j) || Handled(env, log', j.done, i)
    {
      assert i < |log|;
      if i !in Line(j) {
        assert j.done.trace == j.done.trace + [];
        HandledStays(env, log, log', j.done, j.done, [], i);
      }
    }
    assert forall s: Shard, r :: FromLog(env, log, s, r) ==> FromLog(env, log', s, r);
  }

  /** Commits never move back. */
  lemma CommitsRise(env: Env, log: seq<Msg>, j: Job, mv: Move)
    requires JobInv(env, log, j)
    ensures forall p: nat :: Pos(j.committed, p) <= Pos(Move1(env, log, j, mv).committed, p)
  {
    hide JobInv;
    hide FlushDone;
    hide CrashDone;
    hide Stash;
    hide IsNext;
    if mv.FlushPending? && j.pending != [] {
      CommitKeeps(env, log, j, Move1(env, log, j, mv).committed);
    }
  }
}
