/** What the chain from send to sync does not promise, shown by whole runs in which every command succeeds:
    an id that repeats loses an acked message, and a seq that is stored late is never pending. */
module StoreLimits {
  import opened Common
  import opened Decimal
  import opened Conv
  import opened Keys
  import opened Messages
  import opened Sql
  import opened Trace
  import opened Store
  import opened StoreFacts
  import opened Confluence
  import opened Cursors
  import opened Batching
  import opened StoreWorkers
  import opened Pipeline
  import opened EndToEnd
  import opened Sync
  import Send
  import SendServer
  import SendLimits

  // ---------------------------------------------------------------- building runs

  function Clients(acts: seq<Send.Action>): seq<Step> { seq(|acts|, i requires 0 <= i < |acts| => Client(acts[i])) }

  function Consumers(mvs: seq<Move>): seq<Step> { seq(|mvs|, i requires 0 <= i < |mvs| => Consumer(mvs[i])) }

  function Moves(env: Env, log: seq<Msg>, j: Job, mvs: seq<Move>): Job {
    if mvs == [] then j else Move1(env, log, Moves(env, log, j, mvs[..|mvs| - 1]), mvs[|mvs| - 1])
  }

  lemma {:induction false} RunClients(env: Env, steps: seq<Step>, acts: seq<Send.Action>)
    ensures var s := EndToEnd.Run(env, steps);
            EndToEnd.Run(env, steps + Clients(acts)) == System(Send.Run(s.send, acts), s.job)
  {
    hide Send.Exec;
    hide Move1;
    if acts == [] {
      assert steps + Clients(acts) == steps;
    } else {
      var b := acts[..|acts| - 1];
      RunClients(env, steps, b);
      var all := steps + Clients(acts);
      assert all[..|all| - 1] == steps + Clients(b);
    }
  }

  lemma {:induction false} RunConsumers(env: Env, steps: seq<Step>, mvs: seq<Move>)
    ensures var s := EndToEnd.Run(env, steps);
            EndToEnd.Run(env, steps + Consumers(mvs)) == System(s.send, Moves(env, Log(s), s.job, mvs))
  {
    hide Send.Exec;
    hide Move1;
    if mvs == [] {
      assert steps + Consumers(mvs) == steps;
    } else {
      var b := mvs[..|mvs| - 1];
      RunConsumers(env, steps, b);
      var all := steps + Consumers(mvs);
      assert all[..|all| - 1] == steps + Consumers(b);
    }
  }

  lemma MovesSnoc(env: Env, log: seq<Msg>, j: Job, mvs: seq<Move>, mv: Move)
    ensures Moves(env, log, j, mvs + [mv]) == Move1(env, log, Moves(env, log, j, mvs), mv)
  {
    hide Move1;
    assert (mvs + [mv])[..|mvs|] == mvs;
  }

  // ---------------------------------------------------------------- storing one record, undisturbed

  /** Every statement, member lookup and commit succeeds. */
  ghost predicate Working(env: Env, roster: int64 -> seq<int64>) {
    Fair(env.o) && AllSucceed(env.o, roster) && forall t: nat :: env.sink.commit(t).Success?
  }

  ghost predicate Buildable(m: Msg) { RowOf(m).Some? && (m.convType != CONV_TYPE_GROUP ==> PairUps(m).Some?) }

  /** Nothing is in flight. */
  predicate Idle(j: Job) { j.hand.None? && !j.stopped && j.chan == [] && j.pending == [] }

  /** What flushing the message alone writes. */
  ghost predicate Wrote(env: Env, roster: int64 -> seq<int64>, m: Msg, trace: seq<Stmt>) {
    && RowOf(m).Some?
    && (forall s: Shard :: RowsAt(trace, s) == if s == env.o.shard(m.convId) then [RowOf(m).value] else [])
    && (forall k: ConvKey :: OpsAt(trace, k) == UpsAt(Wanted(roster, m), k))
  }

  lemma NoneGrouped(shard: string -> Shard, s: Shard)
    ensures Group(shard, [], s) == [] && RowsFor([]) == Some([])
  {
  }

  lemma RowsForOne(m: Msg)
    requires RowOf(m).Some?
    ensures RowsFor([m]) == Some([RowOf(m).value])
  {
    hide RowOf;
    assert [m][..0] == [];
    assert RowsFor([]) == Some([]);
    assert [] + [RowOf(m).value] == [RowOf(m).value];
  }

  lemma SingleRows(shard: string -> Shard, m: Msg, s: Shard)
    requires RowOf(m).Some?
    ensures RowsFor(Group(shard, [m], s)) == Some(if s == shard(m.convId) then [RowOf(m).value] else [])
  {
    hide *;
    NoneGrouped(shard, s);
    RowsForOne(m);
    GroupSnoc(shard, [], m);
    assert [] + [m] == [m];
  }

  lemma FlushOne(env: Env, roster: int64 -> seq<int64>, t: nat, m: Msg)
    requires Working(env, roster) && Buildable(m)
    ensures Flush(env.o, t, [m]).ok && Wrote(env, roster, m, Flush(env.o, t, [m]).trace)
  {
    hide WriteBatch;
    hide RowOf;
    hide PairUps;
    hide Wanted;
    hide RowsFor;
    hide Group;
    hide RowsAt;
    hide OpsAt;
    hide UpsAt;
    var e := WriteBatch(env.o, t, [m]);
    WriteBatchExact(env.o, t, [m], roster, 0, (0, ""));
    assert Flush(env.o, t, [m]) == e;
    PickedOne(Any, roster, m);
    forall s: Shard | true
      ensures RowsAt(e.trace, s) == if s == env.o.shard(m.convId) then [RowOf(m).value] else []
    {
      WriteBatchExact(env.o, t, [m], roster, s, (0, ""));
      SingleRows(env.o.shard, m, s);
    }
    forall k: ConvKey | true
      ensures OpsAt(e.trace, k) == UpsAt(Wanted(roster, m), k)
    {
      WriteBatchExact(env.o, t, [m], roster, 0, k);
    }
  }

  function Round(i: nat): seq<Move> { [Fetch(i), HandOff, Receive, FlushPending] }

  lemma Arrives(env: Env, log: seq<Msg>, j: Job, i: nat)
    requires Idle(j) && IsNext(env, log, j.next, i)
    ensures Move1(env, log, Move1(env, log, Move1(env, log, j, Fetch(i)), HandOff), Receive) ==
            j.(next := j.next[PartAt(env, log, i) := i + 1], pending := [i])
  {
    hide PartAt;
    hide IsNext;
    hide FlushDone;
    hide CrashDone;
    hide Stash;
    var j1 := j.(next := j.next[PartAt(env, log, i) := i + 1], hand := Some(i));
    var j2 := j1.(hand := None, chan := [i]);
    assert Move1(env, log, j1, HandOff) == j2 by { assert [] + [i] == [i]; }
    assert Move1(env, log, j2, Receive) == j2.(chan := [], pending := [i]) by { assert [i][1..] == [] && [] + [i] == [i]; }
  }

  lemma FlushDoneOne(env: Env, roster: int64 -> seq<int64>, log: seq<Msg>, d: Done, i: nat) returns (more: seq<Stmt>)
    requires Working(env, roster) && i < |log| && Buildable(log[i])
    ensures var d' := FlushDone(env, log, d, [i]);
            d'.trace == d.trace + more && Wrote(env, roster, log[i], more) && d'.dlq == d.dlq && d'.unsent == d.unsent
  {
    hide RowOf;
    hide PairUps;
    hide Wrote;
    hide Flush;
    hide MsgsOf;
    hide ItemsAt;
    OneItem(log, i);
    FlushOne(env, roster, d.tick, log[i]);
    more := Flush(env.o, d.tick, [log[i]]).trace;
  }

  /** Record i is fetched, handed over, flushed on its own and committed. */
  lemma StoresOne(env: Env, roster: int64 -> seq<int64>, log: seq<Msg>, j: Job, i: nat) returns (more: seq<Stmt>)
    requires Working(env, roster) && Idle(j) && IsNext(env, log, j.next, i) && Buildable(log[i])
    ensures var p, j' := PartAt(env, log, i), Moves(env, log, j, Round(i));
            && Idle(j') && j'.next == j.next[p := i + 1] && j'.committed == j.committed[p := i + 1]
            && j'.done.trace == j.done.trace + more && Wrote(env, roster, log[i], more)
            && j'.done.dlq == j.done.dlq && j'.done.unsent == j.done.unsent
  {
    IdleIs(j);
    assert i < |log| by { hide PartAt; }
    hide *;
    RoundMoves(env, log, j, i);
    Arrives(env, log, j, i);
    var p := PartAt(env, log, i);
    var j3 := j.(next := j.next[p := i + 1], pending := [i]);
    more := FlushDoneOne(env, roster, log, j.done, i);
    FlushMove(env, roster, log, j3, i);
    IdleIs(Moves(env, log, j, Round(i)));
  }

  lemma IdleIs(j: Job)
    ensures Idle(j) <==> j.hand == None && !j.stopped && j.chan == [] && j.pending == []
  {
  }

  lemma FlushMove(env: Env, roster: int64 -> seq<int64>, log: seq<Msg>, j: Job, i: nat)
    requires Working(env, roster) && j.pending == [i]
    ensures Move1(env, log, j, FlushPending) ==
            j.(pending := [], done := FlushDone(env, log, j.done, [i]),
               committed := j.committed[PartAt(env, log, i) := i + 1])
  {
    StashOne(env, log, i);
    hide PartAt;
    hide FlushDone;
    hide Stash;
    var p := PartAt(env, log, i);
    assert env.sink.commit(j.done.commitTick).Success?;
    assert j.committed + map[p := i + 1] == j.committed[p := i + 1];
  }

  lemma OneItem(log: seq<Msg>, i: nat)
    requires i < |log|
    ensures MsgsOf(ItemsAt(log, [i])) == [log[i]]
  {
    assert [i][..0] == [];
    var items := [ParseStoreItem(RecordAt(log, i))];
    assert ItemsAt(log, [i]) == [] + items && items[..0] == [];
    assert MsgsOf(items) == [] + [log[i]];
  }

  lemma StashOne(env: Env, log: seq<Msg>, i: nat)
    ensures Stash(env, log, [i]) == map[PartAt(env, log, i) := i + 1]
  {
    assert [i][..0] == [];
  }

  lemma RoundMoves(env: Env, log: seq<Msg>, j: Job, i: nat)
    ensures Moves(env, log, j, Round(i)) ==
            Move1(env, log, Move1(env, log, Move1(env, log, Move1(env, log, j, Fetch(i)), HandOff), Receive), FlushPending)
  {
    hide Move1;
    MovesSnoc(env, log, j, [], Fetch(i));
    MovesSnoc(env, log, j, [Fetch(i)], HandOff);
    MovesSnoc(env, log, j, [Fetch(i), HandOff], Receive);
    MovesSnoc(env, log, j, [Fetch(i), HandOff, Receive], FlushPending);
    assert [] + [Fetch(i)] == [Fetch(i)] && [Fetch(i)] + [HandOff] == [Fetch(i), HandOff];
    assert [Fetch(i), HandOff] + [Receive] == [Fetch(i), HandOff, Receive];
    assert [Fetch(i), HandOff, Receive] + [FlushPending] == Round(i);
  }

  // ---------------------------------------------------------------- an id that repeats

  lemma FirstIsNext(env: Env, log: seq<Msg>)
    requires log != []
    ensures IsNext(env, log, map[], 0)
  {
  }

  lemma SecondIsNext(env: Env, log: seq<Msg>)
    requires |log| == 2 && log[0].convId == log[1].convId
    ensures PartAt(env, log, 1) == PartAt(env, log, 0)
    ensures IsNext(env, log, map[PartAt(env, log, 0) := 1], 1)
  {
  }

  lemma MsgIs(i: Send.Input, conv: string, id: int64, n: nat)
    requires id >= 0
    ensures var m := Send.MakeMsg(i, conv, id, n, 0);
            && m.convId == conv && m.seqNo == n && m.convType == i.convType && m.senderId == i.sender
            && RowOf(m).Some? && RowOf(m).value.id == id && Slot(RowOf(m).value) == (conv, n)
  {
    hide FormatInt;
    DecimalRow(Send.MakeMsg(i, conv, id, n, 0), id);
  }

  /** What is in the tables and what reached each row after two messages of one conversation were stored
      with one read in between, or none. */
  lemma TwoWritten(env: Env, roster: int64 -> seq<int64>, m0: Msg, m1: Msg, more0: seq<Stmt>, mid: seq<Stmt>, more1: seq<Stmt>)
    requires Wrote(env, roster, m0, more0) && Wrote(env, roster, m1, more1) && m0.convId == m1.convId
    requires forall st :: st in mid ==> st.MarkRead?
    ensures ApplyAll(EMPTY, more0 + mid + more1).tables[env.o.shard(m0.convId)] ==
            InsertRows(map[], [RowOf(m0).value, RowOf(m1).value])
    ensures forall k: ConvKey ::
              OpsAt(more0 + mid + more1, k) == UpsAt(Wanted(roster, m0), k) + OpsAt(mid, k) + UpsAt(Wanted(roster, m1), k)
  {
    hide RowOf;
    hide Wanted;
    hide ApplyAll;
    hide UpsAt;
    hide InsertRows;
    var s := env.o.shard(m0.convId);
    NoRows(mid, s);
    hide RowsAt;
    hide OpsAt;
    TableProjection(EMPTY, more0 + mid + more1, s);
    RowsAtAppend(more0 + mid, more1, s);
    RowsAtAppend(more0, mid, s);
    assert [RowOf(m0).value] + [] + [RowOf(m1).value] == [RowOf(m0).value, RowOf(m1).value];
    forall k: ConvKey | true
      ensures OpsAt(more0 + mid + more1, k) == UpsAt(Wanted(roster, m0), k) + OpsAt(mid, k) + UpsAt(Wanted(roster, m1), k)
    {
      OpsAtAppend(more0 + mid, more1, k);
      OpsAtAppend(more0, mid, k);
    }
  }

  /** Two records of one conversation, each stored on its own: both are committed, and the table holds what
      inserting their rows in log order leaves. */
  lemma StoresTwo(env: Env, roster: int64 -> seq<int64>, log: seq<Msg>)
    requires Working(env, roster) && |log| == 2 && log[0].convId == log[1].convId
    requires Buildable(log[0]) && Buildable(log[1])
    ensures var j := Moves(env, log, Moves(env, log, IDLE, Round(0)), Round(1));
            && j.done.dlq == [] && j.done.unsent == {}
            && Pos(j.committed, PartAt(env, log, 0)) == 2 && PartAt(env, log, 1) == PartAt(env, log, 0)
            && ApplyAll(EMPTY, j.done.trace).tables[env.o.shard(log[0].convId)] ==
               InsertRows(map[], [RowOf(log[0]).value, RowOf(log[1]).value])
            && forall k: ConvKey ::
                 OpsAt(j.done.trace, k) == UpsAt(Wanted(roster, log[0]), k) + UpsAt(Wanted(roster, log[1]), k)
  {
    FirstIsNext(env, log);
    SecondIsNext(env, log);
    IdleIs(IDLE);
    hide *;
    var p := PartAt(env, log, 0);
    var more0 := StoresOne(env, roster, log, IDLE, 0);
    var j1 := Moves(env, log, IDLE, Round(0));
    var more1 := StoresOne(env, roster, log, j1, 1);
    assert j1.done.trace == more0 && more0 + [] == more0;
    TwoWritten(env, roster, log[0], log[1], more0, [], more1);
    forall k: ConvKey | true
      ensures OpsAt(more0 + more1, k) == UpsAt(Wanted(roster, log[0]), k) + UpsAt(Wanted(roster, log[1]), k)
    {
      NoOpsAtAll(k);
      assert UpsAt(Wanted(roster, log[0]), k) + [] == UpsAt(Wanted(roster, log[0]), k);
    }
    PosOf(map[p := 1][p := 2], p);
  }

  lemma NoOpsAtAll(k: ConvKey)
    ensures OpsAt([], k) == []
  {
  }

  lemma PosOf(m: map<nat, nat>, p: nat)
    requires p in m
    ensures Pos(m, p) == m[p]
  {
  }

  /** The log of two undisturbed sends into one conversation that were given the same id. */
  lemma SendsTwo(i1: Send.Input, i2: Send.Input, t: Send.Target, id: int64) returns (acts: seq<Send.Action>)
    requires Send.Validate(i1) == Some(t) && Send.Validate(i2) == Some(t)
    requires (i1.sender, i1.clientMsgId) != (i2.sender, i2.clientMsgId)
    ensures var s := Send.Run(Send.INITIAL, acts);
            && s.logs.store == [Send.MakeMsg(i1, t.conv, id, 1, 0), Send.MakeMsg(i2, t.conv, id, 2, 0)]
            && 0 in s.reqs && 1 in s.reqs && Send.Acked(s.reqs[0]) && Send.Acked(s.reqs[1])
            && s.reqs[0].input == i1 && s.reqs[1].input == i2
            && s.reqs[0].msg == Some(s.logs.store[0]) && s.reqs[1].msg == Some(s.logs.store[1])
  {
    KeysApart(i1, i2);
    FirstSent(i1, t, id);
    hide *;
    var a := SendLimits.UndisturbedAcks(Send.INITIAL, 0, i1, t, id);
    var s1 := SendLimits.Sent(Send.INITIAL, 0, i1, t, id);
    var b := SendLimits.UndisturbedAcks(s1, 1, i2, t, id);
    SecondSent(s1, i2, t, id);
    SendServer.RunAppend(Send.INITIAL, a, b);
    acts := a + b;
    assert [Send.MakeMsg(i1, t.conv, id, 1, 0)] + [Send.MakeMsg(i2, t.conv, id, 2, 0)] ==
           [Send.MakeMsg(i1, t.conv, id, 1, 0), Send.MakeMsg(i2, t.conv, id, 2, 0)];
  }

  lemma FirstSent(i: Send.Input, t: Send.Target, id: int64)
    ensures var s, m := SendLimits.Sent(Send.INITIAL, 0, i, t, id), Send.MakeMsg(i, t.conv, id, 1, 0);
            && s.reqs.Keys == {0} && s.idem.Keys == {IdemKey(i.sender, i.clientMsgId)} && s.logs.store == [m]
            && Send.Counter(s.logs, t.conv) == 1 && Send.Acked(s.reqs[0]) && s.reqs[0].input == i && s.reqs[0].msg == Some(m)
    ensures 0 !in Send.INITIAL.reqs && IdemKey(i.sender, i.clientMsgId) !in Send.INITIAL.idem
  {
    InitialIs(t.conv);
    SendLimits.SentIs(Send.INITIAL, 0, i, t, id);
    SentKeys(Send.INITIAL, 0, i, t, id);
    DrawnAs(Send.INITIAL, i, t, id, 1);
    hide *;
    assert [] + [Send.MakeMsg(i, t.conv, id, 1, 0)] == [Send.MakeMsg(i, t.conv, id, 1, 0)];
  }

  lemma SecondSent(s: Send.State, i: Send.Input, t: Send.Target, id: int64)
    requires s.reqs.Keys == {0} && Send.Counter(s.logs, t.conv) == 1
    ensures var s', m := SendLimits.Sent(s, 1, i, t, id), Send.MakeMsg(i, t.conv, id, 2, 0);
            && 0 in s'.reqs && s'.reqs[0] == s.reqs[0] && s'.logs.store == s.logs.store + [m]
            && 1 in s'.reqs && Send.Acked(s'.reqs[1]) && s'.reqs[1].input == i && s'.reqs[1].msg == Some(m)
  {
    SendLimits.SentIs(s, 1, i, t, id);
    SendLimits.SentElsewhere(s, 1, i, t, id, 0);
    DrawnAs(s, i, t, id, 2);
    hide *;
  }

  lemma SentKeys(s: Send.State, r: nat, i: Send.Input, t: Send.Target, id: int64)
    ensures SendLimits.Sent(s, r, i, t, id).idem.Keys == s.idem.Keys + {IdemKey(i.sender, i.clientMsgId)}
    ensures SendLimits.Sent(s, r, i, t, id).reqs.Keys == s.reqs.Keys + {r}
  {
    hide IdemKey;
    hide SendLimits.Drawn;
  }

  lemma KeysApart(i1: Send.Input, i2: Send.Input)
    requires (i1.sender, i1.clientMsgId) != (i2.sender, i2.clientMsgId)
    ensures IdemKey(i1.sender, i1.clientMsgId) != IdemKey(i2.sender, i2.clientMsgId)
  {
    hide IdemKey;
    if IdemKey(i1.sender, i1.clientMsgId) == IdemKey(i2.sender, i2.clientMsgId) {
      IdemKeyInjective(i1.sender, i1.clientMsgId, i2.sender, i2.clientMsgId);
    }
  }

  lemma LoggedBuildable(acts: seq<Send.Action>, r: nat)
    requires var s := Send.Run(Send.INITIAL, acts);
             r in s.reqs && s.reqs[r].msg.Some? && RowOf(s.reqs[r].msg.value).Some?
    ensures Buildable(Send.Run(Send.INITIAL, acts).reqs[r].msg.value)
  {
    hide Send.Run;
    hide RowOf;
    LogBuildable(acts, r);
  }

  /** What unique ids are needed for: if two sends into one conversation are given the same id, both are
      acked, both records are committed, every statement and every flush succeeds, and the second message
      is in no table and not in the dead-letter topic; the cursor of a one-to-one receiver points at it
      all the same. */
  lemma RepeatedIdLosesAcked(env: Env, roster: int64 -> seq<int64>, i1: Send.Input, i2: Send.Input, t: Send.Target, id: int64)
    returns (steps: seq<Step>)
    requires Working(env, roster) && Send.Validate(i1) == Some(t) && Send.Validate(i2) == Some(t)
    requires (i1.sender, i1.clientMsgId) != (i2.sender, i2.clientMsgId) && id >= 0
    ensures var s := EndToEnd.Run(env, steps);
            var db := ApplyAll(EMPTY, s.job.done.trace);
            && 0 in s.send.reqs && 1 in s.send.reqs && Send.Acked(s.send.reqs[0]) && Send.Acked(s.send.reqs[1])
            && |Log(s)| == 2 && s.send.reqs[0].msg == Some(Log(s)[0]) && s.send.reqs[1].msg == Some(Log(s)[1])
            && Committed(env, s, 0) && Committed(env, s, 1)
            && Stored(env, db, Log(s)[0]) && !Stored(env, db, Log(s)[1])
            && s.job.done.dlq == [] && s.job.done.unsent == {}
            && (t.Pair? ==> !CursorValid(env.o.shard, db))
  {
    var acts := SendsTwo(i1, i2, t, id);
    var m1, m2 := Send.MakeMsg(i1, t.conv, id, 1, 0), Send.MakeMsg(i2, t.conv, id, 2, 0);
    var log := [m1, m2];
    MsgIs(i1, t.conv, id, 1);
    MsgIs(i2, t.conv, id, 2);
    LoggedBuildable(acts, 0);
    LoggedBuildable(acts, 1);
    LogIs();
    if t.Pair? {
      PairFacts(i1, t, id, 1);
      PairFacts(i2, t, id, 2);
    }
    hide *;
    RunNothing(env);
    assert [] + Clients(acts) == Clients(acts);
    RunClients(env, [], acts);
    RunConsumers(env, Clients(acts), Round(0));
    RunConsumers(env, Clients(acts) + Consumers(Round(0)), Round(1));
    steps := Clients(acts) + Consumers(Round(0)) + Consumers(Round(1));
    RepeatedIdStored(env, roster, m1, m2, t);
    CommittedIs(env, EndToEnd.Run(env, steps));
  }

  lemma CommittedIs(env: Env, s: System)
    requires |Log(s)| == 2 && PartAt(env, Log(s), 1) == PartAt(env, Log(s), 0)
    requires Pos(s.job.committed, PartAt(env, Log(s), 0)) == 2
    ensures Committed(env, s, 0) && Committed(env, s, 1)
  {
    hide PartAt;
    hide Pos;
  }

  /** The job side: two rows under one id. */
  lemma RepeatedIdStored(env: Env, roster: int64 -> seq<int64>, m1: Msg, m2: Msg, t: Send.Target)
    requires Working(env, roster) && Buildable(m1) && Buildable(m2) && m1.convId == t.conv && m2.convId == t.conv
    requires RowOf(m1).Some? && RowOf(m2).Some? && RowOf(m1).value.id == RowOf(m2).value.id
    requires Slot(RowOf(m1).value) == (t.conv, 1) && Slot(RowOf(m2).value) == (t.conv, 2) && m1.seqNo == 1 && m2.seqNo == 2
    requires t.Pair? ==>
               && m1.convId == P2PId(m1.senderId, t.peer) && t.peer != m1.senderId && m1.convType == CONV_TYPE_P2P
               && m2.convId == P2PId(m2.senderId, t.peer) && t.peer != m2.senderId && m2.convType == CONV_TYPE_P2P
    ensures var log := [m1, m2];
            var j := Moves(env, log, Moves(env, log, IDLE, Round(0)), Round(1));
            var db := ApplyAll(EMPTY, j.done.trace);
            && Stored(env, db, m1) && !Stored(env, db, m2) && j.done.dlq == [] && j.done.unsent == {}
            && Pos(j.committed, PartAt(env, log, 0)) == 2 && PartAt(env, log, 1) == PartAt(env, log, 0)
            && (t.Pair? ==> !CursorValid(env.o.shard, db))
  {
    var log := [m1, m2];
    if t.Pair? {
      UpAtIs(m1, t.peer);
      UpAtIs(m2, t.peer);
    }
    hide *;
    StoresTwo(env, roster, log);
    var j := Moves(env, log, Moves(env, log, IDLE, Round(0)), Round(1));
    var db := ApplyAll(EMPTY, j.done.trace);
    FirstOnly(RowOf(m1).value, RowOf(m2).value, t.conv);
    StoredIs(env, db, m1);
    StoredIs(env, db, m2);
    if t.Pair? {
      PairAt(roster, m1, t.peer);
      PairAt(roster, m2, t.peer);
      CursorAhead(env.o.shard, j.done.trace, (t.peer, t.conv), UpAt(m1, t.peer), UpAt(m2, t.peer));
    }
  }

  lemma FirstOnly(a: MsgRow, b: MsgRow, conv: string)
    requires a.id == b.id && Slot(a) == (conv, 1) && Slot(b) == (conv, 2)
    ensures var t := InsertRows(map[], [a, b]); (conv, 1) in t && t[(conv, 1)] == a && (conv, 2) !in t
  {
    InsertTwo(a, b);
  }

  lemma RunNothing(env: Env)
    ensures EndToEnd.Run(env, []) == System(Send.INITIAL, IDLE)
  {
  }

  // ---------------------------------------------------------------- a seq that is stored late

  function UpAt(m: Msg, peer: int64): Upsert {
    Upsert(peer, m.convId, m.convType, m.senderId, m.seqNo, 1, m.timestamp)
  }

  lemma UpAtIs(m: Msg, peer: int64)
    ensures UpAt(m, peer).seqNo == m.seqNo && UpAt(m, peer).delta == 1
  {
  }

  lemma CursorAhead(shard: string -> Shard, trace: seq<Stmt>, k: ConvKey, u: Upsert, v: Upsert)
    requires OpsAt(trace, k) == [Up(u)] + [Up(v)] && u.seqNo == 1 && v.seqNo == 2
    requires (k.1, 2) !in ApplyAll(EMPTY, trace).tables[shard(k.1)]
    ensures !CursorValid(shard, ApplyAll(EMPTY, trace))
  {
    hide OpsAt;
    hide ApplyAll;
    RowProjection(EMPTY, trace, k);
    var ops := [Up(u)] + [Up(v)];
    assert ops[..1] == [Up(u)] && [Up(u)][..0] == [];
    assert RunRow(None, [Up(u)]) == Some(ConvRow(u.convType, u.target, 1, 0, u.delta, u.at));
  }

  /** The receiver's row of a one-to-one message is touched once, counting one. */
  lemma PairAt(roster: int64 -> seq<int64>, m: Msg, peer: int64)
    requires m.convId == P2PId(m.senderId, peer) && peer != m.senderId && m.convType == CONV_TYPE_P2P
    ensures UpsAt(Wanted(roster, m), (peer, m.convId)) ==
            [Up(UpAt(m, peer))]
  {
    hide P2PId;
    P2PRoundTrip(m.senderId, peer);
    hide ParseP2P;
    var two := PairUps(m).value;
    assert Wanted(roster, m) == two && two == [two[0]] + [two[1]];
    UpsAtAppend([two[0]], [two[1]], (peer, m.convId));
    assert [two[0]][..0] == [] && [two[1]][..0] == [];
  }

  lemma PairFacts(i: Send.Input, t: Send.Target, id: int64, n: nat)
    requires Send.Validate(i) == Some(t) && t.Pair?
    ensures var m := Send.MakeMsg(i, t.conv, id, n, 0);
            m.convId == P2PId(m.senderId, t.peer) && t.peer != m.senderId && m.convType == CONV_TYPE_P2P
  {
    CheckP2PExact(i.sender, i.convId, t.peer);
    hide CheckP2P;
    hide P2PId;
    hide FormatInt;
  }

  /** The row after: seq 2, read up to 2, then seq 1. */
  lemma RowReadThenLate(u: Upsert, v: Upsert, now: int)
    requires u.seqNo == 2 && v.seqNo == 1 && u.delta == 1 && v.delta == 1
    ensures var o := RunRow(None, [Up(u)] + [Read(2, now)] + [Up(v)]);
            o.Some? && o.value.lastSeq == 2 && o.value.readSeq == 2 && o.value.unread == 1
  {
    var ops := [Up(u)] + [Read(2, now)] + [Up(v)];
    assert ops[..2] == [Up(u), Read(2, now)] && [Up(u), Read(2, now)][..1] == [Up(u)] && [Up(u)][..0] == [];
    var r := ConvRow(u.convType, u.target, 2, 0, 1, u.at);
    assert RunRow(None, [Up(u)]) == Some(r);
    assert RunRow(None, [Up(u), Read(2, now)]) == Some(ReadRow(r, 2, now));
  }

  /** The first sender draws seq 1 and holds it back while the second send is acked under seq 2. */
  lemma SendsFirst(i0: Send.Input, i1: Send.Input, t: Send.Target, id0: int64, id1: int64) returns (first: seq<Send.Action>)
    requires Send.Validate(i0) == Some(t) && Send.Validate(i1) == Some(t)
    requires (i0.sender, i0.clientMsgId) != (i1.sender, i1.clientMsgId)
    ensures var s, m0, m1 := Send.Run(Send.INITIAL, first), Send.MakeMsg(i0, t.conv, id0, 1, 0), Send.MakeMsg(i1, t.conv, id1, 2, 0);
            && s.logs.store == [m1] && 0 in s.reqs && 1 in s.reqs && Send.Acked(s.reqs[1]) && s.reqs[1].msg == Some(m1)
            && s.reqs[0] == SendLimits.Frame(i0, t, Send.Sequenced, m0)
  {
    KeysApart(i0, i1);
    InitialIs(t.conv);
    hide *;
    var a := SendLimits.Begins(Send.INITIAL, 0, i0, t);
    var s1 := Send.Run(Send.INITIAL, a);
    SameLogsCount(s1, Send.INITIAL, t.conv);
    var b := SendLimits.Draws(s1, 0, i0, t, id0);
    var s2 := Send.Run(s1, b);
    CountIs(s2, t.conv, 1);
    DrawnAs(s1, i0, t, id0, 1);
    var c := SendLimits.UndisturbedAcks(s2, 1, i1, t, id1);
    SendLimits.SentIs(s2, 1, i1, t, id1);
    DrawnAs(s2, i1, t, id1, 2);
    SendLimits.SentElsewhere(s2, 1, i1, t, id1, 0);
    SendServer.RunAppend(Send.INITIAL, a, b);
    SendServer.RunAppend(Send.INITIAL, a + b, c);
    first := a + b + c;
    assert [] + [Send.MakeMsg(i1, t.conv, id1, 2, 0)] == [Send.MakeMsg(i1, t.conv, id1, 2, 0)];
  }

  lemma SameLogsCount(s: Send.State, s': Send.State, conv: string)
    requires s.logs == s'.logs
    ensures Send.Counter(s.logs, conv) == Send.Counter(s'.logs, conv)
  {
  }

  lemma CountIs(s: Send.State, conv: string, n: nat)
    requires conv in s.logs.counters && s.logs.counters[conv] == n
    ensures Send.Counter(s.logs, conv) == n
  {
  }

  lemma DrawnAs(s: Send.State, i: Send.Input, t: Send.Target, id: int64, n: nat)
    requires Send.Counter(s.logs, t.conv) + 1 == n
    ensures SendLimits.Drawn(s, i, t, id) == Send.MakeMsg(i, t.conv, id, n, 0)
  {
    hide Send.MakeMsg;
  }

  /** Then the first one goes on. */
  lemma SendsCrossed(i0: Send.Input, i1: Send.Input, t: Send.Target, id0: int64, id1: int64)
    returns (first: seq<Send.Action>, second: seq<Send.Action>)
    requires Send.Validate(i0) == Some(t) && Send.Validate(i1) == Some(t)
    requires (i0.sender, i0.clientMsgId) != (i1.sender, i1.clientMsgId)
    ensures var s, m0, m1 := Send.Run(Send.INITIAL, first), Send.MakeMsg(i0, t.conv, id0, 1, 0), Send.MakeMsg(i1, t.conv, id1, 2, 0);
            var s' := Send.Run(s, second);
            && s.logs.store == [m1] && s'.logs.store == [m1, m0]
            && 0 in s'.reqs && 1 in s'.reqs && Send.Acked(s'.reqs[0]) && Send.Acked(s'.reqs[1])
            && s'.reqs[0].msg == Some(m0) && s'.reqs[1].msg == Some(m1)
  {
    hide *;
    first := SendsFirst(i0, i1, t, id0, id1);
    var m0 := Send.MakeMsg(i0, t.conv, id0, 1, 0);
    second := SendLimits.Delivers(Send.Run(Send.INITIAL, first), 0, i0, t, m0);
    FrameIs(i0, t, m0);
  }

  lemma InitialIs(conv: string)
    ensures Send.INITIAL.reqs == map[] && Send.INITIAL.idem == map[] && Send.INITIAL.logs == Send.Logs(map[], [], [])
    ensures Send.Counter(Send.INITIAL.logs, conv) == 0
  {
  }

  lemma FrameIs(i: Send.Input, t: Send.Target, m: Msg)
    ensures var q := SendLimits.Frame(i, t, Send.Finished(Send.Ack(Send.CODE_OK, m.msgId, m.seqNo)), m);
            Send.Acked(q) && q.msg == Some(m)
  {
  }

  /** Seq order and log order may differ, and then a message can be acked, stored and counted as unread
      while no client is ever told to fetch it: two sends into a conversation cross, the receiver catches
      up with the later seq and reads it, and the earlier one is stored afterwards. The conversation is not
      pending, and nothing lies above the receiver's cursor. */
  lemma LateMessageNeverPending(env: Env, roster: int64 -> seq<int64>, i0: Send.Input, i1: Send.Input, t: Send.Target,
                                id0: int64, id1: int64, now: int) returns (steps: seq<Step>)
    requires Working(env, roster) && Send.Validate(i0) == Some(t) && Send.Validate(i1) == Some(t) && t.Pair?
    requires (i0.sender, i0.clientMsgId) != (i1.sender, i1.clientMsgId) && id0 >= 0 && id1 >= 0 && id0 != id1
    requires i0.sender == i1.sender
    ensures var s := EndToEnd.Run(env, steps);
            var db, k := ApplyAll(EMPTY, s.job.done.trace), (t.peer, t.conv);
            && 0 in s.send.reqs && 1 in s.send.reqs && Send.Acked(s.send.reqs[0]) && Send.Acked(s.send.reqs[1])
            && s.send.reqs[0].msg.Some? && s.send.reqs[0].msg.value.seqNo == 1 && Stored(env, db, s.send.reqs[0].msg.value)
            && k in db.convs && db.convs[k].readSeq == 2 && db.convs[k].unread == 1 && !Pending(db, t.peer, t.conv)
            && Scan(db.tables[env.o.shard(t.conv)], t.conv, db.convs[k].readSeq) == []
  {
    var first, second := SendsCrossed(i0, i1, t, id0, id1);
    var m0, m1 := Send.MakeMsg(i0, t.conv, id0, 1, 0), Send.MakeMsg(i1, t.conv, id1, 2, 0);
    var mid, k := [MarkRead(t.peer, t.conv, 2, now)], (t.peer, t.conv);
    PairFacts(i0, t, id0, 1);
    PairFacts(i1, t, id1, 2);
    MsgIs(i0, t.conv, id0, 1);
    MsgIs(i1, t.conv, id1, 2);
    SendServer.RunAppend(Send.INITIAL, first, second);
    LoggedBuildable(first + second, 0);
    LoggedBuildable(first + second, 1);
    CrossedTable(RowOf(m1).value, RowOf(m0).value, t.conv);
    PairAt(roster, m0, t.peer);
    PairAt(roster, m1, t.peer);
    hide *;
    steps := Clients(first) + Consumers(Round(0)) + Consumers([Outside(mid[0])]) + Clients(second) + Consumers(Round(1));
    var more0, more1 := CrossedRun(env, roster, first, second, m1, m0, mid[0]);
    LateState(env, roster, m1, m0, more0, more1, t.peer, mid[0], now);
  }

  /** The database after the later seq was stored and read and the earlier one stored. */
  lemma LateState(env: Env, roster: int64 -> seq<int64>, m1: Msg, m0: Msg, more0: seq<Stmt>, more1: seq<Stmt>, peer: int64, st: Stmt, now: int)
    requires Wrote(env, roster, m1, more0) && Wrote(env, roster, m0, more1) && m1.convId == m0.convId
    requires st == MarkRead(peer, m0.convId, 2, now)
    requires UpsAt(Wanted(roster, m1), (peer, m0.convId)) == [Up(UpAt(m1, peer))] && m1.seqNo == 2
    requires UpsAt(Wanted(roster, m0), (peer, m0.convId)) == [Up(UpAt(m0, peer))] && m0.seqNo == 1
    requires RowOf(m1).Some? && RowOf(m0).Some?
    requires var t := InsertRows(map[], [RowOf(m1).value, RowOf(m0).value]);
             (m0.convId, 1) in t && t[(m0.convId, 1)] == RowOf(m0).value && Scan(t, m0.convId, 2) == []
    ensures var db, k := ApplyAll(EMPTY, more0 + [st] + more1), (peer, m0.convId);
            && Stored(env, db, m0) && Scan(db.tables[env.o.shard(m0.convId)], m0.convId, 2) == []
            && k in db.convs && db.convs[k].readSeq == 2 && db.convs[k].unread == 1 && !Pending(db, peer, m0.convId)
  {
    UpAtIs(m0, peer);
    UpAtIs(m1, peer);
    assert ValidDb(EMPTY);
    hide *;
    var trace, k := more0 + [st] + more1, (peer, m0.convId);
    ReadAt(st, k);
    TwoWritten(env, roster, m1, m0, more0, [st], more1);
    RowFinal(trace, k, UpAt(m1, peer), UpAt(m0, peer), now);
    StoredIs(env, ApplyAll(EMPTY, trace), m0);
  }

  lemma ReadAt(st: Stmt, k: ConvKey)
    requires st.MarkRead? && (st.uid, st.conv) == k
    ensures OpsAt([st], k) == [Read(st.upTo, st.now)]
  {
    SingleStmt(st, 0, k);
  }

  lemma CrossedRun(env: Env, roster: int64 -> seq<int64>, first: seq<Send.Action>, second: seq<Send.Action>, m1: Msg, m0: Msg, st: Stmt)
    returns (more0: seq<Stmt>, more1: seq<Stmt>)
    requires Working(env, roster) && Buildable(m1) && Buildable(m0) && m1.convId == m0.convId && st.MarkRead?
    requires var s := Send.Run(Send.INITIAL, first);
             s.logs.store == [m1] && Send.Run(s, second).logs.store == [m1, m0]
    ensures var steps := Clients(first) + Consumers(Round(0)) + Consumers([Outside(st)]) + Clients(second) + Consumers(Round(1));
            var s := EndToEnd.Run(env, steps);
            && s.send == Send.Run(Send.Run(Send.INITIAL, first), second) && s.job.done.trace == more0 + [st] + more1
    ensures Wrote(env, roster, m1, more0) && Wrote(env, roster, m0, more1)
  {
    var logA, logB := [m1], [m1, m0];
    FirstIsNext(env, logA);
    SecondIsNext(env, logB);
    PartStays(env, m1, m0);
    IdleIs(IDLE);
    RunNothing(env);
    hide *;
    var p := PartAt(env, logA, 0);
    more0 := StoresOne(env, roster, logA, IDLE, 0);
    var j1 := Moves(env, logA, IDLE, Round(0));
    var j2 := j1.(done := j1.done.(trace := j1.done.trace + [st]));
    OutsideMove(env, logA, j1, st);
    IdleIs(j1);
    IdleIs(j2);
    more1 := StoresOne(env, roster, logB, j2, 1);
    assert [] + more0 == more0 && [] + Clients(first) == Clients(first);
    RunClients(env, [], first);
    LogIs();
    var s1 := Clients(first);
    RunConsumers(env, s1, Round(0));
    var s2 := s1 + Consumers(Round(0));
    RunConsumers(env, s2, [Outside(st)]);
    var s3 := s2 + Consumers([Outside(st)]);
    RunClients(env, s3, second);
    RunConsumers(env, s3 + Clients(second), Round(1));
  }

  lemma LogIs()
    ensures forall s: System :: Log(s) == s.send.logs.store
  {
  }

  lemma PartStays(env: Env, m1: Msg, m0: Msg)
    ensures PartAt(env, [m1, m0], 0) == PartAt(env, [m1], 0)
  {
  }

  lemma OutsideMove(env: Env, log: seq<Msg>, j: Job, st: Stmt)
    requires st.MarkRead?
    ensures Moves(env, log, j, [Outside(st)]) == j.(done := j.done.(trace := j.done.trace + [st]))
  {
    assert [Outside(st)][..0] == [];
  }

  lemma RowFinal(trace: seq<Stmt>, k: ConvKey, u: Upsert, v: Upsert, now: int)
    requires OpsAt(trace, k) == [Up(u)] + [Read(2, now)] + [Up(v)]
    requires u.seqNo == 2 && v.seqNo == 1 && u.delta == 1 && v.delta == 1
    ensures var db := ApplyAll(EMPTY, trace);
            k in db.convs && db.convs[k].readSeq == 2 && db.convs[k].unread == 1 && !Pending(db, k.0, k.1)
  {
    hide OpsAt;
    hide ApplyAll;
    RowProjection(EMPTY, trace, k);
    RowReadThenLate(u, v, now);
  }

  lemma CrossedTable(a: MsgRow, b: MsgRow, conv: string)
    requires Slot(a) == (conv, 2) && Slot(b) == (conv, 1) && a.id != b.id
    ensures var t := InsertRows(map[], [a, b]);
            (conv, 1) in t && t[(conv, 1)] == b && Scan(t, conv, 2) == []
  {
    InsertTwo(a, b);
    var t := InsertRows(map[], [a, b]);
    assert SeqsAbove(t, conv, 2) == {};
  }

  lemma StoredIs(env: Env, db: Db, m: Msg)
    requires ValidDb(db)
    ensures Stored(env, db, m) <==>
            && RowOf(m).Some?
            && (m.convId, m.seqNo) in db.tables[env.o.shard(m.convId)]
            && db.tables[env.o.shard(m.convId)][(m.convId, m.seqNo)] == RowOf(m).value
  {
  }
}
