/** The send protocol and the store job together: client requests and consumer moves interleave in any
    order over one msg.store log. */
module EndToEnd {
  import opened Common
  import opened Decimal
  import opened Conv
  import opened Messages
  import opened Sql
  import opened Trace
  import opened Store
  import opened StoreFacts
  import opened Confluence
  import opened Cursors
  import opened StoreWorkers
  import opened Pipeline
  import Send
  import SendAcks

  datatype System = System(send: Send.State, job: Job)

  datatype Step = Client(a: Send.Action) | Consumer(mv: Move)

  function Exec(env: Env, s: System, step: Step): System {
    match step
    case Client(a) => s.(send := Send.Exec(s.send, a))
    case Consumer(mv) => s.(job := Move1(env, s.send.logs.store, s.job, mv))
  }

  function Run(env: Env, steps: seq<Step>): System {
    if steps == [] then System(Send.INITIAL, IDLE)
    else Exec(env, Run(env, steps[..|steps| - 1]), steps[|steps| - 1])
  }

  function Requests(steps: seq<Step>): seq<Send.Action> {
    if steps == [] then []
    else Requests(steps[..|steps| - 1]) + if steps[|steps| - 1].Client? then [steps[|steps| - 1].a] else []
  }

  function Log(s: System): seq<Msg> { s.send.logs.store }

  lemma {:induction false} SendSide(env: Env, steps: seq<Step>)
    ensures Run(env, steps).send == Send.Run(Send.INITIAL, Requests(steps))
  {
    hide Send.Exec;
    hide Move1;
    if steps != [] {
      var b, last := steps[..|steps| - 1], steps[|steps| - 1];
      SendSide(env, b);
      if last.Client? {
        assert (Requests(b) + [last.a])[..|Requests(b)|] == Requests(b);
      } else {
        assert Requests(steps) == Requests(b);
      }
    }
  }

  // ---------------------------------------------------------------- ids

  /** The generator never goes negative: the clock is past the epoch. */
  ghost predicate StorableIds(acts: seq<Send.Action>) {
    forall i :: 0 <= i < |acts| && acts[i].Incr? ==> acts[i].id >= 0
  }

  /** Nor does it ever repeat an id (modules Snowflake and IdSource say when). */
  ghost predicate UniqueIds(acts: seq<Send.Action>) {
    && StorableIds(acts)
    && (forall i, j :: 0 <= i < j < |acts| && acts[i].Incr? && acts[j].Incr? ==> acts[i].id != acts[j].id)
  }

  /** The message of request r got its id from action j. */
  ghost predicate IdFrom(acts: seq<Send.Action>, r: nat, m: Msg, j: nat) {
    j < |acts| && acts[j].Incr? && acts[j].r == r && m.msgId == FormatInt(acts[j].id)
  }

  lemma MsgOrigin(s: Send.State, a: Send.Action, r: nat)
    requires r in Send.Exec(s, a).reqs && Send.Exec(s, a).reqs[r].msg.Some?
    ensures var m := Send.Exec(s, a).reqs[r].msg;
            (r in s.reqs && s.reqs[r].msg == m) || (a.Incr? && a.r == r && m.value.msgId == FormatInt(a.id))
  {
    hide Send.Validate;
    hide Send.Key;
    hide Send.Others;
    hide FormatInt;
  }

  lemma {:induction false} IdsDrawn(acts: seq<Send.Action>, r: nat) returns (j: nat)
    requires r in Send.Run(Send.INITIAL, acts).reqs && Send.Run(Send.INITIAL, acts).reqs[r].msg.Some?
    ensures IdFrom(acts, r, Send.Run(Send.INITIAL, acts).reqs[r].msg.value, j)
  {
    hide Send.Exec;
    hide FormatInt;
    var b, a := acts[..|acts| - 1], acts[|acts| - 1];
    var s := Send.Run(Send.INITIAL, b);
    MsgOrigin(s, a, r);
    if r in s.reqs && s.reqs[r].msg == Send.Exec(s, a).reqs[r].msg {
      j := IdsDrawn(b, r);
    } else {
      j := |acts| - 1;
    }
  }

  lemma DecimalRow(m: Msg, id: int64)
    requires m.msgId == FormatInt(id) && id >= 0
    ensures RowOf(m).Some? && RowOf(m).value.id == id
  {
    ParseUintFormat(id);
  }

  lemma LogDecimal(acts: seq<Send.Action>)
    requires StorableIds(acts)
    ensures DecimalIds(Send.Run(Send.INITIAL, acts).logs.store)
  {
    hide RowOf;
    hide FormatInt;
    hide Send.Run;
    hide Send.ReqOk;
    hide Send.Shape;
    var s := Send.Run(Send.INITIAL, acts);
    Send.SeqRun(acts);
    forall m | m in s.logs.store
      ensures RowOf(m).Some?
    {
      var r :| r in s.reqs && s.reqs[r].msg == Some(m);
      var j := IdsDrawn(acts, r);
      DecimalRow(m, acts[j].id);
    }
  }

  /** With a sound generator the log is fit for storing: decimal ids, and no two different messages meet
      in a unique key, whatever retries and rollbacks did. */
  lemma LogCoherent(acts: seq<Send.Action>, shard: string -> Shard)
    requires UniqueIds(acts)
    ensures var log := Send.Run(Send.INITIAL, acts).logs.store;
            && DecimalIds(log)
            && forall m1, m2 :: m1 in log && m2 in log && Clash(shard, m1, m2) ==> m1 == m2
  {
    hide RowOf;
    hide FormatInt;
    hide Send.Run;
    hide Send.ReqOk;
    hide Send.Shape;
    var s := Send.Run(Send.INITIAL, acts);
    Send.SeqRun(acts);
    LogDecimal(acts);
    forall m1, m2 | m1 in s.logs.store && m2 in s.logs.store && Clash(shard, m1, m2)
      ensures m1 == m2
    {
      if m1.convId == m2.convId && m1.seqNo == m2.seqNo {
        SendAcks.SlotDeterminesMessage(acts, m1, m2);
      } else {
        var r1 :| r1 in s.reqs && s.reqs[r1].msg == Some(m1);
        var r2 :| r2 in s.reqs && s.reqs[r2].msg == Some(m2);
        var j1 := IdsDrawn(acts, r1);
        var j2 := IdsDrawn(acts, r2);
        DecimalRow(m1, acts[j1].id);
        DecimalRow(m2, acts[j2].id);
      }
    }
  }

  /** Every logged message can be turned into conversation rows, and the user whose unread a one-to-one
      message will raise is the user msg.push is written for. */
  lemma LogBuildable(acts: seq<Send.Action>, r: nat)
    requires var s := Send.Run(Send.INITIAL, acts); r in s.reqs && s.reqs[r].msg.Some?
    ensures var q := Send.Run(Send.INITIAL, acts).reqs[r];
            var m := q.msg.value;
            && (m.convType != CONV_TYPE_GROUP ==> PairUps(m).Some? && ReceiverOf(m).Some? && q.receivers == [ReceiverOf(m).value])
            && (m.convType == CONV_TYPE_GROUP ==>
                  ParseGroup(m.convId).Some? && q.receivers == Send.Others(q.roster, m.senderId))
  {
    hide Send.Run;
    hide Send.ReqOk;
    hide Send.Others;
    hide PairUps;
    hide ReceiverOf;
    var q := Send.Run(Send.INITIAL, acts).reqs[r];
    var m := q.msg.value;
    Send.SeqRun(acts);
    SendAcks.TargetsValid(acts);
    assert Send.Shape(q) && Send.Validate(q.input) == Some(q.target);
    if q.target.Pair? {
      CheckP2PExact(m.senderId, m.convId, q.target.peer);
      PairRows(m, q.target.peer);
    } else {
      CheckGroupExact(m.convId, q.target.gid);
      GroupRoundTrip(q.target.gid);
    }
  }

  lemma StorablePrefix(steps: seq<Step>)
    requires steps != [] && StorableIds(Requests(steps))
    ensures StorableIds(Requests(steps[..|steps| - 1]))
  {
    var a, b := Requests(steps), Requests(steps[..|steps| - 1]);
    assert forall i :: 0 <= i < |b| ==> b[i] == a[i];
  }

  // ---------------------------------------------------------------- the job side of a run

  lemma StoreLogGrows(s: Send.State, a: Send.Action)
    ensures s.logs.store <= Send.Exec(s, a).logs.store
  {
    hide Send.Validate;
    hide Send.Key;
    hide Send.Others;
    hide FormatInt;
  }

  lemma {:induction false} JobSide(env: Env, steps: seq<Step>)
    requires Fair(env.o) && StorableIds(Requests(steps))
    ensures JobInv(env, Log(Run(env, steps)), Run(env, steps).job)
  {
    hide Send.Exec;
    hide Move1;
    hide DecimalIds;
    hide StorableIds;
    if steps == [] {
      assert JobInv(env, [], IDLE);
    } else {
      hide JobInv;
      var b, last := steps[..|steps| - 1], steps[|steps| - 1];
      var s := Run(env, b);
      StorablePrefix(steps);
      JobSide(env, b);
      match last
      case Client(a) =>
        StoreLogGrows(s.send, a);
        LogGrows(env, Log(s), Log(Run(env, steps)), s.job);
      case Consumer(mv) =>
        SendSide(env, b);
        LogDecimal(Requests(b));
        MoveKeeps(env, Log(s), s.job, mv);
    }
  }

  // ---------------------------------------------------------------- main results

  /** The message is in its shard table, whole. */
  ghost predicate Stored(env: Env, db: Db, m: Msg)
    requires ValidDb(db)
  {
    && RowOf(m).Some?
    && (m.convId, m.seqNo) in db.tables[env.o.shard(m.convId)]
    && db.tables[env.o.shard(m.convId)][(m.convId, m.seqNo)] == RowOf(m).value
  }

  lemma TablesCoherent(env: Env, log: seq<Msg>, trace: seq<Stmt>, s: Shard)
    requires RowsFromLog(env, log, trace)
    requires forall m1, m2 :: m1 in log && m2 in log && Clash(env.o.shard, m1, m2) ==> m1 == m2
    ensures Coherent(RowsAt(trace, s))
  {
    hide RowsAt;
    hide ParseUint;
    var rows := RowsAt(trace, s);
    forall r1, r2 | r1 in rows && r2 in rows && (r1.id == r2.id || Slot(r1) == Slot(r2))
      ensures r1 == r2
    {
      assert FromLog(env, log, s, r1) && FromLog(env, log, s, r2);
      var m1 :| m1 in log && env.o.shard(m1.convId) == s && RowOf(m1) == Some(r1);
      var m2 :| m2 in log && env.o.shard(m2.convId) == s && RowOf(m2) == Some(r2);
      assert Clash(env.o.shard, m1, m2);
    }
  }

  lemma OfferedIsStored(env: Env, trace: seq<Stmt>, m: Msg)
    requires Offered(env, trace, m) && Coherent(RowsAt(trace, env.o.shard(m.convId)))
    ensures Stored(env, ApplyAll(EMPTY, trace), m)
  {
    hide RowsAt;
    hide RowOf;
    hide Coherent;
    hide ApplyAll;
    var s := env.o.shard(m.convId);
    RowSlot(m);
    TableProjection(EMPTY, trace, s);
    InsertHolds(RowsAt(trace, s));
  }

  /** Record i of the log is below the committed offset of its partition. */
  ghost predicate Committed(env: Env, s: System, i: nat) {
    i < |Log(s)| && i < Pos(s.job.committed, PartAt(env, Log(s), i))
  }

  /** In every run a committed record had its row offered to its table, or is in the dead-letter topic, or
      its dead-letter send failed: fetches, hand-offs, batches, retries, partial failures, cancellations and
      crashes in any order. Its row is in the table exactly if at one of its offers neither of its unique
      keys was taken by an earlier row. */
  lemma CommittedExactly(env: Env, steps: seq<Step>, i: nat)
    requires Fair(env.o) && StorableIds(Requests(steps)) && Committed(env, Run(env, steps), i)
    ensures var s := Run(env, steps);
            var m, t := Log(s)[i], env.o.shard(Log(s)[i].convId);
            var rows := RowsAt(s.job.done.trace, t);
            && (Offered(env, s.job.done.trace, m) || Record(i, Some(m)) in s.job.done.dlq || i in s.job.done.unsent)
            && RowOf(m).Some?
            && (Stored(env, ApplyAll(EMPTY, s.job.done.trace), m) <==>
                  exists j :: FreeAt(rows, j, RowOf(m).value))
  {
    hide Run;
    hide StorableIds;
    hide Offered;
    hide ApplyAll;
    hide RowOf;
    hide RowsAt;
    var s := Run(env, steps);
    JobSide(env, steps);
    Covered(env, Log(s), s.job, i);
    SendSide(env, steps);
    LogDecimal(Requests(steps));
    var m := Log(s)[i];
    assert m in Log(s);
    var t := env.o.shard(m.convId);
    var rows, r := RowsAt(s.job.done.trace, t), RowOf(m).value;
    TableProjection(EMPTY, s.job.done.trace, t);
    KeptExactly(rows, r);
    RowSlot(m);
  }

  /** With unique ids nothing is dropped: a committed record is in its table, or in the dead-letter topic,
      or its dead-letter send failed. */
  lemma CommittedIsKept(env: Env, steps: seq<Step>, i: nat)
    requires Fair(env.o) && UniqueIds(Requests(steps)) && Committed(env, Run(env, steps), i)
    ensures var s := Run(env, steps);
            || Stored(env, ApplyAll(EMPTY, s.job.done.trace), Log(s)[i])
            || Record(i, Some(Log(s)[i])) in s.job.done.dlq
            || i in s.job.done.unsent
  {
    hide Run;
    hide Offered;
    hide Stored;
    hide DecimalIds;
    hide ApplyAll;
    var s := Run(env, steps);
    JobSide(env, steps);
    Covered(env, Log(s), s.job, i);
    SendSide(env, steps);
    LogCoherent(Requests(steps), env.o.shard);
    var m := Log(s)[i];
    if Offered(env, s.job.done.trace, m) {
      TablesCoherent(env, Log(s), s.job.done.trace, env.o.shard(m.convId));
      OfferedIsStored(env, s.job.done.trace, m);
    }
  }

  ghost predicate DlqWorks(sink: Sink) { forall t: nat :: sink.dlqSend(t).Applied() }

  lemma MoveSends(env: Env, log: seq<Msg>, j: Job, mv: Move)
    requires DlqWorks(env.sink)
    ensures Move1(env, log, j, mv).done.unsent == j.done.unsent
  {
    hide Flush;
    hide Stash;
    hide IsNext;
    hide DeadLetters;
    hide ItemsAt;
  }

  lemma {:induction false} NoneUnsent(env: Env, steps: seq<Step>)
    requires DlqWorks(env.sink)
    ensures Run(env, steps).job.done.unsent == {}
  {
    hide Send.Exec;
    hide Move1;
    hide DlqWorks;
    if steps != [] {
      var b, last := steps[..|steps| - 1], steps[|steps| - 1];
      NoneUnsent(env, b);
      if last.Consumer? {
        MoveSends(env, Log(Run(env, b)), Run(env, b).job, last.mv);
      }
    }
  }

  /** No acknowledged loss. A code-0 ack names a record that is in the log exactly once, drawn by a request
      with the same sender and client id for its own conversation, type and payload (the acked request
      itself unless it was a replay); with unique ids and dead-letter sends that work, once the record is
      covered by a commit it is whole in its shard table or in the dead-letter topic. */
  lemma NoAckedLoss(env: Env, steps: seq<Step>, r: nat) returns (i: nat, r0: nat)
    requires Fair(env.o) && DlqWorks(env.sink) && UniqueIds(Requests(steps))
    requires r in Run(env, steps).send.reqs && Send.Acked(Run(env, steps).send.reqs[r])
    ensures var s := Run(env, steps);
            && i < |Log(s)| && r0 in s.send.reqs && (s.send.reqs[r].msg.Some? ==> r0 == r)
            && var m, q, ack := Log(s)[i], s.send.reqs[r0], s.send.reqs[r].pc.ack;
            && m.msgId == ack.msgId && m.seqNo == ack.seqNo && Send.MsgOf(q, m)
            && q.input.sender == s.send.reqs[r].input.sender && q.input.clientMsgId == s.send.reqs[r].input.clientMsgId
            && Send.StoredAs(Log(s), m.convId, m.seqNo) == [m]
            && (Committed(env, s, i) ==>
                  Stored(env, ApplyAll(EMPTY, s.job.done.trace), m) || Record(i, Some(m)) in s.job.done.dlq)
  {
    hide Run;
    hide UniqueIds;
    hide Stored;
    hide DlqWorks;
    hide Send.StoredAs;
    hide Send.PushedTo;
    hide Send.FanOut;
    hide Send.MsgOf;
    var s := Run(env, steps);
    SendSide(env, steps);
    r0 := SendAcks.AckedIsPublished(Requests(steps), r);
    var m := s.send.reqs[r0].msg.value;
    i :| 0 <= i < |Log(s)| && Log(s)[i] == m;
    if Committed(env, s, i) {
      CommittedIsKept(env, steps, i);
      NoneUnsent(env, steps);
    }
  }

  // ---------------------------------------------------------------- cursors in every reachable state

  lemma MoveSupported(env: Env, log: seq<Msg>, j: Job, mv: Move)
    requires Fair(env.o) && DecimalIds(log) && JobInv(env, log, j) && Supported(env.o.shard, j.done.trace)
    ensures Supported(env.o.shard, Move1(env, log, j, mv).done.trace)
  {
    hide Flush;
    hide RowOf;
    hide MsgsOf;
    hide ItemsAt;
    hide DeadLetters;
    hide IsNext;
    hide Stash;
    var msgs := MsgsOf(ItemsAt(log, j.pending));
    var e := Flush(env.o, j.done.tick, msgs);
    assert Supported(env.o.shard, e.trace) by {
      assert forall k :: k in j.pending ==> k in Line(j) && Between(env, log, j, k);
      ItemsAtFacts(log, j.pending);
      assert forall m :: Among(log, j.pending, m) ==> m in log;
      FlushSupported(env.o, j.done.tick, msgs);
    }
    hide JobInv;
    hide Supported;
    match mv
    case FlushPending =>
      SupportedAppend(env.o.shard, j.done.trace, e.trace);
    case Crash(stmts, _) =>
      SupportedPrefix(env.o.shard, e.trace, Least(stmts, |e.trace|));
      SupportedAppend(env.o.shard, j.done.trace, e.trace[..Least(stmts, |e.trace|)]);
    case Outside(st) =>
      if FromOthers(st) {
        SupportedMore(env.o.shard, j.done.trace, [st]);
      }
    case _ =>
  }

  lemma FlushSupported(o: Oracle, t: nat, msgs: seq<Msg>)
    requires Fair(o) && DecimalIds(msgs)
    ensures Supported(o.shard, Flush(o, t, msgs).trace)
  {
    hide Retry;
    hide RowOf;
    RetrySupported(o, t, msgs, STORE_MAX_RETRY);
  }

  lemma {:induction false} RunSupported(env: Env, steps: seq<Step>)
    requires Fair(env.o) && StorableIds(Requests(steps))
    ensures Supported(env.o.shard, Run(env, steps).job.done.trace)
  {
    hide Send.Exec;
    hide Move1;
    hide DecimalIds;
    hide StorableIds;
    if steps != [] {
      hide JobInv;
      hide Supported;
      var b, last := steps[..|steps| - 1], steps[|steps| - 1];
      StorablePrefix(steps);
      RunSupported(env, b);
      if last.Consumer? {
        JobSide(env, b);
        SendSide(env, b);
        LogDecimal(Requests(b));
        MoveSupported(env, Log(Run(env, b)), Run(env, b).job, last.mv);
      }
    }
  }

  /** In every reachable state of the whole system, crashes in the middle of a flush included, last_seq of
      every conversation row is 0 or the seq of a message that is in the conversation's table. */
  lemma SystemCursorsValid(env: Env, steps: seq<Step>)
    requires Fair(env.o) && UniqueIds(Requests(steps))
    ensures CursorValid(env.o.shard, ApplyAll(EMPTY, Run(env, steps).job.done.trace))
  {
    hide Run;
    hide DecimalIds;
    hide Supported;
    hide Coherent;
    hide CursorValid;
    var s := Run(env, steps);
    RunSupported(env, steps);
    JobSide(env, steps);
    SendSide(env, steps);
    LogCoherent(Requests(steps), env.o.shard);
    forall t: Shard | true
      ensures Coherent(RowsAt(s.job.done.trace, t))
    {
      TablesCoherent(env, Log(s), s.job.done.trace, t);
    }
    SupportedIsValid(env.o.shard, s.job.done.trace);
  }

  // ---------------------------------------------------------------- the limit: dead letters that fail

  /** From here on every statement and every dead-letter send fails, and the next commit works. */
  ghost predicate Broken(env: Env, d: Done) {
    && (forall n: nat :: n >= d.tick ==> env.o.sql(n).FailedBefore?)
    && (forall n: nat :: n >= d.dlqTick ==> env.sink.dlqSend(n).FailedBefore?)
    && env.sink.commit(d.commitTick).Success?
  }

  ghost predicate NoStatement(o: Oracle, t: nat) { forall n: nat :: n >= t ==> o.sql(n).FailedBefore? }

  lemma BrokenAttempt(o: Oracle, t: nat, msgs: seq<Msg>)
    requires Fair(o) && NoStatement(o, t) && DecimalIds(msgs) && msgs != []
    ensures var e := WriteBatch(o, t, msgs); !e.ok && e.trace == [] && e.tick >= t
  {
    hide RowOf;
    hide RowsFor;
    hide Group;
    hide UpsertConversations;
    var order := o.order(t, Touched(o.shard, msgs));
    assert o.shard(msgs[0].convId) in Touched(o.shard, msgs);
    assert o.shard(msgs[0].convId) in order;
    GroupMembers(o.shard, msgs, order[0]);
    RowsForDecimal(Group(o.shard, msgs, order[0]));
  }

  lemma {:induction false} BrokenRetry(o: Oracle, t: nat, msgs: seq<Msg>, left: nat)
    requires Fair(o) && NoStatement(o, t) && DecimalIds(msgs) && msgs != [] && left > 0
    ensures var e := Retry(o, t, msgs, left); !e.ok && e.trace == []
    decreases left
  {
    hide DecimalIds;
    hide WriteBatch;
    BrokenAttempt(o, t, msgs);
    var e := WriteBatch(o, t, msgs);
    if left > 1 && !o.cancelled(e.tick) {
      BrokenRetry(o, e.tick, msgs, left - 1);
    }
  }

  lemma BrokenFlush(o: Oracle, t: nat, msgs: seq<Msg>)
    requires Fair(o) && NoStatement(o, t) && DecimalIds(msgs) && msgs != []
    ensures !Flush(o, t, msgs).ok && Flush(o, t, msgs).trace == []
  {
    hide Retry;
    hide DecimalIds;
    BrokenRetry(o, t, msgs, STORE_MAX_RETRY);
  }

  /** What the dead-letter topic is needed for: in any state of the job with something pending, if the
      statements of the flush fail and the dead-letter sends fail too, every pending record is committed
      although nothing was written of it. */
  lemma DlqFailureLoses(env: Env, log: seq<Msg>, j: Job, i: nat)
    requires Fair(env.o) && DecimalIds(log) && JobInv(env, log, j) && i in j.pending && Broken(env, j.done)
    ensures var j' := Move1(env, log, j, FlushPending);
            && i < |log| && i < Pos(j'.committed, PartAt(env, log, i))
            && j'.done.trace == j.done.trace && j'.done.dlq == j.done.dlq && i in j'.done.unsent
  {
    hide Accounted;
    hide Ascending;
    hide RowsFromLog;
    hide Between;
    assert forall k :: k in j.pending ==> k in Line(j) && Between(env, log, j, k);
    InsidePending(env, log, j);
    hide *;
    BrokenDone(env, log, j.done, j.pending, i);
    StashFacts(env, log, j.pending, PartAt(env, log, i));
    FlushCommits(env, log, j, i);
  }

  lemma InsidePending(env: Env, log: seq<Msg>, j: Job)
    requires forall k :: k in j.pending ==> Between(env, log, j, k)
    ensures Inside(log, j.pending)
  {
    hide PartAt;
  }

  lemma FlushCommits(env: Env, log: seq<Msg>, j: Job, i: nat)
    requires i in j.pending && env.sink.commit(j.done.commitTick).Success?
    requires PartAt(env, log, i) in Stash(env, log, j.pending) && i < Stash(env, log, j.pending)[PartAt(env, log, i)]
    ensures var j' := Move1(env, log, j, FlushPending);
            i < Pos(j'.committed, PartAt(env, log, i)) && j'.done == FlushDone(env, log, j.done, j.pending)
  {
    hide PartAt;
    hide Stash;
    hide FlushDone;
  }

  lemma BrokenDone(env: Env, log: seq<Msg>, d: Done, idx: seq<nat>, i: nat)
    requires Fair(env.o) && DecimalIds(log) && Inside(log, idx) && i in idx && Broken(env, d)
    ensures var d' := FlushDone(env, log, d, idx);
            d'.trace == d.trace && d'.dlq == d.dlq && i in d'.unsent && i < |log|
    ensures env.sink.commit(d.commitTick).Success?
  {
    hide Flush;
    hide ItemsAt;
    hide MsgsOf;
    hide DeadLetters;
    hide DecimalIds;
    var items := ItemsAt(log, idx);
    var msgs := MsgsOf(items);
    ItemsAtFacts(log, idx);
    assert Among(log, idx, log[i]);
    DecimalAmong(log, idx, msgs);
    BrokenFlush(env.o, d.tick, msgs);
    NoneSent(env.sink, d.dlqTick, items);
    var k :| 0 <= k < |idx| && idx[k] == i;
    assert idx[k] in Unsent(env.sink, d.dlqTick, idx);
  }

  lemma DecimalAmong(log: seq<Msg>, idx: seq<nat>, msgs: seq<Msg>)
    requires DecimalIds(log) && forall m :: m in msgs ==> Among(log, idx, m)
    ensures DecimalIds(msgs)
  {
    hide RowOf;
    forall m | m in msgs
      ensures RowOf(m).Some?
    {
      assert Among(log, idx, m) && m in log;
    }
  }

  lemma {:induction false} NoneSent(sink: Sink, t: nat, items: seq<Item>)
    requires forall n: nat :: n >= t ==> sink.dlqSend(n).FailedBefore?
    ensures DeadLetters(sink, t, items) == []
  {
    if items != [] {
      NoneSent(sink, t, items[..|items| - 1]);
    }
  }
}
