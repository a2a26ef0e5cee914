/** The store consumer in the form of internal/job/store.go: builders that grow their argument lists in
    loops, and a worker that changes the database, the dead-letter topic and the committed offsets step
    by step. Each member is tied to the function of module Store that describes it. */
module StoreWorkers {
  import opened Common
  import opened Decimal
  import opened Conv
  import opened Messages
  import opened Sql
  import opened Store
  import opened Confluence

  // ---------------------------------------------------------------- builders

  lemma GroupSnoc(shard: string -> Shard, msgs: seq<Msg>, m: Msg)
    ensures forall s :: Group(shard, msgs + [m], s) == Group(shard, msgs, s) + if shard(m.convId) == s then [m] else []
    ensures Touched(shard, msgs + [m]) == Touched(shard, msgs) + {shard(m.convId)}
  {
    assert (msgs + [m])[..|msgs|] == msgs;
    assert forall x :: x in msgs + [m] <==> x in msgs || x == m;
  }

  lemma MsgsOfSnoc(items: seq<Item>, i: nat)
    requires i < |items|
    ensures MsgsOf(items[..i + 1]) == MsgsOf(items[..i]) + if items[i].msg.Some? then [items[i].msg.value] else []
  {
    assert items[..i + 1][..i] == items[..i];
  }

  /** The groups of the messages seen so far. */
  ghost predicate Grouped(shard: string -> Shard, msgs: seq<Msg>, groups: map<Shard, seq<Msg>>) {
    && groups.Keys == Touched(shard, msgs)
    && forall s :: Group(shard, msgs, s) == if s in groups then groups[s] else []
  }

  lemma GroupedNone(shard: string -> Shard)
    ensures Grouped(shard, [], map[])
  {
  }

  lemma GroupedSnoc(shard: string -> Shard, msgs: seq<Msg>, groups: map<Shard, seq<Msg>>, m: Msg)
    requires Grouped(shard, msgs, groups)
    ensures var table := shard(m.convId);
            Grouped(shard, msgs + [m], groups[table := (if table in groups then groups[table] else []) + [m]])
  {
    hide Group;
    hide Touched;
    GroupSnoc(shard, msgs, m);
  }

  method GroupByShard(shard: string -> Shard, items: seq<Item>) returns (groups: map<Shard, seq<Msg>>)
    ensures groups.Keys == Touched(shard, MsgsOf(items))
    ensures forall s :: s in groups ==> groups[s] == Group(shard, MsgsOf(items), s)
  {
    groups := map[];
    GroupedNone(shard);
    assert items[..0] == [] && MsgsOf([]) == [];
    for i := 0 to |items|
      invariant Grouped(shard, MsgsOf(items[..i]), groups)
    {
      hide *;
      MsgsOfSnoc(items, i);
      if items[i].msg.None? {
        assert MsgsOf(items[..i]) + [] == MsgsOf(items[..i]);
        continue;
      }
      var m := items[i].msg.value;
      GroupedSnoc(shard, MsgsOf(items[..i]), groups, m);
      var table := shard(m.convId);
      groups := groups[table := (if table in groups then groups[table] else []) + [m]];
    }
    assert items[..|items|] == items;
  }

  method BuildMessageInsert(table: Shard, msgs: seq<Msg>) returns (st: Option<Stmt>)
    ensures RowsFor(msgs).Some? ==> st == Some(InsertIgnore(table, RowsFor(msgs).value))
    ensures RowsFor(msgs).None? ==> st.None?
  {
    hide RowOf;
    var args: seq<MsgRow> := [];
    for i := 0 to |msgs|
      invariant RowsFor(msgs[..i]) == Some(args)
    {
      assert msgs[..i + 1][..i] == msgs[..i];
      var row := RowOf(msgs[i]);
      if row.None? {
        RowsForDecimal(msgs);
        assert msgs[i] in msgs;
        return None;
      }
      args := args + [row.value];
    }
    assert msgs[..|msgs|] == msgs;
    st := Some(InsertIgnore(table, args));
  }

  method BuildConversationUpsert(msgs: seq<Msg>) returns (ups: Option<seq<Upsert>>)
    ensures ups == P2PUps(msgs)
  {
    hide ParseP2P;
    var args: seq<Upsert> := [];
    for i := 0 to |msgs|
      invariant P2PUps(msgs[..i]) == Some(args)
    {
      assert msgs[..i + 1][..i] == msgs[..i];
      var m := msgs[i];
      var pair, recv := ParseP2P(m.convId), ReceiverOf(m);
      if pair.None? || recv.None? {
        P2PUpsMembers(msgs);
        assert msgs[i] in msgs && PairUps(m).None?;
        return None;
      }
      var (a, b) := pair.value;
      ghost var start := args;
      for j := 0 to 2
        invariant args == start + PairUps(m).value[..j]
      {
        var uid := if j == 0 then a else b;
        var delta := if uid == recv.value then 1 else 0;
        var target := if uid == b then a else b;
        args := args + [Upsert(uid, m.convId, m.convType, target, m.seqNo, delta, m.timestamp)];
      }
      assert PairUps(m).value[..2] == PairUps(m).value;
    }
    assert msgs[..|msgs|] == msgs;
    ups := Some(args);
  }

  /** What is left to cut from position start on. */
  ghost function Uncut(all: seq<Upsert>, start: nat, batch: nat): seq<seq<Upsert>>
    requires batch > 0
  {
    if start < |all| then Chunks(all[start..], batch) else []
  }

  lemma CutAt(all: seq<Upsert>, start: nat, batch: nat)
    requires batch > 0 && start < |all|
    ensures var end := if start + batch > |all| then |all| else start + batch;
            Uncut(all, start, batch) == [all[start..end]] + Uncut(all, start + batch, batch)
  {
    var rest := all[start..];
    if |rest| > batch {
      assert rest[..batch] == all[start..start + batch] && rest[batch..] == all[start + batch..];
    } else {
      assert rest == all[start..|all|] && [rest] + [] == [rest];
    }
  }

  lemma GroupUpsAt(m: Msg, members: seq<int64>, i: nat)
    requires i < |members|
    ensures var delta := if members[i] == m.senderId then 0 else 1;
            |GroupUps(m, members)| == |members| &&
            GroupUps(m, members)[i] == Upsert(members[i], m.convId, m.convType, GidOfConv(m.convId), m.seqNo, delta, m.timestamp)
  {
    hide ParseGroup;
  }

  /** Statements of 1 to batch rows that hold, in the order of the members, one row each: the group is its
      target, and everyone but the sender counts one unread message. */
  ghost predicate OneRowEach(m: Msg, members: seq<int64>, batch: nat, stmts: seq<seq<Upsert>>) {
    && (forall c :: c in stmts ==> 1 <= |c| <= batch) && |Flatten(stmts)| == |members|
    && forall gid: int64, i :: gid > 0 && m.convId == GroupId(gid) && 0 <= i < |members| ==>
         Flatten(stmts)[i] ==
         Upsert(members[i], m.convId, m.convType, gid, m.seqNo, if members[i] == m.senderId then 0 else 1, m.timestamp)
  }

  lemma RowsAreEach(m: Msg, members: seq<int64>, batch: nat)
    requires batch > 0
    ensures OneRowEach(m, members, batch, Chunks(GroupUps(m, members), batch))
  {
    hide GroupId;
    hide GroupUps;
    hide Chunks;
    ChunksFlatten(GroupUps(m, members), batch);
    ChunkSizes(GroupUps(m, members), batch);
    assert |GroupUps(m, members)| == |members|;
    forall gid: int64, i | gid > 0 && m.convId == GroupId(gid) && 0 <= i < |members|
      ensures GroupUps(m, members)[i] ==
              Upsert(members[i], m.convId, m.convType, gid, m.seqNo, if members[i] == m.senderId then 0 else 1, m.timestamp)
    {
      GroupRowOf(m, gid, members, i);
    }
  }

  method BuildGroupConversationUpserts(m: Msg, members: seq<int64>, batch: nat) returns (out: seq<seq<Upsert>>)
    requires batch > 0
    ensures out == Chunks(GroupUps(m, members), batch)
    ensures OneRowEach(m, members, batch, out)
  {
    hide *;
    RowsAreEach(m, members, batch);
    ghost var all := GroupUps(m, members);
    AllUncut(all, batch);
    out := [];
    var start := 0;
    while start < |members|
      invariant Chunks(all, batch) == out + Uncut(all, start, batch)
    {
      CutAt(all, start, batch);
      var end := if start + batch > |members| then |members| else start + batch;
      var args: seq<Upsert> := [];
      for i := start to end
        invariant args == all[start..i]
      {
        GroupUpsAt(m, members, i);
        var delta := if members[i] == m.senderId then 0 else 1;
        args := args + [Upsert(members[i], m.convId, m.convType, GidOfConv(m.convId), m.seqNo, delta, m.timestamp)];
      }
      out := out + [args];
      start := start + batch;
    }
    UncutDone(all, start, batch);
  }

  lemma AllUncut(all: seq<Upsert>, batch: nat)
    requires batch > 0
    ensures Uncut(all, 0, batch) == Chunks(all, batch)
  {
    assert all[0..] == all;
  }

  lemma UncutDone(all: seq<Upsert>, start: nat, batch: nat)
    requires batch > 0 && start >= |all|
    ensures Uncut(all, start, batch) == []
  {
  }

  // ---------------------------------------------------------------- dead letters and commits

  /** How DLQ sends and offset commits end, counted by their own ticks. */
  datatype Sink = Sink(dlqSend: nat -> Outcome, commit: nat -> Outcome)

  function Records(items: seq<Item>): seq<Record> { seq(|items|, i requires 0 <= i < |items| => items[i].km) }

  /** These are the records of the items, one by one. */
  ghost predicate EachRecord(items: seq<Item>, records: seq<Record>) {
    |records| == |items| && forall k :: 0 <= k < |items| ==> records[k] == items[k].km
  }

  /** The records of a batch whose DLQ send took effect. */
  function DeadLetters(sink: Sink, t: nat, items: seq<Item>): seq<Record> {
    if items == [] then []
    else
      DeadLetters(sink, t, items[..|items| - 1])
      + if sink.dlqSend(t + |items| - 1).Applied() then [items[|items| - 1].km] else []
  }

  /** sent holds the records at these positions of the batch, which are those whose send took effect. */
  ghost predicate SentAt(sink: Sink, t: nat, items: seq<Item>, at: seq<nat>, sent: seq<Record>) {
    Selects(Records(items), (k: nat) => sink.dlqSend(t + k).Applied(), at, sent)
  }

  /** Dead letters keep the batch's order, and each record is sent once. */
  lemma {:induction false} DeadLettersInOrder(sink: Sink, t: nat, items: seq<Item>) returns (at: seq<nat>)
    ensures SentAt(sink, t, items, at, DeadLetters(sink, t, items))
  {
    if items == [] {
      at := [];
    } else {
      var b, last := items[..|items| - 1], items[|items| - 1].km;
      var at0 := DeadLettersInOrder(sink, t, b);
      at := SelectsSnoc(Records(b), last, (k: nat) => sink.dlqSend(t + k).Applied(), at0, DeadLetters(sink, t, b));
      assert Records(items) == Records(b) + [last];
      assert t + |items| - 1 == t + |b|;
    }
  }

  /** e is what was done followed by what is left. */
  ghost predicate Left(e: Effect, done: seq<Stmt>, rest: Effect) {
    e.trace == done + rest.trace && e.tick == rest.tick && e.ok == rest.ok
  }

  lemma LeftStep(e: Effect, done: seq<Stmt>, step: Effect, rest: Effect)
    requires Left(e, done, Then(step, rest))
    ensures Left(e, done + step.trace, rest)
  {
    assert done + (step.trace + rest.trace) == done + step.trace + rest.trace;
  }

  lemma LeftEnd(e: Effect, done: seq<Stmt>, rest: Effect)
    requires Left(e, done, rest)
    ensures e.trace == done + rest.trace && e.tick == rest.tick && e.ok == rest.ok
  {
  }

  lemma LeftSkip(e: Effect, done: seq<Stmt>, rest: Effect, clean: bool)
    requires Left(e, done, rest.(clean := clean))
    ensures Left(e, done, rest)
  {
  }

  lemma StartOf(db: Db, e: Effect)
    requires ValidDb(db)
    ensures Left(e, [], e) && ApplyAll(db, []) == db
  {
  }

  lemma InsertGroupsAt(o: Oracle, t: nat, msgs: seq<Msg>, order: seq<Shard>, i: nat)
    requires i < |order|
    ensures var g, rest := RowsFor(Group(o.shard, msgs, order[i])), order[i + 1..];
            InsertGroups(o, t, msgs, order[i..]) ==
            if g.None? then InsertGroups(o, t, msgs, rest).(clean := false)
            else
              var e := ExecOne(o, t, InsertIgnore(order[i], g.value));
              if e.ok then Then(e, InsertGroups(o, e.tick, msgs, rest)) else e
  {
    assert order[i..][0] == order[i] && order[i..][1..] == order[i + 1..];
  }

  lemma ExecChunksAt(o: Oracle, t: nat, chunks: seq<seq<Upsert>>, i: nat)
    requires i < |chunks|
    ensures var e := ExecOne(o, t, UpsertConvs(chunks[i]));
            ExecChunks(o, t, chunks[i..]) == if e.ok then Then(e, ExecChunks(o, e.tick, chunks[i + 1..])) else e
  {
    assert chunks[i..][0] == chunks[i] && chunks[i..][1..] == chunks[i + 1..];
  }

  lemma GroupAllAt(o: Oracle, t: nat, msgs: seq<Msg>, n: nat)
    requires n < |msgs|
    ensures var m, e := msgs[n], GroupOne(o, t, msgs[n]);
            GroupAll(o, t, msgs[n..]) ==
            if m.convType != CONV_TYPE_GROUP then GroupAll(o, t, msgs[n + 1..])
            else Then(e.(ok := true, clean := e.ok), GroupAll(o, e.tick, msgs[n + 1..]))
  {
    assert msgs[n..][0] == msgs[n] && msgs[n..][1..] == msgs[n + 1..];
  }

  lemma RetryAt(o: Oracle, t: nat, msgs: seq<Msg>, left: nat)
    ensures var e := Store.WriteBatch(o, t, msgs);
            if e.ok || left == 0 || o.cancelled(e.tick) then Retry(o, t, msgs, left + 1) == e
            else
              var rest := Retry(o, e.tick, msgs, left);
              Retry(o, t, msgs, left + 1) == Then(e, rest).(clean := rest.clean)
  {
    hide Store.WriteBatch;
  }

  lemma ExecOneTick(o: Oracle, t: nat, st: Stmt)
    ensures ExecOne(o, t, st).tick == t + 1
  {
  }

  lemma InsertGroupsDone(o: Oracle, t: nat, msgs: seq<Msg>, order: seq<Shard>)
    ensures InsertGroups(o, t, msgs, order[|order|..]) == Effect([], t, true, true)
  {
  }

  lemma ExecChunksDone(o: Oracle, t: nat, chunks: seq<seq<Upsert>>)
    ensures ExecChunks(o, t, chunks[|chunks|..]) == Effect([], t, true, true)
  {
  }

  lemma GroupAllDone(o: Oracle, t: nat, msgs: seq<Msg>)
    ensures GroupAll(o, t, msgs[|msgs|..]) == Effect([], t, true, true)
  {
  }

  lemma MsgsOfEmpty()
    ensures MsgsOf([]) == [] && P2POnly([]) == []
  {
  }

  lemma P2POnlySnoc(msgs: seq<Msg>, m: Msg)
    ensures P2POnly(msgs + [m]) == P2POnly(msgs) + if m.convType == CONV_TYPE_GROUP then [] else [m]
  {
    assert (msgs + [m])[..|msgs|] == msgs;
  }

  class StoreWorker {
    const o: Oracle
    const sink: Sink
    var db: Db
    var tick: nat
    var dlq: seq<Record>
    var dlqTick: nat
    var committed: seq<seq<Record>>
    var commitTick: nat

    constructor (o: Oracle, sink: Sink)
      ensures ValidDb(db) && db == EMPTY && this.o == o && this.sink == sink && tick == 0
      ensures dlq == [] && committed == []
    {
      this.o, this.sink := o, sink;
      db, tick := EMPTY, 0;
      dlq, dlqTick, committed, commitTick := [], 0, [], 0;
    }

    /** ExecContext. */
    method Exec(st: Stmt) returns (ok: bool)
      requires ValidDb(db)
      modifies `db, `tick
      ensures ValidDb(db) && tick == old(tick) + 1 && ok == ExecOne(o, old(tick), st).ok
      ensures db == ApplyAll(old(db), ExecOne(o, old(tick), st).trace)
    {
      var outcome := o.sql(tick);
      ApplySnoc(db, [], st);
      assert [] + [st] == [st];
      if outcome.Applied() {
        db := Apply(db, st);
      }
      tick := tick + 1;
      ok := outcome.Success?;
    }

    /** The loop of insertMessages over the groups. */
    method InsertLoop(order: seq<Shard>, groups: map<Shard, seq<Msg>>, ghost msgs: seq<Msg>) returns (ok: bool)
      requires ValidDb(db)
      requires forall s :: s in order ==> s in groups && groups[s] == Group(o.shard, msgs, s)
      modifies `db, `tick
      ensures var e := InsertGroups(o, old(tick), msgs, order);
              ValidDb(db) && db == ApplyAll(old(db), e.trace) && tick == e.tick && ok == e.ok
    {
      hide *;
      ghost var e, done := InsertGroups(o, tick, msgs, order), [];
      StartOf(db, e);
      assert order[0..] == order;
      ok := true;
      for i := 0 to |order|
        invariant ValidDb(db) && ValidDb(old(db)) && ok && db == ApplyAll(old(db), done)
        invariant Left(e, done, InsertGroups(o, tick, msgs, order[i..]))
      {
        InsertGroupsAt(o, tick, msgs, order, i);
        assert order[i] in order;
        var st := BuildMessageInsert(order[i], groups[order[i]]);
        if st.None? {
          LeftSkip(e, done, InsertGroups(o, tick, msgs, order[i + 1..]), false);
          continue;
        }
        ghost var step := ExecOne(o, tick, st.value);
        ExecOneTick(o, tick, st.value);
        ApplyAppend(old(db), done, step.trace);
        ok := Exec(st.value);
        if !ok {
          LeftEnd(e, done, step);
          return;
        }
        LeftStep(e, done, step, InsertGroups(o, tick, msgs, order[i + 1..]));
        done := done + step.trace;
      }
      InsertGroupsDone(o, tick, msgs, order);
      LeftEnd(e, done, Effect([], tick, true, true));
      assert done + [] == done;
    }

    method InsertMessages(items: seq<Item>) returns (ok: bool)
      requires ValidDb(db) && Fair(o)
      modifies `db, `tick
      ensures var e := Store.InsertMessages(o, old(tick), MsgsOf(items));
              ValidDb(db) && db == ApplyAll(old(db), e.trace) && tick == e.tick && ok == e.ok
    {
      hide Group;
      hide InsertGroups;
      hide ApplyAll;
      var groups := GroupByShard(o.shard, items);
      var order := o.order(tick, groups.Keys);
      ok := InsertLoop(order, groups, MsgsOf(items));
    }

    /** The statements of one group message, until one fails. */
    method ExecAll(stmts: seq<seq<Upsert>>) returns (ok: bool)
      requires ValidDb(db)
      modifies `db, `tick
      ensures var e := ExecChunks(o, old(tick), stmts);
              ValidDb(db) && db == ApplyAll(old(db), e.trace) && tick == e.tick && ok == e.ok
    {
      hide *;
      ghost var e, done := ExecChunks(o, tick, stmts), [];
      StartOf(db, e);
      assert stmts[0..] == stmts;
      for i := 0 to |stmts|
        invariant ValidDb(db) && ValidDb(old(db)) && db == ApplyAll(old(db), done)
        invariant Left(e, done, ExecChunks(o, tick, stmts[i..]))
      {
        ExecChunksAt(o, tick, stmts, i);
        ghost var step := ExecOne(o, tick, UpsertConvs(stmts[i]));
        ExecOneTick(o, tick, UpsertConvs(stmts[i]));
        ApplyAppend(old(db), done, step.trace);
        ok := Exec(UpsertConvs(stmts[i]));
        if !ok {
          LeftEnd(e, done, step);
          return;
        }
        LeftStep(e, done, step, ExecChunks(o, tick, stmts[i + 1..]));
        done := done + step.trace;
      }
      ExecChunksDone(o, tick, stmts);
      LeftEnd(e, done, Effect([], tick, true, true));
      assert done + [] == done;
      ok := true;
    }

    method UpsertGroupConversations(m: Msg) returns (ok: bool)
      requires ValidDb(db)
      modifies `db, `tick
      ensures var e := GroupOne(o, old(tick), m);
              ValidDb(db) && db == ApplyAll(old(db), e.trace) && tick == e.tick && ok == e.ok
    {
      hide ParseGroup;
      hide Chunks;
      hide GroupUps;
      hide ExecChunks;
      var gid := ParseGroup(m.convId);
      if gid.None? {
        return false;
      }
      var members := o.members(tick, gid.value);
      tick := tick + 1;
      if members.None? {
        return false;
      }
      var stmts := BuildGroupConversationUpserts(m, members.value, GROUP_CONV_BATCH);
      ok := ExecAll(stmts);
    }

    /** The loop of upsertConversations: group messages are written at once, the others collected. */
    method GroupLoop(items: seq<Item>) returns (p2p: seq<Msg>)
      requires ValidDb(db)
      modifies `db, `tick
      ensures var g := GroupAll(o, old(tick), MsgsOf(items));
              ValidDb(db) && db == ApplyAll(old(db), g.trace) && tick == g.tick
      ensures p2p == P2POnly(MsgsOf(items))
    {
      hide *;
      ghost var msgs := MsgsOf(items);
      ghost var g, done := GroupAll(o, tick, msgs), [];
      StartOf(db, g);
      ghost var n := 0;
      assert msgs[0..] == msgs && msgs[..0] == [] && items[..0] == [];
      MsgsOfEmpty();
      p2p := [];
      for i := 0 to |items|
        invariant ValidDb(db) && ValidDb(old(db)) && db == ApplyAll(old(db), done)
        invariant n <= |msgs| && msgs[..n] == MsgsOf(items[..i]) && p2p == P2POnly(msgs[..n])
        invariant Left(g, done, GroupAll(o, tick, msgs[n..]))
      {
        MsgsOfSnoc(items, i);
        MsgsOfSplit(items, i + 1);
        if items[i].msg.None? {
          assert MsgsOf(items[..i + 1]) == MsgsOf(items[..i]);
          continue;
        }
        var m := items[i].msg.value;
        assert msgs[n] == m && msgs[..n + 1] == msgs[..n] + [m];
        GroupAllAt(o, tick, msgs, n);
        P2POnlySnoc(msgs[..n], m);
        if m.convType == CONV_TYPE_GROUP {
          ghost var step := GroupOne(o, tick, m);
          ApplyAppend(old(db), done, step.trace);
          LeftStep(g, done, step.(ok := true, clean := step.ok), GroupAll(o, step.tick, msgs[n + 1..]));
          done := done + step.trace;
          n := n + 1;
          var _ := UpsertGroupConversations(m);
          continue;
        }
        n := n + 1;
        p2p := p2p + [m];
      }
      assert items[..|items|] == items && msgs[..n] == msgs;
      GroupAllDone(o, tick, msgs);
      LeftEnd(g, done, Effect([], tick, true, true));
      assert done + [] == done;
    }

    method UpsertConversations(items: seq<Item>) returns (ok: bool)
      requires ValidDb(db)
      modifies `db, `tick
      ensures var e := Store.UpsertConversations(o, old(tick), MsgsOf(items));
              ValidDb(db) && db == ApplyAll(old(db), e.trace) && tick == e.tick && ok == e.ok
    {
      hide GroupAll;
      hide P2PUps;
      hide ApplyAll;
      ghost var g := GroupAll(o, tick, MsgsOf(items));
      var p2p := GroupLoop(items);
      ApplyAppend(old(db), g.trace, P2PPart(o, tick, p2p).trace);
      StartOf(db, g);
      if p2p == [] {
        return true;
      }
      var ups := BuildConversationUpsert(p2p);
      if ups.None? {
        return true;
      }
      ok := Exec(UpsertConvs(ups.value));
    }

    method WriteBatch(items: seq<Item>) returns (ok: bool)
      requires ValidDb(db) && Fair(o)
      modifies `db, `tick
      ensures var e := Store.WriteBatch(o, old(tick), MsgsOf(items));
              ValidDb(db) && db == ApplyAll(old(db), e.trace) && tick == e.tick && ok == e.ok
    {
      hide Store.InsertMessages;
      hide Store.UpsertConversations;
      ghost var msgs := MsgsOf(items);
      ghost var ins := Store.InsertMessages(o, tick, msgs);
      ok := InsertMessages(items);
      if ok {
        ApplyAppend(old(db), ins.trace, Store.UpsertConversations(o, tick, msgs).trace);
        ok := UpsertConversations(items);
      }
    }

    /** retryExec around writeBatch. */
    method RetryExec(items: seq<Item>, max: nat) returns (ok: bool)
      requires ValidDb(db) && Fair(o) && max > 0
      modifies `db, `tick
      ensures var e := Retry(o, old(tick), MsgsOf(items), max);
              ValidDb(db) && db == ApplyAll(old(db), e.trace) && tick == e.tick && ok == e.ok
    {
      hide *;
      ghost var msgs := MsgsOf(items);
      ghost var e, done := Retry(o, tick, msgs, max), [];
      StartOf(db, e);
      var attempt := 1;
      while true
        invariant 1 <= attempt <= max && ValidDb(db) && ValidDb(old(db)) && db == ApplyAll(old(db), done)
        invariant Left(e, done, Retry(o, tick, msgs, max - attempt + 1))
        decreases max - attempt
      {
        ghost var step := Store.WriteBatch(o, tick, msgs);
        RetryAt(o, tick, msgs, max - attempt);
        ApplyAppend(old(db), done, step.trace);
        ok := WriteBatch(items);
        if ok || attempt == max || o.cancelled(tick) {
          LeftEnd(e, done, step);
          return;
        }
        ghost var rest := Retry(o, tick, msgs, max - attempt);
        LeftSkip(e, done, Then(step, rest), rest.clean);
        LeftStep(e, done, step, rest);
        done := done + step.trace;
        attempt := attempt + 1;
      }
    }

    method SendToDlq(items: seq<Item>)
      modifies `dlq, `dlqTick
      ensures dlq == old(dlq) + DeadLetters(sink, old(dlqTick), items) && dlqTick == old(dlqTick) + |items|
      ensures exists at :: SentAt(sink, old(dlqTick), items, at, dlq[|old(dlq)|..])
    {
      ghost var at := DeadLettersInOrder(sink, dlqTick, items);
      for i := 0 to |items|
        invariant dlq == old(dlq) + DeadLetters(sink, old(dlqTick), items[..i]) && dlqTick == old(dlqTick) + i
      {
        assert items[..i + 1][..i] == items[..i];
        if sink.dlqSend(dlqTick).Applied() {
          dlq := dlq + [items[i].km];
        }
        dlqTick := dlqTick + 1;
      }
      assert items[..|items|] == items;
      assert dlq[|old(dlq)|..] == DeadLetters(sink, old(dlqTick), items);
    }

    method CommitBatch(items: seq<Item>)
      modifies `committed, `commitTick
      ensures commitTick == old(commitTick) + 1
      ensures committed == old(committed) + if sink.commit(old(commitTick)).Applied() then [Records(items)] else []
      ensures committed != old(committed) ==> committed != [] && EachRecord(items, committed[|committed| - 1])
    {
      var msgs: seq<Record> := [];
      for i := 0 to |items|
        invariant msgs == Records(items[..i])
      {
        msgs := msgs + [items[i].km];
      }
      assert items[..|items|] == items;
      if sink.commit(commitTick).Applied() {
        committed := committed + [msgs];
      }
      commitTick := commitTick + 1;
    }

    /** flush: written or dead-lettered, then committed either way; an empty batch does nothing. */
    method Flush(items: seq<Item>)
      requires ValidDb(db) && Fair(o)
      modifies this
      ensures ValidDb(db)
      ensures items == [] ==> unchanged(this)
      ensures items != [] ==>
                var e := Store.Flush(o, old(tick), MsgsOf(items));
                && db == ApplyAll(old(db), e.trace) && tick == e.tick
                && dlq == old(dlq) + (if e.ok then [] else DeadLetters(sink, old(dlqTick), items))
                && dlqTick == old(dlqTick) + (if e.ok then 0 else |items|) && commitTick == old(commitTick) + 1
                && committed == old(committed) + (if sink.commit(old(commitTick)).Applied() then [Records(items)] else [])
    {
      if items == [] {
        return;
      }
      hide SentAt;
      hide EachRecord;
      hide DeadLetters;
      hide Records;
      hide Retry;
      hide MsgsOf;
      hide ApplyAll;
      hide Fair;
      var ok := RetryExec(items, STORE_MAX_RETRY);
      if !ok {
        SendToDlq(items);
      }
      CommitBatch(items);
    }

    // -------------------------------------------------------------- BatchLoop

    /** What the worker has sent and committed, and where its environment stands. */
    ghost function Accounts(): Books
      reads this
    {
      Books(tick, dlq, dlqTick, committed, commitTick)
    }

    /** The database is the one reached from start after flushing these batches in turn, and so are the
        dead letters and the commits. */
    ghost predicate Flushed(start: Db, books: Books, batches: seq<seq<Item>>)
      reads this
      requires ValidDb(start)
    {
      db == ApplyAll(start, HistTrace(Calls(o, books.tick, batches))) && Accounts() == BooksAfter(o, sink, books, batches)
    }

    method FlushBatch(items: seq<Item>, ghost start: Db, ghost books: Books, ghost batches: seq<seq<Item>>)
      requires ValidDb(db) && Fair(o) && ValidDb(start) && Flushed(start, books, batches)
      modifies this
      ensures ValidDb(db) && Flushed(start, books, NonEmpty(batches, items))
    {
      hide ApplyAll;
      hide HistTrace;
      hide Store.Flush;
      hide DeadLetters;
      hide BooksAfter;
      hide Calls;
      CallsSnoc(start, o, books.tick, batches, items);
      BooksSnoc(o, sink, books, batches, items);
      BooksTick(o, sink, books, batches);
      Flush(items);
    }

    /** The select loop over a sequence of events, with one buffer that is emptied in place after each
        flush. It returns the batches handed to flush and, when no event ended the loop, what still
        waits in the buffer. */
    method BatchLoop(events: seq<LoopEvent>) returns (ghost batches: seq<seq<Item>>, ghost waiting: seq<Item>)
      requires ValidDb(db) && Fair(o)
      modifies this
      ensures ValidDb(db) && (batches, waiting) == RunLoop(events)
      ensures Flushed(old(db), old(Accounts()), batches)
    {
      FlushedNone();
      hide *;
      var pending := new Item[STORE_BATCH_SIZE];
      var n := 0;
      batches := [];
      LoopStart(events);
      for i := 0 to |events|
        invariant ValidDb(db) && fresh(pending) && n <= pending.Length && n < STORE_BATCH_SIZE
        invariant Flushed(old(db), old(Accounts()), batches)
        invariant LoopState(events[..i]) == Running(batches, pending[..n])
      {
        LoopSnoc(events, i);
        LoopSteps(batches, pending[..n], events[i]);
        match events[i]
        case Arrived(km) =>
          pending, n := Append(pending, n, ParseStoreItem(km));
          if n >= STORE_BATCH_SIZE {
            FlushBatch(pending[..n], old(db), old(Accounts()), batches);
            batches := NonEmpty(batches, pending[..n]);
            n := 0;
          }
        case Ticked =>
          if n > 0 {
            FlushBatch(pending[..n], old(db), old(Accounts()), batches);
            batches := NonEmpty(batches, pending[..n]);
            n := 0;
          }
        case Closed =>
          FlushBatch(pending[..n], old(db), old(Accounts()), batches);
          batches := NonEmpty(batches, pending[..n]);
          waiting := [];
          LoopEnds(events, i + 1);
          return;
        case Cancelled(drained) =>
          pending, n := Drain(pending, n, drained);
          FlushBatch(pending[..n], old(db), old(Accounts()), batches);
          batches := NonEmpty(batches, pending[..n]);
          waiting := [];
          LoopEnds(events, i + 1);
          return;
      }
      LoopStops(events, batches, pending[..n]);
      waiting := pending[..n];
    }

    lemma FlushedNone()
      requires ValidDb(db)
      ensures Flushed(db, Accounts(), [])
    {
    }
  }

  /** The inner loop of a cancelled BatchLoop: everything still in the channel joins the buffer. */
  method Drain(buf: array<Item>, n: nat, drained: seq<Record>) returns (buf': array<Item>, n': nat)
    requires n <= buf.Length
    modifies buf
    ensures buf' == buf || fresh(buf')
    ensures n' <= buf'.Length && buf'[..n'] == old(buf[..n]) + ParseAll(drained)
  {
    buf', n' := buf, n;
    for j := 0 to |drained|
      invariant buf' == buf || fresh(buf')
      invariant n' <= buf'.Length && buf'[..n'] == old(buf[..n]) + ParseAll(drained[..j])
    {
      assert drained[..j + 1][..j] == drained[..j];
      buf', n' := Append(buf', n', ParseStoreItem(drained[j]));
    }
    assert drained[..|drained|] == drained;
  }

  lemma {:induction false} MsgsOfSplit(items: seq<Item>, i: nat)
    requires i <= |items|
    ensures MsgsOf(items[..i]) <= MsgsOf(items)
  {
    if i < |items| {
      MsgsOfSplit(items[..|items| - 1], i);
      assert items[..|items| - 1][..i] == items[..i];
    } else {
      assert items[..i] == items;
    }
  }

  /** Go's append on a slice that starts at the front of its buffer: in place while there is room. */
  method Append(buf: array<Item>, n: nat, x: Item) returns (buf': array<Item>, n': nat)
    requires n <= buf.Length
    modifies buf
    ensures buf' == buf || fresh(buf')
    ensures n' == n + 1 <= buf'.Length && buf'[..n'] == old(buf[..n]) + [x]
  {
    buf' := buf;
    if n == buf.Length {
      buf' := new Item[2 * n + 1];
      for i := 0 to n
        invariant buf'[..i] == buf[..i]
        invariant buf[..] == old(buf[..])
      {
        buf'[i] := buf[i];
      }
    }
    buf'[n] := x;
    n' := n + 1;
  }

  // ---------------------------------------------------------------- the loop as a function of its events

  /** What the select saw: a record, a tick, a closed channel, or cancellation together with the records
      that were still in the channel. */
  datatype LoopEvent = Arrived(km: Record) | Ticked | Closed | Cancelled(drained: seq<Record>)

  datatype LoopStatus = Running(batches: seq<seq<Item>>, pending: seq<Item>) | Ended(batches: seq<seq<Item>>)

  function ParseAll(kms: seq<Record>): seq<Item> {
    if kms == [] then [] else ParseAll(kms[..|kms| - 1]) + [ParseStoreItem(kms[|kms| - 1])]
  }

  function NonEmpty(batches: seq<seq<Item>>, last: seq<Item>): seq<seq<Item>> {
    if last == [] then batches else batches + [last]
  }

  function LoopStep(s: LoopStatus, ev: LoopEvent): LoopStatus {
    match s
    case Ended(_) => s
    case Running(batches, pending) =>
      match ev
      case Arrived(km) =>
        var more := pending + [ParseStoreItem(km)];
        if |more| >= STORE_BATCH_SIZE then Running(batches + [more], []) else Running(batches, more)
      case Ticked => if pending == [] then s else Running(batches + [pending], [])
      case Closed => Ended(NonEmpty(batches, pending))
      case Cancelled(drained) => Ended(NonEmpty(batches, pending + ParseAll(drained)))
  }

  function LoopState(events: seq<LoopEvent>): LoopStatus {
    if events == [] then Running([], []) else LoopStep(LoopState(events[..|events| - 1]), events[|events| - 1])
  }

  function RunLoop(events: seq<LoopEvent>): (seq<seq<Item>>, seq<Item>) {
    var s := LoopState(events);
    (s.batches, if s.Running? then s.pending else [])
  }

  lemma LoopStart(events: seq<LoopEvent>)
    ensures LoopState(events[..0]) == Running([], [])
  {
  }

  lemma LoopSnoc(events: seq<LoopEvent>, i: nat)
    requires i < |events|
    ensures LoopState(events[..i + 1]) == LoopStep(LoopState(events[..i]), events[i])
  {
    assert events[..i + 1][..i] == events[..i];
  }

  lemma LoopSteps(batches: seq<seq<Item>>, pending: seq<Item>, ev: LoopEvent)
    ensures LoopStep(Running(batches, pending), ev) ==
            match ev
            case Arrived(km) =>
              var more := pending + [ParseStoreItem(km)];
              if |more| >= STORE_BATCH_SIZE then Running(NonEmpty(batches, more), []) else Running(batches, more)
            case Ticked => Running(NonEmpty(batches, pending), [])
            case Closed => Ended(NonEmpty(batches, pending))
            case Cancelled(drained) => Ended(NonEmpty(batches, pending + ParseAll(drained)))
    ensures NonEmpty(batches, []) == batches
  {
  }

  lemma LoopStops(events: seq<LoopEvent>, batches: seq<seq<Item>>, pending: seq<Item>)
    requires LoopState(events[..|events|]) == Running(batches, pending)
    ensures RunLoop(events) == (batches, pending)
  {
    assert events[..|events|] == events;
  }

  lemma {:induction false} LoopEnds(events: seq<LoopEvent>, i: nat)
    requires i <= |events| && LoopState(events[..i]).Ended?
    ensures LoopState(events) == LoopState(events[..i]) && RunLoop(events) == (LoopState(events).batches, [])
  {
    if i < |events| {
      assert events[..|events| - 1][..i] == events[..i];
      LoopEnds(events[..|events| - 1], i);
    } else {
      assert events[..i] == events;
    }
  }

  /** The flushes of these batches in turn, each starting at the tick the previous one reached. */
  function TickAfter(o: Oracle, t: nat, batches: seq<seq<Item>>): nat {
    if batches == [] then t
    else Store.Flush(o, TickAfter(o, t, batches[..|batches| - 1]), MsgsOf(batches[|batches| - 1])).tick
  }

  function Calls(o: Oracle, t: nat, batches: seq<seq<Item>>): seq<Event> {
    if batches == [] then []
    else
      var before := batches[..|batches| - 1];
      Calls(o, t, before) + [Flushed(o, TickAfter(o, t, before), MsgsOf(batches[|batches| - 1]))]
  }

  lemma CallsSnoc(db: Db, o: Oracle, t: nat, batches: seq<seq<Item>>, items: seq<Item>)
    requires ValidDb(db)
    ensures var e := Store.Flush(o, TickAfter(o, t, batches), MsgsOf(items));
            && TickAfter(o, t, batches + [items]) == e.tick
            && ApplyAll(db, HistTrace(Calls(o, t, batches + [items]))) ==
               ApplyAll(ApplyAll(db, HistTrace(Calls(o, t, batches))), e.trace)
  {
    hide Store.Flush;
    assert (batches + [items])[..|batches|] == batches;
    var calls := Calls(o, t, batches);
    var ev := Flushed(o, TickAfter(o, t, batches), MsgsOf(items));
    assert (calls + [ev])[..|calls|] == calls;
    ApplyAppend(db, HistTrace(calls), EventTrace(ev));
  }

  /** What a worker keeps besides the database. */
  datatype Books = Books(tick: nat, dlq: seq<Record>, dlqTick: nat, committed: seq<seq<Record>>, commitTick: nat)

  /** One flush of a non-empty batch: written or dead-lettered, then committed either way. */
  function BooksNext(o: Oracle, sink: Sink, b: Books, items: seq<Item>): Books {
    var e := Store.Flush(o, b.tick, MsgsOf(items));
    Books(e.tick,
          b.dlq + (if e.ok then [] else DeadLetters(sink, b.dlqTick, items)), b.dlqTick + (if e.ok then 0 else |items|),
          b.committed + (if sink.commit(b.commitTick).Applied() then [Records(items)] else []), b.commitTick + 1)
  }

  function BooksAfter(o: Oracle, sink: Sink, b: Books, batches: seq<seq<Item>>): Books {
    if batches == [] then b
    else BooksNext(o, sink, BooksAfter(o, sink, b, batches[..|batches| - 1]), batches[|batches| - 1])
  }

  lemma BooksSnoc(o: Oracle, sink: Sink, b: Books, batches: seq<seq<Item>>, items: seq<Item>)
    ensures BooksAfter(o, sink, b, batches + [items]) == BooksNext(o, sink, BooksAfter(o, sink, b, batches), items)
  {
    hide BooksNext;
    assert (batches + [items])[..|batches|] == batches;
  }

  lemma {:induction false} BooksTick(o: Oracle, sink: Sink, b: Books, batches: seq<seq<Item>>)
    ensures BooksAfter(o, sink, b, batches).tick == TickAfter(o, b.tick, batches)
  {
    hide Store.Flush;
    hide DeadLetters;
    if batches != [] {
      BooksTick(o, sink, b, batches[..|batches| - 1]);
    }
  }

  // ---------------------------------------------------------------- nothing lost, nothing twice

  function Concat(batches: seq<seq<Item>>): seq<Item> {
    if batches == [] then [] else Concat(batches[..|batches| - 1]) + batches[|batches| - 1]
  }

  function NewRecords(ev: LoopEvent): seq<Record> {
    match ev
    case Arrived(km) => [km]
    case Cancelled(drained) => drained
    case _ => []
  }

  /** The records the loop took from the channel, in order; nothing is taken after it ended. */
  function Taken(events: seq<LoopEvent>): seq<Record> {
    if events == [] then []
    else
      var before := events[..|events| - 1];
      Taken(before) + if LoopState(before).Ended? then [] else NewRecords(events[|events| - 1])
  }

  lemma {:induction false} ParseAllAppend(a: seq<Record>, b: seq<Record>)
    ensures ParseAll(a + b) == ParseAll(a) + ParseAll(b)
  {
    if b == [] {
      assert a + b == a;
    } else {
      ParseAllAppend(a, b[..|b| - 1]);
      assert (a + b)[..|a + b| - 1] == a + b[..|b| - 1];
    }
  }

  lemma ConcatSnoc(batches: seq<seq<Item>>, last: seq<Item>)
    ensures Concat(NonEmpty(batches, last)) == Concat(batches) + last
  {
    if last != [] {
      assert (batches + [last])[..|batches|] == batches;
    }
  }

  function Held(s: LoopStatus): seq<Item> { Concat(s.batches) + if s.Running? then s.pending else [] }

  lemma HeldStep(s: LoopStatus, ev: LoopEvent)
    requires s.Running?
    ensures Held(LoopStep(s, ev)) == Held(s) + ParseAll(NewRecords(ev))
  {
    hide Concat;
    ConcatSnoc(s.batches, s.pending);
    match ev
    case Arrived(km) =>
      assert [km][..0] == [];
      ConcatSnoc(s.batches, s.pending + [ParseStoreItem(km)]);
    case Ticked =>
    case Closed =>
    case Cancelled(drained) =>
      ConcatSnoc(s.batches, s.pending + ParseAll(drained));
  }

  /** Everything received is handed to flush exactly once and in order, or still waits. */
  lemma {:induction false} FlushedExactlyOnce(events: seq<LoopEvent>)
    ensures Held(LoopState(events)) == ParseAll(Taken(events))
  {
    if events != [] {
      var before, ev := events[..|events| - 1], events[|events| - 1];
      FlushedExactlyOnce(before);
      if LoopState(before).Running? {
        HeldStep(LoopState(before), ev);
        ParseAllAppend(Taken(before), NewRecords(ev));
      } else {
        assert Taken(before) + [] == Taken(before);
      }
    }
  }

  /** When the loop flushes: on the hundredth waiting record and not before, on every tick that finds
      something waiting, and at the end. */
  lemma LoopPace(events: seq<LoopEvent>, ev: LoopEvent)
    requires LoopState(events).Running?
    ensures var s, s' := LoopState(events), LoopState(events + [ev]);
            match ev
            case Arrived(_) =>
              && s'.Running? && |s.pending| < 100
              && if |s.pending| == 99 then s'.pending == [] && |s'.batches| == |s.batches| + 1 && |s'.batches[|s.batches|]| == 100
                 else |s'.pending| == |s.pending| + 1 && s'.batches == s.batches
            case Ticked => s'.Running? && s'.pending == [] && |s'.batches| == |s.batches| + if s.pending == [] then 0 else 1
            case _ => s'.Ended?
  {
    assert (events + [ev])[..|events|] == events;
    BatchSizes(events);
  }

  /** No flushed batch is empty, and only the last batch of a shutdown drain can exceed the limit. */
  lemma {:induction false} BatchSizes(events: seq<LoopEvent>)
    ensures var s := LoopState(events);
            && (forall b :: b in s.batches ==> b != [])
            && (forall i :: 0 <= i < |s.batches| && (s.Running? || i < |s.batches| - 1) ==> |s.batches[i]| <= STORE_BATCH_SIZE)
            && (s.Running? ==> |s.pending| < STORE_BATCH_SIZE)
  {
    if events != [] {
      BatchSizes(events[..|events| - 1]);
    }
  }
}
