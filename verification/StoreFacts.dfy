/** What a flush may write and must write, whatever fails. */
module StoreFacts {
  import opened Common
  import opened Conv
  import opened Messages
  import opened Sql
  import opened Trace
  import opened Store

  // ---------------------------------------------------------------- statements of a flush

  /** The conversation rows a message should touch, given who is in each group. */
  function Wanted(roster: int64 -> seq<int64>, m: Msg): seq<Upsert> {
    if m.convType == CONV_TYPE_GROUP then
      match ParseGroup(m.convId)
      case Some(gid) => GroupUps(m, roster(gid))
      case None => []
    else
      match PairUps(m)
      case Some(two) => two
      case None => []
  }

  ghost predicate FixedRoster(o: Oracle, roster: int64 -> seq<int64>) {
    forall t: nat, gid: int64 :: o.members(t, gid).Some? ==> o.members(t, gid).value == roster(gid)
  }

  ghost predicate WantedBy(roster: int64 -> seq<int64>, msgs: seq<Msg>, u: Upsert) {
    exists m :: m in msgs && u in Wanted(roster, m)
  }

  /** A conversation row this message may write, whoever the members are. */
  ghost predicate OwnUp(m: Msg, u: Upsert) {
    if m.convType == CONV_TYPE_GROUP then ParseGroup(m.convId).Some? && u == MemberUp(m, u.uid)
    else PairUps(m).Some? && u in PairUps(m).value
  }

  ghost predicate OwnedBy(msgs: seq<Msg>, u: Upsert) { exists m :: m in msgs && OwnUp(m, u) }

  ghost predicate OwnUps(msgs: seq<Msg>, st: Stmt) { st.UpsertConvs? && forall u :: u in st.ups ==> OwnedBy(msgs, u) }

  /** A statement a flush of msgs may issue. */
  ghost predicate Mine(o: Oracle, msgs: seq<Msg>, st: Stmt) {
    (st.InsertIgnore? && RowsFor(Group(o.shard, msgs, st.shard)) == Some(st.rows)) || OwnUps(msgs, st)
  }

  lemma {:induction false} InsertGroupsFacts(o: Oracle, t: nat, msgs: seq<Msg>, order: seq<Shard>)
    ensures var e := InsertGroups(o, t, msgs, order);
            && (forall st :: st in e.trace ==> st.InsertIgnore? && RowsFor(Group(o.shard, msgs, st.shard)) == Some(st.rows))
            && (e.ok ==> forall s :: s in order && RowsFor(Group(o.shard, msgs, s)).Some? ==>
                  InsertIgnore(s, RowsFor(Group(o.shard, msgs, s)).value) in e.trace)
            && (e.ok && e.clean ==> forall s :: s in order ==> RowsFor(Group(o.shard, msgs, s)).Some?)
    decreases |order|
  {
    hide RowsFor;
    hide Group;
    if order != [] {
      var g := RowsFor(Group(o.shard, msgs, order[0]));
      InsertGroupsFacts(o, if g.Some? then t + 1 else t, msgs, order[1..]);
      assert forall s :: s in order <==> s == order[0] || s in order[1..];
    }
  }

  lemma {:induction false} ExecChunksFacts(o: Oracle, t: nat, chunks: seq<seq<Upsert>>)
    ensures var e := ExecChunks(o, t, chunks);
            && (forall st :: st in e.trace ==> st.UpsertConvs? && st.ups in chunks)
            && (e.ok ==> forall c :: c in chunks ==> UpsertConvs(c) in e.trace)
    decreases |chunks|
  {
    if chunks != [] {
      ExecChunksFacts(o, t + 1, chunks[1..]);
      assert forall c :: c in chunks <==> c == chunks[0] || c in chunks[1..];
    }
  }

  lemma {:induction false} FlattenMembers(chunks: seq<seq<Upsert>>)
    ensures forall u :: u in Flatten(chunks) <==> exists c :: c in chunks && u in c
  {
    if chunks != [] {
      FlattenMembers(chunks[1..]);
      assert forall c :: c in chunks <==> c == chunks[0] || c in chunks[1..];
    }
  }

  lemma GroupOneOwn(o: Oracle, t: nat, m: Msg, msgs: seq<Msg>)
    requires m in msgs && m.convType == CONV_TYPE_GROUP
    ensures forall st :: st in GroupOne(o, t, m).trace ==> OwnUps(msgs, st)
  {
    hide ParseGroup;
    hide Chunks;
    var g := ParseGroup(m.convId);
    if g.Some? && o.members(t, g.value).Some? {
      var ups := GroupUps(m, o.members(t, g.value).value);
      var chunks := Chunks(ups, GROUP_CONV_BATCH);
      ChunksFlatten(ups, GROUP_CONV_BATCH);
      FlattenMembers(chunks);
      ExecChunksFacts(o, t + 1, chunks);
      forall u | u in ups
        ensures OwnedBy(msgs, u)
      {
        assert OwnUp(m, u);
      }
    }
  }

  lemma {:induction false} GroupAllOwn(o: Oracle, t: nat, msgs: seq<Msg>, all: seq<Msg>)
    requires forall m :: m in msgs ==> m in all
    ensures GroupAll(o, t, msgs).ok && forall st :: st in GroupAll(o, t, msgs).trace ==> OwnUps(all, st)
    decreases |msgs|
  {
    hide GroupOne;
    hide OwnUps;
    if msgs != [] {
      assert msgs[0] in all;
      if msgs[0].convType != CONV_TYPE_GROUP {
        GroupAllOwn(o, t, msgs[1..], all);
      } else {
        GroupOneOwn(o, t, msgs[0], all);
        GroupAllOwn(o, GroupOne(o, t, msgs[0]).tick, msgs[1..], all);
      }
    }
  }

  lemma P2PPartOwn(o: Oracle, t: nat, msgs: seq<Msg>)
    ensures forall st :: st in P2PPart(o, t, P2POnly(msgs)).trace ==> OwnUps(msgs, st)
  {
    hide PairUps;
    hide P2PUps;
    var p2p := P2POnly(msgs);
    P2POnlyMembers(msgs);
    P2PUpsMembers(p2p);
    if p2p != [] && P2PUps(p2p).Some? {
      forall u | u in P2PUps(p2p).value
        ensures OwnedBy(msgs, u)
      {
        var m :| m in p2p && u in PairUps(m).value;
        assert OwnUp(m, u);
      }
    }
  }

  lemma InsertsAll(o: Oracle, t: nat, msgs: seq<Msg>)
    requires Fair(o)
    ensures var e := InsertMessages(o, t, msgs);
            && (e.ok && DecimalIds(msgs) ==> AllInserted(o, msgs, e.trace))
            && (e.ok && e.clean ==> DecimalIds(msgs))
  {
    hide RowsFor;
    hide RowOf;
    hide Group;
    hide InsertGroups;
    var order := o.order(t, Touched(o.shard, msgs));
    InsertGroupsFacts(o, t, msgs, order);
    forall m | m in msgs
      ensures o.shard(m.convId) in order
      ensures DecimalIds(msgs) ==> RowsFor(Group(o.shard, msgs, o.shard(m.convId))).Some?
      ensures RowsFor(Group(o.shard, msgs, o.shard(m.convId))).Some? ==> RowOf(m).Some?
    {
      assert o.shard(m.convId) in Touched(o.shard, msgs);
      GroupMembers(o.shard, msgs, o.shard(m.convId));
      RowsForDecimal(Group(o.shard, msgs, o.shard(m.convId)));
    }
  }

  /** One attempt, whatever the member lists say: no foreign statement, and all inserts if it succeeds. */
  lemma WriteBatchOwn(o: Oracle, t: nat, msgs: seq<Msg>)
    requires Fair(o)
    ensures var e := WriteBatch(o, t, msgs);
            && (forall st :: st in e.trace ==> Mine(o, msgs, st))
            && (e.ok && DecimalIds(msgs) ==> AllInserted(o, msgs, e.trace))
  {
    hide OwnUps;
    hide RowsFor;
    hide Group;
    hide DecimalIds;
    hide GroupAll;
    hide P2PPart;
    hide InsertGroups;
    InsertGroupsFacts(o, t, msgs, o.order(t, Touched(o.shard, msgs)));
    InsertsAll(o, t, msgs);
    var ins := InsertMessages(o, t, msgs);
    if ins.ok {
      GroupAllOwn(o, ins.tick, msgs, msgs);
      P2PPartOwn(o, GroupAll(o, ins.tick, msgs).tick, msgs);
    }
  }

  /** The insert statement of every message's shard took effect. */
  ghost predicate AllInserted(o: Oracle, msgs: seq<Msg>, trace: seq<Stmt>) {
    forall m :: m in msgs ==>
      && RowsFor(Group(o.shard, msgs, o.shard(m.convId))).Some?
      && InsertIgnore(o.shard(m.convId), RowsFor(Group(o.shard, msgs, o.shard(m.convId))).value) in trace
  }

  /** The same for a whole flush with its retries. */
  lemma {:induction false} RetryOwn(o: Oracle, t: nat, msgs: seq<Msg>, left: nat)
    requires Fair(o) && left > 0
    ensures var e := Retry(o, t, msgs, left);
            && (forall st :: st in e.trace ==> Mine(o, msgs, st))
            && (e.ok && DecimalIds(msgs) ==> AllInserted(o, msgs, e.trace))
    decreases left
  {
    hide Mine;
    hide WriteBatch;
    hide RowsFor;
    hide DecimalIds;
    var e := WriteBatch(o, t, msgs);
    WriteBatchOwn(o, t, msgs);
    if !e.ok && left > 1 && !o.cancelled(e.tick) {
      RetryOwn(o, e.tick, msgs, left - 1);
    }
  }

  // ---------------------------------------------------------------- when an attempt ends

  /** The statements at ticks a..b all returned nil. */
  ghost predicate AllNil(o: Oracle, a: nat, b: nat) { forall k :: a <= k < b ==> o.sql(k).Success? }

  /** The statements from a on returned nil up to the last one before b, which failed. */
  ghost predicate BrokeOff(o: Oracle, a: nat, b: nat) { a < b && AllNil(o, a, b - 1) && !o.sql(b - 1).Success? }

  lemma {:induction false} InsertsStop(o: Oracle, t: nat, msgs: seq<Msg>, order: seq<Shard>)
    ensures var e := InsertGroups(o, t, msgs, order);
            t <= e.tick && if e.ok then AllNil(o, t, e.tick) else BrokeOff(o, t, e.tick)
    decreases |order|
  {
    hide RowsFor;
    hide Group;
    if order != [] {
      InsertsStop(o, if RowsFor(Group(o.shard, msgs, order[0])).Some? then t + 1 else t, msgs, order[1..]);
    }
  }

  lemma {:induction false} ChunksStop(o: Oracle, t: nat, chunks: seq<seq<Upsert>>)
    ensures var e := ExecChunks(o, t, chunks);
            t <= e.tick && if e.ok then AllNil(o, t, e.tick) && e.tick == t + |chunks| else BrokeOff(o, t, e.tick)
    decreases |chunks|
  {
    if chunks != [] {
      ChunksStop(o, t + 1, chunks[1..]);
    }
  }

  /** The rows of one group message are written exactly if its id is that of a group, the member list can be
      read and every statement returns nil; without id or list nothing is written. */
  lemma GroupEnds(o: Oracle, t: nat, m: Msg)
    ensures var g, e := ParseGroup(m.convId), GroupOne(o, t, m);
            var readable := g.Some? && o.members(t, g.value).Some?;
            && (!readable ==> !e.ok && e.trace == [])
            && (readable ==> if e.ok then AllNil(o, t + 1, e.tick) else BrokeOff(o, t + 1, e.tick))
  {
    hide ParseGroup;
    var g := ParseGroup(m.convId);
    if g.Some? && o.members(t, g.value).Some? {
      ChunksStop(o, t + 1, Chunks(GroupUps(m, o.members(t, g.value).value), GROUP_CONV_BATCH));
    }
  }

  /** When an attempt ends and with what: an insert that returns an error is its last statement. Otherwise
      every insert returned nil and the error is that of the upsert of the one-to-one rows, the last
      statement, which is issued exactly if there is such a message and each of them can be built. Errors of
      group rows never end an attempt or show in its result. */
  lemma AttemptStops(o: Oracle, t: nat, msgs: seq<Msg>)
    ensures var ins, e := InsertMessages(o, t, msgs), WriteBatch(o, t, msgs);
            if !ins.ok then BrokeOff(o, t, e.tick) && !e.ok && e.trace == ins.trace
            else
              && AllNil(o, t, ins.tick)
              && var pairs := (exists m :: m in msgs && m.convType != CONV_TYPE_GROUP)
                              && (forall m :: m in msgs && m.convType != CONV_TYPE_GROUP ==> PairUps(m).Some?);
                 if pairs then ins.tick < e.tick && e.ok == o.sql(e.tick - 1).Success? else e.ok
  {
    hide InsertGroups;
    hide GroupAll;
    hide P2PUps;
    hide PairUps;
    var ins := InsertMessages(o, t, msgs);
    InsertsStop(o, t, msgs, o.order(t, Touched(o.shard, msgs)));
    if ins.ok {
      GroupTicks(o, ins.tick, msgs);
      P2POnlyMembers(msgs);
      P2PUpsMembers(P2POnly(msgs));
      if m :| m in msgs && m.convType != CONV_TYPE_GROUP {
        assert m in P2POnly(msgs);
      }
      if P2POnly(msgs) != [] {
        assert P2POnly(msgs)[0] in P2POnly(msgs);
      }
    }
  }

  lemma {:induction false} GroupTicks(o: Oracle, t: nat, msgs: seq<Msg>)
    ensures GroupAll(o, t, msgs).ok && GroupAll(o, t, msgs).tick >= t
    decreases |msgs|
  {
    hide ParseGroup;
    if msgs != [] {
      if msgs[0].convType != CONV_TYPE_GROUP {
        GroupTicks(o, t, msgs[1..]);
      } else {
        GroupOneTicks(o, t, msgs[0]);
        GroupTicks(o, GroupOne(o, t, msgs[0]).tick, msgs[1..]);
      }
    }
  }

  lemma GroupOneTicks(o: Oracle, t: nat, m: Msg)
    ensures GroupOne(o, t, m).tick >= t
  {
    hide ParseGroup;
    var g := ParseGroup(m.convId);
    if g.Some? && o.members(t, g.value).Some? {
      ChunksStop(o, t + 1, Chunks(GroupUps(m, o.members(t, g.value).value), GROUP_CONV_BATCH));
    }
  }

  // ---------------------------------------------------------------- with a fixed membership

  /** The upserts that took effect come from these rows, and all of them when it succeeded. */
  ghost predicate Writes(e: Effect, ups: seq<Upsert>) {
    && (forall st :: st in e.trace ==> st.UpsertConvs? && forall u :: u in st.ups ==> u in ups)
    && (e.ok ==> forall u :: u in ups ==> exists st :: st in e.trace && st.UpsertConvs? && u in st.ups)
  }

  lemma GroupOneFacts(o: Oracle, t: nat, m: Msg, roster: int64 -> seq<int64>)
    requires FixedRoster(o, roster) && m.convType == CONV_TYPE_GROUP
    ensures Writes(GroupOne(o, t, m), Wanted(roster, m))
  {
    hide ParseGroup;
    hide GroupUps;
    hide Chunks;
    var g := ParseGroup(m.convId);
    if g.Some? && o.members(t, g.value).Some? {
      var ups := GroupUps(m, roster(g.value));
      var chunks := Chunks(ups, GROUP_CONV_BATCH);
      var e := ExecChunks(o, t + 1, chunks);
      assert GroupOne(o, t, m) == e && Wanted(roster, m) == ups;
      ChunksFlatten(ups, GROUP_CONV_BATCH);
      FlattenMembers(chunks);
      ExecChunksFacts(o, t + 1, chunks);
      forall u | u in ups && e.ok
        ensures exists st :: st in e.trace && st.UpsertConvs? && u in st.ups
      {
        var c :| c in chunks && u in c;
        assert UpsertConvs(c) in e.trace;
      }
    }
  }

  ghost predicate Upserted(trace: seq<Stmt>, u: Upsert) {
    exists st :: st in trace && st.UpsertConvs? && u in st.ups
  }

  lemma {:induction false} GroupAllFacts(o: Oracle, t: nat, msgs: seq<Msg>, roster: int64 -> seq<int64>)
    requires FixedRoster(o, roster)
    ensures var e := GroupAll(o, t, msgs);
            && e.ok
            && (forall st :: st in e.trace ==> st.UpsertConvs? && forall u :: u in st.ups ==> WantedBy(roster, msgs, u))
            && (e.clean ==> forall m, u :: m in msgs && m.convType == CONV_TYPE_GROUP && u in Wanted(roster, m) ==> Upserted(e.trace, u))
    decreases |msgs|
  {
    hide Wanted;
    hide GroupOne;
    if msgs != [] {
      var m, rest := msgs[0], msgs[1..];
      assert forall x :: x in msgs <==> x == m || x in rest;
      if m.convType != CONV_TYPE_GROUP {
        GroupAllFacts(o, t, rest, roster);
      } else {
        var e := GroupOne(o, t, m);
        GroupOneFacts(o, t, m, roster);
        GroupAllFacts(o, e.tick, rest, roster);
        var all := GroupAll(o, t, msgs);
        assert all.trace == e.trace + GroupAll(o, e.tick, rest).trace;
        assert forall u :: Upserted(e.trace, u) || Upserted(GroupAll(o, e.tick, rest).trace, u) ==> Upserted(all.trace, u);
      }
    }
  }

  lemma P2PPartFacts(o: Oracle, t: nat, msgs: seq<Msg>, roster: int64 -> seq<int64>)
    ensures var e := P2PPart(o, t, P2POnly(msgs));
            && (forall st :: st in e.trace ==> st.UpsertConvs? && forall u :: u in st.ups ==> WantedBy(roster, msgs, u))
            && (e.ok && e.clean ==> forall m, u :: m in msgs && m.convType != CONV_TYPE_GROUP && u in Wanted(roster, m) ==> Upserted(e.trace, u))
  {
    hide PairUps;
    hide P2PUps;
    var p2p := P2POnly(msgs);
    P2POnlyMembers(msgs);
    P2PUpsMembers(p2p);
    if p2p != [] && P2PUps(p2p).Some? {
      forall u | u in P2PUps(p2p).value
        ensures WantedBy(roster, msgs, u)
      {
        var m :| m in p2p && u in PairUps(m).value;
        assert u in Wanted(roster, m);
      }
    }
  }

  /** The upserts of statements st in the trace are all wanted by some message. */
  ghost predicate OnlyWanted(roster: int64 -> seq<int64>, msgs: seq<Msg>, trace: seq<Stmt>) {
    forall st, u :: st in trace && st.UpsertConvs? && u in st.ups ==> WantedBy(roster, msgs, u)
  }

  ghost predicate AllUpserted(roster: int64 -> seq<int64>, msgs: seq<Msg>, trace: seq<Stmt>) {
    forall u :: WantedBy(roster, msgs, u) ==> Upserted(trace, u)
  }

  /** One attempt with fixed members: a clean success has upserted every wanted row. */
  lemma WriteBatchFacts(o: Oracle, t: nat, msgs: seq<Msg>, roster: int64 -> seq<int64>)
    requires Fair(o) && FixedRoster(o, roster)
    ensures var e := WriteBatch(o, t, msgs);
            && OnlyWanted(roster, msgs, e.trace)
            && (e.ok && e.clean ==> DecimalIds(msgs) && AllUpserted(roster, msgs, e.trace))
  {
    hide Wanted;
    hide RowsFor;
    hide DecimalIds;
    hide Group;
    hide GroupAll;
    hide P2PPart;
    hide InsertGroups;
    var ins := InsertMessages(o, t, msgs);
    InsertsAll(o, t, msgs);
    InsertGroupsFacts(o, t, msgs, o.order(t, Touched(o.shard, msgs)));
    if ins.ok {
      var g := GroupAll(o, ins.tick, msgs);
      GroupAllFacts(o, ins.tick, msgs, roster);
      P2PPartFacts(o, g.tick, msgs, roster);
      var p := P2PPart(o, g.tick, P2POnly(msgs));
      var e := WriteBatch(o, t, msgs);
      assert e.trace == ins.trace + (g.trace + p.trace);
      assert forall u :: Upserted(g.trace, u) || Upserted(p.trace, u) ==> Upserted(e.trace, u);
    }
  }

  /** The same for a whole flush: a flush that returns nil has written everything its last attempt owed. */
  lemma {:induction false} RetryFacts(o: Oracle, t: nat, msgs: seq<Msg>, roster: int64 -> seq<int64>, left: nat)
    requires Fair(o) && FixedRoster(o, roster) && left > 0
    ensures var e := Retry(o, t, msgs, left);
            && OnlyWanted(roster, msgs, e.trace)
            && (e.ok && e.clean ==> DecimalIds(msgs) && AllUpserted(roster, msgs, e.trace))
    decreases left
  {
    hide WriteBatch;
    hide WantedBy;
    hide DecimalIds;
    var e := WriteBatch(o, t, msgs);
    WriteBatchFacts(o, t, msgs, roster);
    if !e.ok && left > 1 && !o.cancelled(e.tick) {
      RetryFacts(o, e.tick, msgs, roster, left - 1);
      var rest := Retry(o, e.tick, msgs, left - 1);
      assert Retry(o, t, msgs, left).trace == e.trace + rest.trace;
      assert forall u :: Upserted(rest.trace, u) ==> Upserted(e.trace + rest.trace, u);
    }
  }

  // ---------------------------------------------------------------- from statements to projections

  lemma {:induction false} RowsAtMembers(sts: seq<Stmt>, s: Shard)
    ensures forall r :: r in RowsAt(sts, s) <==> exists st :: st in sts && r in RowsOf(st, s)
  {
    hide RowsOf;
    if sts != [] {
      RowsAtMembers(sts[..|sts| - 1], s);
      assert forall st :: st in sts <==> st in sts[..|sts| - 1] || st == sts[|sts| - 1];
    }
  }

  lemma {:induction false} OpsAtMembers(sts: seq<Stmt>, k: ConvKey)
    ensures forall op :: op in OpsAt(sts, k) <==> exists st :: st in sts && op in OpsOf(st, k)
  {
    hide OpsOf;
    if sts != [] {
      OpsAtMembers(sts[..|sts| - 1], k);
      assert forall st :: st in sts <==> st in sts[..|sts| - 1] || st == sts[|sts| - 1];
    }
  }

  lemma {:induction false} UpsAtMembers(ups: seq<Upsert>, k: ConvKey)
    ensures forall op :: op in UpsAt(ups, k) <==> op.Up? && op.u in ups && KeyOf(op.u) == k
  {
    if ups != [] {
      UpsAtMembers(ups[..|ups| - 1], k);
      assert forall u :: u in ups <==> u in ups[..|ups| - 1] || u == ups[|ups| - 1];
    }
  }

  lemma {:induction false} SeqsOfMembers(ops: seq<RowOp>)
    ensures forall x :: x in SeqsOf(ops) <==> exists op :: op in ops && x in SeqOf(op)
  {
    hide SeqOf;
    if ops != [] {
      SeqsOfMembers(ops[..|ops| - 1]);
      assert forall op :: op in ops <==> op in ops[..|ops| - 1] || op == ops[|ops| - 1];
    }
  }

  /** The rows that reach table s are those of messages of that shard. */
  ghost predicate RowFrom(o: Oracle, msgs: seq<Msg>, s: Shard, r: MsgRow) {
    exists m :: m in msgs && o.shard(m.convId) == s && RowOf(m) == Some(r)
  }

  lemma MineRows(o: Oracle, msgs: seq<Msg>, s: Shard, rows: seq<MsgRow>)
    requires RowsFor(Group(o.shard, msgs, s)) == Some(rows)
    ensures forall r :: r in rows <==> RowFrom(o, msgs, s, r)
  {
    hide RowsFor;
    hide RowOf;
    hide Group;
    var g := Group(o.shard, msgs, s);
    GroupMembers(o.shard, msgs, s);
    RowsForDecimal(g);
    forall r | r in rows
      ensures RowFrom(o, msgs, s, r)
    {
      var i :| 0 <= i < |rows| && rows[i] == r;
      assert g[i] in g;
    }
    forall r | RowFrom(o, msgs, s, r)
      ensures r in rows
    {
      var m :| m in msgs && o.shard(m.convId) == s && RowOf(m) == Some(r);
      assert m in g;
      var i :| 0 <= i < |g| && g[i] == m;
      assert rows[i] == r;
    }
  }

  lemma FlushRows(o: Oracle, t: nat, msgs: seq<Msg>, s: Shard)
    requires Fair(o)
    ensures var e := Flush(o, t, msgs);
            && (forall r :: r in RowsAt(e.trace, s) ==> RowFrom(o, msgs, s, r))
            && (e.ok && DecimalIds(msgs) ==> forall r :: RowFrom(o, msgs, s, r) ==> r in RowsAt(e.trace, s))
  {
    hide Retry;
    hide RowsFor;
    hide RowOf;
    hide Group;
    var e := Flush(o, t, msgs);
    RetryOwn(o, t, msgs, STORE_MAX_RETRY);
    RowsAtMembers(e.trace, s);
    forall r | r in RowsAt(e.trace, s)
      ensures RowFrom(o, msgs, s, r)
    {
      var st :| st in e.trace && r in RowsOf(st, s);
      assert Mine(o, msgs, st);
      MineRows(o, msgs, s, st.rows);
    }
    if e.ok && DecimalIds(msgs) {
      forall r | RowFrom(o, msgs, s, r)
        ensures r in RowsAt(e.trace, s)
      {
        var m :| m in msgs && o.shard(m.convId) == s && RowOf(m) == Some(r);
        var rows := RowsFor(Group(o.shard, msgs, s)).value;
        assert InsertIgnore(s, rows) in e.trace;
        MineRows(o, msgs, s, rows);
        assert r in RowsOf(InsertIgnore(s, rows), s);
      }
    }
  }

  /** The operations a flush offers to row k: only upserts wanted by its messages, and all of those once
      it succeeded and skipped nothing. */
  lemma FlushSeqs(o: Oracle, t: nat, msgs: seq<Msg>, roster: int64 -> seq<int64>, k: ConvKey)
    requires Fair(o) && FixedRoster(o, roster)
    ensures var e := Flush(o, t, msgs);
            && (forall op :: op in OpsAt(e.trace, k) ==> op.Up? && WantedBy(roster, msgs, op.u) && KeyOf(op.u) == k)
            && (e.ok && e.clean ==> forall u :: WantedBy(roster, msgs, u) && KeyOf(u) == k ==> Up(u) in OpsAt(e.trace, k))
  {
    hide Retry;
    hide WantedBy;
    hide RowsFor;
    hide OwnedBy;
    var e := Flush(o, t, msgs);
    RetryFacts(o, t, msgs, roster, STORE_MAX_RETRY);
    RetryOwn(o, t, msgs, STORE_MAX_RETRY);
    OpsAtMembers(e.trace, k);
    forall op | op in OpsAt(e.trace, k)
      ensures op.Up? && WantedBy(roster, msgs, op.u) && KeyOf(op.u) == k
    {
      var st :| st in e.trace && op in OpsOf(st, k);
      assert Mine(o, msgs, st);
      UpsAtMembers(st.ups, k);
    }
    if e.ok && e.clean {
      forall u | WantedBy(roster, msgs, u) && KeyOf(u) == k
        ensures Up(u) in OpsAt(e.trace, k)
      {
        assert Upserted(e.trace, u);
        var st :| st in e.trace && st.UpsertConvs? && u in st.ups;
        UpsAtMembers(st.ups, k);
        assert Up(u) in OpsOf(st, k);
      }
    }
  }
}
