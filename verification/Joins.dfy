/** Join rows against the store: the event consumer and the store consumer write rows of the same group with
    no order between them, and the order does not matter. */
module Joins {
  import opened Common
  import opened Conv
  import opened Messages
  import opened Sql
  import opened Trace
  import opened Store
  import opened StoreFacts

  /** Upserts of one group, as the messages of the log give them. */
  ghost predicate GroupRows(ops: seq<RowOp>, gid: int64) {
    forall op :: op in ops ==> op.Up? && op.u.convType == 2 && op.u.target == gid && op.u.seqNo >= 0
  }

  lemma {:induction false} JoinMoves(o: Option<ConvRow>, ops: seq<RowOp>, gid: int64, now: int)
    requires GroupRows(ops, gid)
    ensures RunRow(o, [Joined(gid, now)] + ops) == RunRow(o, ops + [Joined(gid, now)])
  {
    var j := Joined(gid, now);
    if ops == [] {
      assert [j] + ops == ops + [j];
    } else {
      var b, op := ops[..|ops| - 1], ops[|ops| - 1];
      assert op in ops && forall x :: x in b ==> x in ops;
      JoinMoves(o, b, gid, now);
      JoinCommutes(RunRow(o, b), op.u, gid, now);
      hide RowStep;
      assert ([j] + ops)[..|ops|] == [j] + b && (b + [j])[..|b|] == b && (ops + [j])[..|ops|] == ops;
    }
  }

  /** The messages of this group, as sendMsg logs them. */
  ghost predicate SoundFor(msgs: seq<Msg>, gid: int64) {
    forall m :: m in msgs && m.convId == GroupId(gid) ==> m.convType == CONV_TYPE_GROUP && m.seqNo >= 0
  }

  /** What a flush writes to a row of the group. */
  lemma FlushOps(o: Oracle, t: nat, msgs: seq<Msg>, gid: int64, uid: int64)
    requires Fair(o) && gid > 0 && SoundFor(msgs, gid)
    ensures GroupRows(OpsAt(Flush(o, t, msgs).trace, (uid, GroupId(gid))), gid)
  {
    hide Retry;
    hide OwnedBy;
    hide RowsFor;
    hide GroupId;
    var e, k := Flush(o, t, msgs), (uid, GroupId(gid));
    RetryOwn(o, t, msgs, STORE_MAX_RETRY);
    OpsAtMembers(e.trace, k);
    forall op | op in OpsAt(e.trace, k)
      ensures op.Up? && op.u.convType == 2 && op.u.target == gid && op.u.seqNo >= 0
    {
      var st :| st in e.trace && op in OpsOf(st, k);
      assert Mine(o, msgs, st);
      UpsAtMembers(st.ups, k);
      OwnedIsGroupRow(msgs, op.u, gid);
    }
  }

  lemma OwnedIsGroupRow(msgs: seq<Msg>, u: Upsert, gid: int64)
    requires OwnedBy(msgs, u) && u.conv == GroupId(gid) && gid > 0 && SoundFor(msgs, gid)
    ensures u.convType == 2 && u.target == gid && u.seqNo >= 0
  {
    hide GroupId;
    hide ParseGroup;
    hide ParseP2P;
    GroupRoundTrip(gid);
    var m :| m in msgs && OwnUp(m, u);
    assert m.convId == u.conv;
    GroupRowOf(m, gid, [u.uid], 0);
  }

  /** Whenever the join row of a member is created while a flush runs, between any two of its statements,
      before the first or after the last, the database is the same, all columns of all rows. */
  lemma JoinPassesFlush(db: Db, o: Oracle, t: nat, msgs: seq<Msg>, uid: int64, gid: int64, now: int, i: nat)
    requires ValidDb(db) && Fair(o) && gid > 0 && SoundFor(msgs, gid) && i <= |Flush(o, t, msgs).trace|
    ensures var trace, join := Flush(o, t, msgs).trace, [JoinRow(uid, GroupId(gid), gid, now)];
            ApplyAll(db, trace[..i] + join + trace[i..]) == ApplyAll(db, join + trace)
  {
    hide Flush;
    hide GroupId;
    hide ApplyAll;
    hide RunRow;
    hide OpsAt;
    hide RowsAt;
    var trace, join := Flush(o, t, msgs).trace, [JoinRow(uid, GroupId(gid), gid, now)];
    var a, b, k0 := trace[..i], trace[i..], (uid, GroupId(gid));
    assert a + b == trace;
    FlushOps(o, t, msgs, gid, uid);
    forall s: Shard | true
      ensures RowsAt(a + join + b, s) == RowsAt(join + trace, s)
    {
      RowsAtAppend(a + join, b, s);
      RowsAtAppend(a, join, s);
      RowsAtAppend(join, trace, s);
      RowsAtAppend(a, b, s);
      JoinOps(join[0], s, k0);
    }
    forall k: ConvKey | true
      ensures RunRow(Find(db.convs, k), OpsAt(a + join + b, k)) == RunRow(Find(db.convs, k), OpsAt(join + trace, k))
    {
      OpsAtAppend(a + join, b, k);
      OpsAtAppend(a, join, k);
      OpsAtAppend(join, trace, k);
      OpsAtAppend(a, b, k);
      JoinOps(join[0], 0, k);
      var x, y, j := OpsAt(a, k), OpsAt(b, k), OpsAt(join, k);
      if k == k0 {
        assert forall op :: op in x ==> op in x + y;
        JoinMoves(Find(db.convs, k), x, gid, now);
        RunRowAppend(Find(db.convs, k), x + j, y);
        RunRowAppend(Find(db.convs, k), j + x, y);
        assert j + (x + y) == j + x + y;
      } else {
        assert x + j + y == j + (x + y);
      }
    }
    SameRuns(db, a + join + b, join + trace);
  }

  lemma JoinOps(st: Stmt, s: Shard, k: ConvKey)
    requires st.JoinRow?
    ensures RowsAt([st], s) == []
    ensures OpsAt([st], k) == if (st.uid, st.conv) == k then [Joined(st.gid, st.now)] else []
  {
    assert [st][..0] == [];
  }
}
