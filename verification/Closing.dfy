/** Catch-up closes a conversation: the store's cursors, the paging loop and the read cursor together. */
module Closing {
  import opened Common
  import opened Conv
  import opened Messages
  import opened Sql
  import opened Trace
  import opened Store
  import opened Cursors
  import opened Sync
  import opened CatchUp
  import Pipeline
  import EndToEnd

  lemma {:induction false} ReadSeqNonNegative(ops: seq<RowOp>)
    ensures ReadSeqOf(RunRow(None, ops)) >= 0
  {
    if ops != [] {
      ReadSeqNonNegative(ops[..|ops| - 1]);
    }
  }

  lemma {:induction false} AppliedNonNegative(ops: seq<RowOp>)
    requires AppliedOnce(ops)
    ensures NonNegative(ops)
  {
    if ops != [] {
      AppliedNonNegative(ops[..|ops| - 1]);
      ReadSeqNonNegative(ops[..|ops| - 1]);
    }
  }

  /** A row whose cursor has caught up shows no unread message. */
  lemma CaughtUpUnreadZero(ops: seq<RowOp>)
    requires AppliedOnce(ops) && RunRow(None, ops).Some?
    requires RunRow(None, ops).value.lastSeq <= RunRow(None, ops).value.readSeq
    ensures RunRow(None, ops).value.unread == 0
  {
    hide RunRow;
    hide AppliedOnce;
    hide SeqsOf;
    hide Inbound;
    AppliedNonNegative(ops);
    LastSeqIsMax(ops);
    InboundIsOffered(ops);
    UnreadNeverOverReports(ops);
    assert Above(Inbound(ops), RunRow(None, ops).value.readSeq) == {};
  }

  /** An undisturbed pass towards last_seq reaches it. */
  lemma PassReaches(t: Table, conv: string, from: int, x: int, p: Pass)
    requires Keyed(t) && Caught(t, conv, from, x, p) && !p.lost && p.clean && (conv, x) in t
    ensures p.local >= x
  {
    hide Scan;
    hide PulledAll;
    if p.local < p.target {
      var all, r := Scan(t, conv, from), t[(conv, x)];
      SlotSeq(t, conv, x);
      ScanMembers(t, conv, from);
      if x > from {
        assert RowAbove(t, conv, from, r);
        var i :| 0 <= i < |all| && all[i] == r;
        Behind(t, conv, from, p, i);
      } else if |all| > 0 {
        LastIsHighest(t, conv, from, 0, |all| - 1);
      }
    }
  }

  /** The database after the received-ack of a pass. */
  function Acked(db: Db, uid: int64, conv: string, local: int, now: int): (db': Db)
    requires ValidDb(db)
    ensures ValidDb(db')
  {
    if local > 0 then AfterAck(db, uid, conv, local, now) else db
  }

  lemma AckTrace(sts: seq<Stmt>, uid: int64, conv: string, local: int, now: int) returns (sts': seq<Stmt>)
    requires uid > 0 && conv != ""
    ensures Acked(ApplyAll(EMPTY, sts), uid, conv, local, now) == ApplyAll(EMPTY, sts')
    ensures OpsAt(sts', (uid, conv)) == OpsAt(sts, (uid, conv)) + if local > 0 then [Read(local, now)] else []
  {
    if local > 0 {
      var st := MarkRead(uid, conv, local, now);
      ApplySnoc(EMPTY, sts, st);
      sts' := sts + [st];
      assert sts'[..|sts|] == sts;
    } else {
      sts' := sts;
    }
  }

  /** Reading up to last_seq closes the row. */
  lemma ReadCloses(ops: seq<RowOp>, ops': seq<RowOp>, local: int, now: int)
    requires RunRow(None, ops).Some? && (local >= RunRow(None, ops).value.lastSeq || RunRow(None, ops).value.lastSeq == 0)
    requires ops' == ops + if local > 0 then [Read(local, now)] else []
    ensures RunRow(None, ops').Some?
    ensures RunRow(None, ops').value.lastSeq <= RunRow(None, ops').value.readSeq
    ensures AppliedOnce(ops) ==> RunRow(None, ops').value.unread == 0
  {
    ReadSeqNonNegative(ops);
    if local > 0 {
      assert ops'[..|ops|] == ops;
    } else {
      assert ops' == ops;
    }
    assert AppliedOnce(ops) ==> AppliedOnce(ops');
    if AppliedOnce(ops) {
      CaughtUpUnreadZero(ops');
    }
  }

  /** After a finished catch-up towards the last_seq it was told, and its received-ack, with no new
      messages meanwhile, the conversation is no longer pending; if each message was applied once, it
      shows no unread message either. */
  lemma CatchUpCloses(shard: string -> Shard, sts: seq<Stmt>, uid: int64, conv: string, from: int, p: Pass, now: int)
    requires uid > 0 && conv != ""
    requires var db := ApplyAll(EMPTY, sts);
             && (uid, conv) in db.convs && CursorValid(shard, db) && !p.lost && p.clean
             && Caught(db.tables[shard(conv)], conv, from, db.convs[(uid, conv)].lastSeq, p)
    ensures var db' := Acked(ApplyAll(EMPTY, sts), uid, conv, p.local, now);
            && (uid, conv) in db'.convs && !Pending(db', uid, conv)
            && (AppliedOnce(OpsAt(sts, (uid, conv))) ==> db'.convs[(uid, conv)].unread == 0)
  {
    hide Caught;
    hide ApplyAll;
    hide OpsAt;
    hide Acked;
    hide AppliedOnce;
    hide RunRow;
    var db, k := ApplyAll(EMPTY, sts), (uid, conv);
    var x := db.convs[k].lastSeq;
    TablesKeyed(sts, shard(conv));
    if (conv, x) in db.tables[shard(conv)] {
      PassReaches(db.tables[shard(conv)], conv, from, x, p);
    }
    assert p.local >= x || x == 0;
    var sts' := AckTrace(sts, uid, conv, p.local, now);
    FindRow(sts, k);
    FindRow(sts', k);
    ReadCloses(OpsAt(sts, k), OpsAt(sts', k), p.local, now);
  }

  lemma FindRow(sts: seq<Stmt>, k: ConvKey)
    ensures Find(ApplyAll(EMPTY, sts).convs, k) == RunRow(None, OpsAt(sts, k))
  {
    RowProjection(EMPTY, sts, k);
  }

  /** The same over whole runs of the system: whatever sends, retries, partial failures, dead letters and
      crashes led to the present state. */
  lemma SystemCatchUpCloses(env: Pipeline.Env, steps: seq<EndToEnd.Step>, uid: int64, conv: string, from: int, p: Pass, now: int)
    requires Fair(env.o) && EndToEnd.UniqueIds(EndToEnd.Requests(steps)) && uid > 0 && conv != ""
    requires var db := ApplyAll(EMPTY, EndToEnd.Run(env, steps).job.done.trace);
             && (uid, conv) in db.convs && !p.lost && p.clean
             && Caught(db.tables[env.o.shard(conv)], conv, from, db.convs[(uid, conv)].lastSeq, p)
    ensures var sts := EndToEnd.Run(env, steps).job.done.trace;
            var db' := Acked(ApplyAll(EMPTY, sts), uid, conv, p.local, now);
            && (uid, conv) in db'.convs && !Pending(db', uid, conv)
            && (AppliedOnce(OpsAt(sts, (uid, conv))) ==> db'.convs[(uid, conv)].unread == 0)
  {
    hide *;
    EndToEnd.SystemCursorsValid(env, steps);
    CatchUpCloses(env.o.shard, EndToEnd.Run(env, steps).job.done.trace, uid, conv, from, p, now);
  }
}
