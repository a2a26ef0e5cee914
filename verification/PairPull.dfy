/** Why a pull of a one-to-one conversation may read last_seq from the row of the lower uid: both rows are
    written by the same statements, so they exist together and have the same last_seq. */
module PairPull {
  import opened Common
  import opened Conv
  import opened Messages
  import opened Sql
  import opened Trace
  import opened Store
  import opened StoreFacts
  import opened StoreWorkers
  import opened Pipeline
  import opened EndToEnd
  import opened Statements
  import opened Sync
  import opened CatchUp
  import Closing
  import Retries

  /** The seqs upserted, in order. */
  function UpSeqs(ops: seq<RowOp>): seq<int> {
    if ops == [] then []
    else UpSeqs(ops[..|ops| - 1]) + if ops[|ops| - 1].Up? then [ops[|ops| - 1].u.seqNo] else []
  }

  ghost predicate NoJoins(ops: seq<RowOp>) { forall op :: op in ops ==> !op.Joined? }

  function LastOf(seqs: seq<int>): Option<int> {
    if seqs == [] then None
    else
      var n := seqs[|seqs| - 1];
      match LastOf(seqs[..|seqs| - 1])
      case None => Some(n)
      case Some(x) => Some(Max(x, n))
  }

  /** Reads do not matter for last_seq. */
  lemma {:induction false} LastSeqFrom(ops: seq<RowOp>)
    requires NoJoins(ops)
    ensures var o := RunRow(None, ops); LastOf(UpSeqs(ops)) == if o.Some? then Some(o.value.lastSeq) else None
  {
    if ops != [] {
      var b, op := ops[..|ops| - 1], ops[|ops| - 1];
      assert op in ops && forall x :: x in b ==> x in ops;
      LastSeqFrom(b);
      if op.Up? {
        assert UpSeqs(ops)[..|UpSeqs(ops)| - 1] == UpSeqs(b);
      } else {
        assert UpSeqs(ops) == UpSeqs(b);
      }
    }
  }

  lemma {:induction false} UpSeqsAppend(a: seq<RowOp>, b: seq<RowOp>)
    ensures UpSeqs(a + b) == UpSeqs(a) + UpSeqs(b)
  {
    if b == [] {
      assert a + b == a;
    } else {
      UpSeqsAppend(a, b[..|b| - 1]);
      assert (a + b)[..|a + b| - 1] == a + b[..|b| - 1];
    }
  }

  // ---------------------------------------------------------------- the two rows get the same seqs

  /** The rows of both users of conv are offered the same seqs, and no join row. */
  ghost predicate Twins(x: seq<RowOp>, y: seq<RowOp>) { UpSeqs(x) == UpSeqs(y) && NoJoins(x) && NoJoins(y) }

  lemma TwoRows(m: Msg, conv: string, a: int64, b: int64)
    requires ParseP2P(conv) == Some((a, b)) && PairUps(m).Some?
    ensures var two := PairUps(m).value; Twins(UpsAt(two, (a, conv)), UpsAt(two, (b, conv)))
  {
    hide ParseP2P;
    var two := PairUps(m).value;
    assert two[..1] == [two[0]] && [two[0]][..0] == [];
    assert UpsAt(two[..1], (a, conv)) == if m.convId == conv then [Up(two[0])] else [];
    assert UpsAt(two[..1], (b, conv)) == [];
    assert [Up(two[0])][..0] == [] && [Up(two[1])][..0] == [];
  }

  lemma TwinsAppend(x: seq<RowOp>, y: seq<RowOp>, x': seq<RowOp>, y': seq<RowOp>)
    requires Twins(x, y) && Twins(x', y')
    ensures Twins(x + x', y + y')
  {
    UpSeqsAppend(x, x');
    UpSeqsAppend(y, y');
  }

  lemma {:induction false} PairTwins(msgs: seq<Msg>, conv: string, a: int64, b: int64)
    requires ParseP2P(conv) == Some((a, b)) && P2PUps(msgs).Some?
    ensures var ups := P2PUps(msgs).value; Twins(UpsAt(ups, (a, conv)), UpsAt(ups, (b, conv)))
  {
    hide ParseP2P;
    hide PairUps;
    hide UpsAt;
    hide Twins;
    if msgs == [] {
      NoTwins(a, b, conv);
    } else {
      var before, two := P2PUps(msgs[..|msgs| - 1]).value, PairUps(msgs[|msgs| - 1]).value;
      PairTwins(msgs[..|msgs| - 1], conv, a, b);
      TwoRows(msgs[|msgs| - 1], conv, a, b);
      UpsAtAppend(before, two, (a, conv));
      UpsAtAppend(before, two, (b, conv));
      TwinsAppend(UpsAt(before, (a, conv)), UpsAt(before, (b, conv)), UpsAt(two, (a, conv)), UpsAt(two, (b, conv)));
    }
  }

  lemma NoTwins(a: int64, b: int64, conv: string)
    ensures Twins(UpsAt([], (a, conv)), UpsAt([], (b, conv))) && Twins([], [])
  {
  }

  lemma GroupElsewhere(o: Oracle, ups: seq<Upsert>, conv: string, uid: int64)
    requires GroupStmt(o, ups) && ParseP2P(conv).Some?
    ensures UpsAt(ups, (uid, conv)) == []
  {
    hide ParseP2P;
    hide ParseGroup;
    KindsDisjoint(conv);
    var m, t: nat, gid: int64 :| ForMembers(o, ups, m, t, gid);
    assert forall u :: u in ups ==> u.conv == m.convId;
    Retries.NoneAt(ups, (uid, conv));
  }

  lemma StmtTwins(o: Oracle, st: Stmt, conv: string, a: int64, b: int64)
    requires Built(o, st) && ParseP2P(conv) == Some((a, b))
    ensures Twins(OpsOf(st, (a, conv)), OpsOf(st, (b, conv)))
  {
    hide ParseP2P;
    hide ParseGroup;
    hide GroupStmt;
    hide GroupId;
    NoTwins(a, b, conv);
    match st
    case UpsertConvs(ups) =>
      if PairStmt(ups) {
        var msgs :| P2PUps(msgs) == Some(ups);
        PairTwins(msgs, conv, a, b);
      } else {
        GroupElsewhere(o, ups, conv, a);
        GroupElsewhere(o, ups, conv, b);
      }
    case JoinRow(uid, g, gid, _) =>
      GroupRoundTrip(gid);
      KindsDisjoint(conv);
    case MarkRead(uid, c, upTo, now) =>
      ReadTwins(upTo, now);
    case _ =>
  }

  lemma ReadTwins(upTo: int, now: int)
    ensures Twins([Read(upTo, now)], [Read(upTo, now)]) && Twins([], [Read(upTo, now)]) && Twins([Read(upTo, now)], [])
  {
    assert [Read(upTo, now)][..0] == [];
    assert UpSeqs([Read(upTo, now)]) == [];
  }

  lemma {:induction false} TraceTwins(o: Oracle, sts: seq<Stmt>, conv: string, a: int64, b: int64)
    requires AllBuilt(o, sts) && ParseP2P(conv) == Some((a, b))
    ensures Twins(OpsAt(sts, (a, conv)), OpsAt(sts, (b, conv)))
  {
    hide ParseP2P;
    hide Twins;
    hide OpsOf;
    hide Built;
    if sts == [] {
      NoTwins(a, b, conv);
    } else {
      var before, st := sts[..|sts| - 1], sts[|sts| - 1];
      assert st in sts && forall x :: x in before ==> x in sts;
      TraceTwins(o, before, conv, a, b);
      StmtTwins(o, st, conv, a, b);
      TwinsAppend(OpsAt(before, (a, conv)), OpsAt(before, (b, conv)), OpsOf(st, (a, conv)), OpsOf(st, (b, conv)));
    }
  }

  // ---------------------------------------------------------------- main results

  /** In every reachable state the rows of the two users of a conversation exist together and have the same
      last_seq, whatever failed, crashed or was retried, and whatever each of them has read. */
  lemma TwinRows(env: Env, steps: seq<Step>, a: int64, b: int64)
    requires a != b
    ensures var convs, conv := ApplyAll(EMPTY, EndToEnd.Run(env, steps).job.done.trace).convs, P2PId(a, b);
            && ((a, conv) in convs <==> (b, conv) in convs)
            && ((a, conv) in convs ==> convs[(a, conv)].lastSeq == convs[(b, conv)].lastSeq)
  {
    hide P2PId;
    hide ParseP2P;
    hide ApplyAll;
    hide OpsAt;
    hide RunRow;
    hide EndToEnd.Run;
    hide AllBuilt;
    hide UpSeqs;
    P2PRoundTrip(a, b);
    var trace, conv := EndToEnd.Run(env, steps).job.done.trace, P2PId(a, b);
    var lo, hi := if a < b then a else b, if a < b then b else a;
    RunBuilt(env, steps);
    TraceTwins(env.o, trace, conv, lo, hi);
    LastSeqFrom(OpsAt(trace, (lo, conv)));
    LastSeqFrom(OpsAt(trace, (hi, conv)));
    RowProjection(EMPTY, trace, (lo, conv));
    RowProjection(EMPTY, trace, (hi, conv));
  }

  /** So a pull by either user reports that user's own last_seq, and 0 while there is no row. */
  lemma PullReportsOwnSeq(env: Env, steps: seq<Step>, uid: int64, peer: int64)
    requires uid != peer
    ensures var db, k := ApplyAll(EMPTY, EndToEnd.Run(env, steps).job.done.trace), (uid, P2PId(uid, peer));
            MaxSeqOf(db, k.1) == if k in db.convs then db.convs[k].lastSeq else 0
  {
    hide ApplyAll;
    hide EndToEnd.Run;
    hide MaxSeqOf;
    P2PRoundTrip(uid, peer);
    hide P2PId;
    hide ParseP2P;
    var db := ApplyAll(EMPTY, EndToEnd.Run(env, steps).job.done.trace);
    TwinRows(env, steps, uid, peer);
    if uid < peer {
      MaxSeqOfPair(db, uid, peer);
    } else {
      MaxSeqOfPair(db, peer, uid);
    }
  }

  lemma LowerTarget(t: Table, conv: string, from: int, target0: int, x: int, p: Pass)
    requires Caught(t, conv, from, target0, p) && x <= p.target
    ensures Caught(t, conv, from, x, p)
  {
    hide Seen;
    hide AllSeen;
  }

  /** A brief that is out of date does no harm: whatever target the client was told for a one-to-one
      conversation, one response that reports max_seq makes an undisturbed pass reach the user's present
      last_seq, so that after its ack the conversation is not pending. */
  lemma StaleBriefCloses(env: Env, steps: seq<Step>, uid: int64, peer: int64, from: int, net: Net, cv: Brief,
                         a: nat, b: nat, n: nat, p: Pass, now: int)
    requires Fair(env.o) && UniqueIds(Requests(steps)) && uid > 0 && uid != peer && cv.conv == P2PId(uid, peer)
    requires var db := ApplyAll(EMPTY, EndToEnd.Run(env, steps).job.done.trace);
             && (uid, cv.conv) in db.convs && !p.lost && p.clean
             && Caught(db.tables[env.o.shard(cv.conv)], cv.conv, from, cv.maxSeq, p)
             && p.target == Raised(db, uid, net, cv, a, b)
    requires a <= n < b && net.reply(n) && Answers(uid, cv.conv, net, n) && net.get(n)
    ensures var sts := EndToEnd.Run(env, steps).job.done.trace;
            var db' := Closing.Acked(ApplyAll(EMPTY, sts), uid, cv.conv, p.local, now);
            && (uid, cv.conv) in db'.convs && !Pending(db', uid, cv.conv)
            && (AppliedOnce(OpsAt(sts, (uid, cv.conv))) ==> db'.convs[(uid, cv.conv)].unread == 0)
  {
    var db := ApplyAll(EMPTY, EndToEnd.Run(env, steps).job.done.trace);
    NamedPair(uid, peer);
    hide *;
    PullReportsOwnSeq(env, steps, uid, peer);
    RaisedIs(db, uid, net, cv, a, b);
    ReportedIs(db, uid, cv.conv, net, n);
    LowerTarget(db.tables[env.o.shard(cv.conv)], cv.conv, from, cv.maxSeq, db.convs[(uid, cv.conv)].lastSeq, p);
    Closing.SystemCatchUpCloses(env, steps, uid, cv.conv, from, p, now);
  }

  lemma NamedPair(a: int64, b: int64)
    ensures P2PId(a, b) != ""
  {
  }
}
