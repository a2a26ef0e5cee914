/** Cursor sync as internal/logic/sync.go serves it: a page of one conversation above a cursor, the list
    of pending conversations, and the read cursor. */
module Sync {
  import opened Common
  import opened Decimal
  import opened Conv
  import opened Messages
  import opened Sql
  import opened Trace
  import opened Store

  const SYNC_MAX_LIMIT := 100
  const CODE_OK := 0
  const CODE_BAD_PARAM := 40201
  const CODE_REDIS_ERR := 50202

  function Distance(a: int, b: int): nat { if a <= b then b - a else a - b }

  /** The admissible page size nearest to what the client asked for. */
  function ClampLimit(n: int): (r: nat)
    ensures 1 <= r <= SYNC_MAX_LIMIT
    ensures forall k :: 1 <= k <= SYNC_MAX_LIMIT ==> Distance(n, r) <= Distance(n, k)
  {
    if n < 1 then 1 else if n > SYNC_MAX_LIMIT then SYNC_MAX_LIMIT else n
  }

  // ---------------------------------------------------------------- the ordered scan

  /** Rows sit under their own (conversation, seq). */
  ghost predicate Keyed(t: Table) { forall k :: k in t ==> Slot(t[k]) == k }

  lemma {:induction false} InsertKeyed(t: Table, rows: seq<MsgRow>)
    requires Keyed(t)
    ensures Keyed(InsertRows(t, rows))
  {
    if rows != [] {
      InsertKeyed(t, rows[..|rows| - 1]);
    }
  }

  /** Every table a run can produce is keyed. */
  lemma TablesKeyed(sts: seq<Stmt>, s: Shard)
    ensures Keyed(ApplyAll(EMPTY, sts).tables[s])
  {
    hide RowsAt;
    TableProjection(EMPTY, sts, s);
    InsertKeyed(map[], RowsAt(sts, s));
  }

  function SeqsAbove(t: Table, conv: string, after: int): set<int> {
    set k | k in t && k.0 == conv && k.1 > after :: k.1
  }

  lemma EmptyOrNot(s: set<int>)
    ensures s == {} || exists y :: y in s
  {
    if forall y :: y !in s {
      assert s == {};
    }
  }

  lemma {:induction false} HasLeast(s: set<int>)
    requires s != {}
    ensures exists m :: m in s && forall x :: x in s ==> m <= x
    decreases |s|
  {
    EmptyOrNot(s);
    var y :| y in s;
    if s - {y} != {} {
      HasLeast(s - {y});
      var m :| m in s - {y} && forall x :: x in s - {y} ==> m <= x;
      assert forall x :: x in s ==> x == y || x in s - {y};
      var least := if m <= y then m else y;
      assert least in s && forall x :: x in s ==> least <= x;
    } else {
      assert forall x :: x in s ==> x == y || x in s - {y};
      assert forall x :: x in s ==> y <= x;
    }
  }

  function Lowest(s: set<int>): (m: int)
    requires s != {}
    ensures m in s && forall x :: x in s ==> m <= x
  {
    HasLeast(s);
    var m :| m in s && forall x :: x in s ==> m <= x;
    m
  }

  lemma AboveShrinks(t: Table, conv: string, after: int, n: int)
    requires n in SeqsAbove(t, conv, after)
    ensures SeqsAbove(t, conv, n) < SeqsAbove(t, conv, after)
    ensures |SeqsAbove(t, conv, n)| < |SeqsAbove(t, conv, after)|
  {
    var big, small := SeqsAbove(t, conv, after), SeqsAbove(t, conv, n);
    assert n !in small && small <= big;
    assert small <= big - {n};
    SubsetSize(small, big - {n});
  }

  lemma {:induction false} SubsetSize(a: set<int>, b: set<int>)
    requires a <= b
    ensures |a| <= |b|
  {
    if a != {} {
      EmptyOrNot(a);
      var x :| x in a;
      SubsetSize(a - {x}, b - {x});
    }
  }

  /** SELECT .. WHERE conv_id = ? AND seq > ? ORDER BY seq. */
  function Scan(t: Table, conv: string, after: int): seq<MsgRow>
    decreases |SeqsAbove(t, conv, after)|
  {
    if SeqsAbove(t, conv, after) == {} then []
    else
      var n := Lowest(SeqsAbove(t, conv, after));
      AboveShrinks(t, conv, after, n);
      [t[(conv, n)]] + Scan(t, conv, n)
  }

  function Page(t: Table, conv: string, after: int, limit: nat): seq<MsgRow> {
    var rows := Scan(t, conv, after);
    if |rows| <= limit then rows else rows[..limit]
  }

  /** A page is as long as it can be: the first limit rows of the scan, or all if there are fewer. */
  lemma PageIsFull(t: Table, conv: string, after: int, limit: nat)
    ensures var page, all := Page(t, conv, after, limit), Scan(t, conv, after);
            && page <= all && |page| <= limit && (|page| == limit || page == all)
  {
    hide Scan;
  }

  /** Row r belongs to the conversation and lies above the cursor. */
  ghost predicate RowAbove(t: Table, conv: string, after: int, r: MsgRow) {
    (conv, r.seqNo) in t && t[(conv, r.seqNo)] == r && r.seqNo > after
  }

  lemma {:induction false} ScanMembers(t: Table, conv: string, after: int)
    requires Keyed(t)
    ensures forall r :: r in Scan(t, conv, after) <==> RowAbove(t, conv, after, r)
    decreases |SeqsAbove(t, conv, after)|
  {
    var all := SeqsAbove(t, conv, after);
    if all == {} {
      assert forall r :: RowAbove(t, conv, after, r) ==> r.seqNo in all;
    } else {
      var n := Lowest(all);
      AboveShrinks(t, conv, after, n);
      ScanMembers(t, conv, n);
      assert Slot(t[(conv, n)]) == (conv, n);
      forall r
        ensures RowAbove(t, conv, after, r) <==> r == t[(conv, n)] || RowAbove(t, conv, n, r)
      {
        if RowAbove(t, conv, after, r) {
          assert r.seqNo in all;
        }
      }
    }
  }

  /** Strictly ascending, so each row once. */
  lemma {:induction false} ScanAscends(t: Table, conv: string, after: int, i: nat, j: nat)
    requires Keyed(t) && i < j < |Scan(t, conv, after)|
    ensures after < Scan(t, conv, after)[i].seqNo < Scan(t, conv, after)[j].seqNo
    decreases |SeqsAbove(t, conv, after)|
  {
    hide Slot;
    var n := Lowest(SeqsAbove(t, conv, after));
    var rest := Scan(t, conv, n);
    AboveShrinks(t, conv, after, n);
    assert Scan(t, conv, after) == [t[(conv, n)]] + rest;
    SlotSeq(t, conv, n);
    if i > 0 {
      ScanAscends(t, conv, n, i - 1, j - 1);
    } else {
      ScanMembers(t, conv, n);
      assert rest[j - 1] in rest;
    }
  }

  lemma SlotSeq(t: Table, conv: string, n: int)
    requires Keyed(t) && (conv, n) in t
    ensures t[(conv, n)].seqNo == n && t[(conv, n)].conv == conv
  {
  }

  /** Going on from the last row seen is going on with the rest of the scan. */
  lemma {:induction false} ScanResumes(t: Table, conv: string, after: int, k: nat)
    requires Keyed(t) && 0 < k <= |Scan(t, conv, after)|
    ensures Scan(t, conv, Scan(t, conv, after)[k - 1].seqNo) == Scan(t, conv, after)[k..]
    decreases k
  {
    var n := Lowest(SeqsAbove(t, conv, after));
    AboveShrinks(t, conv, after, n);
    SlotSeq(t, conv, n);
    if k > 1 {
      ScanResumes(t, conv, n, k - 1);
    }
  }

  // ---------------------------------------------------------------- what a client gets back

  /** A stored row as a message again; conv_type is always 1. */
  function Pulled(r: MsgRow): Msg {
    Msg(FormatInt(r.id), r.conv, 1, r.sender, r.msgType, r.payload, r.seqNo, r.createdAt)
  }

  function PulledAll(rows: seq<MsgRow>): seq<Msg> { seq(|rows|, i requires 0 <= i < |rows| => Pulled(rows[i])) }

  /** Storing and pulling gives the message back, save that a group message comes back as one-to-one. */
  lemma StoreThenPull(m: Msg, id: int64)
    requires m.msgId == FormatInt(id) && id >= 0
    ensures RowOf(m).Some? && Pulled(RowOf(m).value) == m.(convType := CONV_TYPE_P2P)
  {
    ParseUintFormat(id);
  }

  /** The columns under which a message is stored: its own, and status 0. */
  lemma StoredColumns(m: Msg, id: int64)
    requires m.msgId == FormatInt(id) && id >= 0
    ensures RowOf(m) == Some(MsgRow(id, m.convId, m.seqNo, m.senderId, m.msgType, m.payload, 0, m.timestamp))
  {
    ParseUintFormat(id);
  }

  /** The row max_seq is read from: that of the lower uid, and of uid 0 for a group. */
  function MemberUid(conv: string): int64 {
    match ParseP2P(conv)
    case Some((a, _)) => a
    case None => 0
  }

  function MaxSeqOf(db: Db, conv: string): int {
    var row := Find(db.convs, (MemberUid(conv), conv));
    if row.Some? then row.value.lastSeq else 0
  }

  /** checkSyncMember; isMember None stands for a failed lookup. */
  predicate MayPull(uid: int64, conv: string, isMember: Option<bool>) {
    if ParseGroup(conv).Some? then isMember == Some(true)
    else
      match ParseP2P(conv)
      case Some((a, b)) => uid == a || uid == b
      case None => false
  }

  /** Who may pull what: one of the two users of the pair, a member of the group, nobody otherwise. */
  lemma MayPullExactly(uid: int64, conv: string, isMember: Option<bool>)
    ensures forall a: int64, b: int64 :: a != b && conv == P2PId(a, b) ==> (MayPull(uid, conv, isMember) <==> uid == a || uid == b)
    ensures forall gid: int64 :: gid > 0 && conv == GroupId(gid) ==> (MayPull(uid, conv, isMember) <==> isMember == Some(true))
    ensures ParseP2P(conv).None? && ParseGroup(conv).None? ==> !MayPull(uid, conv, isMember)
  {
    hide P2PId;
    hide GroupId;
    hide ParseP2P;
    hide ParseGroup;
    KindsDisjoint(conv);
    forall a: int64, b: int64 | a != b && conv == P2PId(a, b)
      ensures MayPull(uid, conv, isMember) <==> uid == a || uid == b
    {
      P2PRoundTrip(a, b);
    }
    forall gid: int64 | gid > 0 && conv == GroupId(gid)
      ensures MayPull(uid, conv, isMember) <==> isMember == Some(true)
    {
      GroupRoundTrip(gid);
    }
  }

  /** For a pair, max_seq is the last_seq of the row of its lower uid, and 0 if there is no such row. */
  lemma MaxSeqOfPair(db: Db, a: int64, b: int64)
    requires a < b
    ensures var k := (a, P2PId(a, b)); MaxSeqOf(db, k.1) == if k in db.convs then db.convs[k].lastSeq else 0
  {
    P2PRoundTrip(a, b);
    hide P2PId;
    hide ParseP2P;
  }

  datatype Brief = Brief(conv: string, convType: int, maxSeq: int, unread: int)

  predicate Pending(db: Db, uid: int64, conv: string) {
    (uid, conv) in db.convs && db.convs[(uid, conv)].lastSeq > db.convs[(uid, conv)].readSeq
  }

  function BriefOf(db: Db, uid: int64, conv: string): Brief
    requires (uid, conv) in db.convs
  {
    var row := db.convs[(uid, conv)];
    Brief(conv, row.convType, row.lastSeq, row.unread)
  }

  datatype Reply = Reply(code: int, msgs: seq<Msg>, maxSeq: int)

  class SyncServer {
    const shard: string -> Shard
    var db: Db

    constructor (shard: string -> Shard, db: Db)
      requires ValidDb(db)
      ensures this.shard == shard && this.db == db
    {
      this.shard, this.db := shard, db;
    }

    /** PullMessages: a failed SELECT is an error, a failed read of last_seq counts as 0. */
    method PullMessages(conv: string, after: int, limit: nat, selectOk: bool, getOk: bool)
      returns (r: Option<(seq<Msg>, int)>)
      requires ValidDb(db)
      ensures r == if selectOk then
                     Some((PulledAll(Page(db.tables[shard(conv)], conv, after, limit)), if getOk then MaxSeqOf(db, conv) else 0))
                   else None
      ensures forall a: int64, b: int64 :: a < b && conv == P2PId(a, b) && r.Some? && getOk ==>
                r.value.1 == if (a, conv) in db.convs then db.convs[(a, conv)].lastSeq else 0
    {
      if !selectOk {
        return None;
      }
      forall a: int64, b: int64 | a < b && conv == P2PId(a, b)
        ensures MaxSeqOf(db, conv) == if (a, conv) in db.convs then db.convs[(a, conv)].lastSeq else 0
      {
        MaxSeqOfPair(db, a, b);
      }
      hide *;
      var rows := Page(db.tables[shard(conv)], conv, after, limit);
      var msgs: seq<Msg> := [];
      assert rows[..0] == [];
      NonePulled();
      for i := 0 to |rows|
        invariant msgs == PulledAll(rows[..i])
      {
        PulledSnoc(rows, i);
        msgs := msgs + [Pulled(rows[i])];
      }
      assert rows[..|rows|] == rows;
      r := Some((msgs, if getOk then MaxSeqOf(db, conv) else 0));
    }

    method SyncPull(uid: int64, conv: string, after: int, limit: int, isMember: Option<bool>, selectOk: bool, getOk: bool)
      returns (r: Reply)
      requires ValidDb(db)
      ensures r.code == CODE_OK <==> uid > 0 && MayPull(uid, conv, isMember) && selectOk
      ensures r.code != CODE_OK ==> r.msgs == [] && r.maxSeq == 0
      ensures r.code == CODE_OK ==>
                && r.msgs == PulledAll(Page(db.tables[shard(conv)], conv, after, ClampLimit(limit)))
                && r.maxSeq == if getOk then MaxSeqOf(db, conv) else 0
      ensures forall a: int64, b: int64 :: a != b && conv == P2PId(a, b) ==>
                (r.code == CODE_OK <==> uid > 0 && (uid == a || uid == b) && selectOk)
      ensures forall gid: int64 :: gid > 0 && conv == GroupId(gid) ==>
                (r.code == CODE_OK <==> uid > 0 && isMember == Some(true) && selectOk)
      ensures ParseP2P(conv).None? && ParseGroup(conv).None? ==> r.code == CODE_BAD_PARAM
      ensures r.code == CODE_BAD_PARAM || r.code == CODE_REDIS_ERR || r.code == CODE_OK
      ensures r.code == CODE_REDIS_ERR ==> !selectOk
      ensures forall a: int64, b: int64 :: a < b && conv == P2PId(a, b) && r.code == CODE_OK && getOk ==>
                r.maxSeq == if (a, conv) in db.convs then db.convs[(a, conv)].lastSeq else 0
    {
      MayPullExactly(uid, conv, isMember);
      hide MayPull;
      hide MaxSeqOf;
      hide P2PId;
      hide GroupId;
      hide ParseP2P;
      hide ParseGroup;
      hide Page;
      if uid <= 0 || !MayPull(uid, conv, isMember) {
        return Reply(CODE_BAD_PARAM, [], 0);
      }
      var got := PullMessages(conv, after, ClampLimit(limit), selectOk, getOk);
      r := match got
           case None => Reply(CODE_REDIS_ERR, [], 0)
           case Some((msgs, maxSeq)) => Reply(CODE_OK, msgs, maxSeq);
    }

    /** The pending conversations of a user, in whatever order the rows come. */
    method PendingConvs(uid: int64) returns (briefs: seq<Brief>)
      requires ValidDb(db)
      ensures forall b :: b in briefs <==> Pending(db, uid, b.conv) && b == BriefOf(db, uid, b.conv)
      ensures forall b :: b in briefs ==>
                && (uid, b.conv) in db.convs
                && var row := db.convs[(uid, b.conv)];
                   row.lastSeq > row.readSeq && b == Brief(b.conv, row.convType, row.lastSeq, row.unread)
      ensures forall i, j :: 0 <= i < j < |briefs| ==> briefs[i].conv != briefs[j].conv
    {
      var todo := set k | k in db.convs && k.0 == uid && db.convs[k].lastSeq > db.convs[k].readSeq :: k.1;
      ghost var all := todo;
      briefs := [];
      while todo != {}
        invariant todo <= all
        invariant forall b :: b in briefs <==> b.conv in all - todo && b == BriefOf(db, uid, b.conv)
        invariant forall i, j :: 0 <= i < j < |briefs| ==> briefs[i].conv != briefs[j].conv
        decreases |todo|
      {
        var conv :| conv in todo;
        assert forall i :: 0 <= i < |briefs| ==> briefs[i] in briefs;
        briefs := briefs + [BriefOf(db, uid, conv)];
        todo := todo - {conv};
      }
    }

    /** MarkRead of the service: bad arguments and failed updates are only logged. */
    method MarkRead(uid: int64, conv: string, upTo: int, now: int, outcome: Outcome)
      requires ValidDb(db)
      modifies this
      ensures ValidDb(db)
      ensures db == if outcome.Applied() then AfterAck(old(db), uid, conv, upTo, now) else old(db)
      ensures db != old(db) ==> uid > 0 && conv != "" && upTo >= 0
      ensures (uid, conv) !in old(db).convs || old(db).convs[(uid, conv)].readSeq >= upTo ==> db == old(db)
      ensures uid > 0 && conv != "" && (uid, conv) in old(db).convs && upTo >= 0 && old(db).convs[(uid, conv)].readSeq < upTo && outcome.Applied() ==>
                var row := old(db).convs[(uid, conv)];
                var left := row.unread - (upTo - row.readSeq);
                && db.tables == old(db).tables
                && db.convs == old(db).convs[(uid, conv) :=
                     ConvRow(row.convType, row.target, row.lastSeq, upTo, if left > 0 then left else 0, now)]
    {
      if (uid, conv) !in db.convs || db.convs[(uid, conv)].readSeq >= upTo {
        Unmoved(db, uid, conv, upTo, now);
      }
      if uid <= 0 || conv == "" || upTo < 0 {
        return;
      }
      if outcome.Applied() {
        db := Apply(db, Sql.MarkRead(uid, conv, upTo, now));
      }
    }
  }

  /** A read that is not ahead of the cursor, or meets no row, changes nothing. */
  lemma Unmoved(db: Db, uid: int64, conv: string, upTo: int, now: int)
    requires ValidDb(db) && ((uid, conv) !in db.convs || db.convs[(uid, conv)].readSeq >= upTo)
    ensures Apply(db, Sql.MarkRead(uid, conv, upTo, now)) == db
  {
    if (uid, conv) in db.convs {
      assert db.convs[(uid, conv) := db.convs[(uid, conv)]] == db.convs;
    }
  }

  lemma NonePulled()
    ensures PulledAll([]) == []
  {
  }

  lemma PulledSnoc(rows: seq<MsgRow>, i: nat)
    requires i < |rows|
    ensures PulledAll(rows[..i + 1]) == PulledAll(rows[..i]) + [Pulled(rows[i])]
  {
    hide Pulled;
  }

  function AfterAck(db: Db, uid: int64, conv: string, upTo: int, now: int): (db': Db)
    requires ValidDb(db)
    ensures ValidDb(db')
  {
    if uid <= 0 || conv == "" || upTo < 0 then db else Apply(db, Sql.MarkRead(uid, conv, upTo, now))
  }
}
