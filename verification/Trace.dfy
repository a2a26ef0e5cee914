/** Any interleaving of statements, seen from one message table or one conversation row: a table is
    changed only by the rows inserted into it, a row only by the operations on its key. */
module Trace {
  import opened Common
  import opened Sql

  // ---------------------------------------------------------------- projections

  datatype RowOp = Up(u: Upsert) | Joined(gid: int64, now: int) | Read(upTo: int, now: int)

  function RowStep(o: Option<ConvRow>, op: RowOp): Option<ConvRow> {
    match op
    case Up(u) => Some(UpsertRow(o, u))
    case Joined(gid, now) => if o.Some? then o else Some(ConvRow(2, gid, 0, 0, 0, now))
    case Read(upTo, now) => if o.Some? then Some(ReadRow(o.value, upTo, now)) else None
  }

  function RunRow(o: Option<ConvRow>, ops: seq<RowOp>): Option<ConvRow> {
    if ops == [] then o else RowStep(RunRow(o, ops[..|ops| - 1]), ops[|ops| - 1])
  }

  function UpsAt(ups: seq<Upsert>, k: ConvKey): seq<RowOp> {
    if ups == [] then []
    else UpsAt(ups[..|ups| - 1], k) + if KeyOf(ups[|ups| - 1]) == k then [Up(ups[|ups| - 1])] else []
  }

  function OpsOf(st: Stmt, k: ConvKey): seq<RowOp> {
    match st
    case InsertIgnore(_, _) => []
    case UpsertConvs(ups) => UpsAt(ups, k)
    case JoinRow(uid, conv, gid, now) => if (uid, conv) == k then [Joined(gid, now)] else []
    case MarkRead(uid, conv, upTo, now) => if (uid, conv) == k then [Read(upTo, now)] else []
  }

  /** The operations that reach row k, in order. */
  function OpsAt(sts: seq<Stmt>, k: ConvKey): seq<RowOp> {
    if sts == [] then [] else OpsAt(sts[..|sts| - 1], k) + OpsOf(sts[|sts| - 1], k)
  }

  function RowsOf(st: Stmt, s: Shard): seq<MsgRow> {
    if st.InsertIgnore? && st.shard == s then st.rows else []
  }

  /** The rows offered to table s, in order. */
  function RowsAt(sts: seq<Stmt>, s: Shard): seq<MsgRow> {
    if sts == [] then [] else RowsAt(sts[..|sts| - 1], s) + RowsOf(sts[|sts| - 1], s)
  }

  lemma {:induction false} RunRowAppend(o: Option<ConvRow>, a: seq<RowOp>, b: seq<RowOp>)
    ensures RunRow(o, a + b) == RunRow(RunRow(o, a), b)
  {
    if b == [] {
      assert a + b == a;
    } else {
      RunRowAppend(o, a, b[..|b| - 1]);
      assert (a + b)[..|a + b| - 1] == a + b[..|b| - 1];
    }
  }

  lemma {:induction false} UpsertAllAt(c: map<ConvKey, ConvRow>, ups: seq<Upsert>, k: ConvKey)
    ensures Find(UpsertAll(c, ups), k) == RunRow(Find(c, k), UpsAt(ups, k))
  {
    if ups != [] {
      UpsertAllAt(c, ups[..|ups| - 1], k);
      var last := ups[|ups| - 1];
      RunRowAppend(Find(c, k), UpsAt(ups[..|ups| - 1], k), if KeyOf(last) == k then [Up(last)] else []);
      assert KeyOf(last) == k ==> [Up(last)][..0] == [];
    }
  }

  lemma StmtAt(db: Db, st: Stmt, k: ConvKey)
    requires ValidDb(db)
    ensures Find(Apply(db, st).convs, k) == RunRow(Find(db.convs, k), OpsOf(st, k))
  {
    if st.UpsertConvs? {
      UpsertAllAt(db.convs, st.ups, k);
    } else if OpsOf(st, k) != [] {
      assert OpsOf(st, k)[..0] == [];
    }
  }

  /** A conversation row depends on nothing but the operations on its own key. */
  lemma {:induction false} RowProjection(db: Db, sts: seq<Stmt>, k: ConvKey)
    requires ValidDb(db)
    ensures Find(ApplyAll(db, sts).convs, k) == RunRow(Find(db.convs, k), OpsAt(sts, k))
  {
    if sts != [] {
      var before, last := sts[..|sts| - 1], sts[|sts| - 1];
      RowProjection(db, before, k);
      StmtAt(ApplyAll(db, before), last, k);
      RunRowAppend(Find(db.convs, k), OpsAt(before, k), OpsOf(last, k));
    }
  }

  /** A message table depends on nothing but the rows offered to it. */
  lemma {:induction false} TableProjection(db: Db, sts: seq<Stmt>, s: Shard)
    requires ValidDb(db)
    ensures ApplyAll(db, sts).tables[s] == InsertRows(db.tables[s], RowsAt(sts, s))
  {
    if sts != [] {
      var before, last := sts[..|sts| - 1], sts[|sts| - 1];
      TableProjection(db, before, s);
      InsertAppend(db.tables[s], RowsAt(before, s), RowsOf(last, s));
    }
  }

  lemma {:induction false} OpsAtAppend(a: seq<Stmt>, b: seq<Stmt>, k: ConvKey)
    ensures OpsAt(a + b, k) == OpsAt(a, k) + OpsAt(b, k)
  {
    hide OpsOf;
    if b == [] {
      assert a + b == a;
    } else {
      OpsAtAppend(a, b[..|b| - 1], k);
      assert (a + b)[..|a + b| - 1] == a + b[..|b| - 1];
    }
  }

  lemma {:induction false} RowsAtAppend(a: seq<Stmt>, b: seq<Stmt>, s: Shard)
    ensures RowsAt(a + b, s) == RowsAt(a, s) + RowsAt(b, s)
  {
    hide RowsOf;
    if b == [] {
      assert a + b == a;
    } else {
      RowsAtAppend(a, b[..|b| - 1], s);
      assert (a + b)[..|a + b| - 1] == a + b[..|b| - 1];
    }
  }

  lemma {:induction false} UpsAtAppend(a: seq<Upsert>, b: seq<Upsert>, k: ConvKey)
    ensures UpsAt(a + b, k) == UpsAt(a, k) + UpsAt(b, k)
  {
    if b == [] {
      assert a + b == a;
    } else {
      UpsAtAppend(a, b[..|b| - 1], k);
      assert (a + b)[..|a + b| - 1] == a + b[..|b| - 1];
    }
  }

  /** Databases that agree in every table and every row are equal. */
  lemma SameRuns(db: Db, a: seq<Stmt>, b: seq<Stmt>)
    requires ValidDb(db)
    requires forall s: Shard :: RowsAt(a, s) == RowsAt(b, s)
    requires forall k: ConvKey :: RunRow(Find(db.convs, k), OpsAt(a, k)) == RunRow(Find(db.convs, k), OpsAt(b, k))
    ensures ApplyAll(db, a) == ApplyAll(db, b)
  {
    var x, y := ApplyAll(db, a), ApplyAll(db, b);
    forall s: Shard | true
      ensures x.tables[s] == y.tables[s]
    {
      TableProjection(db, a, s);
      TableProjection(db, b, s);
    }
    assert x.tables == y.tables;
    forall k: ConvKey | true
      ensures Find(x.convs, k) == Find(y.convs, k)
    {
      RowProjection(db, a, k);
      RowProjection(db, b, k);
    }
    assert forall k :: k in x.convs <==> Find(x.convs, k).Some?;
    assert forall k :: k in y.convs <==> Find(y.convs, k).Some?;
    assert x.convs == y.convs;
  }

  /** Equal projections give equal databases. */
  lemma SameProjections(db: Db, a: seq<Stmt>, b: seq<Stmt>)
    requires ValidDb(db)
    requires forall s: Shard :: RowsAt(a, s) == RowsAt(b, s)
    requires forall k: ConvKey :: OpsAt(a, k) == OpsAt(b, k)
    ensures ApplyAll(db, a) == ApplyAll(db, b)
  {
    hide RunRow;
    hide RowsAt;
    hide OpsAt;
    hide ApplyAll;
    SameRuns(db, a, b);
  }

  // ---------------------------------------------------------------- message tables

  /** Neither unique key joins two different rows. */
  ghost predicate Coherent(rows: seq<MsgRow>) {
    forall r1, r2 :: r1 in rows && r2 in rows && (r1.id == r2.id || Slot(r1) == Slot(r2)) ==> r1 == r2
  }

  /** The table holds these rows and no others. */
  ghost predicate Holds(t: Table, rows: seq<MsgRow>) {
    && (forall r :: r in rows ==> Slot(r) in t && t[Slot(r)] == r)
    && (forall k :: k in t ==> t[k] in rows && Slot(t[k]) == k)
  }

  /** With coherent rows, INSERT IGNORE builds exactly the set of rows offered. */
  lemma {:induction false} InsertHolds(rows: seq<MsgRow>)
    requires Coherent(rows)
    ensures Holds(InsertRows(map[], rows), rows)
  {
    if rows != [] {
      var before, last := rows[..|rows| - 1], rows[|rows| - 1];
      assert forall r :: r in rows <==> r in before || r == last;
      InsertHolds(before);
      var t := InsertRows(map[], before);
      if IdTaken(t, last.id) {
        var k :| k in t && t[k].id == last.id;
        assert t[k] == last;
      }
    }
  }

  lemma HoldsUnique(t1: Table, t2: Table, a: seq<MsgRow>, b: seq<MsgRow>)
    requires Holds(t1, a) && Holds(t2, b) && forall r :: r in a <==> r in b
    ensures t1 == t2
  {
    assert forall k :: k in t1 ==> t1[k] in b;
    assert forall k :: k in t2 ==> t2[k] in a;
  }

  /** A unique key of r is taken. */
  ghost predicate Blocked(t: Table, r: MsgRow) { Slot(r) in t || IdTaken(t, r.id) }

  ghost predicate In(t: Table, r: MsgRow) { Slot(r) in t && t[Slot(r)] == r }

  /** The i-th row offered is r, and no row stored before shares its id or its slot. */
  ghost predicate FreeAt(rows: seq<MsgRow>, i: nat, r: MsgRow) {
    i < |rows| && rows[i] == r && !Blocked(InsertRows(map[], rows[..i]), r)
  }

  lemma InsertRowIn(t: Table, x: MsgRow, r: MsgRow)
    ensures In(InsertRow(t, x), r) <==> In(t, r) || (x == r && !Blocked(t, r))
  {
  }

  lemma FreeSnoc(rows: seq<MsgRow>, r: MsgRow)
    requires rows != []
    ensures var b, n := rows[..|rows| - 1], |rows| - 1;
            (exists i :: FreeAt(rows, i, r)) <==> (exists i :: FreeAt(b, i, r)) || FreeAt(rows, n, r)
  {
    hide Blocked;
    hide InsertRows;
    var b, n := rows[..|rows| - 1], |rows| - 1;
    assert forall i :: 0 <= i < n ==> b[i] == rows[i] && b[..i] == rows[..i];
    forall i: nat | i < n
      ensures FreeAt(rows, i, r) <==> FreeAt(b, i, r)
    {
    }
  }

  /** Without any assumption on the rows: an offered row is in its table exactly if at one of its offers
      neither of its unique keys was taken by a row stored before. */
  lemma {:induction false} KeptExactly(rows: seq<MsgRow>, r: MsgRow)
    ensures In(InsertRows(map[], rows), r) <==> exists i :: FreeAt(rows, i, r)
  {
    if rows != [] {
      var b, n := rows[..|rows| - 1], |rows| - 1;
      KeptExactly(b, r);
      FreeSnoc(rows, r);
      InsertRowIn(InsertRows(map[], b), rows[n], r);
      hide In;
      hide Blocked;
      hide InsertRow;
    }
  }

  ghost predicate Collide(a: MsgRow, b: MsgRow) { a.id == b.id || Slot(a) == Slot(b) }

  /** After rows that do not collide among themselves: the next one is stored exactly if no different
      earlier row shares its id or its slot. */
  lemma NextKeptExactly(before: seq<MsgRow>, r: MsgRow)
    requires Coherent(before)
    ensures In(InsertRows(map[], before + [r]), r) <==> forall x :: x in before && Collide(x, r) ==> x == r
  {
    var t := InsertRows(map[], before);
    InsertHolds(before);
    assert (before + [r])[..|before|] == before;
    if forall x :: x in before && Collide(x, r) ==> x == r {
      if IdTaken(t, r.id) {
        var k :| k in t && t[k].id == r.id;
        assert Collide(t[k], r);
      }
      if Slot(r) in t {
        assert Collide(t[Slot(r)], r);
      }
    }
  }

  /** In general an earlier colliding row is no obstacle if it was itself dropped. */
  lemma DroppedRowBlocksNothing(a: MsgRow, b: MsgRow, c: MsgRow)
    requires a.id == b.id && Slot(a) != Slot(b) && Slot(b) == Slot(c) && c.id != a.id
    ensures InsertRows(map[], [a, b, c]) == map[Slot(a) := a, Slot(c) := c]
  {
    InsertTwo(a, b);
    assert [a, b, c][..2] == [a, b];
    assert InsertRows(map[], [a, b]) == map[Slot(a) := a];
  }

  lemma InsertTwo(a: MsgRow, b: MsgRow)
    ensures InsertRows(map[], [a, b]) == if Collide(a, b) then map[Slot(a) := a] else map[Slot(a) := a, Slot(b) := b]
  {
    assert [a, b][..1] == [a] && [a][..0] == [];
    assert InsertRows(map[], [a]) == map[Slot(a) := a];
    assert map[Slot(a) := a][Slot(a)].id == a.id;
  }

  /** Without any assumption on the rows, a stored row is never changed or lost. */
  lemma {:induction false} InsertKeeps(t: Table, rows: seq<MsgRow>, k: (string, int))
    requires k in t
    ensures k in InsertRows(t, rows) && InsertRows(t, rows)[k] == t[k]
  {
    if rows != [] {
      InsertKeeps(t, rows[..|rows| - 1], k);
    }
  }

  // ---------------------------------------------------------------- last_seq

  function SeqOf(op: RowOp): set<int> {
    match op
    case Up(u) => {u.seqNo}
    case Joined(_, _) => {0}
    case Read(_, _) => {}
  }

  /** The values last_seq was offered: upserted seqs, and 0 by a join row. */
  function SeqsOf(ops: seq<RowOp>): set<int> {
    if ops == [] then {} else SeqsOf(ops[..|ops| - 1]) + SeqOf(ops[|ops| - 1])
  }

  ghost predicate NonNegative(ops: seq<RowOp>) {
    forall i :: 0 <= i < |ops| && ops[i].Up? ==> ops[i].u.seqNo >= 0
  }

  /** A row exists as soon as something was offered, its last_seq was offered, and it is the greatest
      such value when seqs are not negative. */
  lemma {:induction false} LastSeqIsMax(ops: seq<RowOp>)
    ensures RunRow(None, ops).None? <==> SeqsOf(ops) == {}
    ensures RunRow(None, ops).Some? ==> RunRow(None, ops).value.lastSeq in SeqsOf(ops)
    ensures NonNegative(ops) && RunRow(None, ops).Some? ==>
              forall x :: x in SeqsOf(ops) ==> 0 <= x <= RunRow(None, ops).value.lastSeq
  {
    if ops != [] {
      var before := ops[..|ops| - 1];
      assert NonNegative(ops) ==> NonNegative(before);
      LastSeqIsMax(before);
    }
  }

  lemma LastSeqConfluence(a: seq<RowOp>, b: seq<RowOp>)
    requires NonNegative(a) && NonNegative(b) && SeqsOf(a) == SeqsOf(b)
    ensures RunRow(None, a).Some? <==> RunRow(None, b).Some?
    ensures RunRow(None, a).Some? ==> RunRow(None, a).value.lastSeq == RunRow(None, b).value.lastSeq
  {
    LastSeqIsMax(a);
    LastSeqIsMax(b);
  }

  /** Creating the join row before or after an upsert of the group gives the same row, all columns. */
  lemma JoinCommutes(o: Option<ConvRow>, u: Upsert, gid: int64, now: int)
    requires u.convType == 2 && u.target == gid && u.seqNo >= 0
    ensures RowStep(RowStep(o, Joined(gid, now)), Up(u)) == RowStep(RowStep(o, Up(u)), Joined(gid, now))
  {
  }

  // ---------------------------------------------------------------- the other columns

  function TimeOf(op: RowOp): int {
    match op
    case Up(u) => u.at
    case Joined(_, now) => now
    case Read(_, now) => now
  }

  /** ops[i] created the row: nothing but reads, which met no row, came before it. */
  ghost predicate CreatedBy(ops: seq<RowOp>, i: nat) {
    i < |ops| && !ops[i].Read? && forall j :: 0 <= j < i ==> ops[j].Read?
  }

  /** ops[i] was the last to change the row: what came later found it there and its cursor not behind. */
  ghost predicate LastChange(ops: seq<RowOp>, i: nat, readSeq: int) {
    i < |ops| && forall j :: i < j < |ops| ==> ops[j].Joined? || (ops[j].Read? && ops[j].upTo <= readSeq)
  }

  /** The read cursor is 0 or the greatest one acknowledged since ops[i] created the row. */
  ghost predicate ReadUpTo(ops: seq<RowOp>, i: nat, readSeq: int) {
    && readSeq >= 0 && (forall j :: i < j < |ops| && ops[j].Read? ==> ops[j].upTo <= readSeq)
    && (readSeq == 0 || exists j :: i < j < |ops| && ops[j].Read? && ops[j].upTo == readSeq)
  }

  /** The columns of a row from its history: type and target are those of the operation that created it, for
      ever; the read cursor is moved by reads alone; the time is that of the last change. */
  lemma {:induction false} RowHistory(ops: seq<RowOp>) returns (i: nat, last: nat)
    requires RunRow(None, ops).Some?
    ensures var r := RunRow(None, ops).value;
            && CreatedBy(ops, i) && ReadUpTo(ops, i, r.readSeq)
            && i <= last && LastChange(ops, last, r.readSeq) && r.updatedAt == TimeOf(ops[last])
            && if ops[i].Up? then r.convType == ops[i].u.convType && r.target == ops[i].u.target
               else r.convType == 2 && r.target == ops[i].gid
  {
    var n := |ops| - 1;
    var b, op := ops[..n], ops[n];
    if RunRow(None, b).None? {
      OnlyReads(b);
      i, last := n, n;
    } else {
      i, last := RowHistory(b);
      if op.Up? || (op.Read? && RunRow(None, b).value.readSeq < op.upTo) {
        last := n;
      }
    }
  }

  lemma {:induction false} OnlyReads(ops: seq<RowOp>)
    requires RunRow(None, ops).None?
    ensures forall j :: 0 <= j < |ops| ==> ops[j].Read?
  {
    if ops != [] {
      OnlyReads(ops[..|ops| - 1]);
    }
  }

  // ---------------------------------------------------------------- cursors and unread

  /** Neither cursor ever falls. */
  lemma {:induction false} CursorsRise(o: Option<ConvRow>, ops: seq<RowOp>)
    requires o.Some?
    ensures RunRow(o, ops).Some?
    ensures RunRow(o, ops).value.lastSeq >= o.value.lastSeq && RunRow(o, ops).value.readSeq >= o.value.readSeq
  {
    if ops != [] {
      CursorsRise(o, ops[..|ops| - 1]);
    }
  }

  /** The seqs of messages that count as unread for this row. */
  function Inbound(ops: seq<RowOp>): set<int> {
    if ops == [] then {}
    else
      var op := ops[|ops| - 1];
      Inbound(ops[..|ops| - 1]) + if op.Up? && op.u.delta == 1 then {op.u.seqNo} else {}
  }

  function Above(s: set<int>, x: int): set<int> { set y | y in s && y > x }

  function ReadSeqOf(o: Option<ConvRow>): int { if o.Some? then o.value.readSeq else 0 }

  /** Each message is applied once, with delta 0 or 1, while its seq is above the read cursor. */
  ghost predicate AppliedOnce(ops: seq<RowOp>) {
    ops == [] ||
    (var before, op := ops[..|ops| - 1], ops[|ops| - 1];
     && AppliedOnce(before)
     && (op.Up? ==>
           && (op.u.delta == 0 || op.u.delta == 1)
           && op.u.seqNo > ReadSeqOf(RunRow(None, before))
           && op.u.seqNo !in SeqsOf(before)))
  }

  lemma {:induction false} InboundIsOffered(ops: seq<RowOp>)
    ensures Inbound(ops) <= SeqsOf(ops)
  {
    if ops != [] {
      InboundIsOffered(ops[..|ops| - 1]);
    }
  }

  /** At most b - a integers lie in (a, b]. */
  lemma {:induction false} GapBound(s: set<int>, a: int, b: int)
    requires a <= b && forall y :: y in s ==> a < y <= b
    ensures |s| <= b - a
    decreases b - a
  {
    if a < b {
      assert forall y :: y in s - {b} ==> a < y <= b - 1;
      GapBound(s - {b}, a, b - 1);
      assert |s| <= |s - {b}| + 1;
    } else {
      assert forall y :: y !in s;
      assert s == {};
    }
  }

  lemma AboveDrops(s: set<int>, a: int, b: int)
    requires a <= b
    ensures |Above(s, a)| - (b - a) <= |Above(s, b)|
  {
    var gap := set y | y in s && a < y <= b;
    GapBound(gap, a, b);
    assert Above(s, a) == Above(s, b) + gap;
  }

  ghost predicate UnreadBounded(ops: seq<RowOp>) {
    var o := RunRow(None, ops);
    o.Some? ==> 0 <= o.value.unread <= |Above(Inbound(ops), o.value.readSeq)|
  }

  /** The unread counter never exceeds the number of inbound messages above the read cursor, under any
      interleaving of upserts, join rows and MarkRead. */
  lemma {:induction false} UnreadNeverOverReports(ops: seq<RowOp>)
    requires AppliedOnce(ops)
    ensures UnreadBounded(ops)
  {
    if ops != [] {
      var before, op := ops[..|ops| - 1], ops[|ops| - 1];
      UnreadNeverOverReports(before);
      var o := RunRow(None, before);
      match op
      case Joined(_, _) => assert Inbound(ops) == Inbound(before);
      case Read(upTo, _) =>
        assert Inbound(ops) == Inbound(before);
        if o.Some? && o.value.readSeq < upTo {
          AboveDrops(Inbound(before), o.value.readSeq, upTo);
        }
      case Up(u) =>
        InboundIsOffered(before);
        var r := ReadSeqOf(o);
        if u.delta == 1 {
          assert Above(Inbound(ops), r) == Above(Inbound(before), r) + {u.seqNo};
        } else {
          assert Inbound(ops) == Inbound(before);
        }
    }
  }

  /** The condition on seq and cursor is exact: where the counter is tight, one more inbound upsert keeps
      the bound if and only if its seq is new and above the read cursor. */
  lemma OverReportExactly(before: seq<RowOp>, u: Upsert)
    requires u.delta == 1
    requires var o := RunRow(None, before);
             o.Some? && o.value.unread == |Above(Inbound(before), o.value.readSeq)|
    ensures UnreadBounded(before + [Up(u)]) <==>
            u.seqNo > RunRow(None, before).value.readSeq && u.seqNo !in Inbound(before)
  {
    var ops, o := before + [Up(u)], RunRow(None, before);
    assert ops[..|ops| - 1] == before;
    var r := o.value.readSeq;
    if u.seqNo > r && u.seqNo !in Inbound(before) {
      assert Above(Inbound(ops), r) == Above(Inbound(before), r) + {u.seqNo};
    } else {
      assert Above(Inbound(ops), r) == Above(Inbound(before), r);
    }
  }

  /** An interval full of members has as many as it is long. */
  lemma {:induction false} GapFull(s: set<int>, a: int, b: int)
    requires a <= b && (forall y :: y in s ==> a < y <= b)
    ensures |s| == b - a <==> forall y :: a < y <= b ==> y in s
    decreases b - a
  {
    GapBound(s, a, b);
    if a < b {
      var t := s - {b};
      assert forall y :: y in t ==> a < y <= b - 1;
      GapBound(t, a, b - 1);
      GapFull(t, a, b - 1);
      assert s == t + if b in s then {b} else {};
      assert |s| == |t| + if b in s then 1 else 0;
      if b in s && forall y :: a < y <= b - 1 ==> y in t {
        assert forall y :: a < y <= b ==> y == b || y in t;
      }
    } else {
      assert forall y :: y !in s;
      assert s == {};
    }
  }

  /** MarkRead subtracts the distance it moves. Where the counter was exact it stays exact if and only if
      every seq passed over is an inbound message, or no inbound message is left above: a message of one's
      own among them makes the counter under-report. */
  lemma ReadStaysExact(before: seq<RowOp>, upTo: int, now: int)
    requires var o := RunRow(None, before);
             && o.Some? && o.value.unread == |Above(Inbound(before), o.value.readSeq)| && o.value.readSeq < upTo
    ensures var r := RunRow(None, before).value.readSeq;
            var unread := RunRow(None, before + [Read(upTo, now)]).value.unread;
            && unread <= |Above(Inbound(before), upTo)|
            && (unread == |Above(Inbound(before), upTo)| <==>
                  (forall y :: r < y <= upTo ==> y in Inbound(before)) || Above(Inbound(before), upTo) == {})
  {
    hide Inbound;
    var ops, all, r := before + [Read(upTo, now)], Inbound(before), RunRow(None, before).value.readSeq;
    assert ops[..|ops| - 1] == before;
    var gap := set y | y in all && r < y <= upTo;
    assert Above(all, r) == Above(all, upTo) + gap;
    GapBound(gap, r, upTo);
    GapFull(gap, r, upTo);
    assert forall y :: r < y <= upTo ==> (y in all <==> y in gap);
  }
}
