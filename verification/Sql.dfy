/** The MySQL state and the effect of each statement the services issue: migrations 000003 and 000004,
    the builders of internal/job/store.go, the join row of internal/job/group.go and MarkRead of
    internal/logic/sync.go. Widths of INT columns are not modelled. */
module Sql {
  import opened Common

  const SHARDS := 64

  type Shard = n: nat | n < SHARDS

  datatype MsgRow = MsgRow(
    id: nat, conv: string, seqNo: int, sender: int64, msgType: int, payload: seq<byte>, status: int, createdAt: int)

  /** One message table. uk_conv_seq is the key of the map; the primary key is checked on insert. */
  type Table = map<(string, int), MsgRow>

  datatype ConvRow = ConvRow(convType: int, target: int64, lastSeq: int, readSeq: int, unread: int, updatedAt: int)

  type ConvKey = (int64, string) // primary key (uid, conv_id)

  datatype Db = Db(tables: seq<Table>, convs: map<ConvKey, ConvRow>)

  ghost predicate ValidDb(db: Db) { |db.tables| == SHARDS }

  const EMPTY := Db(seq(SHARDS, _ => map[]), map[])

  /** One VALUES tuple of a conversation upsert. */
  datatype Upsert = Upsert(uid: int64, conv: string, convType: int, target: int64, seqNo: int, delta: int, at: int)

  datatype Stmt =
    | InsertIgnore(shard: Shard, rows: seq<MsgRow>)
    | UpsertConvs(ups: seq<Upsert>)
    | JoinRow(uid: int64, conv: string, gid: int64, now: int)
    | MarkRead(uid: int64, conv: string, upTo: int, now: int)

  function Slot(r: MsgRow): (string, int) { (r.conv, r.seqNo) }

  predicate IdTaken(t: Table, id: nat) { exists k :: k in t && t[k].id == id }

  /** INSERT IGNORE of one row: dropped when either unique key is taken. */
  function InsertRow(t: Table, r: MsgRow): Table {
    if Slot(r) in t || IdTaken(t, r.id) then t else t[Slot(r) := r]
  }

  function InsertRows(t: Table, rows: seq<MsgRow>): Table {
    if rows == [] then t else InsertRow(InsertRows(t, rows[..|rows| - 1]), rows[|rows| - 1])
  }

  function Max(a: int, b: int): int { if a >= b then a else b }

  function KeyOf(u: Upsert): ConvKey { (u.uid, u.conv) }

  /** INSERT .. ON DUPLICATE KEY UPDATE of one row. */
  function UpsertRow(before: Option<ConvRow>, u: Upsert): ConvRow {
    match before
    case None => ConvRow(u.convType, u.target, u.seqNo, 0, u.delta, u.at)
    case Some(r) => r.(lastSeq := Max(r.lastSeq, u.seqNo), unread := r.unread + u.delta, updatedAt := u.at)
  }

  function Find(convs: map<ConvKey, ConvRow>, k: ConvKey): Option<ConvRow> {
    if k in convs then Some(convs[k]) else None
  }

  function UpsertOne(convs: map<ConvKey, ConvRow>, u: Upsert): map<ConvKey, ConvRow> {
    convs[KeyOf(u) := UpsertRow(Find(convs, KeyOf(u)), u)]
  }

  function UpsertAll(convs: map<ConvKey, ConvRow>, ups: seq<Upsert>): map<ConvKey, ConvRow> {
    if ups == [] then convs else UpsertOne(UpsertAll(convs, ups[..|ups| - 1]), ups[|ups| - 1])
  }

  /** The UPDATE of MarkRead on a present row: unread is computed from the old read_seq, and only a
      cursor that is behind moves. */
  function ReadRow(r: ConvRow, upTo: int, now: int): ConvRow {
    if r.readSeq < upTo then
      r.(unread := Max(r.unread - (upTo - r.readSeq), 0), readSeq := upTo, updatedAt := now)
    else r
  }

  function ApplyConvs(convs: map<ConvKey, ConvRow>, st: Stmt): map<ConvKey, ConvRow> {
    match st
    case InsertIgnore(_, _) => convs
    case UpsertConvs(ups) => UpsertAll(convs, ups)
    case JoinRow(uid, conv, gid, now) =>
      if (uid, conv) in convs then convs else convs[(uid, conv) := ConvRow(2, gid, 0, 0, 0, now)]
    case MarkRead(uid, conv, upTo, now) =>
      if (uid, conv) in convs then convs[(uid, conv) := ReadRow(convs[(uid, conv)], upTo, now)] else convs
  }

  function ApplyTables(tables: seq<Table>, st: Stmt): (ts: seq<Table>)
    requires |tables| == SHARDS
    ensures |ts| == SHARDS
  {
    match st
    case InsertIgnore(s, rows) => tables[s := InsertRows(tables[s], rows)]
    case _ => tables
  }

  function Apply(db: Db, st: Stmt): (db': Db)
    requires ValidDb(db)
    ensures ValidDb(db')
  {
    Db(ApplyTables(db.tables, st), ApplyConvs(db.convs, st))
  }

  function ApplyAll(db: Db, sts: seq<Stmt>): (db': Db)
    requires ValidDb(db)
    ensures ValidDb(db')
  {
    if sts == [] then db else Apply(ApplyAll(db, sts[..|sts| - 1]), sts[|sts| - 1])
  }

  lemma ApplySnoc(db: Db, sts: seq<Stmt>, st: Stmt)
    requires ValidDb(db)
    ensures ApplyAll(db, sts + [st]) == Apply(ApplyAll(db, sts), st)
  {
    assert (sts + [st])[..|sts|] == sts;
  }

  lemma {:induction false} ApplyAppend(db: Db, a: seq<Stmt>, b: seq<Stmt>)
    requires ValidDb(db)
    ensures ApplyAll(db, a + b) == ApplyAll(ApplyAll(db, a), b)
  {
    if b == [] {
      assert a + b == a;
    } else {
      ApplyAppend(db, a, b[..|b| - 1]);
      assert (a + b)[..|a + b| - 1] == a + b[..|b| - 1];
    }
  }

  lemma {:induction false} InsertAppend(t: Table, a: seq<MsgRow>, b: seq<MsgRow>)
    ensures InsertRows(t, a + b) == InsertRows(InsertRows(t, a), b)
  {
    if b == [] {
      assert a + b == a;
    } else {
      InsertAppend(t, a, b[..|b| - 1]);
      assert (a + b)[..|a + b| - 1] == a + b[..|b| - 1];
    }
  }

  lemma {:induction false} UpsertAppend(c: map<ConvKey, ConvRow>, a: seq<Upsert>, b: seq<Upsert>)
    ensures UpsertAll(c, a + b) == UpsertAll(UpsertAll(c, a), b)
  {
    if b == [] {
      assert a + b == a;
    } else {
      UpsertAppend(c, a, b[..|b| - 1]);
      assert (a + b)[..|a + b| - 1] == a + b[..|b| - 1];
    }
  }
}
