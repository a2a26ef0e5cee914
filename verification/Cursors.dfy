/** last_seq never runs ahead of the message tables, at any statement boundary, whatever fails. */
module Cursors {
  import opened Common
  import opened Conv
  import opened Messages
  import opened Sql
  import opened Trace
  import opened Store
  import opened StoreFacts
  import opened Confluence

  function SlotsOf(shard: string -> Shard, st: Stmt): set<(string, int)> {
    match st
    case InsertIgnore(s, rows) => set r | r in rows && shard(r.conv) == s :: Slot(r)
    case _ => {}
  }

  /** The (conversation, seq) pairs offered to their tables so far. */
  function Slots(shard: string -> Shard, sts: seq<Stmt>): set<(string, int)> {
    if sts == [] then {} else Slots(shard, sts[..|sts| - 1]) + SlotsOf(shard, sts[|sts| - 1])
  }

  ghost predicate Backed(slots: set<(string, int)>, st: Stmt) {
    st.UpsertConvs? ==> forall u :: u in st.ups ==> (u.conv, u.seqNo) in slots
  }

  /** Every conversation upsert comes after the insert of its message. */
  ghost predicate Supported(shard: string -> Shard, sts: seq<Stmt>) {
    sts == [] ||
    (Supported(shard, sts[..|sts| - 1]) && Backed(Slots(shard, sts[..|sts| - 1]), sts[|sts| - 1]))
  }

  lemma {:induction false} SlotsAppend(shard: string -> Shard, a: seq<Stmt>, b: seq<Stmt>)
    ensures Slots(shard, a + b) == Slots(shard, a) + Slots(shard, b)
  {
    hide SlotsOf;
    if b == [] {
      assert a + b == a;
    } else {
      SlotsAppend(shard, a, b[..|b| - 1]);
      assert (a + b)[..|a + b| - 1] == a + b[..|b| - 1];
    }
  }

  lemma {:induction false} SlotsMember(shard: string -> Shard, sts: seq<Stmt>, x: (string, int))
    ensures x in Slots(shard, sts) <==> exists st :: st in sts && x in SlotsOf(shard, st)
  {
    hide SlotsOf;
    if sts != [] {
      SlotsMember(shard, sts[..|sts| - 1], x);
      assert forall st :: st in sts <==> st in sts[..|sts| - 1] || st == sts[|sts| - 1];
    }
  }

  /** Statements that are backed by what came before keep the trace supported. */
  lemma {:induction false} SupportedMore(shard: string -> Shard, a: seq<Stmt>, b: seq<Stmt>)
    requires Supported(shard, a) && forall st :: st in b ==> Backed(Slots(shard, a), st)
    ensures Supported(shard, a + b)
  {
    hide Backed;
    hide SlotsOf;
    if b == [] {
      assert a + b == a;
    } else {
      var c, last := b[..|b| - 1], b[|b| - 1];
      SupportedMore(shard, a, c);
      assert (a + b)[..|a + b| - 1] == a + c;
      SlotsAppend(shard, a, c);
      BackedMore(Slots(shard, a), Slots(shard, a + c), last);
    }
  }

  lemma BackedMore(x: set<(string, int)>, y: set<(string, int)>, st: Stmt)
    requires Backed(x, st) && x <= y
    ensures Backed(y, st)
  {
  }

  /** t is a shuffle of a and b. */
  ghost predicate Interleaves(t: seq<Stmt>, a: seq<Stmt>, b: seq<Stmt>)
    decreases |t|
  {
    if t == [] then a == [] && b == []
    else
      var t', last := t[..|t| - 1], t[|t| - 1];
      || (a != [] && a[|a| - 1] == last && Interleaves(t', a[..|a| - 1], b))
      || (b != [] && b[|b| - 1] == last && Interleaves(t', a, b[..|b| - 1]))
  }

  /** Two supported traces stay supported however their statements interleave, so several workers may
      write at once. */
  lemma {:induction false} SupportedInterleaved(shard: string -> Shard, t: seq<Stmt>, a: seq<Stmt>, b: seq<Stmt>)
    requires Interleaves(t, a, b) && Supported(shard, a) && Supported(shard, b)
    ensures Supported(shard, t) && Slots(shard, t) == Slots(shard, a) + Slots(shard, b)
    decreases |t|
  {
    hide Backed;
    hide SlotsOf;
    if t != [] {
      var t', last := t[..|t| - 1], t[|t| - 1];
      if a != [] && a[|a| - 1] == last && Interleaves(t', a[..|a| - 1], b) {
        SupportedInterleaved(shard, t', a[..|a| - 1], b);
        BackedMore(Slots(shard, a[..|a| - 1]), Slots(shard, t'), last);
      } else {
        SupportedInterleaved(shard, t', a, b[..|b| - 1]);
        BackedMore(Slots(shard, b[..|b| - 1]), Slots(shard, t'), last);
      }
    }
  }

  // ---------------------------------------------------------------- a flush is supported

  lemma InsertSlots(o: Oracle, t: nat, msgs: seq<Msg>)
    requires Fair(o) && DecimalIds(msgs) && InsertMessages(o, t, msgs).ok
    ensures forall m :: m in msgs ==> (m.convId, m.seqNo) in Slots(o.shard, InsertMessages(o, t, msgs).trace)
  {
    hide InsertGroups;
    hide RowsFor;
    hide RowOf;
    hide Group;
    var order := o.order(t, Touched(o.shard, msgs));
    var e := InsertMessages(o, t, msgs);
    InsertGroupsFacts(o, t, msgs, order);
    forall m | m in msgs
      ensures (m.convId, m.seqNo) in Slots(o.shard, e.trace)
    {
      var s := o.shard(m.convId);
      assert s in Touched(o.shard, msgs);
      GroupMembers(o.shard, msgs, s);
      var g := Group(o.shard, msgs, s);
      RowsForDecimal(g);
      var rows := RowsFor(g).value;
      var st := InsertIgnore(s, rows);
      assert st in e.trace;
      var r := RowOf(m).value;
      RowSlot(m);
      MineRows(o, msgs, s, rows);
      assert RowFrom(o, msgs, s, r);
      assert (m.convId, m.seqNo) in SlotsOf(o.shard, st);
      SlotsMember(o.shard, e.trace, (m.convId, m.seqNo));
    }
  }

  lemma RowSlot(m: Msg)
    ensures RowOf(m).Some? ==> Slot(RowOf(m).value) == (m.convId, m.seqNo)
  {
  }

  lemma OwnSlot(m: Msg, u: Upsert)
    requires OwnUp(m, u)
    ensures (u.conv, u.seqNo) == (m.convId, m.seqNo)
  {
    hide ParseP2P;
    hide ParseGroup;
  }

  lemma WriteBatchSupported(o: Oracle, t: nat, msgs: seq<Msg>)
    requires Fair(o) && DecimalIds(msgs)
    ensures Supported(o.shard, WriteBatch(o, t, msgs).trace)
  {
    hide InsertGroups;
    hide GroupAll;
    hide P2PPart;
    hide OwnUp;
    hide RowsFor;
    hide RowOf;
    hide Group;
    var ins := InsertMessages(o, t, msgs);
    InsertGroupsFacts(o, t, msgs, o.order(t, Touched(o.shard, msgs)));
    assert [] + ins.trace == ins.trace;
    SupportedMore(o.shard, [], ins.trace);
    if ins.ok {
      InsertSlots(o, t, msgs);
      var g := GroupAll(o, ins.tick, msgs);
      GroupAllOwn(o, ins.tick, msgs, msgs);
      P2PPartOwn(o, g.tick, msgs);
      var ups := g.trace + P2PPart(o, g.tick, P2POnly(msgs)).trace;
      forall st, u | st in ups && u in st.ups
        ensures (u.conv, u.seqNo) in Slots(o.shard, ins.trace)
      {
        assert OwnUps(msgs, st);
        var m :| m in msgs && OwnUp(m, u);
        OwnSlot(m, u);
      }
      assert WriteBatch(o, t, msgs).trace == ins.trace + ups;
      SupportedMore(o.shard, ins.trace, ups);
    }
  }

  lemma {:induction false} SupportedAppend(shard: string -> Shard, a: seq<Stmt>, b: seq<Stmt>)
    requires Supported(shard, a) && Supported(shard, b)
    ensures Supported(shard, a + b)
  {
    hide Backed;
    hide SlotsOf;
    if b == [] {
      assert a + b == a;
    } else {
      var c := b[..|b| - 1];
      SupportedAppend(shard, a, c);
      assert (a + b)[..|a + b| - 1] == a + c;
      SlotsAppend(shard, a, c);
      BackedMore(Slots(shard, c), Slots(shard, a + c), b[|b| - 1]);
    }
  }

  /** Through failed statements, lost replies, partial shards and retries. */
  lemma {:induction false} RetrySupported(o: Oracle, t: nat, msgs: seq<Msg>, left: nat)
    requires Fair(o) && DecimalIds(msgs) && left > 0
    ensures Supported(o.shard, Retry(o, t, msgs, left).trace)
    decreases left
  {
    hide WriteBatch;
    var e := WriteBatch(o, t, msgs);
    WriteBatchSupported(o, t, msgs);
    if !e.ok && left > 1 && !o.cancelled(e.tick) {
      RetrySupported(o, e.tick, msgs, left - 1);
      SupportedAppend(o.shard, e.trace, Retry(o, e.tick, msgs, left - 1).trace);
    }
  }

  lemma {:induction false} HistorySupported(shard: string -> Shard, h: seq<Event>)
    requires GoodHistory(shard, h)
    ensures Supported(shard, HistTrace(h))
  {
    hide Retry;
    hide RowOf;
    if h != [] {
      var b, ev := h[..|h| - 1], h[|h| - 1];
      assert forall i :: 0 <= i < |b| ==> b[i] == h[i];
      HistorySupported(shard, b);
      assert GoodEvent(shard, h[|h| - 1]);
      if ev.Flushed? {
        RetrySupported(ev.o, ev.t, ev.msgs, STORE_MAX_RETRY);
      } else {
        assert [ev.st][..0] == [];
      }
      SupportedAppend(shard, HistTrace(b), EventTrace(ev));
    }
  }

  lemma {:induction false} SupportedPrefix(shard: string -> Shard, sts: seq<Stmt>, n: nat)
    requires Supported(shard, sts) && n <= |sts|
    ensures Supported(shard, sts[..n])
  {
    hide Backed;
    if n < |sts| {
      SupportedPrefix(shard, sts[..|sts| - 1], n);
      assert sts[..|sts| - 1][..n] == sts[..n];
    } else {
      assert sts[..n] == sts;
    }
  }

  // ---------------------------------------------------------------- validity

  /** last_seq is 0 or the seq of a stored message of the conversation. */
  ghost predicate CursorValid(shard: string -> Shard, db: Db)
    requires ValidDb(db)
  {
    forall k :: k in db.convs ==>
      db.convs[k].lastSeq == 0 || (k.1, db.convs[k].lastSeq) in db.tables[shard(k.1)]
  }

  lemma {:induction false} SupportedUp(shard: string -> Shard, sts: seq<Stmt>, st: Stmt, u: Upsert)
    requires Supported(shard, sts) && st in sts && st.UpsertConvs? && u in st.ups
    ensures (u.conv, u.seqNo) in Slots(shard, sts)
  {
    hide SlotsOf;
    if st != sts[|sts| - 1] {
      SupportedUp(shard, sts[..|sts| - 1], st, u);
    }
  }

  /** A slot offered to its table is stored, if no two rows meet in a unique key. */
  lemma SlotIsStored(shard: string -> Shard, sts: seq<Stmt>, conv: string, x: int)
    requires (conv, x) in Slots(shard, sts) && Coherent(RowsAt(sts, shard(conv)))
    ensures (conv, x) in ApplyAll(EMPTY, sts).tables[shard(conv)]
  {
    hide ApplyAll;
    hide Coherent;
    hide RowsAt;
    hide Slots;
    var s := shard(conv);
    SlotsMember(shard, sts, (conv, x));
    var ins :| ins in sts && (conv, x) in SlotsOf(shard, ins);
    var r :| r in ins.rows && shard(r.conv) == ins.shard && Slot(r) == (conv, x);
    RowsAtMembers(sts, s);
    assert r in RowsOf(ins, s);
    TableProjection(EMPTY, sts, s);
    InsertHolds(RowsAt(sts, s));
  }

  /** An operation on a row that offers a seq comes from an upsert, or is a join and offers 0. */
  lemma OpSlot(shard: string -> Shard, sts: seq<Stmt>, k: ConvKey, op: RowOp, x: int)
    requires Supported(shard, sts) && op in OpsAt(sts, k) && x in SeqOf(op)
    ensures x == 0 || (k.1, x) in Slots(shard, sts)
  {
    hide Supported;
    hide OpsAt;
    hide Slots;
    OpsAtMembers(sts, k);
    var st :| st in sts && op in OpsOf(st, k);
    if op.Up? {
      UpsAtMembers(st.ups, k);
      SupportedUp(shard, sts, st, op.u);
    }
  }

  /** last_seq of a row is 0 or a seq whose slot was offered before. */
  lemma CursorSlot(shard: string -> Shard, sts: seq<Stmt>, k: ConvKey)
    requires Supported(shard, sts) && k in ApplyAll(EMPTY, sts).convs
    ensures var x := ApplyAll(EMPTY, sts).convs[k].lastSeq; x == 0 || (k.1, x) in Slots(shard, sts)
  {
    hide Supported;
    hide ApplyAll;
    hide OpsAt;
    hide Slots;
    hide SeqOf;
    hide SeqsOf;
    hide RunRow;
    var ops, x := OpsAt(sts, k), ApplyAll(EMPTY, sts).convs[k].lastSeq;
    RowProjection(EMPTY, sts, k);
    LastSeqIsMax(ops);
    SeqsOfMembers(ops);
    var op :| op in ops && x in SeqOf(op);
    OpSlot(shard, sts, k, op, x);
  }

  /** Any supported trace, from any mix of workers and readers, leaves valid cursors, provided no two
      rows meet in a unique key. */
  lemma SupportedIsValid(shard: string -> Shard, sts: seq<Stmt>)
    requires Supported(shard, sts) && forall s: Shard :: Coherent(RowsAt(sts, s))
    ensures CursorValid(shard, ApplyAll(EMPTY, sts))
  {
    hide Supported;
    hide ApplyAll;
    hide Coherent;
    hide RowsAt;
    hide Slots;
    var db := ApplyAll(EMPTY, sts);
    forall k | k in db.convs
      ensures db.convs[k].lastSeq == 0 || (k.1, db.convs[k].lastSeq) in db.tables[shard(k.1)]
    {
      CursorSlot(shard, sts, k);
      if db.convs[k].lastSeq != 0 {
        assert Coherent(RowsAt(sts, shard(k.1)));
        SlotIsStored(shard, sts, k.1, db.convs[k].lastSeq);
      }
    }
  }

  lemma {:induction false} RowsAtPrefix(sts: seq<Stmt>, n: nat, s: Shard)
    requires n <= |sts| && Coherent(RowsAt(sts, s))
    ensures Coherent(RowsAt(sts[..n], s))
  {
    hide RowsAt;
    RowsAtAppend(sts[..n], sts[n..], s);
    assert sts == sts[..n] + sts[n..];
  }

  /** In every state a reader can see during a history, statement by statement, cursors are valid. */
  lemma CursorsAlwaysValid(shard: string -> Shard, h: seq<Event>, n: nat)
    requires GoodHistory(shard, h) && CoherentMsgs(shard, h) && n <= |HistTrace(h)|
    ensures CursorValid(shard, ApplyAll(EMPTY, HistTrace(h)[..n]))
  {
    hide HistTrace;
    hide Coherent;
    hide RowsAt;
    HistorySupported(shard, h);
    SupportedPrefix(shard, HistTrace(h), n);
    forall s: Shard | true
      ensures Coherent(RowsAt(HistTrace(h)[..n], s))
    {
      HistCoherent(shard, h, s);
      RowsAtPrefix(HistTrace(h), n, s);
    }
    SupportedIsValid(shard, HistTrace(h)[..n]);
  }
}
