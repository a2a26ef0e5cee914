/** Histories: any sequence of flushes, each with its own batch, outcomes and retries, mixed with join
    rows and MarkRead. Redelivery is a message occurring in several flushes. */
module Confluence {
  import opened Common
  import opened Conv
  import opened Decimal
  import opened Messages
  import opened Sql
  import opened Trace
  import opened Store
  import opened StoreFacts

  datatype Event = Flushed(o: Oracle, t: nat, msgs: seq<Msg>) | Other(st: Stmt)

  function EventTrace(ev: Event): seq<Stmt> {
    match ev
    case Flushed(o, t, msgs) => Flush(o, t, msgs).trace
    case Other(st) => [st]
  }

  function HistTrace(h: seq<Event>): seq<Stmt> {
    if h == [] then [] else HistTrace(h[..|h| - 1]) + EventTrace(h[|h| - 1])
  }

  ghost predicate GoodEvent(shard: string -> Shard, ev: Event) {
    match ev
    case Flushed(o, t, msgs) => Fair(o) && o.shard == shard && DecimalIds(msgs)
    case Other(st) => st.JoinRow? || st.MarkRead?
  }

  /** Fixed sharding, decimal ids; statements may fail in any way and groups may change. */
  ghost predicate GoodHistory(shard: string -> Shard, h: seq<Event>) {
    forall i :: 0 <= i < |h| ==> GoodEvent(shard, h[i])
  }

  ghost predicate FixedEvent(roster: int64 -> seq<int64>, ev: Event) { ev.Flushed? ==> FixedRoster(ev.o, roster) }

  /** Every member list read during the history is that of the roster. */
  ghost predicate FixedMembers(roster: int64 -> seq<int64>, h: seq<Event>) {
    forall i :: 0 <= i < |h| ==> FixedEvent(roster, h[i])
  }

  ghost predicate InHistory(h: seq<Event>, m: Msg) {
    exists i :: 0 <= i < |h| && h[i].Flushed? && m in h[i].msgs
  }

  /** Event i is a flush that returned nil. */
  ghost predicate Succeeded(h: seq<Event>, i: nat) { i < |h| && h[i].Flushed? && Flush(h[i].o, h[i].t, h[i].msgs).ok }

  /** Its last attempt skipped nothing either. */
  ghost predicate Clean(h: seq<Event>, i: nat) { Succeeded(h, i) && Flush(h[i].o, h[i].t, h[i].msgs).clean }

  /** Every message of the history is in some flush that returned nil; other flushes may have failed,
      been dead-lettered and replayed. */
  ghost predicate AllStored(h: seq<Event>) {
    forall m :: InHistory(h, m) ==> exists i: nat :: Succeeded(h, i) && m in h[i].msgs
  }

  /** Every message of the history is in some flush that skipped nothing. */
  ghost predicate Completed(h: seq<Event>) {
    forall m :: InHistory(h, m) ==> exists i: nat :: Clean(h, i) && m in h[i].msgs
  }

  ghost predicate JoinedIn(h: seq<Event>, k: ConvKey) {
    exists i :: 0 <= i < |h| && h[i].Other? && h[i].st.JoinRow? && (h[i].st.uid, h[i].st.conv) == k
  }

  ghost predicate RowIn(shard: string -> Shard, h: seq<Event>, s: Shard, r: MsgRow) {
    exists m :: InHistory(h, m) && shard(m.convId) == s && RowOf(m) == Some(r)
  }

  ghost predicate WantedIn(roster: int64 -> seq<int64>, h: seq<Event>, u: Upsert) {
    exists m :: InHistory(h, m) && u in Wanted(roster, m)
  }

  lemma InHistorySnoc(h: seq<Event>)
    requires h != []
    ensures forall m :: InHistory(h, m) <==>
              InHistory(h[..|h| - 1], m) || (h[|h| - 1].Flushed? && m in h[|h| - 1].msgs)
    ensures forall k :: JoinedIn(h, k) <==>
              JoinedIn(h[..|h| - 1], k) || (h[|h| - 1].Other? && h[|h| - 1].st.JoinRow? && (h[|h| - 1].st.uid, h[|h| - 1].st.conv) == k)
  {
    var b, n := h[..|h| - 1], |h| - 1;
    forall m | InHistory(h, m)
      ensures InHistory(b, m) || (h[n].Flushed? && m in h[n].msgs)
    {
      var i :| 0 <= i < |h| && h[i].Flushed? && m in h[i].msgs;
      assert i < n ==> b[i] == h[i];
    }
    forall m | InHistory(b, m) || (h[n].Flushed? && m in h[n].msgs)
      ensures InHistory(h, m)
    {
      if InHistory(b, m) {
        var i :| 0 <= i < |b| && b[i].Flushed? && m in b[i].msgs;
        assert h[i] == b[i];
      }
    }
    forall k | JoinedIn(h, k)
      ensures JoinedIn(b, k) || (h[n].Other? && h[n].st.JoinRow? && (h[n].st.uid, h[n].st.conv) == k)
    {
      var i :| 0 <= i < |h| && h[i].Other? && h[i].st.JoinRow? && (h[i].st.uid, h[i].st.conv) == k;
      assert i < n ==> b[i] == h[i];
    }
    forall k | JoinedIn(b, k)
      ensures JoinedIn(h, k)
    {
      var i :| 0 <= i < |b| && b[i].Other? && b[i].st.JoinRow? && (b[i].st.uid, b[i].st.conv) == k;
      assert h[i] == b[i];
    }
  }

  lemma SingleStmt(st: Stmt, s: Shard, k: ConvKey)
    ensures RowsAt([st], s) == RowsOf(st, s) && OpsAt([st], k) == OpsOf(st, k)
  {
    assert [st][..0] == [];
  }

  /** One more event: what it offers to table s. */
  lemma EventRows(shard: string -> Shard, ev: Event, s: Shard)
    requires GoodEvent(shard, ev)
    ensures forall r :: r in RowsAt(EventTrace(ev), s) ==> ev.Flushed? && RowFrom(ev.o, ev.msgs, s, r)
    ensures ev.Flushed? && Flush(ev.o, ev.t, ev.msgs).ok ==>
              forall r :: RowFrom(ev.o, ev.msgs, s, r) ==> r in RowsAt(EventTrace(ev), s)
  {
    hide Flush;
    hide RowOf;
    if ev.Flushed? {
      FlushRows(ev.o, ev.t, ev.msgs, s);
    } else {
      SingleStmt(ev.st, s, (0, ""));
    }
  }

  lemma RowInSnoc(shard: string -> Shard, h: seq<Event>, s: Shard, r: MsgRow)
    requires h != [] && (h[|h| - 1].Flushed? ==> h[|h| - 1].o.shard == shard)
    ensures RowIn(shard, h, s, r) <==>
            RowIn(shard, h[..|h| - 1], s, r) || (h[|h| - 1].Flushed? && RowFrom(h[|h| - 1].o, h[|h| - 1].msgs, s, r))
  {
    hide RowOf;
    InHistorySnoc(h);
  }

  lemma HistoryPrefix(shard: string -> Shard, h: seq<Event>)
    requires GoodHistory(shard, h) && h != []
    ensures GoodHistory(shard, h[..|h| - 1]) && GoodEvent(shard, h[|h| - 1])
  {
    hide Flush;
    hide GoodEvent;
    assert forall i :: 0 <= i < |h| - 1 ==> h[..|h| - 1][i] == h[i];
  }

  /** The rows offered to table s over a history are those of messages of the shard. */
  lemma {:induction false} HistRows(shard: string -> Shard, h: seq<Event>, s: Shard)
    requires GoodHistory(shard, h)
    ensures forall r :: r in RowsAt(HistTrace(h), s) ==> RowIn(shard, h, s, r)
  {
    hide Flush;
    hide RowOf;
    if h == [] {
      assert forall m :: !InHistory(h, m);
    } else {
      hide RowsAt;
      hide EventTrace;
      hide RowIn;
      hide RowFrom;
      hide GoodHistory;
      var b, ev := h[..|h| - 1], h[|h| - 1];
      HistoryPrefix(shard, h);
      HistRows(shard, b, s);
      RowsAtAppend(HistTrace(b), EventTrace(ev), s);
      EventRows(shard, ev, s);
      forall r
        ensures r in RowsAt(HistTrace(h), s) ==> RowIn(shard, h, s, r)
      {
        RowInSnoc(shard, h, s, r);
      }
    }
  }

  /** What a flush that returned nil owed to table s stays in the history. */
  lemma {:induction false} SucceededRows(shard: string -> Shard, h: seq<Event>, i: nat, s: Shard, r: MsgRow)
    requires GoodHistory(shard, h) && Succeeded(h, i) && RowFrom(h[i].o, h[i].msgs, s, r)
    ensures r in RowsAt(HistTrace(h), s)
  {
    hide Flush;
    hide RowsAt;
    hide EventTrace;
    hide RowFrom;
    hide GoodEvent;
    var b, ev := h[..|h| - 1], h[|h| - 1];
    HistoryPrefix(shard, h);
    RowsAtAppend(HistTrace(b), EventTrace(ev), s);
    if i < |b| {
      assert b[i] == h[i];
      SucceededRows(shard, b, i, s, r);
    } else {
      EventRows(shard, ev, s);
    }
  }

  lemma AllRows(shard: string -> Shard, h: seq<Event>, s: Shard)
    requires GoodHistory(shard, h) && AllStored(h)
    ensures forall r :: RowIn(shard, h, s, r) ==> r in RowsAt(HistTrace(h), s)
  {
    hide Flush;
    hide RowOf;
    hide RowsAt;
    hide HistTrace;
    forall r | RowIn(shard, h, s, r)
      ensures r in RowsAt(HistTrace(h), s)
    {
      var m :| InHistory(h, m) && shard(m.convId) == s && RowOf(m) == Some(r);
      var i: nat :| Succeeded(h, i) && m in h[i].msgs;
      assert GoodEvent(shard, h[i]);
      assert RowFrom(h[i].o, h[i].msgs, s, r);
      SucceededRows(shard, h, i, s, r);
    }
  }

  /** What one event offers to row k. */
  ghost predicate Offers(roster: int64 -> seq<int64>, ev: Event, k: ConvKey, op: RowOp) {
    match ev
    case Flushed(_, _, msgs) => op.Up? && WantedBy(roster, msgs, op.u) && KeyOf(op.u) == k
    case Other(st) => op in OpsOf(st, k)
  }

  lemma EventOps(shard: string -> Shard, roster: int64 -> seq<int64>, ev: Event, k: ConvKey)
    requires GoodEvent(shard, ev) && FixedEvent(roster, ev)
    ensures forall op :: op in OpsAt(EventTrace(ev), k) ==> Offers(roster, ev, k, op)
    ensures (ev.Flushed? ==> Flush(ev.o, ev.t, ev.msgs).ok && Flush(ev.o, ev.t, ev.msgs).clean) ==>
              forall op :: Offers(roster, ev, k, op) ==> op in OpsAt(EventTrace(ev), k)
  {
    hide Flush;
    hide WantedBy;
    if ev.Flushed? {
      FlushSeqs(ev.o, ev.t, ev.msgs, roster, k);
    } else {
      SingleStmt(ev.st, 0, k);
    }
  }

  ghost predicate OfferedIn(roster: int64 -> seq<int64>, h: seq<Event>, k: ConvKey, op: RowOp) {
    exists i :: 0 <= i < |h| && Offers(roster, h[i], k, op)
  }

  lemma OfferedInSnoc(roster: int64 -> seq<int64>, h: seq<Event>, k: ConvKey, op: RowOp)
    requires h != []
    ensures OfferedIn(roster, h, k, op) <==> OfferedIn(roster, h[..|h| - 1], k, op) || Offers(roster, h[|h| - 1], k, op)
  {
    hide Offers;
    var b := h[..|h| - 1];
    if OfferedIn(roster, h, k, op) {
      var i :| 0 <= i < |h| && Offers(roster, h[i], k, op);
      assert i < |b| ==> b[i] == h[i];
    }
    if OfferedIn(roster, b, k, op) {
      var i :| 0 <= i < |b| && Offers(roster, b[i], k, op);
      assert b[i] == h[i];
    }
  }

  /** The operations that reach row k over a history were offered by its events. */
  lemma {:induction false} HistOps(shard: string -> Shard, roster: int64 -> seq<int64>, h: seq<Event>, k: ConvKey)
    requires GoodHistory(shard, h) && FixedMembers(roster, h)
    ensures forall op :: op in OpsAt(HistTrace(h), k) ==> OfferedIn(roster, h, k, op)
  {
    hide Flush;
    if h != [] {
      hide OpsAt;
      hide EventTrace;
      hide Offers;
      hide OfferedIn;
      hide GoodHistory;
      hide FixedEvent;
      var b, ev := h[..|h| - 1], h[|h| - 1];
      HistoryPrefix(shard, h);
      assert forall i :: 0 <= i < |b| ==> b[i] == h[i];
      HistOps(shard, roster, b, k);
      OpsAtAppend(HistTrace(b), EventTrace(ev), k);
      EventOps(shard, roster, ev, k);
      forall op
        ensures op in OpsAt(HistTrace(h), k) ==> OfferedIn(roster, h, k, op)
      {
        OfferedInSnoc(roster, h, k, op);
      }
    }
  }

  /** What a clean flush or another statement offered to row k did reach it. */
  lemma {:induction false} OffersReach(shard: string -> Shard, roster: int64 -> seq<int64>, h: seq<Event>, i: nat, k: ConvKey, op: RowOp)
    requires GoodHistory(shard, h) && FixedMembers(roster, h) && i < |h|
    requires (h[i].Flushed? ==> Clean(h, i)) && Offers(roster, h[i], k, op)
    ensures op in OpsAt(HistTrace(h), k)
  {
    hide Flush;
    hide OpsAt;
    hide EventTrace;
    hide Offers;
    hide GoodEvent;
    hide FixedEvent;
    var b, ev := h[..|h| - 1], h[|h| - 1];
    HistoryPrefix(shard, h);
    assert forall j :: 0 <= j < |b| ==> b[j] == h[j];
    OpsAtAppend(HistTrace(b), EventTrace(ev), k);
    if i < |b| {
      OffersReach(shard, roster, b, i, k, op);
    } else {
      EventOps(shard, roster, ev, k);
    }
  }

  // ---------------------------------------------------------------- confluence

  /** Ids are unique within a shard and (conversation, seq) determines the message. */
  ghost predicate CoherentMsgs(shard: string -> Shard, h: seq<Event>) {
    forall m1, m2 :: InHistory(h, m1) && InHistory(h, m2) && Clash(shard, m1, m2) ==> m1 == m2
  }

  /** The rows of m1 and m2 would meet in a unique key of one table. */
  predicate Clash(shard: string -> Shard, m1: Msg, m2: Msg) {
    && RowOf(m1).Some? && RowOf(m2).Some? && shard(m1.convId) == shard(m2.convId)
    && (RowOf(m1).value.id == RowOf(m2).value.id || (m1.convId == m2.convId && m1.seqNo == m2.seqNo))
  }

  lemma HistCoherent(shard: string -> Shard, h: seq<Event>, s: Shard)
    requires GoodHistory(shard, h) && CoherentMsgs(shard, h)
    ensures Coherent(RowsAt(HistTrace(h), s))
  {
    hide Flush;
    hide RowsAt;
    hide HistTrace;
    hide ParseUint;
    HistRows(shard, h, s);
    var rows := RowsAt(HistTrace(h), s);
    forall r1, r2 | r1 in rows && r2 in rows && (r1.id == r2.id || Slot(r1) == Slot(r2))
      ensures r1 == r2
    {
      var m1 :| InHistory(h, m1) && shard(m1.convId) == s && RowOf(m1) == Some(r1);
      var m2 :| InHistory(h, m2) && shard(m2.convId) == s && RowOf(m2) == Some(r2);
      assert Clash(shard, m1, m2);
    }
  }

  /** The tables hold exactly the rows of the messages stored. */
  lemma TableContents(shard: string -> Shard, h: seq<Event>, s: Shard)
    requires GoodHistory(shard, h) && CoherentMsgs(shard, h)
    ensures Holds(ApplyAll(EMPTY, HistTrace(h)).tables[s], RowsAt(HistTrace(h), s))
  {
    hide Flush;
    HistCoherent(shard, h, s);
    TableProjection(EMPTY, HistTrace(h), s);
    InsertHolds(RowsAt(HistTrace(h), s));
  }

  /** Two histories that stored the same messages, however they were split into batches, ordered,
      sharded in iteration, retried or redelivered, end with the same message tables. */
  lemma TablesConfluent(shard: string -> Shard, h1: seq<Event>, h2: seq<Event>)
    requires GoodHistory(shard, h1) && GoodHistory(shard, h2) && AllStored(h1) && AllStored(h2)
    requires CoherentMsgs(shard, h1)
    requires forall m :: InHistory(h1, m) <==> InHistory(h2, m)
    ensures ApplyAll(EMPTY, HistTrace(h1)).tables == ApplyAll(EMPTY, HistTrace(h2)).tables
  {
    hide Flush;
    hide RowOf;
    hide ApplyAll;
    var x, y := ApplyAll(EMPTY, HistTrace(h1)).tables, ApplyAll(EMPTY, HistTrace(h2)).tables;
    forall s: Shard | true
      ensures x[s] == y[s]
    {
      TableContents(shard, h1, s);
      TableContents(shard, h2, s);
      HistRows(shard, h1, s);
      HistRows(shard, h2, s);
      AllRows(shard, h1, s);
      AllRows(shard, h2, s);
      assert forall r :: RowIn(shard, h1, s, r) <==> RowIn(shard, h2, s, r);
      HoldsUnique(x[s], y[s], RowsAt(HistTrace(h1), s), RowsAt(HistTrace(h2), s));
    }
  }

  ghost predicate NonNegativeSeqs(h: seq<Event>) { forall m :: InHistory(h, m) ==> m.seqNo >= 0 }

  lemma WantedSeq(roster: int64 -> seq<int64>, m: Msg, u: Upsert)
    requires u in Wanted(roster, m)
    ensures u.seqNo == m.seqNo && u.conv == m.convId
  {
    hide ParseP2P;
    hide ParseGroup;
  }

  /** A seq that belongs to row k: of a message that wants it, or 0 when it was joined. */
  ghost predicate SeqBelongs(roster: int64 -> seq<int64>, h: seq<Event>, k: ConvKey, x: int) {
    (exists u :: WantedIn(roster, h, u) && KeyOf(u) == k && u.seqNo == x) || (x == 0 && JoinedIn(h, k))
  }

  lemma SeqsBelong(shard: string -> Shard, roster: int64 -> seq<int64>, h: seq<Event>, k: ConvKey, x: int)
    requires GoodHistory(shard, h) && FixedMembers(roster, h) && x in SeqsOf(OpsAt(HistTrace(h), k))
    ensures SeqBelongs(roster, h, k, x)
  {
    hide Flush;
    hide Wanted;
    hide OpsAt;
    hide SeqsOf;
    hide HistTrace;
    var ops := OpsAt(HistTrace(h), k);
    HistOps(shard, roster, h, k);
    SeqsOfMembers(ops);
    var op :| op in ops && x in SeqOf(op);
    var i :| 0 <= i < |h| && Offers(roster, h[i], k, op);
    assert GoodEvent(shard, h[i]);
    if h[i].Flushed? {
      var m :| m in h[i].msgs && op.u in Wanted(roster, m);
      assert InHistory(h, m) && WantedIn(roster, h, op.u);
    }
  }

  lemma BelongingSeqs(shard: string -> Shard, roster: int64 -> seq<int64>, h: seq<Event>, k: ConvKey, x: int)
    requires GoodHistory(shard, h) && FixedMembers(roster, h) && Completed(h) && SeqBelongs(roster, h, k, x)
    ensures x in SeqsOf(OpsAt(HistTrace(h), k))
  {
    hide Flush;
    hide Wanted;
    hide OpsAt;
    hide SeqsOf;
    hide HistTrace;
    hide GoodEvent;
    var ops := OpsAt(HistTrace(h), k);
    SeqsOfMembers(ops);
    var op, i;
    if exists u :: WantedIn(roster, h, u) && KeyOf(u) == k && u.seqNo == x {
      var u :| WantedIn(roster, h, u) && KeyOf(u) == k && u.seqNo == x;
      var m :| InHistory(h, m) && u in Wanted(roster, m);
      i :| i >= 0 && Clean(h, i) && m in h[i].msgs;
      op := Up(u);
    } else {
      i :| 0 <= i < |h| && h[i].Other? && h[i].st.JoinRow? && (h[i].st.uid, h[i].st.conv) == k;
      op := Joined(h[i].st.gid, h[i].st.now);
    }
    assert Offers(roster, h[i], k, op);
    OffersReach(shard, roster, h, i, k, op);
    assert x in SeqOf(op);
  }

  lemma HistNonNegative(shard: string -> Shard, roster: int64 -> seq<int64>, h: seq<Event>, k: ConvKey)
    requires GoodHistory(shard, h) && FixedMembers(roster, h) && NonNegativeSeqs(h)
    ensures NonNegative(OpsAt(HistTrace(h), k))
  {
    hide Flush;
    hide Wanted;
    hide OpsAt;
    var ops := OpsAt(HistTrace(h), k);
    HistOps(shard, roster, h, k);
    forall j | 0 <= j < |ops| && ops[j].Up?
      ensures ops[j].u.seqNo >= 0
    {
      assert ops[j] in ops;
      var i :| 0 <= i < |h| && Offers(roster, h[i], k, ops[j]);
      assert GoodEvent(shard, h[i]);
      if h[i].Flushed? {
        var m :| m in h[i].msgs && ops[j].u in Wanted(roster, m);
        WantedSeq(roster, m, ops[j].u);
        assert InHistory(h, m);
      }
    }
  }

  /** last_seq of every row, and which rows exist, depend only on the messages and the joins. */
  lemma LastSeqConfluent(shard: string -> Shard, roster: int64 -> seq<int64>, h1: seq<Event>, h2: seq<Event>, k: ConvKey)
    requires GoodHistory(shard, h1) && GoodHistory(shard, h2) && FixedMembers(roster, h1) && FixedMembers(roster, h2)
    requires Completed(h1) && Completed(h2)
    requires NonNegativeSeqs(h1) && (JoinedIn(h1, k) <==> JoinedIn(h2, k))
    requires forall m :: InHistory(h1, m) <==> InHistory(h2, m)
    ensures var x, y := Find(ApplyAll(EMPTY, HistTrace(h1)).convs, k), Find(ApplyAll(EMPTY, HistTrace(h2)).convs, k);
            && (x.Some? <==> y.Some?)
            && (x.Some? ==> x.value.lastSeq == y.value.lastSeq)
  {
    hide Flush;
    hide Wanted;
    hide ApplyAll;
    hide HistTrace;
    HistNonNegative(shard, roster, h1, k);
    HistNonNegative(shard, roster, h2, k);
    assert forall u :: WantedIn(roster, h1, u) <==> WantedIn(roster, h2, u);
    forall x
      ensures x in SeqsOf(OpsAt(HistTrace(h1), k)) <==> x in SeqsOf(OpsAt(HistTrace(h2), k))
    {
      if x in SeqsOf(OpsAt(HistTrace(h1), k)) {
        SeqsBelong(shard, roster, h1, k, x);
        BelongingSeqs(shard, roster, h2, k, x);
      }
      if x in SeqsOf(OpsAt(HistTrace(h2), k)) {
        SeqsBelong(shard, roster, h2, k, x);
        BelongingSeqs(shard, roster, h1, k, x);
      }
    }
    RowProjection(EMPTY, HistTrace(h1), k);
    RowProjection(EMPTY, HistTrace(h2), k);
    LastSeqConfluence(OpsAt(HistTrace(h1), k), OpsAt(HistTrace(h2), k));
  }
}
