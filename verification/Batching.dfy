/** Batching is invisible when statements succeed, and retries are counted exactly when they do not. */
module Batching {
  import opened Common
  import opened Conv
  import opened Messages
  import opened Sql
  import opened Trace
  import opened Store
  import opened StoreFacts
  import opened Confluence

  // ---------------------------------------------------------------- what a batch owes, in order

  datatype Kind = Any | Groups | Pairs

  predicate Matches(kind: Kind, m: Msg) {
    kind.Any? || (kind.Groups? <==> m.convType == CONV_TYPE_GROUP)
  }

  /** The wanted rows of the messages of this kind, message by message. */
  function Picked(kind: Kind, roster: int64 -> seq<int64>, msgs: seq<Msg>): seq<Upsert> {
    if msgs == [] then []
    else
      var m := msgs[|msgs| - 1];
      Picked(kind, roster, msgs[..|msgs| - 1]) + if Matches(kind, m) then Wanted(roster, m) else []
  }

  lemma {:induction false} PickedAppend(kind: Kind, roster: int64 -> seq<int64>, a: seq<Msg>, b: seq<Msg>)
    ensures Picked(kind, roster, a + b) == Picked(kind, roster, a) + Picked(kind, roster, b)
  {
    hide Wanted;
    hide Matches;
    if b == [] {
      assert a + b == a;
    } else {
      PickedAppend(kind, roster, a, b[..|b| - 1]);
      assert (a + b)[..|a + b| - 1] == a + b[..|b| - 1];
    }
  }

  lemma PickedOne(kind: Kind, roster: int64 -> seq<int64>, m: Msg)
    ensures Picked(kind, roster, [m]) == if Matches(kind, m) then Wanted(roster, m) else []
  {
    hide Wanted;
    assert [m][..0] == [];
  }

  /** A row is reached by one-to-one messages or by group messages, never by both. */
  lemma WantedKind(roster: int64 -> seq<int64>, m: Msg, k: ConvKey)
    ensures UpsAt(Wanted(roster, m), k) != [] ==>
              if m.convType == CONV_TYPE_GROUP then ParseP2P(k.1).None? else ParseP2P(k.1).Some?
  {
    hide UpsAt;
    hide ParseP2P;
    hide ParseGroup;
    var ups := Wanted(roster, m);
    UpsAtMembers(ups, k);
    if UpsAt(ups, k) != [] {
      var op := UpsAt(ups, k)[0];
      assert op in UpsAt(ups, k);
      WantedSeq(roster, m, op.u);
      KindsDisjoint(k.1);
    }
  }

  lemma {:induction false} PickedKind(roster: int64 -> seq<int64>, msgs: seq<Msg>, k: ConvKey)
    ensures ParseP2P(k.1).Some? ==> UpsAt(Picked(Groups, roster, msgs), k) == []
    ensures ParseP2P(k.1).None? ==> UpsAt(Picked(Pairs, roster, msgs), k) == []
  {
    hide Wanted;
    hide ParseP2P;
    if msgs != [] {
      var b, m := msgs[..|msgs| - 1], msgs[|msgs| - 1];
      PickedKind(roster, b, k);
      WantedKind(roster, m, k);
      UpsAtAppend(Picked(Groups, roster, b), Wanted(roster, m), k);
      UpsAtAppend(Picked(Pairs, roster, b), Wanted(roster, m), k);
      assert Picked(Groups, roster, b) + [] == Picked(Groups, roster, b);
      assert Picked(Pairs, roster, b) + [] == Picked(Pairs, roster, b);
    }
  }

  /** Writing the group rows first and the pair rows after changes no row's own order. */
  lemma {:induction false} PickedSplit(roster: int64 -> seq<int64>, msgs: seq<Msg>, k: ConvKey)
    ensures UpsAt(Picked(Any, roster, msgs), k) ==
            UpsAt(Picked(Groups, roster, msgs), k) + UpsAt(Picked(Pairs, roster, msgs), k)
  {
    hide Wanted;
    hide ParseP2P;
    if msgs != [] {
      var b, m := msgs[..|msgs| - 1], msgs[|msgs| - 1];
      hide UpsAt;
      hide Matches;
      PickedSplit(roster, b, k);
      PickedKind(roster, msgs, k);
      PickedKind(roster, b, k);
      UpsAtAppend(Picked(Any, roster, b), Wanted(roster, m), k);
      UpsAtAppend(Picked(Groups, roster, b), Wanted(roster, m), k);
      UpsAtAppend(Picked(Pairs, roster, b), Wanted(roster, m), k);
      assert Picked(Groups, roster, b) + [] == Picked(Groups, roster, b);
      assert Picked(Pairs, roster, b) + [] == Picked(Pairs, roster, b);
      MatchesOne(m);
      WantedKind(roster, m, k);
    }
  }

  lemma MatchesOne(m: Msg)
    ensures Matches(Any, m) && (Matches(Groups, m) <==> m.convType == CONV_TYPE_GROUP)
    ensures Matches(Pairs, m) <==> !Matches(Groups, m)
  {
  }

  ghost predicate GoodPairs(msgs: seq<Msg>) {
    forall m :: m in msgs && m.convType != CONV_TYPE_GROUP ==> PairUps(m).Some?
  }

  lemma {:induction false} PairsBuilt(roster: int64 -> seq<int64>, msgs: seq<Msg>)
    requires GoodPairs(msgs)
    ensures P2PUps(P2POnly(msgs)) == Some(Picked(Pairs, roster, msgs))
  {
    hide PairUps;
    if msgs != [] {
      var b, m := msgs[..|msgs| - 1], msgs[|msgs| - 1];
      PairsBuilt(roster, b);
      var p := P2POnly(b);
      if m.convType != CONV_TYPE_GROUP {
        assert (p + [m])[..|p|] == p;
      } else {
        assert p + [] == p && Picked(Pairs, roster, b) + [] == Picked(Pairs, roster, b);
      }
    }
  }

  // ---------------------------------------------------------------- all statements succeed

  ghost predicate AllSucceed(o: Oracle, roster: int64 -> seq<int64>) {
    && (forall t: nat :: o.sql(t) == Success)
    && (forall t: nat, gid: int64 :: o.members(t, gid) == Some(roster(gid)))
  }

  lemma {:induction false} NoOps(sts: seq<Stmt>, k: ConvKey)
    requires forall st :: st in sts ==> st.InsertIgnore?
    ensures OpsAt(sts, k) == []
  {
    if sts != [] {
      assert sts[|sts| - 1] in sts;
      NoOps(sts[..|sts| - 1], k);
    }
  }

  lemma {:induction false} NoRows(sts: seq<Stmt>, s: Shard)
    requires forall st :: st in sts && st.InsertIgnore? ==> st.shard != s
    ensures RowsAt(sts, s) == []
  {
    if sts != [] {
      assert sts[|sts| - 1] in sts;
      NoRows(sts[..|sts| - 1], s);
    }
  }

  lemma {:induction false} InsertGroupsExact(o: Oracle, t: nat, msgs: seq<Msg>, order: seq<Shard>, roster: int64 -> seq<int64>, s: Shard)
    requires AllSucceed(o, roster) && DecimalIds(msgs)
    requires forall i, j :: 0 <= i < j < |order| ==> order[i] != order[j]
    ensures var e := InsertGroups(o, t, msgs, order);
            && e.ok && RowsFor(Group(o.shard, msgs, s)).Some?
            && RowsAt(e.trace, s) == (if s in order then RowsFor(Group(o.shard, msgs, s)).value else [])
    decreases |order|
  {
    hide RowsFor;
    hide Group;
    hide RowOf;
    GroupMembers(o.shard, msgs, s);
    RowsForDecimal(Group(o.shard, msgs, s));
    if order != [] {
      var x, rest := order[0], order[1..];
      GroupMembers(o.shard, msgs, x);
      RowsForDecimal(Group(o.shard, msgs, x));
      var st := InsertIgnore(x, RowsFor(Group(o.shard, msgs, x)).value);
      InsertGroupsExact(o, t + 1, msgs, rest, roster, s);
      var more := InsertGroups(o, t + 1, msgs, rest).trace;
      assert InsertGroups(o, t, msgs, order).trace == [st] + more && InsertGroups(o, t, msgs, order).ok;
      hide InsertGroups;
      hide AllSucceed;
      hide DecimalIds;
      hide RowsAt;
      RowsAtAppend([st], more, s);
      SingleStmt(st, s, (0, ""));
      assert x !in rest;
    }
  }

  lemma {:induction false} ExecChunksExact(o: Oracle, t: nat, chunks: seq<seq<Upsert>>, roster: int64 -> seq<int64>, k: ConvKey)
    requires AllSucceed(o, roster)
    ensures var e := ExecChunks(o, t, chunks);
            && e.ok && OpsAt(e.trace, k) == UpsAt(Flatten(chunks), k) && forall s :: RowsAt(e.trace, s) == []
    decreases |chunks|
  {
    if chunks != [] {
      hide UpsAt;
      ExecChunksExact(o, t + 1, chunks[1..], roster, k);
      var st, more := UpsertConvs(chunks[0]), ExecChunks(o, t + 1, chunks[1..]).trace;
      assert ExecChunks(o, t, chunks).trace == [st] + more;
      OpsAtAppend([st], more, k);
      SingleStmt(st, 0, k);
      UpsAtAppend(chunks[0], Flatten(chunks[1..]), k);
      forall s
        ensures RowsAt([st] + more, s) == []
      {
        RowsAtAppend([st], more, s);
        SingleStmt(st, s, k);
      }
    }
  }

  lemma GroupOneExact(o: Oracle, t: nat, m: Msg, roster: int64 -> seq<int64>, k: ConvKey)
    requires AllSucceed(o, roster) && m.convType == CONV_TYPE_GROUP
    ensures var e := GroupOne(o, t, m);
            OpsAt(e.trace, k) == UpsAt(Wanted(roster, m), k) && forall s :: RowsAt(e.trace, s) == []
  {
    hide ParseGroup;
    hide GroupUps;
    hide Chunks;
    var g := ParseGroup(m.convId);
    if g.Some? {
      var chunks := Chunks(GroupUps(m, roster(g.value)), GROUP_CONV_BATCH);
      ExecChunksExact(o, t + 1, chunks, roster, k);
      ChunksFlatten(GroupUps(m, roster(g.value)), GROUP_CONV_BATCH);
    }
  }

  lemma {:induction false} GroupAllExact(o: Oracle, t: nat, msgs: seq<Msg>, roster: int64 -> seq<int64>, k: ConvKey)
    requires AllSucceed(o, roster)
    ensures var e := GroupAll(o, t, msgs);
            e.ok && OpsAt(e.trace, k) == UpsAt(Picked(Groups, roster, msgs), k) && forall s :: RowsAt(e.trace, s) == []
    decreases |msgs|
  {
    if msgs != [] {
      hide Wanted;
      hide GroupOne;
      hide UpsAt;
      hide Picked;
      var m, rest := msgs[0], msgs[1..];
      assert msgs == [m] + rest;
      PickedAppend(Groups, roster, [m], rest);
      PickedOne(Groups, roster, m);
      if m.convType != CONV_TYPE_GROUP {
        GroupAllExact(o, t, rest, roster, k);
        assert Picked(Groups, roster, msgs) == Picked(Groups, roster, rest);
      } else {
        var e := GroupOne(o, t, m);
        GroupOneExact(o, t, m, roster, k);
        GroupAllExact(o, e.tick, rest, roster, k);
        var more := GroupAll(o, e.tick, rest).trace;
        assert GroupAll(o, t, msgs).trace == e.trace + more;
        OpsAtAppend(e.trace, more, k);
        UpsAtAppend(Wanted(roster, m), Picked(Groups, roster, rest), k);
        forall s
          ensures RowsAt(e.trace + more, s) == []
        {
          RowsAtAppend(e.trace, more, s);
        }
      }
    }
  }

  lemma P2PPartExact(o: Oracle, t: nat, msgs: seq<Msg>, roster: int64 -> seq<int64>, k: ConvKey)
    requires AllSucceed(o, roster) && GoodPairs(msgs)
    ensures var e := P2PPart(o, t, P2POnly(msgs));
            && e.ok && OpsAt(e.trace, k) == UpsAt(Picked(Pairs, roster, msgs), k) && forall s :: RowsAt(e.trace, s) == []
  {
    hide PairUps;
    PairsBuilt(roster, msgs);
    if P2POnly(msgs) == [] {
      assert Picked(Pairs, roster, msgs) == [];
    } else {
      hide UpsAt;
      hide Picked;
      hide P2PUps;
      var st := UpsertConvs(Picked(Pairs, roster, msgs));
      SingleStmt(st, 0, k);
      forall s
        ensures RowsAt([st], s) == []
      {
        SingleStmt(st, s, k);
      }
    }
  }

  /** One attempt in which everything succeeds offers to every table and row exactly what is owed, in
      batch order. */
  lemma WriteBatchExact(o: Oracle, t: nat, msgs: seq<Msg>, roster: int64 -> seq<int64>, s: Shard, k: ConvKey)
    requires Fair(o) && AllSucceed(o, roster) && DecimalIds(msgs) && GoodPairs(msgs)
    ensures var e := WriteBatch(o, t, msgs);
            && e.ok && RowsFor(Group(o.shard, msgs, s)).Some?
            && RowsAt(e.trace, s) == RowsFor(Group(o.shard, msgs, s)).value
            && OpsAt(e.trace, k) == UpsAt(Picked(Any, roster, msgs), k)
  {
    hide InsertGroups;
    hide GroupAll;
    hide P2PPart;
    hide RowOf;
    hide UpsAt;
    hide Picked;
    hide PairUps;
    hide OpsAt;
    hide RowsAt;
    var order := o.order(t, Touched(o.shard, msgs));
    InsertGroupsExact(o, t, msgs, order, roster, s);
    if s !in order {
      GroupMembers(o.shard, msgs, s);
      NothingGrouped(o.shard, msgs, s);
    }
    var ins := InsertMessages(o, t, msgs);
    InsertGroupsFacts(o, t, msgs, order);
    NoOps(ins.trace, k);
    GroupAllExact(o, ins.tick, msgs, roster, k);
    var g := GroupAll(o, ins.tick, msgs);
    P2PPartExact(o, g.tick, msgs, roster, k);
    var p := P2PPart(o, g.tick, P2POnly(msgs));
    assert WriteBatch(o, t, msgs).trace == ins.trace + (g.trace + p.trace);
    RowsAtAppend(ins.trace, g.trace + p.trace, s);
    RowsAtAppend(g.trace, p.trace, s);
    OpsAtAppend(ins.trace, g.trace + p.trace, k);
    OpsAtAppend(g.trace, p.trace, k);
    PickedSplit(roster, msgs, k);
  }

  lemma {:induction false} NothingGrouped(shard: string -> Shard, msgs: seq<Msg>, s: Shard)
    requires s !in Touched(shard, msgs)
    ensures Group(shard, msgs, s) == []
  {
    if msgs != [] {
      var b, m := msgs[..|msgs| - 1], msgs[|msgs| - 1];
      assert shard(m.convId) in Touched(shard, msgs) && Touched(shard, b) <= Touched(shard, msgs);
      NothingGrouped(shard, b, s);
    }
  }

  // ---------------------------------------------------------------- transparency

  /** The messages of a history, in the order received. */
  function Stream(h: seq<Event>): seq<Msg> {
    if h == [] then []
    else Stream(h[..|h| - 1]) + if h[|h| - 1].Flushed? then h[|h| - 1].msgs else []
  }

  ghost predicate Smooth(shard: string -> Shard, roster: int64 -> seq<int64>, h: seq<Event>) {
    forall i :: 0 <= i < |h| ==>
      h[i].Flushed? && Fair(h[i].o) && AllSucceed(h[i].o, roster) && h[i].o.shard == shard
  }

  lemma {:induction false} GroupAppend(shard: string -> Shard, a: seq<Msg>, b: seq<Msg>, s: Shard)
    ensures Group(shard, a + b, s) == Group(shard, a, s) + Group(shard, b, s)
  {
    if b == [] {
      assert a + b == a;
    } else {
      GroupAppend(shard, a, b[..|b| - 1], s);
      assert (a + b)[..|a + b| - 1] == a + b[..|b| - 1];
    }
  }

  lemma {:induction false} RowsForAppend(a: seq<Msg>, b: seq<Msg>)
    requires RowsFor(a).Some? && RowsFor(b).Some?
    ensures RowsFor(a + b) == Some(RowsFor(a).value + RowsFor(b).value)
  {
    hide RowOf;
    if b == [] {
      assert a + b == a && RowsFor(a).value + [] == RowsFor(a).value;
    } else {
      var c, m := b[..|b| - 1], b[|b| - 1];
      RowsForAppend(a, c);
      assert (a + b)[..|a + b| - 1] == a + c && (a + b)[|a + b| - 1] == m;
      assert RowsFor(b).value == RowsFor(c).value + [RowOf(m).value];
      assert RowsFor(a).value + RowsFor(c).value + [RowOf(m).value] == RowsFor(a).value + (RowsFor(c).value + [RowOf(m).value]);
    }
  }

  /** A smooth history is described by its message stream alone. */
  lemma {:induction false} SmoothExact(shard: string -> Shard, roster: int64 -> seq<int64>, h: seq<Event>, s: Shard, k: ConvKey)
    requires Smooth(shard, roster, h) && DecimalIds(Stream(h)) && GoodPairs(Stream(h))
    ensures RowsFor(Group(shard, Stream(h), s)).Some?
    ensures RowsAt(HistTrace(h), s) == RowsFor(Group(shard, Stream(h), s)).value
    ensures OpsAt(HistTrace(h), k) == UpsAt(Picked(Any, roster, Stream(h)), k)
  {
    hide RowOf;
    hide PairUps;
    hide Wanted;
    if h != [] {
      hide WriteBatch;
      hide UpsAt;
      hide OpsAt;
      hide RowsAt;
      hide RowsFor;
      hide Group;
      hide Picked;
      var b, ev := h[..|h| - 1], h[|h| - 1];
      assert forall i :: 0 <= i < |b| ==> b[i] == h[i];
      var before := Stream(b);
      assert Stream(h) == before + ev.msgs;
      assert forall m :: m in before || m in ev.msgs ==> m in Stream(h);
      SmoothExact(shard, roster, b, s, k);
      assert h[|h| - 1] == ev;
      WriteBatchExact(ev.o, ev.t, ev.msgs, roster, s, k);
      assert EventTrace(ev) == WriteBatch(ev.o, ev.t, ev.msgs).trace;
      RowsAtAppend(HistTrace(b), EventTrace(ev), s);
      OpsAtAppend(HistTrace(b), EventTrace(ev), k);
      GroupAppend(shard, before, ev.msgs, s);
      RowsForAppend(Group(shard, before, s), Group(shard, ev.msgs, s));
      PickedAppend(Any, roster, before, ev.msgs);
      UpsAtAppend(Picked(Any, roster, before), Picked(Any, roster, ev.msgs), k);
    }
  }

  /** Every split of one message stream gives the same database, message rows and conversation rows with
      all their columns, from any starting state; one message at a time is one such split. */
  lemma BatchingTransparent(shard: string -> Shard, roster: int64 -> seq<int64>, db: Db, h1: seq<Event>, h2: seq<Event>)
    requires ValidDb(db) && Smooth(shard, roster, h1) && Smooth(shard, roster, h2) && Stream(h1) == Stream(h2)
    requires DecimalIds(Stream(h1)) && GoodPairs(Stream(h1))
    ensures ApplyAll(db, HistTrace(h1)) == ApplyAll(db, HistTrace(h2))
  {
    hide RowOf;
    hide PairUps;
    hide Picked;
    hide HistTrace;
    hide Stream;
    hide ApplyAll;
    forall s: Shard | true
      ensures RowsAt(HistTrace(h1), s) == RowsAt(HistTrace(h2), s)
    {
      SmoothExact(shard, roster, h1, s, (0, ""));
      SmoothExact(shard, roster, h2, s, (0, ""));
    }
    forall k: ConvKey | true
      ensures OpsAt(HistTrace(h1), k) == OpsAt(HistTrace(h2), k)
    {
      SmoothExact(shard, roster, h1, 0, k);
      SmoothExact(shard, roster, h2, 0, k);
    }
    SameProjections(db, HistTrace(h1), HistTrace(h2));
  }

  // ---------------------------------------------------------------- the conditions are needed

  lemma {:induction false} InsertGroupsOk(o: Oracle, t: nat, msgs: seq<Msg>, order: seq<Shard>, roster: int64 -> seq<int64>)
    requires AllSucceed(o, roster)
    ensures InsertGroups(o, t, msgs, order).ok
    decreases |order|
  {
    hide RowsFor;
    hide Group;
    if order != [] {
      InsertGroupsOk(o, t + 1, msgs, order[1..], roster);
      InsertGroupsOk(o, t, msgs, order[1..], roster);
    }
  }

  /** A bad id loses the whole shard group of its batch, and the flush returns nil all the same. */
  lemma BadIdLosesShardGroup(o: Oracle, t: nat, msgs: seq<Msg>, roster: int64 -> seq<int64>, bad: Msg)
    requires Fair(o) && AllSucceed(o, roster) && bad in msgs && RowOf(bad).None?
    ensures Flush(o, t, msgs).ok && RowsAt(Flush(o, t, msgs).trace, o.shard(bad.convId)) == []
  {
    hide RowOf;
    hide InsertGroups;
    hide GroupAll;
    hide P2PUps;
    hide Wanted;
    hide Group;
    hide RowsFor;
    var order, s := o.order(t, Touched(o.shard, msgs)), o.shard(bad.convId);
    var ins := InsertMessages(o, t, msgs);
    InsertGroupsOk(o, t, msgs, order, roster);
    InsertGroupsFacts(o, t, msgs, order);
    GroupMembers(o.shard, msgs, s);
    RowsForDecimal(Group(o.shard, msgs, s));
    var g := GroupAll(o, ins.tick, msgs);
    GroupAllFacts(o, ins.tick, msgs, roster);
    P2PPartFacts(o, g.tick, msgs, roster);
    assert Flush(o, t, msgs) == WriteBatch(o, t, msgs);
    NoRows(Flush(o, t, msgs).trace, s);
  }

  /** An unbuildable one-to-one message loses the cursor and unread updates of every one-to-one message
      of its batch, and the flush returns nil all the same. */
  lemma BadPairLosesUpserts(o: Oracle, t: nat, msgs: seq<Msg>, roster: int64 -> seq<int64>, bad: Msg, k: ConvKey)
    requires Fair(o) && AllSucceed(o, roster) && bad in msgs && ParseP2P(k.1).Some?
    requires bad.convType != CONV_TYPE_GROUP && PairUps(bad).None?
    ensures Flush(o, t, msgs).ok && OpsAt(Flush(o, t, msgs).trace, k) == []
  {
    hide PairUps;
    hide InsertGroups;
    hide GroupAll;
    hide P2PUps;
    hide ParseP2P;
    hide Picked;
    var order := o.order(t, Touched(o.shard, msgs));
    var ins := InsertMessages(o, t, msgs);
    InsertGroupsOk(o, t, msgs, order, roster);
    InsertGroupsFacts(o, t, msgs, order);
    NoOps(ins.trace, k);
    var g := GroupAll(o, ins.tick, msgs);
    GroupAllExact(o, ins.tick, msgs, roster, k);
    PickedKind(roster, msgs, k);
    P2POnlyMembers(msgs);
    P2PUpsMembers(P2POnly(msgs));
    assert Flush(o, t, msgs).trace == ins.trace + g.trace;
    OpsAtAppend(ins.trace, g.trace, k);
  }
}
