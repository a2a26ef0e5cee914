/** How often a flush counts a message as unread. The unread column is not idempotent: a message is
    counted once for every attempt whose upsert took effect, whatever became of its reply. */
module Retries {
  import opened Common
  import opened Conv
  import opened Messages
  import opened Sql
  import opened Trace
  import opened Store
  import opened StoreFacts
  import opened Confluence
  import opened Batching

  /** Total change of unread by upserts. */
  function Gain(ops: seq<RowOp>): int {
    if ops == [] then 0
    else Gain(ops[..|ops| - 1]) + if ops[|ops| - 1].Up? then ops[|ops| - 1].u.delta else 0
  }

  function UnreadOf(o: Option<ConvRow>): int { if o.Some? then o.value.unread else 0 }

  /** Between two MarkReads the counter is the plain sum of what was applied. */
  lemma {:induction false} UnreadIsSum(o: Option<ConvRow>, ops: seq<RowOp>)
    requires forall op :: op in ops ==> !op.Read?
    ensures UnreadOf(RunRow(o, ops)) == UnreadOf(o) + Gain(ops)
  {
    if ops != [] {
      assert ops[|ops| - 1] in ops;
      UnreadIsSum(o, ops[..|ops| - 1]);
    }
  }

  lemma {:induction false} GainAppend(a: seq<RowOp>, b: seq<RowOp>)
    ensures Gain(a + b) == Gain(a) + Gain(b)
  {
    if b == [] {
      assert a + b == a;
    } else {
      GainAppend(a, b[..|b| - 1]);
      assert (a + b)[..|a + b| - 1] == a + b[..|b| - 1];
    }
  }

  // ---------------------------------------------------------------- one-to-one rows

  /** One-to-one messages of this conversation addressed to uid. */
  function Addressed(msgs: seq<Msg>, k: ConvKey): nat {
    if msgs == [] then 0
    else
      var m := msgs[|msgs| - 1];
      Addressed(msgs[..|msgs| - 1], k) +
      if m.convType != CONV_TYPE_GROUP && m.convId == k.1 && ReceiverOf(m) == Some(k.0) then 1 else 0
  }

  lemma PairGain(roster: int64 -> seq<int64>, m: Msg, k: ConvKey)
    requires m.convType != CONV_TYPE_GROUP && PairUps(m).Some?
    ensures Gain(UpsAt(Wanted(roster, m), k)) == if m.convId == k.1 && ReceiverOf(m) == Some(k.0) then 1 else 0
  {
    hide ParseP2P;
    var two := PairUps(m).value;
    assert two == [two[0]] + [two[1]];
    UpsAtAppend([two[0]], [two[1]], k);
    assert [two[0]][..0] == [] && [two[1]][..0] == [];
    GainAppend(UpsAt([two[0]], k), UpsAt([two[1]], k));
  }

  lemma {:induction false} PairsGain(roster: int64 -> seq<int64>, msgs: seq<Msg>, k: ConvKey)
    requires GoodPairs(msgs)
    ensures Gain(UpsAt(Picked(Pairs, roster, msgs), k)) == Addressed(msgs, k)
  {
    hide Wanted;
    hide PairUps;
    hide ReceiverOf;
    if msgs != [] {
      var b, m := msgs[..|msgs| - 1], msgs[|msgs| - 1];
      PairsGain(roster, b, k);
      if m.convType != CONV_TYPE_GROUP {
        PairGain(roster, m, k);
        UpsAtAppend(Picked(Pairs, roster, b), Wanted(roster, m), k);
        GainAppend(UpsAt(Picked(Pairs, roster, b), k), UpsAt(Wanted(roster, m), k));
      } else {
        assert Picked(Pairs, roster, b) + [] == Picked(Pairs, roster, b);
      }
    }
  }

  /** Group statements never reach a one-to-one row. */
  lemma {:induction false} GroupAllMisses(o: Oracle, t: nat, msgs: seq<Msg>, k: ConvKey)
    requires ParseP2P(k.1).Some?
    ensures OpsAt(GroupAll(o, t, msgs).trace, k) == []
    decreases |msgs|
  {
    hide ParseP2P;
    if msgs != [] {
      hide GroupOne;
      hide OpsAt;
      var m, rest := msgs[0], msgs[1..];
      if m.convType != CONV_TYPE_GROUP {
        GroupAllMisses(o, t, rest, k);
      } else {
        var e := GroupOne(o, t, m);
        GroupOneMisses(o, t, m, k);
        GroupAllMisses(o, e.tick, rest, k);
        OpsAtAppend(e.trace, GroupAll(o, e.tick, rest).trace, k);
      }
    }
  }

  lemma GroupOneMisses(o: Oracle, t: nat, m: Msg, k: ConvKey)
    requires ParseP2P(k.1).Some?
    ensures OpsAt(GroupOne(o, t, m).trace, k) == []
  {
    hide ParseP2P;
    hide ParseGroup;
    hide Chunks;
    KindsDisjoint(k.1);
    var g := ParseGroup(m.convId);
    if g.Some? && o.members(t, g.value).Some? {
      var ups := GroupUps(m, o.members(t, g.value).value);
      var chunks := Chunks(ups, GROUP_CONV_BATCH);
      ChunksFlatten(ups, GROUP_CONV_BATCH);
      ExecChunksCount(o, t + 1, chunks, k);
      NoneAt(ups, k);
    }
  }

  lemma {:induction false} NoneAt(ups: seq<Upsert>, k: ConvKey)
    requires forall u :: u in ups ==> KeyOf(u) != k
    ensures UpsAt(ups, k) == []
  {
    if ups != [] {
      assert ups[|ups| - 1] in ups;
      NoneAt(ups[..|ups| - 1], k);
    }
  }

  /** However the chunks end, a row is touched at most as often as it occurs. */
  lemma {:induction false} ExecChunksCount(o: Oracle, t: nat, chunks: seq<seq<Upsert>>, k: ConvKey)
    ensures |OpsAt(ExecChunks(o, t, chunks).trace, k)| <= |UpsAt(Flatten(chunks), k)|
    ensures forall op :: op in OpsAt(ExecChunks(o, t, chunks).trace, k) ==> op in UpsAt(Flatten(chunks), k)
    decreases |chunks|
  {
    if chunks != [] {
      hide UpsAt;
      ExecChunksCount(o, t + 1, chunks[1..], k);
      var e, more := ExecOne(o, t, UpsertConvs(chunks[0])), ExecChunks(o, t + 1, chunks[1..]).trace;
      SingleStmt(UpsertConvs(chunks[0]), 0, k);
      OpsAtAppend(e.trace, more, k);
      UpsAtAppend(chunks[0], Flatten(chunks[1..]), k);
    }
  }

  lemma NoOpsInserted(o: Oracle, t: nat, msgs: seq<Msg>, k: ConvKey)
    ensures OpsAt(InsertMessages(o, t, msgs).trace, k) == []
  {
    hide InsertGroups;
    InsertGroupsFacts(o, t, msgs, o.order(t, Touched(o.shard, msgs)));
    NoOps(InsertMessages(o, t, msgs).trace, k);
  }

  /** 1 if the upsert of the one-to-one messages takes effect in this attempt: it is reached and applied,
      whether or not its reply arrives. */
  function Hit(o: Oracle, t: nat, msgs: seq<Msg>): nat {
    var ins := InsertMessages(o, t, msgs);
    if ins.ok && P2POnly(msgs) != [] && o.sql(GroupAll(o, ins.tick, msgs).tick).Applied() then 1 else 0
  }

  /** The attempts of a flush in which it takes effect. */
  function Hits(o: Oracle, t: nat, msgs: seq<Msg>, left: nat): nat
    requires left > 0
    decreases left
  {
    var e := WriteBatch(o, t, msgs);
    Hit(o, t, msgs) + if e.ok || left == 1 || o.cancelled(e.tick) then 0 else Hits(o, e.tick, msgs, left - 1)
  }

  function Repeated(ops: seq<RowOp>, n: nat): seq<RowOp> { if n == 0 then [] else ops + Repeated(ops, n - 1) }

  lemma {:induction false} RepeatedAppend(ops: seq<RowOp>, a: nat, b: nat)
    ensures Repeated(ops, a) + Repeated(ops, b) == Repeated(ops, a + b)
  {
    if a > 0 {
      var rest, more := Repeated(ops, a - 1), Repeated(ops, b);
      assert rest + more == Repeated(ops, a - 1 + b) by {
        RepeatedAppend(ops, a - 1, b);
      }
      assert (ops + rest) + more == ops + (rest + more);
    }
  }

  lemma {:induction false} RepeatedGain(ops: seq<RowOp>, n: nat)
    ensures Gain(Repeated(ops, n)) == n * Gain(ops)
    ensures forall op :: op in Repeated(ops, n) ==> op in ops
  {
    if n > 0 {
      RepeatedGain(ops, n - 1);
      GainAppend(ops, Repeated(ops, n - 1));
    }
  }

  /** What the one-to-one messages of the batch offer to row k. */
  function PairOps(msgs: seq<Msg>, k: ConvKey): seq<RowOp> { UpsAt(Picked(Pairs, (gid: int64) => [], msgs), k) }

  /** One attempt reaches a one-to-one row with the whole batch or not at all. */
  lemma AttemptPairs(o: Oracle, t: nat, msgs: seq<Msg>, k: ConvKey)
    requires ParseP2P(k.1).Some? && GoodPairs(msgs)
    ensures OpsAt(WriteBatch(o, t, msgs).trace, k) == Repeated(PairOps(msgs, k), Hit(o, t, msgs))
  {
    hide ParseP2P;
    hide PairUps;
    hide InsertGroups;
    hide GroupAll;
    hide P2PUps;
    hide PairOps;
    var ins := InsertMessages(o, t, msgs);
    NoOpsInserted(o, t, msgs, k);
    assert Repeated(PairOps(msgs, k), 0) == [];
    if ins.ok {
      var g := GroupAll(o, ins.tick, msgs);
      GroupAllMisses(o, ins.tick, msgs, k);
      GroupAllOwn(o, ins.tick, msgs, msgs);
      var p := P2PPart(o, g.tick, P2POnly(msgs));
      PairPart(o, g.tick, msgs, k);
      assert WriteBatch(o, t, msgs).trace == ins.trace + (g.trace + p.trace);
      OpsAtAppend(ins.trace, g.trace + p.trace, k);
      OpsAtAppend(g.trace, p.trace, k);
    }
  }

  lemma PairPart(o: Oracle, t: nat, msgs: seq<Msg>, k: ConvKey)
    requires GoodPairs(msgs)
    ensures OpsAt(P2PPart(o, t, P2POnly(msgs)).trace, k) ==
            Repeated(PairOps(msgs, k), if P2POnly(msgs) != [] && o.sql(t).Applied() then 1 else 0)
  {
    hide PairUps;
    var roster := (gid: int64) => [];
    PairsBuilt(roster, msgs);
    var ops := PairOps(msgs, k);
    assert Repeated(ops, 1) == ops + Repeated(ops, 0) && Repeated(ops, 0) == [];
    if P2POnly(msgs) != [] {
      hide P2PUps;
      hide Picked;
      hide UpsAt;
      SingleStmt(UpsertConvs(Picked(Pairs, roster, msgs)), 0, k);
    }
  }

  lemma {:induction false} RetryPairs(o: Oracle, t: nat, msgs: seq<Msg>, k: ConvKey, left: nat)
    requires ParseP2P(k.1).Some? && GoodPairs(msgs) && left > 0
    ensures OpsAt(Retry(o, t, msgs, left).trace, k) == Repeated(PairOps(msgs, k), Hits(o, t, msgs, left))
    decreases left
  {
    hide WriteBatch;
    hide ParseP2P;
    hide PairUps;
    hide OpsAt;
    hide Hit;
    hide PairOps;
    hide Repeated;
    var e := WriteBatch(o, t, msgs);
    AttemptPairs(o, t, msgs, k);
    if !e.ok && left > 1 && !o.cancelled(e.tick) {
      RetryPairs(o, e.tick, msgs, k, left - 1);
      OpsAtAppend(e.trace, Retry(o, e.tick, msgs, left - 1).trace, k);
      RepeatedAppend(PairOps(msgs, k), Hit(o, t, msgs), Hits(o, e.tick, msgs, left - 1));
    }
  }

  lemma PairOpsGain(msgs: seq<Msg>, k: ConvKey)
    requires GoodPairs(msgs)
    ensures Gain(PairOps(msgs, k)) == Addressed(msgs, k) && forall op :: op in PairOps(msgs, k) ==> op.Up?
  {
    hide PairUps;
    hide Addressed;
    hide Picked;
    var roster := (gid: int64) => [];
    PairsGain(roster, msgs, k);
    UpsAtMembers(Picked(Pairs, roster, msgs), k);
  }

  /** The exact count, whatever fails and whatever replies are lost: a flush adds to a one-to-one row the
      number of messages addressed to its user, once per attempt whose upsert took effect, and leaves the
      row as it was if there is none. */
  lemma PairsCountedPerHit(o: Oracle, t: nat, msgs: seq<Msg>, db: Db, k: ConvKey)
    requires ValidDb(db) && ParseP2P(k.1).Some? && GoodPairs(msgs)
    ensures var n := Hits(o, t, msgs, STORE_MAX_RETRY);
            var before, after := Find(db.convs, k), Find(ApplyAll(db, Flush(o, t, msgs).trace).convs, k);
            && UnreadOf(after) == UnreadOf(before) + n * Addressed(msgs, k)
            && (n == 0 ==> after == before)
  {
    hide Retry;
    hide Hits;
    hide ParseP2P;
    hide PairUps;
    hide ApplyAll;
    hide Addressed;
    hide PairOps;
    hide OpsAt;
    var e, n := Flush(o, t, msgs), Hits(o, t, msgs, STORE_MAX_RETRY);
    RetryPairs(o, t, msgs, k, STORE_MAX_RETRY);
    RowProjection(db, e.trace, k);
    PairOpsGain(msgs, k);
    RepeatedGain(PairOps(msgs, k), n);
    UnreadIsSum(Find(db.convs, k), OpsAt(e.trace, k));
  }

  /** Each message is counted exactly once if and only if none is addressed to the user or exactly one
      attempt's upsert took effect. */
  lemma CountedOnceExactly(o: Oracle, t: nat, msgs: seq<Msg>, db: Db, k: ConvKey)
    requires ValidDb(db) && ParseP2P(k.1).Some? && GoodPairs(msgs)
    ensures UnreadOf(Find(ApplyAll(db, Flush(o, t, msgs).trace).convs, k)) == UnreadOf(Find(db.convs, k)) + Addressed(msgs, k)
            <==> Addressed(msgs, k) == 0 || Hits(o, t, msgs, STORE_MAX_RETRY) == 1
  {
    hide Flush;
    hide ApplyAll;
    hide Hits;
    hide Addressed;
    hide ParseP2P;
    hide PairUps;
    PairsCountedPerHit(o, t, msgs, db, k);
    var n, a := Hits(o, t, msgs, STORE_MAX_RETRY), Addressed(msgs, k);
    assert n * a == a <==> a == 0 || n == 1 by { OnlyOneKeeps(n, a); }
  }

  lemma OnlyOneKeeps(n: nat, a: nat)
    ensures n * a == a <==> a == 0 || n == 1
  {
    if n == 0 || a == 0 || n == 1 {
    } else {
      assert n * a == (n - 2) * a + 2 * a;
    }
  }

  /** The replies to the upserts of one-to-one messages arrive; inserts and group statements may lose theirs. */
  ghost predicate RepliesArrive(o: Oracle, t: nat, msgs: seq<Msg>, left: nat)
    requires left > 0
    decreases left
  {
    var ins, e := InsertMessages(o, t, msgs), WriteBatch(o, t, msgs);
    && (ins.ok && P2POnly(msgs) != [] ==> o.sql(GroupAll(o, ins.tick, msgs).tick) != FailedAfter)
    && (e.ok || left == 1 || o.cancelled(e.tick) || RepliesArrive(o, e.tick, msgs, left - 1))
  }

  lemma AttemptEnds(o: Oracle, t: nat, msgs: seq<Msg>)
    requires GoodPairs(msgs) && P2POnly(msgs) != []
    ensures var ins := InsertMessages(o, t, msgs);
            WriteBatch(o, t, msgs).ok <==> ins.ok && o.sql(GroupAll(o, ins.tick, msgs).tick).Success?
  {
    hide InsertMessages;
    hide GroupAll;
    hide P2PUps;
    hide PairUps;
    PairsBuilt((gid: int64) => [], msgs);
    if InsertMessages(o, t, msgs).ok {
      GroupAllOwn(o, InsertMessages(o, t, msgs).tick, msgs, msgs);
    }
  }

  lemma HitIsSuccess(o: Oracle, t: nat, msgs: seq<Msg>)
    requires GoodPairs(msgs) && P2POnly(msgs) != []
    requires InsertMessages(o, t, msgs).ok ==> o.sql(GroupAll(o, InsertMessages(o, t, msgs).tick, msgs).tick) != FailedAfter
    ensures Hit(o, t, msgs) == if WriteBatch(o, t, msgs).ok then 1 else 0
  {
    hide InsertMessages;
    hide GroupAll;
    hide WriteBatch;
    hide PairUps;
    AttemptEnds(o, t, msgs);
  }

  lemma {:induction false} HitsOfReplies(o: Oracle, t: nat, msgs: seq<Msg>, left: nat)
    requires left > 0 && GoodPairs(msgs) && P2POnly(msgs) != [] && RepliesArrive(o, t, msgs, left)
    ensures Hits(o, t, msgs, left) == if Retry(o, t, msgs, left).ok then 1 else 0
    decreases left
  {
    hide WriteBatch;
    hide InsertMessages;
    hide Hit;
    hide PairUps;
    var e := WriteBatch(o, t, msgs);
    HitIsSuccess(o, t, msgs);
    if !e.ok && left > 1 && !o.cancelled(e.tick) {
      HitsOfReplies(o, e.tick, msgs, left - 1);
    }
  }

  lemma {:induction false} NoPairsNoneAddressed(msgs: seq<Msg>, k: ConvKey)
    requires P2POnly(msgs) == []
    ensures Addressed(msgs, k) == 0
  {
    if msgs != [] {
      NoPairsNoneAddressed(msgs[..|msgs| - 1], k);
    }
  }

  lemma {:induction false} NoPairsNoHits(o: Oracle, t: nat, msgs: seq<Msg>, left: nat)
    requires P2POnly(msgs) == [] && left > 0
    ensures Hits(o, t, msgs, left) == 0
    decreases left
  {
    hide WriteBatch;
    hide InsertMessages;
    var e := WriteBatch(o, t, msgs);
    if !e.ok && left > 1 && !o.cancelled(e.tick) {
      NoPairsNoHits(o, e.tick, msgs, left - 1);
    }
  }

  /** If the replies to these upserts arrive, a flush that succeeds after any failed attempts counts each
      one-to-one message exactly once for its receiver and zero times for its sender, and a dead-lettered
      flush leaves every one-to-one row as it was. */
  lemma PairCountedOnce(o: Oracle, t: nat, msgs: seq<Msg>, db: Db, k: ConvKey)
    requires ValidDb(db) && ParseP2P(k.1).Some? && GoodPairs(msgs) && RepliesArrive(o, t, msgs, STORE_MAX_RETRY)
    ensures var e := Flush(o, t, msgs);
            var before, after := Find(db.convs, k), Find(ApplyAll(db, e.trace).convs, k);
            && (e.ok ==> UnreadOf(after) == UnreadOf(before) + Addressed(msgs, k))
            && (!e.ok ==> after == before)
  {
    hide Retry;
    hide Hits;
    hide RepliesArrive;
    hide ApplyAll;
    hide Addressed;
    hide ParseP2P;
    hide PairUps;
    PairsCountedPerHit(o, t, msgs, db, k);
    if P2POnly(msgs) == [] {
      NoPairsNoneAddressed(msgs, k);
      NoPairsNoHits(o, t, msgs, STORE_MAX_RETRY);
    } else {
      HitsOfReplies(o, t, msgs, STORE_MAX_RETRY);
    }
  }

  /** One lost reply is enough: if the upsert of the first attempt takes effect, its reply is lost and the
      second attempt succeeds, the flush returns nil and has counted every message of the batch twice. */
  lemma LostReplyCountsTwice(o: Oracle, t: nat, msgs: seq<Msg>, db: Db, k: ConvKey)
    requires ValidDb(db) && ParseP2P(k.1).Some? && GoodPairs(msgs) && P2POnly(msgs) != []
    requires var ins := InsertMessages(o, t, msgs); ins.ok && o.sql(GroupAll(o, ins.tick, msgs).tick) == FailedAfter
    requires var e := WriteBatch(o, t, msgs); !o.cancelled(e.tick) && WriteBatch(o, e.tick, msgs).ok
    ensures var e := Flush(o, t, msgs);
            e.ok && UnreadOf(Find(ApplyAll(db, e.trace).convs, k)) == UnreadOf(Find(db.convs, k)) + 2 * Addressed(msgs, k)
  {
    hide WriteBatch;
    hide InsertMessages;
    hide GroupAll;
    hide ApplyAll;
    hide Addressed;
    hide ParseP2P;
    hide PairUps;
    var e := WriteBatch(o, t, msgs);
    AttemptEnds(o, t, msgs);
    AttemptEnds(o, e.tick, msgs);
    assert Hits(o, e.tick, msgs, 2) == 1;
    assert Hits(o, t, msgs, STORE_MAX_RETRY) == 2;
    PairsCountedPerHit(o, t, msgs, db, k);
  }

  // ---------------------------------------------------------------- group rows

  ghost predicate Distinct(xs: seq<int64>) { forall i, j :: 0 <= i < j < |xs| ==> xs[i] != xs[j] }

  /** Member lists come from a set or from a table keyed by uid. */
  ghost predicate DistinctMembers(o: Oracle) {
    forall t: nat, gid: int64 :: o.members(t, gid).Some? ==> Distinct(o.members(t, gid).value)
  }

  /** Group messages of this conversation. */
  function GroupCount(msgs: seq<Msg>, conv: string): nat {
    if msgs == [] then 0
    else GroupCount(msgs[1..], conv) + if msgs[0].convType == CONV_TYPE_GROUP && msgs[0].convId == conv then 1 else 0
  }

  function IndexOf(xs: seq<int64>, x: int64): (i: nat)
    requires x in xs
    ensures i < |xs| && xs[i] == x && x !in xs[..i]
  {
    if xs[0] == x then 0 else IndexOf(xs[1..], x) + 1
  }

  /** Statement number c of those issued from tick t on is reached and takes effect. */
  ghost predicate Reached(o: Oracle, t: nat, c: nat) {
    (forall n: nat :: t <= n < t + c ==> o.sql(n).Success?) && o.sql(t + c).Applied()
  }

  /** 1 if this attempt at the message counts it for the user: a member who is not the sender, and the
      statement that holds the member's row takes effect after all the earlier ones succeeded. */
  ghost function GroupHit(o: Oracle, t: nat, m: Msg, uid: int64): nat {
    match ParseGroup(m.convId)
    case None => 0
    case Some(gid) =>
      match o.members(t, gid)
      case None => 0
      case Some(members) =>
        if uid != m.senderId && RowReached(o, t + 1, members, uid) then 1 else 0
  }

  /** The group messages of the conversation that one attempt counts. */
  ghost function AttemptHits(o: Oracle, t: nat, msgs: seq<Msg>, k: ConvKey): nat
    decreases |msgs|
  {
    if msgs == [] then 0
    else if msgs[0].convType != CONV_TYPE_GROUP then AttemptHits(o, t, msgs[1..], k)
    else
      (if msgs[0].convId == k.1 then GroupHit(o, t, msgs[0], k.0) else 0)
      + AttemptHits(o, GroupOne(o, t, msgs[0]).tick, msgs[1..], k)
  }

  /** Over the attempts of a flush; those whose inserts fail count nothing. */
  ghost function MemberHits(o: Oracle, t: nat, msgs: seq<Msg>, k: ConvKey, left: nat): nat
    requires left > 0
    decreases left
  {
    var ins, e := InsertMessages(o, t, msgs), WriteBatch(o, t, msgs);
    (if ins.ok then AttemptHits(o, ins.tick, msgs, k) else 0)
    + if e.ok || left == 1 || o.cancelled(e.tick) then 0 else MemberHits(o, e.tick, msgs, k, left - 1)
  }

  lemma {:induction false} PartGain(m: Msg, members: seq<int64>, k: ConvKey)
    requires Distinct(members)
    ensures Gain(UpsAt(GroupUps(m, members), k)) == if m.convId == k.1 && k.0 in members && k.0 != m.senderId then 1 else 0
  {
    hide ParseGroup;
    if members != [] {
      var b, x := members[..|members| - 1], members[|members| - 1];
      PartGain(m, b, k);
      var ups := GroupUps(m, members);
      assert ups[..|ups| - 1] == GroupUps(m, b);
      assert x !in b;
      var last := if KeyOf(ups[|ups| - 1]) == k then [Up(ups[|ups| - 1])] else [];
      GainAppend(UpsAt(GroupUps(m, b), k), last);
      assert last != [] ==> last[..0] == [];
    }
  }

  lemma GroupUpsCut(m: Msg, members: seq<int64>, n: nat)
    requires n <= |members|
    ensures GroupUps(m, members)[..n] == GroupUps(m, members[..n]) && GroupUps(m, members)[n..] == GroupUps(m, members[n..])
  {
    hide ParseGroup;
  }

  lemma IndexInRest(xs: seq<int64>, x: int64, n: nat)
    requires Distinct(xs) && n <= |xs| && x in xs
    ensures x in xs[..n] <==> IndexOf(xs, x) < n
    ensures x in xs[n..] <==> IndexOf(xs, x) >= n
    ensures x in xs[n..] ==> IndexOf(xs[n..], x) == IndexOf(xs, x) - n
  {
    var i := IndexOf(xs, x);
    assert i < n ==> xs[..n][i] == x;
    assert i >= n ==> xs[n..][i - n] == x;
  }

  lemma DistinctCut(xs: seq<int64>, n: nat)
    requires Distinct(xs) && n <= |xs|
    ensures Distinct(xs[..n]) && Distinct(xs[n..])
  {
  }

  lemma ReachedNext(o: Oracle, t: nat, c: nat)
    requires c > 0
    ensures Reached(o, t, c) <==> o.sql(t).Success? && Reached(o, t + 1, c - 1)
  {
    assert t + 1 + (c - 1) == t + c;
  }

  /** The member's statement is reached from tick t on. */
  ghost predicate RowReached(o: Oracle, t: nat, members: seq<int64>, uid: int64) {
    uid in members && Reached(o, t, IndexOf(members, uid) / GROUP_CONV_BATCH)
  }

  lemma RowReachedSplit(o: Oracle, t: nat, members: seq<int64>, cut: nat, uid: int64)
    requires Distinct(members) && members != []
    requires cut == if |members| <= GROUP_CONV_BATCH then |members| else GROUP_CONV_BATCH
    ensures var first, rest := members[..cut], members[cut..];
            && (uid in first ==> (RowReached(o, t, members, uid) <==> o.sql(t).Applied()) && uid !in rest)
            && (uid !in first ==> (RowReached(o, t, members, uid) <==> o.sql(t).Success? && RowReached(o, t + 1, rest, uid)))
  {
    hide Reached;
    if uid in members {
      IndexInRest(members, uid, cut);
      var i := IndexOf(members, uid);
      hide IndexOf;
      hide Distinct;
      if i < cut {
        assert i / GROUP_CONV_BATCH == 0;
        ReachedFirst(o, t);
      } else {
        assert cut == GROUP_CONV_BATCH && (i - cut) / GROUP_CONV_BATCH == i / GROUP_CONV_BATCH - 1;
        ReachedNext(o, t, i / GROUP_CONV_BATCH);
      }
    } else {
      NotInParts(members, uid, cut);
    }
  }

  lemma ReachedFirst(o: Oracle, t: nat)
    ensures Reached(o, t, 0) <==> o.sql(t).Applied()
  {
  }

  /** A member's row is in one statement; it is counted exactly if that statement is reached and applied. */
  lemma {:induction false} ChunksGain(o: Oracle, t: nat, m: Msg, members: seq<int64>, k: ConvKey)
    requires Distinct(members)
    ensures Gain(OpsAt(ExecChunks(o, t, Chunks(GroupUps(m, members), GROUP_CONV_BATCH)).trace, k)) ==
            if m.convId == k.1 && k.0 != m.senderId && RowReached(o, t, members, k.0) then 1 else 0
    decreases |members|
  {
    if members == [] {
      assert GroupUps(m, members) == [] && Chunks([], GROUP_CONV_BATCH) == [];
    } else {
      hide *;
      var cut := if |members| <= GROUP_CONV_BATCH then |members| else GROUP_CONV_BATCH;
      var ups, first, rest := GroupUps(m, members), members[..cut], members[cut..];
      DistinctCut(members, cut);
      GroupUpsCut(m, members, cut);
      ChunksHead(ups, cut);
      PartGain(m, first, k);
      ChunksGain(o, t + 1, m, rest, k);
      ChunksStep(o, t, ups, cut, k);
      RowReachedSplit(o, t, members, cut, k.0);
      RowReachedIn(o, t + 1, rest, k.0);
      SuccessApplies(o, t);
    }
  }

  lemma RowReachedIn(o: Oracle, t: nat, members: seq<int64>, uid: int64)
    ensures RowReached(o, t, members, uid) ==> uid in members
  {
  }

  lemma SuccessApplies(o: Oracle, t: nat)
    ensures o.sql(t).Success? ==> o.sql(t).Applied()
  {
  }

  lemma NotInParts(xs: seq<int64>, x: int64, n: nat)
    requires x !in xs && n <= |xs|
    ensures x !in xs[..n] && x !in xs[n..]
  {
  }

  lemma ChunksHead(ups: seq<Upsert>, cut: nat)
    requires ups != [] && cut == if |ups| <= GROUP_CONV_BATCH then |ups| else GROUP_CONV_BATCH
    ensures Chunks(ups, GROUP_CONV_BATCH) == [ups[..cut]] + Chunks(ups[cut..], GROUP_CONV_BATCH)
  {
    if |ups| <= GROUP_CONV_BATCH {
      assert ups[..cut] == ups && ups[cut..] == [];
      assert [ups] + [] == [ups];
    }
  }

  /** The first statement, and then the others if it succeeded. */
  lemma ChunksStep(o: Oracle, t: nat, ups: seq<Upsert>, cut: nat, k: ConvKey)
    requires cut <= |ups| && Chunks(ups, GROUP_CONV_BATCH) == [ups[..cut]] + Chunks(ups[cut..], GROUP_CONV_BATCH)
    ensures Gain(OpsAt(ExecChunks(o, t, Chunks(ups, GROUP_CONV_BATCH)).trace, k)) ==
            (if o.sql(t).Applied() then Gain(UpsAt(ups[..cut], k)) else 0)
            + (if o.sql(t).Success? then Gain(OpsAt(ExecChunks(o, t + 1, Chunks(ups[cut..], GROUP_CONV_BATCH)).trace, k)) else 0)
  {
    hide Chunks;
    hide OpsAt;
    var chunks, rest := Chunks(ups, GROUP_CONV_BATCH), Chunks(ups[cut..], GROUP_CONV_BATCH);
    assert chunks[0] == ups[..cut] && chunks[1..] == rest;
    var e, more := ExecOne(o, t, UpsertConvs(ups[..cut])), ExecChunks(o, t + 1, rest).trace;
    SingleStmt(UpsertConvs(ups[..cut]), 0, k);
    OpsAtAppend(e.trace, more, k);
    GainAppend(OpsAt(e.trace, k), OpsAt(more, k));
    NothingGained(k);
  }

  lemma NothingGained(k: ConvKey)
    ensures Gain(OpsAt([], k)) == 0
  {
  }

  lemma GroupOneGain(o: Oracle, t: nat, m: Msg, k: ConvKey)
    requires DistinctMembers(o)
    ensures Gain(OpsAt(GroupOne(o, t, m).trace, k)) == if m.convId == k.1 then GroupHit(o, t, m, k.0) else 0
  {
    hide ParseGroup;
    hide Chunks;
    hide GroupUps;
    hide ExecChunks;
    hide Distinct;
    NothingGained(k);
    hide OpsAt;
    hide Gain;
    var g := ParseGroup(m.convId);
    if g.Some? && o.members(t, g.value).Some? {
      ChunksGain(o, t + 1, m, o.members(t, g.value).value, k);
    }
  }

  lemma {:induction false} GroupAllGain(o: Oracle, t: nat, msgs: seq<Msg>, k: ConvKey)
    requires DistinctMembers(o)
    ensures Gain(OpsAt(GroupAll(o, t, msgs).trace, k)) == AttemptHits(o, t, msgs, k)
    decreases |msgs|
  {
    if msgs != [] {
      hide GroupOne;
      hide GroupHit;
      hide OpsAt;
      hide DistinctMembers;
      var m, rest := msgs[0], msgs[1..];
      if m.convType != CONV_TYPE_GROUP {
        GroupAllGain(o, t, rest, k);
      } else {
        var e := GroupOne(o, t, m);
        GroupOneGain(o, t, m, k);
        GroupAllGain(o, e.tick, rest, k);
        var more := GroupAll(o, e.tick, rest).trace;
        OpsAtAppend(e.trace, more, k);
        GainAppend(OpsAt(e.trace, k), OpsAt(more, k));
      }
    }
  }

  /** The pair statement never reaches a row outside one-to-one conversations. */
  lemma PairPartMisses(o: Oracle, t: nat, msgs: seq<Msg>, k: ConvKey)
    requires ParseP2P(k.1).None?
    ensures OpsAt(P2PPart(o, t, P2POnly(msgs)).trace, k) == []
  {
    hide ParseP2P;
    hide P2PUps;
    var p2p := P2POnly(msgs);
    if p2p != [] && P2PUps(p2p).Some? {
      var ups := P2PUps(p2p).value;
      P2PUpsMembers(p2p);
      forall u | u in ups
        ensures KeyOf(u) != k
      {
        var m :| m in p2p && u in PairUps(m).value;
        assert u.conv == m.convId;
      }
      NoneAt(ups, k);
      SingleStmt(UpsertConvs(ups), 0, k);
    }
  }

  lemma AttemptGain(o: Oracle, t: nat, msgs: seq<Msg>, k: ConvKey)
    requires DistinctMembers(o) && ParseP2P(k.1).None?
    ensures var ins := InsertMessages(o, t, msgs);
            Gain(OpsAt(WriteBatch(o, t, msgs).trace, k)) == if ins.ok then AttemptHits(o, ins.tick, msgs, k) else 0
    ensures forall op :: op in OpsAt(WriteBatch(o, t, msgs).trace, k) ==> !op.Read?
  {
    hide ParseP2P;
    hide InsertGroups;
    hide GroupAll;
    hide P2PPart;
    hide DistinctMembers;
    hide AttemptHits;
    NothingGained(k);
    hide OpsAt;
    var ins := InsertMessages(o, t, msgs);
    NoOpsInserted(o, t, msgs, k);
    if ins.ok {
      var g := GroupAll(o, ins.tick, msgs);
      GroupAllGain(o, ins.tick, msgs, k);
      GroupAllNoRead(o, ins.tick, msgs, k);
      PairPartMisses(o, g.tick, msgs, k);
      var p := P2PPart(o, g.tick, P2POnly(msgs));
      assert WriteBatch(o, t, msgs).trace == ins.trace + (g.trace + p.trace);
      OpsAtAppend(ins.trace, g.trace + p.trace, k);
      OpsAtAppend(g.trace, p.trace, k);
      assert OpsAt(WriteBatch(o, t, msgs).trace, k) == OpsAt(g.trace, k);
    }
  }

  lemma {:induction false} GroupAllNoRead(o: Oracle, t: nat, msgs: seq<Msg>, k: ConvKey)
    ensures forall op :: op in OpsAt(GroupAll(o, t, msgs).trace, k) ==> !op.Read?
    decreases |msgs|
  {
    if msgs != [] {
      hide GroupOne;
      hide OpsAt;
      var m, rest := msgs[0], msgs[1..];
      if m.convType != CONV_TYPE_GROUP {
        GroupAllNoRead(o, t, rest, k);
      } else {
        var e := GroupOne(o, t, m);
        GroupOneNoRead(o, t, m, k);
        GroupAllNoRead(o, e.tick, rest, k);
        OpsAtAppend(e.trace, GroupAll(o, e.tick, rest).trace, k);
      }
    }
  }

  lemma GroupOneNoRead(o: Oracle, t: nat, m: Msg, k: ConvKey)
    ensures forall op :: op in OpsAt(GroupOne(o, t, m).trace, k) ==> !op.Read?
  {
    hide ParseGroup;
    hide Chunks;
    hide GroupUps;
    var g := ParseGroup(m.convId);
    if g.Some? && o.members(t, g.value).Some? {
      var chunks := Chunks(GroupUps(m, o.members(t, g.value).value), GROUP_CONV_BATCH);
      ExecChunksCount(o, t + 1, chunks, k);
      UpsAtMembers(Flatten(chunks), k);
    }
  }

  lemma {:induction false} RetryGain(o: Oracle, t: nat, msgs: seq<Msg>, k: ConvKey, left: nat)
    requires DistinctMembers(o) && ParseP2P(k.1).None? && left > 0
    ensures Gain(OpsAt(Retry(o, t, msgs, left).trace, k)) == MemberHits(o, t, msgs, k, left)
    ensures forall op :: op in OpsAt(Retry(o, t, msgs, left).trace, k) ==> !op.Read?
    decreases left
  {
    hide WriteBatch;
    hide InsertMessages;
    hide ParseP2P;
    hide OpsAt;
    hide Gain;
    hide AttemptHits;
    hide DistinctMembers;
    var e := WriteBatch(o, t, msgs);
    AttemptGain(o, t, msgs, k);
    if !e.ok && left > 1 && !o.cancelled(e.tick) {
      RetryGain(o, e.tick, msgs, k, left - 1);
      var more := Retry(o, e.tick, msgs, left - 1).trace;
      OpsAtAppend(e.trace, more, k);
      GainAppend(OpsAt(e.trace, k), OpsAt(more, k));
    }
  }

  /** The exact count of a group row, whatever fails and whatever replies are lost: one for each attempt
      and message whose statement with this member's row was reached and took effect, none for the sender.
      Group rows are written before the statement that may fail the attempt, and their own errors are
      swallowed, so a member can be counted again on each attempt, or not at all by a flush that succeeds. */
  lemma GroupCountedPerHit(o: Oracle, t: nat, msgs: seq<Msg>, db: Db, k: ConvKey)
    requires ValidDb(db) && DistinctMembers(o) && ParseP2P(k.1).None?
    ensures UnreadOf(Find(ApplyAll(db, Flush(o, t, msgs).trace).convs, k)) ==
            UnreadOf(Find(db.convs, k)) + MemberHits(o, t, msgs, k, STORE_MAX_RETRY)
  {
    hide Retry;
    hide ParseP2P;
    hide ApplyAll;
    hide OpsAt;
    hide Gain;
    hide MemberHits;
    var e := Flush(o, t, msgs);
    RetryGain(o, t, msgs, k, STORE_MAX_RETRY);
    RowProjection(db, e.trace, k);
    UnreadIsSum(Find(db.convs, k), OpsAt(e.trace, k));
  }

  lemma {:induction false} AttemptHitsBound(o: Oracle, t: nat, msgs: seq<Msg>, k: ConvKey)
    ensures AttemptHits(o, t, msgs, k) <= GroupCount(msgs, k.1)
    decreases |msgs|
  {
    hide GroupOne;
    hide ParseGroup;
    hide RowReached;
    if msgs != [] {
      AttemptHitsBound(o, if msgs[0].convType != CONV_TYPE_GROUP then t else GroupOne(o, t, msgs[0]).tick, msgs[1..], k);
    }
  }

  lemma {:induction false} MemberHitsBound(o: Oracle, t: nat, msgs: seq<Msg>, k: ConvKey, left: nat)
    requires left > 0
    ensures MemberHits(o, t, msgs, k, left) <= left * GroupCount(msgs, k.1)
    decreases left
  {
    hide WriteBatch;
    hide InsertMessages;
    hide AttemptHits;
    hide GroupCount;
    var ins, e, n := InsertMessages(o, t, msgs), WriteBatch(o, t, msgs), GroupCount(msgs, k.1);
    AttemptHitsBound(o, ins.tick, msgs, k);
    assert left * n == (left - 1) * n + n && (left - 1) * n >= 0;
    if !e.ok && left > 1 && !o.cancelled(e.tick) {
      MemberHitsBound(o, e.tick, msgs, k, left - 1);
    }
  }

  /** So a member's unread grows by at most 3 per message and flush. */
  lemma GroupCountedAtMostPerAttempt(o: Oracle, t: nat, msgs: seq<Msg>, db: Db, k: ConvKey)
    requires ValidDb(db) && DistinctMembers(o) && ParseP2P(k.1).None?
    ensures var after := Find(ApplyAll(db, Flush(o, t, msgs).trace).convs, k);
            UnreadOf(after) <= UnreadOf(Find(db.convs, k)) + 3 * GroupCount(msgs, k.1)
  {
    hide Flush;
    hide ParseP2P;
    hide ApplyAll;
    hide MemberHits;
    hide GroupCount;
    GroupCountedPerHit(o, t, msgs, db, k);
    MemberHitsBound(o, t, msgs, k, STORE_MAX_RETRY);
  }
}
