/** What the store consumer of internal/job/store.go writes: the builders, and one flush as a function
    of the batch and of the environment (statement outcomes, member lists, map iteration order and
    cancellation, all indexed by a tick that counts commands). No branch depends on table contents, so a
    flush is described by the statements that took effect. */
module Store {
  import opened Common
  import opened Decimal
  import opened Conv
  import opened Messages
  import opened Sql

  const STORE_BATCH_SIZE := 100
  const STORE_MAX_RETRY := 3
  const GROUP_CONV_BATCH := 100

  /** A msg.store record; payload None stands for bytes that do not parse. */
  datatype Record = Record(pos: nat, payload: Option<Msg>)

  datatype Item = Item(msg: Option<Msg>, km: Record)

  function ParseStoreItem(km: Record): Item { Item(km.payload, km) }

  /** The parsed messages of a batch, in order; unparsed items are skipped by every builder. */
  function MsgsOf(items: seq<Item>): seq<Msg> {
    if items == [] then []
    else
      var it := items[|items| - 1];
      MsgsOf(items[..|items| - 1]) + if it.msg.Some? then [it.msg.value] else []
  }

  // ---------------------------------------------------------------- builders

  function RowOf(m: Msg): Option<MsgRow> {
    match ParseUint(m.msgId)
    case None => None
    case Some(id) => Some(MsgRow(id, m.convId, m.seqNo, m.senderId, m.msgType, m.payload, 0, m.timestamp))
  }

  /** The VALUES of BuildMessageInsert: one bad id spoils the whole statement. */
  function RowsFor(msgs: seq<Msg>): Option<seq<MsgRow>> {
    if msgs == [] then Some([])
    else
      match (RowsFor(msgs[..|msgs| - 1]), RowOf(msgs[|msgs| - 1]))
      case (Some(rows), Some(row)) => Some(rows + [row])
      case _ => None
  }

  /** The messages of one shard, in batch order. */
  function Group(shard: string -> Shard, msgs: seq<Msg>, s: Shard): seq<Msg> {
    if msgs == [] then []
    else
      var m := msgs[|msgs| - 1];
      Group(shard, msgs[..|msgs| - 1], s) + if shard(m.convId) == s then [m] else []
  }

  function Touched(shard: string -> Shard, msgs: seq<Msg>): set<Shard> { set m | m in msgs :: shard(m.convId) }

  function ReceiverOf(m: Msg): Option<int64> {
    match ParseP2P(m.convId)
    case None => None
    case Some((a, b)) => if m.senderId == a then Some(b) else if m.senderId == b then Some(a) else None
  }

  /** The two rows of a one-to-one message. */
  function PairUps(m: Msg): Option<seq<Upsert>> {
    match (ParseP2P(m.convId), ReceiverOf(m))
    case (Some((a, b)), Some(recv)) =>
      Some([Upsert(a, m.convId, m.convType, b, m.seqNo, if a == recv then 1 else 0, m.timestamp),
            Upsert(b, m.convId, m.convType, a, m.seqNo, if b == recv then 1 else 0, m.timestamp)])
    case _ => None
  }

  /** The VALUES of BuildConversationUpsert: one bad conversation spoils the whole statement. */
  function P2PUps(msgs: seq<Msg>): Option<seq<Upsert>> {
    if msgs == [] then Some([])
    else
      match (P2PUps(msgs[..|msgs| - 1]), PairUps(msgs[|msgs| - 1]))
      case (Some(rows), Some(two)) => Some(rows + two)
      case _ => None
  }

  function GidOfConv(conv: string): int64 {
    match ParseGroup(conv)
    case Some(gid) => gid
    case None => 0
  }

  function MemberUp(m: Msg, uid: int64): Upsert {
    Upsert(uid, m.convId, m.convType, GidOfConv(m.convId), m.seqNo, if uid == m.senderId then 0 else 1, m.timestamp)
  }

  function GroupUps(m: Msg, members: seq<int64>): (ups: seq<Upsert>)
    ensures |ups| == |members|
  {
    seq(|members|, i requires 0 <= i < |members| => MemberUp(m, members[i]))
  }

  /** Cutting into statements of at most n rows. */
  function Chunks(ups: seq<Upsert>, n: nat): seq<seq<Upsert>>
    requires n > 0
  {
    if ups == [] then [] else if |ups| <= n then [ups] else [ups[..n]] + Chunks(ups[n..], n)
  }

  function Flatten(chunks: seq<seq<Upsert>>): seq<Upsert> {
    if chunks == [] then [] else chunks[0] + Flatten(chunks[1..])
  }

  function P2POnly(msgs: seq<Msg>): seq<Msg> {
    if msgs == [] then []
    else
      var m := msgs[|msgs| - 1];
      P2POnly(msgs[..|msgs| - 1]) + if m.convType == CONV_TYPE_GROUP then [] else [m]
  }

  // ---------------------------------------------------------------- one flush

  datatype Oracle = Oracle(
    shard: string -> Shard, sql: nat -> Outcome, members: (nat, int64) -> Option<seq<int64>>,
    order: (nat, set<Shard>) -> seq<Shard>, cancelled: nat -> bool)

  /** Map iteration visits every key once, in any order. */
  ghost predicate Fair(o: Oracle) {
    forall t: nat, ks: set<Shard> ::
      && (forall s :: s in o.order(t, ks) <==> s in ks)
      && (forall i, j :: 0 <= i < j < |o.order(t, ks)| ==> o.order(t, ks)[i] != o.order(t, ks)[j])
  }

  /** The statements that took effect, the next tick, whether the call returned nil, and whether its last
      attempt skipped nothing (no swallowed group error, no unbuildable upsert). */
  datatype Effect = Effect(trace: seq<Stmt>, tick: nat, ok: bool, clean: bool)

  function Then(a: Effect, b: Effect): Effect { Effect(a.trace + b.trace, b.tick, b.ok, a.clean && b.clean) }

  function ExecOne(o: Oracle, t: nat, st: Stmt): Effect {
    Effect(if o.sql(t).Applied() then [st] else [], t + 1, o.sql(t).Success?, true)
  }

  /** insertMessages over the shards in this order: an unbuildable group is skipped, an error stops. */
  function InsertGroups(o: Oracle, t: nat, msgs: seq<Msg>, order: seq<Shard>): Effect
    decreases |order|
  {
    if order == [] then Effect([], t, true, true)
    else
      match RowsFor(Group(o.shard, msgs, order[0]))
      case None => InsertGroups(o, t, msgs, order[1..]).(clean := false)
      case Some(rows) =>
        var e := ExecOne(o, t, InsertIgnore(order[0], rows));
        if !e.ok then e else Then(e, InsertGroups(o, e.tick, msgs, order[1..]))
  }

  function ExecChunks(o: Oracle, t: nat, chunks: seq<seq<Upsert>>): Effect
    decreases |chunks|
  {
    if chunks == [] then Effect([], t, true, true)
    else
      var e := ExecOne(o, t, UpsertConvs(chunks[0]));
      if !e.ok then e else Then(e, ExecChunks(o, e.tick, chunks[1..]))
  }

  /** upsertGroupConversations. */
  function GroupOne(o: Oracle, t: nat, m: Msg): Effect {
    match ParseGroup(m.convId)
    case None => Effect([], t, false, true)
    case Some(gid) =>
      match o.members(t, gid)
      case None => Effect([], t + 1, false, true)
      case Some(members) => ExecChunks(o, t + 1, Chunks(GroupUps(m, members), GROUP_CONV_BATCH))
  }

  /** The group messages of the batch one after the other; an error is logged and swallowed. */
  function GroupAll(o: Oracle, t: nat, msgs: seq<Msg>): Effect
    decreases |msgs|
  {
    if msgs == [] then Effect([], t, true, true)
    else if msgs[0].convType != CONV_TYPE_GROUP then GroupAll(o, t, msgs[1..])
    else
      var e := GroupOne(o, t, msgs[0]);
      Then(e.(ok := true, clean := e.ok), GroupAll(o, e.tick, msgs[1..]))
  }

  function P2PPart(o: Oracle, t: nat, msgs: seq<Msg>): Effect {
    if msgs == [] then Effect([], t, true, true)
    else
      match P2PUps(msgs)
      case None => Effect([], t, true, false)
      case Some(ups) => ExecOne(o, t, UpsertConvs(ups))
  }

  function UpsertConversations(o: Oracle, t: nat, msgs: seq<Msg>): Effect {
    var e := GroupAll(o, t, msgs);
    Then(e, P2PPart(o, e.tick, P2POnly(msgs)))
  }

  function InsertMessages(o: Oracle, t: nat, msgs: seq<Msg>): Effect {
    InsertGroups(o, t, msgs, o.order(t, Touched(o.shard, msgs)))
  }

  function WriteBatch(o: Oracle, t: nat, msgs: seq<Msg>): Effect {
    var e := InsertMessages(o, t, msgs);
    if !e.ok then e else Then(e, UpsertConversations(o, e.tick, msgs))
  }

  /** retryExec with this many attempts left; a cancelled context ends the wait between attempts. */
  function Retry(o: Oracle, t: nat, msgs: seq<Msg>, left: nat): Effect
    requires left > 0
    decreases left
  {
    var e := WriteBatch(o, t, msgs);
    if e.ok || left == 1 || o.cancelled(e.tick) then e
    else
      var rest := Retry(o, e.tick, msgs, left - 1);
      Effect(e.trace + rest.trace, rest.tick, rest.ok, rest.clean)
  }

  function Flush(o: Oracle, t: nat, msgs: seq<Msg>): Effect { Retry(o, t, msgs, STORE_MAX_RETRY) }

  // ---------------------------------------------------------------- builder facts

  ghost predicate DecimalIds(msgs: seq<Msg>) { forall m :: m in msgs ==> RowOf(m).Some? }

  lemma {:induction false} RowsForDecimal(msgs: seq<Msg>)
    ensures RowsFor(msgs).Some? <==> DecimalIds(msgs)
    ensures RowsFor(msgs).Some? ==>
              && |RowsFor(msgs).value| == |msgs|
              && forall i :: 0 <= i < |msgs| ==> RowOf(msgs[i]) == Some(RowsFor(msgs).value[i])
  {
    hide RowOf;
    if msgs != [] {
      var before := msgs[..|msgs| - 1];
      RowsForDecimal(before);
      assert forall m :: m in msgs <==> m in before || m == msgs[|msgs| - 1];
    }
  }

  lemma {:induction false} GroupMembers(shard: string -> Shard, msgs: seq<Msg>, s: Shard)
    ensures forall m :: m in Group(shard, msgs, s) <==> m in msgs && shard(m.convId) == s
  {
    if msgs != [] {
      var before := msgs[..|msgs| - 1];
      GroupMembers(shard, before, s);
      assert forall m :: m in msgs <==> m in before || m == msgs[|msgs| - 1];
    }
  }

  lemma {:induction false} P2POnlyMembers(msgs: seq<Msg>)
    ensures forall m :: m in P2POnly(msgs) <==> m in msgs && m.convType != CONV_TYPE_GROUP
  {
    if msgs != [] {
      var before := msgs[..|msgs| - 1];
      P2POnlyMembers(before);
      assert forall m :: m in msgs <==> m in before || m == msgs[|msgs| - 1];
    }
  }

  lemma {:induction false} P2PUpsMembers(msgs: seq<Msg>)
    ensures P2PUps(msgs).Some? <==> forall m :: m in msgs ==> PairUps(m).Some?
    ensures P2PUps(msgs).Some? ==>
              forall u :: u in P2PUps(msgs).value <==> exists m :: m in msgs && u in PairUps(m).value
  {
    hide PairUps;
    if msgs != [] {
      var before, last := msgs[..|msgs| - 1], msgs[|msgs| - 1];
      P2PUpsMembers(before);
      assert forall m :: m in msgs <==> m in before || m == last;
      if P2PUps(msgs).Some? {
        assert P2PUps(msgs).value == P2PUps(before).value + PairUps(last).value;
      }
    }
  }

  /** Seen from the two users: the receiver's row points at the sender and counts one, the sender's row
      points at the receiver and counts nothing, whichever of them has the lower uid. */
  lemma PairRows(m: Msg, peer: int64)
    requires m.convId == P2PId(m.senderId, peer) && peer != m.senderId
    ensures ReceiverOf(m) == Some(peer) && PairUps(m).Some?
    ensures forall u :: u in PairUps(m).value <==>
              || u == Upsert(peer, m.convId, m.convType, m.senderId, m.seqNo, 1, m.timestamp)
              || u == Upsert(m.senderId, m.convId, m.convType, peer, m.seqNo, 0, m.timestamp)
  {
    hide P2PId;
    hide ParseP2P;
    P2PRoundTrip(m.senderId, peer);
  }

  /** Which messages build: those whose sender is one of the two users in the id. */
  lemma PairBuilds(m: Msg)
    ensures forall a: int64, b: int64 :: a != b && m.convId == P2PId(a, b) ==>
              (PairUps(m).Some? <==> m.senderId == a || m.senderId == b)
    ensures ParseP2P(m.convId).None? ==> PairUps(m).None?
  {
    hide P2PId;
    hide ParseP2P;
    forall a: int64, b: int64 | a != b && m.convId == P2PId(a, b)
      ensures PairUps(m).Some? <==> m.senderId == a || m.senderId == b
    {
      P2PRoundTrip(a, b);
    }
  }

  /** The row a group message writes for its i-th member: the group is its target, and everyone but the
      sender counts it as unread. */
  lemma GroupRowOf(m: Msg, gid: int64, members: seq<int64>, i: nat)
    requires gid > 0 && m.convId == GroupId(gid) && i < |members|
    ensures |GroupUps(m, members)| == |members|
    ensures GroupUps(m, members)[i] ==
            Upsert(members[i], m.convId, m.convType, gid, m.seqNo, if members[i] == m.senderId then 0 else 1, m.timestamp)
  {
    hide GroupId;
    hide ParseGroup;
    GroupRoundTrip(gid);
  }

  /** Cutting loses nothing and keeps the order. */
  lemma {:induction false} ChunksFlatten(ups: seq<Upsert>, n: nat)
    requires n > 0
    ensures Flatten(Chunks(ups, n)) == ups
  {
    if ups == [] {
    } else if |ups| <= n {
      assert [ups][1..] == [];
    } else {
      ChunksFlatten(ups[n..], n);
      FlattenCons(ups[..n], Chunks(ups[n..], n));
      assert ups[..n] + ups[n..] == ups;
    }
  }

  lemma FlattenCons(c: seq<Upsert>, rest: seq<seq<Upsert>>)
    ensures Flatten([c] + rest) == c + Flatten(rest)
  {
    assert ([c] + rest)[1..] == rest;
  }

  /** Every statement has between 1 and n rows. */
  lemma {:induction false} ChunkSizes(ups: seq<Upsert>, n: nat)
    requires n > 0
    ensures forall c :: c in Chunks(ups, n) ==> 1 <= |c| <= n
  {
    if |ups| > n {
      ChunkSizes(ups[n..], n);
    }
  }
}
