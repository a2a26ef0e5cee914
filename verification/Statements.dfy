/** Which statements a run of the whole system can contain. */
module Statements {
  import opened Common
  import opened Conv
  import opened Messages
  import opened Sql
  import opened Store
  import opened StoreFacts
  import opened StoreWorkers
  import opened Pipeline
  import opened EndToEnd
  import Send

  /** The upsert of some one-to-one messages. */
  ghost predicate PairStmt(ups: seq<Upsert>) { exists msgs :: P2PUps(msgs) == Some(ups) }

  /** Rows of one group message for members read for its group. */
  ghost predicate ForMembers(o: Oracle, ups: seq<Upsert>, m: Msg, t: nat, gid: int64) {
    && ParseGroup(m.convId) == Some(gid) && o.members(t, gid).Some?
    && forall u :: u in ups ==> u.uid in o.members(t, gid).value && u == MemberUp(m, u.uid)
  }

  ghost predicate GroupStmt(o: Oracle, ups: seq<Upsert>) { exists m, t: nat, gid: int64 :: ForMembers(o, ups, m, t, gid) }

  ghost predicate Built(o: Oracle, st: Stmt) {
    match st
    case InsertIgnore(_, _) => true
    case UpsertConvs(ups) => PairStmt(ups) || GroupStmt(o, ups)
    case _ => FromOthers(st)
  }

  ghost predicate AllBuilt(o: Oracle, sts: seq<Stmt>) { forall st :: st in sts ==> Built(o, st) }

  lemma GroupOneBuilt(o: Oracle, t: nat, m: Msg)
    ensures AllBuilt(o, GroupOne(o, t, m).trace)
  {
    hide ParseGroup;
    hide Chunks;
    var g := ParseGroup(m.convId);
    if g.Some? && o.members(t, g.value).Some? {
      var members := o.members(t, g.value).value;
      var ups := GroupUps(m, members);
      var chunks := Chunks(ups, GROUP_CONV_BATCH);
      ChunksFlatten(ups, GROUP_CONV_BATCH);
      FlattenMembers(chunks);
      ExecChunksFacts(o, t + 1, chunks);
      hide MemberUp;
      assert forall i :: 0 <= i < |members| ==> ups[i] == MemberUp(m, members[i]) && members[i] in members;
      MemberUpUid(m);
      forall c | c in chunks
        ensures GroupStmt(o, c)
      {
        assert forall u :: u in c ==> u in ups;
        assert ForMembers(o, c, m, t, g.value);
      }
    }
  }

  lemma MemberUpUid(m: Msg)
    ensures forall uid: int64 :: MemberUp(m, uid).uid == uid
  {
  }

  lemma {:induction false} GroupAllBuilt(o: Oracle, t: nat, msgs: seq<Msg>)
    ensures AllBuilt(o, GroupAll(o, t, msgs).trace)
    decreases |msgs|
  {
    hide GroupOne;
    hide Built;
    if msgs != [] {
      if msgs[0].convType != CONV_TYPE_GROUP {
        GroupAllBuilt(o, t, msgs[1..]);
      } else {
        GroupOneBuilt(o, t, msgs[0]);
        GroupAllBuilt(o, GroupOne(o, t, msgs[0]).tick, msgs[1..]);
      }
    }
  }

  lemma WriteBatchBuilt(o: Oracle, t: nat, msgs: seq<Msg>)
    ensures AllBuilt(o, WriteBatch(o, t, msgs).trace)
  {
    hide InsertGroups;
    hide GroupAll;
    hide P2PUps;
    hide GroupStmt;
    InsertGroupsFacts(o, t, msgs, o.order(t, Touched(o.shard, msgs)));
    var ins := InsertMessages(o, t, msgs);
    if ins.ok {
      GroupAllBuilt(o, ins.tick, msgs);
    }
  }

  lemma {:induction false} RetryBuilt(o: Oracle, t: nat, msgs: seq<Msg>, left: nat)
    requires left > 0
    ensures AllBuilt(o, Retry(o, t, msgs, left).trace)
    decreases left
  {
    hide WriteBatch;
    hide Built;
    var e := WriteBatch(o, t, msgs);
    WriteBatchBuilt(o, t, msgs);
    if !e.ok && left > 1 && !o.cancelled(e.tick) {
      RetryBuilt(o, e.tick, msgs, left - 1);
    }
  }

  lemma MoveBuilt(env: Env, log: seq<Msg>, j: Job, mv: Move)
    requires AllBuilt(env.o, j.done.trace)
    ensures AllBuilt(env.o, Move1(env, log, j, mv).done.trace)
  {
    hide Retry;
    hide DeadLetters;
    hide ItemsAt;
    hide MsgsOf;
    hide IsNext;
    hide Stash;
    hide PairStmt;
    hide GroupStmt;
    RetryBuilt(env.o, j.done.tick, MsgsOf(ItemsAt(log, j.pending)), STORE_MAX_RETRY);
  }

  /** Every statement of a run comes from a builder, or is a read cursor or a valid join row. */
  lemma {:induction false} RunBuilt(env: Env, steps: seq<Step>)
    ensures AllBuilt(env.o, EndToEnd.Run(env, steps).job.done.trace)
  {
    hide Move1;
    hide Send.Exec;
    hide AllBuilt;
    if steps == [] {
      assert AllBuilt(env.o, []) by { NoneBuilt(env.o); }
    } else {
      var b, last := steps[..|steps| - 1], steps[|steps| - 1];
      RunBuilt(env, b);
      if last.Consumer? {
        MoveBuilt(env, Log(EndToEnd.Run(env, b)), EndToEnd.Run(env, b).job, last.mv);
      }
    }
  }

  lemma NoneBuilt(o: Oracle)
    ensures AllBuilt(o, [])
  {
  }
}
