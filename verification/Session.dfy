/** A client that comes online: it is told its pending conversations, catches up with each, and its
    received-acks move the read cursors. */
module Session {
  import opened Common
  import opened Messages
  import opened Sql
  import opened Trace
  import opened Store
  import opened Cursors
  import opened Sync
  import opened CatchUp
  import opened Closing
  import Pipeline
  import EndToEnd

  /** What the service executes for a list of received-acks. */
  function AckStmts(uid: int64, acks: seq<(string, int)>, now: string -> int): seq<Stmt> {
    if acks == [] then []
    else
      var last := acks[|acks| - 1];
      AckStmts(uid, acks[..|acks| - 1], now) + [MarkRead(uid, last.0, last.1, now(last.0))]
  }

  lemma AckStmtsSnoc(uid: int64, acks: seq<(string, int)>, now: string -> int, i: nat)
    requires i < |acks|
    ensures AckStmts(uid, acks[..i + 1], now) ==
            AckStmts(uid, acks[..i], now) + [MarkRead(uid, acks[i].0, acks[i].1, now(acks[i].0))]
  {
    assert acks[..i + 1][..i] == acks[..i];
  }

  /** The reads of one conversation among the acks of some passes. */
  function ReadsOf(convs: seq<Brief>, passes: seq<Pass>, conv: string, now: string -> int): seq<RowOp>
    requires |passes| <= |convs|
  {
    if passes == [] then []
    else
      var i := |passes| - 1;
      ReadsOf(convs, passes[..i], conv, now)
      + if convs[i].conv == conv && !passes[i].lost && passes[i].local > 0 then [Read(passes[i].local, now(conv))] else []
  }

  lemma OneAckStmt(uid: int64, acks: seq<(string, int)>, a: (string, int), now: string -> int, k: ConvKey)
    ensures OpsAt(AckStmts(uid, acks + [a], now), k) ==
            OpsAt(AckStmts(uid, acks, now), k) + OpsAt([MarkRead(uid, a.0, a.1, now(a.0))], k)
  {
    assert (acks + [a])[..|acks|] == acks;
    OpsAtAppend(AckStmts(uid, acks, now), [MarkRead(uid, a.0, a.1, now(a.0))], k);
  }

  lemma {:induction false} AckOps(uid: int64, convs: seq<Brief>, passes: seq<Pass>, conv: string, now: string -> int)
    requires |passes| <= |convs|
    ensures OpsAt(AckStmts(uid, Acks(convs, passes), now), (uid, conv)) == ReadsOf(convs, passes, conv, now)
  {
    if passes != [] {
      hide AckStmts;
      hide OpsAt;
      var i := |passes| - 1;
      AckOps(uid, convs, passes[..i], conv, now);
      if !passes[i].lost && passes[i].local > 0 {
        var a := (convs[i].conv, passes[i].local);
        OneAckStmt(uid, Acks(convs, passes[..i]), a, now, (uid, conv));
        OneReadOp(uid, a, now(a.0), conv);
      } else {
        assert Acks(convs, passes) == Acks(convs, passes[..i]);
      }
    } else {
      assert AckStmts(uid, [], now) == [];
    }
  }

  lemma OneReadOp(uid: int64, a: (string, int), t: int, conv: string)
    ensures OpsAt([MarkRead(uid, a.0, a.1, t)], (uid, conv)) == if a.0 == conv then [Read(a.1, t)] else []
  {
    var st := MarkRead(uid, a.0, a.1, t);
    assert [st][..0] == [];
  }

  ghost predicate DistinctConvs(convs: seq<Brief>) {
    forall i, j :: 0 <= i < j < |convs| ==> convs[i].conv != convs[j].conv
  }

  lemma {:induction false} NoReads(convs: seq<Brief>, passes: seq<Pass>, conv: string, now: string -> int)
    requires |passes| <= |convs| && forall i :: 0 <= i < |passes| ==> convs[i].conv != conv
    ensures ReadsOf(convs, passes, conv, now) == []
  {
    if passes != [] {
      NoReads(convs, passes[..|passes| - 1], conv, now);
    }
  }

  lemma {:induction false} OneRead(convs: seq<Brief>, passes: seq<Pass>, i: nat, now: string -> int)
    requires i < |passes| <= |convs| && DistinctConvs(convs) && !passes[i].lost
    ensures ReadsOf(convs, passes, convs[i].conv, now) ==
            if passes[i].local > 0 then [Read(passes[i].local, now(convs[i].conv))] else []
  {
    var n := |passes| - 1;
    if i == n {
      NoReads(convs, passes[..n], convs[i].conv, now);
    } else {
      OneRead(convs, passes[..n], i, now);
    }
  }

  lemma {:induction false} AcksSound(convs: seq<Brief>, passes: seq<Pass>)
    requires |passes| <= |convs| && forall i :: 0 <= i < |convs| ==> convs[i].conv != ""
    ensures forall a :: a in Acks(convs, passes) ==> a.0 != "" && a.1 > 0
  {
    if passes != [] {
      AcksSound(convs, passes[..|passes| - 1]);
    }
  }

  /** Every pass is a finished one towards the last_seq of a row of this user. */
  ghost predicate AllCaught(shard: string -> Shard, db: Db, uid: int64, convs: seq<Brief>, passes: seq<Pass>, seqs: map<string, int>)
    requires ValidDb(db)
  {
    && |passes| == |convs| && DistinctConvs(convs)
    && forall i :: 0 <= i < |convs| ==> CaughtOne(shard, db, uid, convs[i], passes[i], seqs)
  }

  ghost predicate CaughtOne(shard: string -> Shard, db: Db, uid: int64, cv: Brief, p: Pass, seqs: map<string, int>)
    requires ValidDb(db)
  {
    && (uid, cv.conv) in db.convs && cv.maxSeq == db.convs[(uid, cv.conv)].lastSeq
    && CaughtFor(db, shard, seqs, cv, p) && !p.lost && p.clean
  }

  lemma PassEnough(shard: string -> Shard, sts: seq<Stmt>, uid: int64, cv: Brief, p: Pass, seqs: map<string, int>)
    requires CursorValid(shard, ApplyAll(EMPTY, sts)) && CaughtOne(shard, ApplyAll(EMPTY, sts), uid, cv, p, seqs)
    ensures p.local >= cv.maxSeq || cv.maxSeq == 0
  {
    hide ApplyAll;
    hide Caught;
    var db := ApplyAll(EMPTY, sts);
    TablesKeyed(sts, shard(cv.conv));
    if (cv.conv, cv.maxSeq) in db.tables[shard(cv.conv)] {
      PassReaches(db.tables[shard(cv.conv)], cv.conv, Cursor(seqs, cv.conv), cv.maxSeq, p);
    }
  }

  /** After the acks of a whole call over the pending conversations, no conversation of the user is
      pending, and those caught up with show no unread message if each message was applied once. */
  lemma AcksClose(shard: string -> Shard, sts: seq<Stmt>, uid: int64, convs: seq<Brief>, passes: seq<Pass>,
                  seqs: map<string, int>, now: string -> int, conv: string)
    requires CursorValid(shard, ApplyAll(EMPTY, sts)) && AllCaught(shard, ApplyAll(EMPTY, sts), uid, convs, passes, seqs)
    requires Pending(ApplyAll(EMPTY, sts), uid, conv) ==> exists i :: 0 <= i < |convs| && convs[i].conv == conv
    ensures var db, db' := ApplyAll(EMPTY, sts), ApplyAll(EMPTY, sts + AckStmts(uid, Acks(convs, passes), now));
            && !Pending(db', uid, conv)
            && (Pending(db, uid, conv) && AppliedOnce(OpsAt(sts, (uid, conv))) ==>
                  (uid, conv) in db'.convs && db'.convs[(uid, conv)].unread == 0)
  {
    hide ApplyAll;
    hide OpsAt;
    hide AppliedOnce;
    hide RunRow;
    hide CaughtOne;
    hide CursorValid;
    hide Acks;
    var k, more := (uid, conv), AckStmts(uid, Acks(convs, passes), now);
    OpsAtAppend(sts, more, k);
    AckOps(uid, convs, passes, conv, now);
    FindRow(sts, k);
    FindRow(sts + more, k);
    if i :| 0 <= i < |convs| && convs[i].conv == conv {
      OneOf(shard, ApplyAll(EMPTY, sts), uid, convs[i], passes[i], seqs);
      PassEnough(shard, sts, uid, convs[i], passes[i], seqs);
      OneRead(convs, passes, i, now);
      ReadCloses(OpsAt(sts, k), OpsAt(sts + more, k), passes[i].local, now(conv));
    } else {
      NoReads(convs, passes, conv, now);
      assert OpsAt(sts, k) + [] == OpsAt(sts, k);
    }
  }

  lemma OneOf(shard: string -> Shard, db: Db, uid: int64, cv: Brief, p: Pass, seqs: map<string, int>)
    requires ValidDb(db) && CaughtOne(shard, db, uid, cv, p, seqs)
    ensures (uid, cv.conv) in db.convs && cv.maxSeq == db.convs[(uid, cv.conv)].lastSeq && !p.lost && p.clean
  {
    hide CaughtFor;
  }

  /** Responses arrive, and each pull of a pending conversation is answered with code 0. */
  ghost predicate Undisturbed(client: Client, db: Db)
    reads client
  {
    && (forall n: nat :: client.net.reply(n))
    && (forall n: nat, conv :: Pending(db, client.uid, conv) ==> Answers(client.uid, conv, client.net, n))
  }

  lemma PassesClean(uid: int64, convs: seq<Brief>, net: Net, ticks: seq<nat>, passes: seq<Pass>, a: nat, b: nat, i: nat)
    requires Courses(uid, convs, net, ticks, passes, a, b) && i < |passes|
    requires forall n: nat :: net.reply(n) && Answers(uid, convs[i].conv, net, n)
    ensures !passes[i].lost && passes[i].clean
  {
    hide Answers;
    hide Answered;
    assert Course(uid, convs[i].conv, net, ticks[i], ticks[i + 1], passes[i]);
  }

  /** Coming online undisturbed, over any database with valid cursors and any local cursors, the client
      leaves no conversation of its user pending. */
  method ComesOnline(client: Client, server: SyncServer, ghost sts: seq<Stmt>, now: string -> int) returns (done: bool)
    requires ValidDb(server.db) && server.db == ApplyAll(EMPTY, sts) && CursorValid(server.shard, server.db)
    requires client.uid > 0 && Undisturbed(client, server.db)
    modifies client, server
    ensures done && ValidDb(server.db)
    ensures forall conv :: !Pending(server.db, client.uid, conv)
    ensures forall conv :: Pending(old(server.db), client.uid, conv) && AppliedOnce(OpsAt(sts, (client.uid, conv))) ==>
              (client.uid, conv) in server.db.convs && server.db.convs[(client.uid, conv)].unread == 0
  {
    forall s: Shard | true
      ensures Keyed(server.db.tables[s])
    {
      TablesKeyed(sts, s);
    }
    hide ApplyAll;
    hide OpsAt;
    hide CursorValid;
    hide AppliedOnce;
    hide Keyed;
    hide Courses;
    hide CaughtFor;
    hide Replied;
    hide Acks;
    hide AckStmts;
    ghost var db, seqs := server.db, client.syncSeqs;
    var briefs := server.PendingConvs(client.uid);
    var first := |client.acks|;
    ghost var passes, ticks;
    passes, ticks, done := client.CatchUp(server, briefs);
    BriefsNamed(client, db, briefs);
    ghost var a, b := old(client.tick), client.tick;
    forall i | 0 <= i < |passes|
      ensures !passes[i].lost && passes[i].clean
    {
      PassesClean(client.uid, briefs, client.net, ticks, passes, a, b, i);
    }
    hide Undisturbed;
    hide Pending;
    BriefsCaught(server.shard, db, client.uid, briefs, passes, seqs);
    AcksSound(briefs, passes);
    var acks := client.acks[first..];
    assert acks == Acks(briefs, passes);
    Acknowledge(server, client.uid, acks, sts, now);
    CallCloses(server.shard, sts, client.uid, briefs, passes, seqs, now);
  }

  /** The service handles the received-acks. */
  method Acknowledge(server: SyncServer, uid: int64, acks: seq<(string, int)>, ghost sts: seq<Stmt>, now: string -> int)
    requires ValidDb(server.db) && server.db == ApplyAll(EMPTY, sts) && uid > 0
    requires forall a :: a in acks ==> a.0 != "" && a.1 > 0
    modifies server
    ensures ValidDb(server.db) && server.db == ApplyAll(EMPTY, sts + AckStmts(uid, acks, now))
  {
    NoAcks(uid, now, sts);
    hide ApplyAll;
    hide AckStmts;
    hide Apply;
    assert acks[..0] == [];
    for i := 0 to |acks|
      invariant ValidDb(server.db) && server.db == ApplyAll(EMPTY, sts + AckStmts(uid, acks[..i], now))
    {
      AckStmtsSnoc(uid, acks, now, i);
      assert acks[i] in acks;
      ghost var before := sts + AckStmts(uid, acks[..i], now);
      ghost var st := MarkRead(uid, acks[i].0, acks[i].1, now(acks[i].0));
      ApplySnoc(EMPTY, before, st);
      assert before + [st] == sts + AckStmts(uid, acks[..i + 1], now);
      server.MarkRead(uid, acks[i].0, acks[i].1, now(acks[i].0), Success);
    }
    assert acks[..|acks|] == acks;
  }

  /** The briefs are exactly the pending conversations, each once. */
  ghost predicate BriefsOf(db: Db, uid: int64, briefs: seq<Brief>) {
    && DistinctConvs(briefs)
    && forall b :: b in briefs <==> Pending(db, uid, b.conv) && b == BriefOf(db, uid, b.conv)
  }

  lemma BriefsNamed(client: Client, db: Db, briefs: seq<Brief>)
    requires Undisturbed(client, db) && BriefsOf(db, client.uid, briefs)
    ensures forall i :: 0 <= i < |briefs| ==> briefs[i].conv != ""
    ensures forall i, n: nat :: 0 <= i < |briefs| ==> client.net.reply(n) && Answers(client.uid, briefs[i].conv, client.net, n)
  {
    hide Answers;
    forall i | 0 <= i < |briefs|
      ensures briefs[i].conv != "" && forall n: nat :: client.net.reply(n) && Answers(client.uid, briefs[i].conv, client.net, n)
    {
      assert briefs[i] in briefs;
      NamedConv(client, db, briefs[i].conv);
    }
  }

  lemma BriefsCaught(shard: string -> Shard, db: Db, uid: int64, briefs: seq<Brief>, passes: seq<Pass>, seqs: map<string, int>)
    requires ValidDb(db) && BriefsOf(db, uid, briefs) && |passes| == |briefs|
    requires forall i :: 0 <= i < |passes| ==> CaughtFor(db, shard, seqs, briefs[i], passes[i]) && !passes[i].lost && passes[i].clean
    ensures AllCaught(shard, db, uid, briefs, passes, seqs)
  {
    hide CaughtFor;
    forall i | 0 <= i < |briefs|
      ensures CaughtOne(shard, db, uid, briefs[i], passes[i], seqs)
    {
      assert briefs[i] in briefs;
    }
  }

  /** What a whole call over all pending conversations leaves after its acks. */
  lemma CallCloses(shard: string -> Shard, sts: seq<Stmt>, uid: int64, briefs: seq<Brief>, passes: seq<Pass>,
                   seqs: map<string, int>, now: string -> int)
    requires CursorValid(shard, ApplyAll(EMPTY, sts)) && BriefsOf(ApplyAll(EMPTY, sts), uid, briefs)
    requires AllCaught(shard, ApplyAll(EMPTY, sts), uid, briefs, passes, seqs)
    ensures var db, db' := ApplyAll(EMPTY, sts), ApplyAll(EMPTY, sts + AckStmts(uid, Acks(briefs, passes), now));
            && (forall conv :: !Pending(db', uid, conv))
            && (forall conv :: Pending(db, uid, conv) && AppliedOnce(OpsAt(sts, (uid, conv))) ==>
                  (uid, conv) in db'.convs && db'.convs[(uid, conv)].unread == 0)
  {
    hide ApplyAll;
    hide OpsAt;
    hide AppliedOnce;
    hide CursorValid;
    hide AckStmts;
    hide Acks;
    var db, db' := ApplyAll(EMPTY, sts), ApplyAll(EMPTY, sts + AckStmts(uid, Acks(briefs, passes), now));
    forall conv
      ensures !Pending(db', uid, conv)
      ensures Pending(db, uid, conv) && AppliedOnce(OpsAt(sts, (uid, conv))) ==>
                (uid, conv) in db'.convs && db'.convs[(uid, conv)].unread == 0
    {
      if Pending(db, uid, conv) {
        assert BriefOf(db, uid, conv) in briefs;
      }
      AcksClose(shard, sts, uid, briefs, passes, seqs, now, conv);
    }
  }

  lemma NamedConv(client: Client, db: Db, conv: string)
    requires Undisturbed(client, db) && Pending(db, client.uid, conv)
    ensures conv != "" && forall n: nat :: client.net.reply(n) && Answers(client.uid, conv, client.net, n)
  {
    assert Answers(client.uid, conv, client.net, 0);
    NoEmptyConv(client.uid, client.net.isMember(0));
    hide Answers;
  }

  lemma NoEmptyConv(uid: int64, isMember: Option<bool>)
    ensures !MayPull(uid, "", isMember)
  {
  }

  lemma NoAcks(uid: int64, now: string -> int, sts: seq<Stmt>)
    ensures sts + AckStmts(uid, [], now) == sts
  {
  }

  /** The statements the store job has executed after these steps of the whole system. */
  ghost function Executed(env: Pipeline.Env, steps: seq<EndToEnd.Step>): seq<Stmt> { EndToEnd.Run(env, steps).job.done.trace }

  lemma SystemIsReady(env: Pipeline.Env, steps: seq<EndToEnd.Step>)
    requires Fair(env.o) && EndToEnd.UniqueIds(EndToEnd.Requests(steps))
    ensures var db := ApplyAll(EMPTY, Executed(env, steps)); ValidDb(db) && CursorValid(env.o.shard, db)
  {
    EndToEnd.SystemCursorsValid(env, steps);
  }

  /** The same against the service over any state the whole system can reach with unique ids: with whatever
      the job has stored by then, crashes in the middle of a flush included, nothing stays pending. */
  method SystemComesOnline(client: Client, server: SyncServer, ghost env: Pipeline.Env, ghost steps: seq<EndToEnd.Step>,
                           now: string -> int) returns (done: bool)
    requires Fair(env.o) && EndToEnd.UniqueIds(EndToEnd.Requests(steps))
    requires ValidDb(server.db) && server.db == ApplyAll(EMPTY, Executed(env, steps)) && server.shard == env.o.shard
    requires client.uid > 0 && Undisturbed(client, server.db)
    modifies client, server
    ensures done && ValidDb(server.db)
    ensures forall conv :: !Pending(server.db, client.uid, conv)
    ensures forall conv :: Pending(old(server.db), client.uid, conv)
                           && AppliedOnce(OpsAt(Executed(env, steps), (client.uid, conv))) ==>
              (client.uid, conv) in server.db.convs && server.db.convs[(client.uid, conv)].unread == 0
  {
    SystemIsReady(env, steps);
    hide *;
    done := ComesOnline(client, server, Executed(env, steps), now);
  }
}
