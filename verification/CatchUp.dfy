/** The client's catch-up loop (scripts/wsclient.go) against the sync service, and what it achieves. */
module CatchUp {
  import opened Common
  import opened Conv
  import opened Messages
  import opened Sql
  import opened Trace
  import opened Store
  import opened Sync

  /** How the n-th request goes: whether a response arrives, and what the service meets on the way. */
  datatype Net = Net(reply: nat -> bool, isMember: nat -> Option<bool>, select: nat -> bool, get: nat -> bool)

  /** One conversation's loop: the final cursor and target, what was printed, whether the connection was
      lost, and whether every response had code 0. */
  datatype Pass = Pass(local: int, target: int, got: seq<Msg>, lost: bool, clean: bool)

  function Cursor(seqs: map<string, int>, conv: string): int { if conv in seqs then seqs[conv] else 0 }

  /** The cursor stands behind the first k rows of the scan from a start cursor. */
  ghost predicate At(t: Table, conv: string, from: int, k: nat, local: int) {
    k <= |Scan(t, conv, from)| && local == if k == 0 then from else Scan(t, conv, from)[k - 1].seqNo
  }

  /** The messages seen are the first rows of one ascending scan, and the cursor is the last of them. */
  ghost predicate Seen(t: Table, conv: string, from: int, got: seq<Msg>, local: int) {
    At(t, conv, from, |got|, local) && got == PulledAll(Scan(t, conv, from)[..|got|])
  }

  ghost predicate AllSeen(t: Table, conv: string, from: int, got: seq<Msg>) { |got| == |Scan(t, conv, from)| }

  /** What one conversation's loop promises; undisturbed, it stops at its target or at the end of the scan. */
  ghost predicate Caught(t: Table, conv: string, from: int, target0: int, p: Pass) {
    && Seen(t, conv, from, p.got, p.local)
    && p.target >= target0
    && (!p.lost && p.clean ==> p.local >= p.target || AllSeen(t, conv, from, p.got))
  }

  ghost predicate IsTop(local: int, msgs: seq<Msg>, top: int) {
    && local <= top && (forall m :: m in msgs ==> m.seqNo <= top)
    && (top == local || exists m :: m in msgs && m.seqNo == top)
  }

  lemma AtScan(t: Table, conv: string, from: int, k: nat, local: int)
    requires Keyed(t) && At(t, conv, from, k, local)
    ensures Scan(t, conv, local) == Scan(t, conv, from)[k..]
  {
    hide Scan;
    if k == 0 {
      assert Scan(t, conv, from)[0..] == Scan(t, conv, from);
    } else {
      ScanResumes(t, conv, from, k);
    }
  }

  lemma PageIsPrefix(t: Table, conv: string, local: int, limit: nat)
    ensures Page(t, conv, local, limit) <= Scan(t, conv, local)
    ensures limit > 0 && Page(t, conv, local, limit) == [] ==> Scan(t, conv, local) == []
  {
    hide Scan;
  }

  lemma LastIsHighest(t: Table, conv: string, from: int, i: nat, last: nat)
    requires Keyed(t) && i <= last < |Scan(t, conv, from)|
    ensures from < Scan(t, conv, from)[i].seqNo <= Scan(t, conv, from)[last].seqNo
  {
    hide Scan;
    if i < last {
      ScanAscends(t, conv, from, i, last);
    } else {
      ScanMembers(t, conv, from);
      assert Scan(t, conv, from)[i] in Scan(t, conv, from);
    }
  }

  /** In an ascending page the greatest seq is the last one. */
  lemma TopOfPage(t: Table, conv: string, local: int, limit: nat, top: int)
    requires Keyed(t) && IsTop(local, PulledAll(Page(t, conv, local, limit)), top)
    ensures var page := Page(t, conv, local, limit);
            if page == [] then top == local else top == page[|page| - 1].seqNo && top > local
  {
    hide Scan;
    hide Page;
    var page := Page(t, conv, local, limit);
    var msgs := PulledAll(page);
    PageIsPrefix(t, conv, local, limit);
    forall i | 0 <= i < |page|
      ensures msgs[i].seqNo == page[i].seqNo && local < page[i].seqNo <= page[|page| - 1].seqNo
    {
      LastIsHighest(t, conv, local, i, |page| - 1);
    }
    if page != [] {
      assert msgs[|page| - 1] in msgs;
    }
  }

  lemma PulledAllJoin(rows: seq<MsgRow>, k: nat, n: nat)
    requires k + n <= |rows|
    ensures PulledAll(rows[..k]) + PulledAll(rows[k..][..n]) == PulledAll(rows[..k + n])
  {
  }

  /** One answered pull. */
  lemma AfterPage(t: Table, conv: string, from: int, got: seq<Msg>, local: int, limit: nat, msgs: seq<Msg>, top: int)
    requires Keyed(t) && Seen(t, conv, from, got, local) && limit > 0
    requires msgs == PulledAll(Page(t, conv, local, limit)) && IsTop(local, msgs, top)
    ensures Seen(t, conv, from, got + msgs, top)
    ensures msgs == [] ==> AllSeen(t, conv, from, got + msgs)
    ensures msgs != [] ==> |SeqsAbove(t, conv, top)| < |SeqsAbove(t, conv, local)|
  {
    hide Scan;
    hide IsTop;
    hide Page;
    hide PulledAll;
    var all, page, k := Scan(t, conv, from), Page(t, conv, local, limit), |got|;
    var n := |page|;
    PageSizes(t, conv, local, limit);
    AtScan(t, conv, from, k, local);
    PageIsPrefix(t, conv, local, limit);
    TopOfPage(t, conv, local, limit, top);
    assert page == all[k..][..n];
    PulledAllJoin(all, k, n);
    if n > 0 {
      assert page[n - 1] == all[k + n - 1];
      LastIsHighest(t, conv, local, n - 1, n - 1);
      ScanMembers(t, conv, local);
      assert page[n - 1] in Scan(t, conv, local);
      AboveShrinks(t, conv, local, top);
    }
  }

  ghost predicate CaughtFor(db: Db, shard: string -> Shard, seqs: map<string, int>, cv: Brief, p: Pass)
    requires ValidDb(db)
  {
    Caught(db.tables[shard(cv.conv)], cv.conv, Cursor(seqs, cv.conv), cv.maxSeq, p)
  }

  lemma SameCursor(db: Db, shard: string -> Shard, a: map<string, int>, b: map<string, int>, cv: Brief, p: Pass)
    requires ValidDb(db) && Cursor(a, cv.conv) == Cursor(b, cv.conv)
    ensures CaughtFor(db, shard, a, cv, p) <==> CaughtFor(db, shard, b, cv, p)
  {
    hide Caught;
  }

  /** The n-th request, if its response arrives, is answered with code 0. */
  ghost predicate Answers(uid: int64, conv: string, net: Net, n: nat) {
    uid > 0 && MayPull(uid, conv, net.isMember(n)) && net.select(n)
  }

  ghost predicate Answered(uid: int64, conv: string, net: Net, a: nat, b: nat) {
    forall n :: a <= n < b ==> net.reply(n) && Answers(uid, conv, net, n)
  }

  ghost predicate Replied(net: Net, a: nat, b: nat) { forall n :: a <= n < b ==> net.reply(n) }

  /** The requests a..b of a pass were all answered with code 0, save the last one of a pass that was lost
      or not clean: no response arrived, or one with another code. */
  ghost predicate Course(uid: int64, conv: string, net: Net, a: nat, b: nat, p: Pass) {
    if p.lost then a < b && Answered(uid, conv, net, a, b - 1) && !net.reply(b - 1)
    else if !p.clean then
      a < b && Answered(uid, conv, net, a, b - 1) && net.reply(b - 1) && !Answers(uid, conv, net, b - 1)
    else Answered(uid, conv, net, a, b)
  }

  /** The passes made their requests one after the other, pass i those of ticks[i]..ticks[i + 1]. */
  ghost predicate Courses(uid: int64, convs: seq<Brief>, net: Net, ticks: seq<nat>, passes: seq<Pass>, a: nat, b: nat) {
    && |passes| <= |convs| && |ticks| == |passes| + 1 && ticks[0] == a && ticks[|passes|] == b
    && forall i :: 0 <= i < |passes| ==>
         ticks[i] <= ticks[i + 1] && Course(uid, convs[i].conv, net, ticks[i], ticks[i + 1], passes[i])
  }

  lemma CoursesMore(uid: int64, convs: seq<Brief>, net: Net, ticks: seq<nat>, passes: seq<Pass>, a: nat, n: nat, b: nat, p: Pass)
    requires Courses(uid, convs, net, ticks, passes, a, n) && |passes| < |convs|
    requires n <= b && Course(uid, convs[|passes|].conv, net, n, b, p)
    ensures Courses(uid, convs, net, ticks + [b], passes + [p], a, b)
  {
    hide Course;
  }

  lemma AnswersIs(uid: int64, conv: string, net: Net, n: nat)
    ensures Answers(uid, conv, net, n) <==> uid > 0 && MayPull(uid, conv, net.isMember(n)) && net.select(n)
  {
  }

  lemma ReportedIs(db: Db, uid: int64, conv: string, net: Net, n: nat)
    ensures Reported(db, uid, conv, net, n) == if Answers(uid, conv, net, n) && net.get(n) then MaxSeqOf(db, conv) else 0
  {
  }

  lemma CourseReplied(uid: int64, conv: string, net: Net, start: nat, a: nat, b: nat, p: Pass)
    requires start <= a <= b && Replied(net, start, a) && Course(uid, conv, net, a, b, p)
    ensures if p.lost then a < b && Replied(net, start, b - 1) && !net.reply(b - 1) else Replied(net, start, b)
  {
    hide Answers;
  }

  /** What the n-th request, if its response arrives, reports as max_seq. */
  ghost function Reported(db: Db, uid: int64, conv: string, net: Net, n: nat): int {
    if Answers(uid, conv, net, n) && net.get(n) then MaxSeqOf(db, conv) else 0
  }

  /** The target after the requests a..b: the one told, raised by every response that reports more. */
  ghost function Raised(db: Db, uid: int64, net: Net, cv: Brief, a: nat, b: nat): int
    decreases b
  {
    if b <= a then cv.maxSeq
    else
      var before := Raised(db, uid, net, cv, a, b - 1);
      if net.reply(b - 1) then Max(before, Reported(db, uid, cv.conv, net, b - 1)) else before
  }

  /** The target is never below the one told or one that was reported, and is one of those. */
  lemma {:induction false} RaisedIs(db: Db, uid: int64, net: Net, cv: Brief, a: nat, b: nat)
    ensures var x := Raised(db, uid, net, cv, a, b);
            && x >= cv.maxSeq && (forall n: nat :: a <= n < b && net.reply(n) ==> x >= Reported(db, uid, cv.conv, net, n))
            && (x == cv.maxSeq || exists n: nat :: a <= n < b && net.reply(n) && x == Reported(db, uid, cv.conv, net, n))
    decreases b
  {
    hide Reported;
    if a < b {
      RaisedIs(db, uid, net, cv, a, b - 1);
    }
  }

  ghost predicate SameElsewhere(a: map<string, int>, b: map<string, int>, conv: string) {
    forall c :: c != conv ==> (c in a <==> c in b) && (c in a ==> a[c] == b[c])
  }

  lemma CursorsElsewhere(a: map<string, int>, b: map<string, int>, conv: string)
    requires SameElsewhere(a, b, conv)
    ensures forall c :: c != conv ==> Cursor(a, c) == Cursor(b, c)
  {
  }

  class Client {
    const uid: int64
    const limit: int
    const net: Net
    var syncSeqs: map<string, int>
    var acks: seq<(string, int)>
    var tick: nat

    constructor (uid: int64, limit: int, net: Net, syncSeqs: map<string, int>)
      ensures this.uid == uid && this.limit == limit && this.net == net && this.syncSeqs == syncSeqs && acks == []
    {
      this.uid, this.limit, this.net, this.syncSeqs := uid, limit, net, syncSeqs;
      acks, tick := [], 0;
    }

    /** The messages of one response: each is shown, and the cursor follows the greatest seq. */
    method Show(msgs: seq<Msg>, local: int) returns (top: int)
      ensures IsTop(local, msgs, top)
    {
      top := local;
      for i := 0 to |msgs|
        invariant IsTop(local, msgs[..i], top)
      {
        assert msgs[..i + 1] == msgs[..i] + [msgs[i]];
        if msgs[i].seqNo > top {
          top := msgs[i].seqNo;
          assert msgs[i] in msgs[..i + 1];
        }
      }
      assert msgs[..|msgs|] == msgs;
    }

    /** The loop for one conversation. It ends because every non-empty page leaves fewer stored messages
        above the cursor. */
    method CatchUpConv(server: SyncServer, cv: Brief) returns (p: Pass)
      requires ValidDb(server.db) && Keyed(server.db.tables[server.shard(cv.conv)])
      modifies `syncSeqs, `tick
      ensures CaughtFor(server.db, server.shard, old(syncSeqs), cv, p)
      ensures p.target == Raised(server.db, uid, net, cv, old(tick), tick)
      ensures old(tick) <= tick && Course(uid, cv.conv, net, old(tick), tick, p)
      ensures Cursor(syncSeqs, cv.conv) == p.local && SameElsewhere(old(syncSeqs), syncSeqs, cv.conv)
    {
      hide CaughtFor;
      hide Course;
      hide Cursor;
      hide SameElsewhere;
      hide Underway;
      hide Raised;
      hide Reported;
      hide SeqsAbove;
      hide Page;
      hide PulledAll;
      hide IsTop;
      hide Answers;
      hide AllSeen;
      hide ClampLimit;
      hide Keyed;
      hide Scan;
      var conv, local, target := cv.conv, Cursor(syncSeqs, cv.conv), cv.maxSeq;
      ghost var place, a, seqs := Place(server.db, server.shard, uid, net, cv), tick, syncSeqs;
      var got: seq<Msg> := [];
      Begins(place, seqs, a);
      while true
        invariant Underway(place, seqs, a, tick, syncSeqs, got, local, target)
        decreases |SeqsAbove(server.db.tables[server.shard(conv)], conv, local)|
      {
        if local >= target {
          p := Pass(local, target, got, false, true);
          Stops(place, seqs, a, tick, syncSeqs, p);
          return;
        }
        ghost var n := tick;
        var resp, top := Pull(server, conv, local);
        if resp.None? {
          p := Pass(local, target, got, true, true);
          Loses(place, seqs, a, n, syncSeqs, p);
          return;
        }
        ghost var before := syncSeqs;
        syncSeqs := syncSeqs[conv := top];
        ghost var was := target;
        if resp.value.maxSeq > target {
          target := resp.value.maxSeq;
        }
        if resp.value.code != CODE_OK {
          p := Pass(top, target, got, false, false);
          Refuses(place, seqs, a, n, before, was, resp.value.maxSeq, p);
          return;
        }
        Advances(place, seqs, a, n, before, got, local, was, ClampLimit(limit), resp.value.msgs, top, resp.value.maxSeq);
        got, local := got + resp.value.msgs, top;
        if resp.value.msgs == [] {
          p := Pass(local, target, got, false, true);
          Stops(place, seqs, a, tick, syncSeqs, p);
          return;
        }
      }
    }

    /** One SYNC_PULL: no response, or one whose messages have been shown. */
    method Pull(server: SyncServer, conv: string, local: int) returns (resp: Option<Reply>, top: int)
      requires ValidDb(server.db)
      modifies `tick
      ensures tick == old(tick) + 1 && (resp.Some? <==> net.reply(old(tick)))
      ensures resp.Some? ==>
                && (resp.value.code == CODE_OK <==> Answers(uid, conv, net, old(tick)))
                && IsTop(local, resp.value.msgs, top)
                && resp.value.maxSeq == Reported(server.db, uid, conv, net, old(tick))
                && (resp.value.code != CODE_OK ==> top == local)
                && (resp.value.code == CODE_OK ==>
                      resp.value.msgs == PulledAll(Page(server.db.tables[server.shard(conv)], conv, local, ClampLimit(limit))))
    {
      hide *;
      var n := tick;
      tick := tick + 1;
      if !net.reply(n) {
        return None, local;
      }
      var r := server.SyncPull(uid, conv, local, limit, net.isMember(n), net.select(n), net.get(n));
      AnswersIs(uid, conv, net, n);
      ReportedIs(server.db, uid, conv, net, n);
      top := Show(r.msgs, local);
      if r.code != CODE_OK {
        NoneShown(local, top);
      }
      resp := Some(r);
    }

    /** catchUp over the pending conversations; a lost connection ends it, and every finished conversation
        is acknowledged up to its cursor. */
    method CatchUp(server: SyncServer, convs: seq<Brief>)
      returns (ghost passes: seq<Pass>, ghost ticks: seq<nat>, done: bool)
      requires ValidDb(server.db) && forall s: Shard :: Keyed(server.db.tables[s])
      requires forall i, j :: 0 <= i < j < |convs| ==> convs[i].conv != convs[j].conv
      modifies this
      ensures |passes| <= |convs| && (done ==> |passes| == |convs|) && (!done ==> passes != [])
      ensures forall i :: 0 <= i < |passes| ==> (passes[i].lost <==> !done && i == |passes| - 1)
      ensures Courses(uid, convs, net, ticks, passes, old(tick), tick)
      ensures if done then Replied(net, old(tick), tick)
              else old(tick) < tick && Replied(net, old(tick), tick - 1) && !net.reply(tick - 1)
      ensures forall i :: 0 <= i < |passes| ==> CaughtFor(server.db, server.shard, old(syncSeqs), convs[i], passes[i])
      ensures forall i :: 0 <= i < |passes| ==> passes[i].target == Raised(server.db, uid, net, convs[i], ticks[i], ticks[i + 1])
      ensures forall i :: 0 <= i < |passes| ==> Cursor(syncSeqs, convs[i].conv) == passes[i].local
      ensures acks == old(acks) + Acks(convs, passes)
    {
      hide *;
      ghost var x, a := Call(server.db, server.shard, uid, net, convs, syncSeqs), tick;
      AcksNone(convs);
      passes, ticks := [], [tick];
      NoneDone(x, tick, syncSeqs);
      for i := 0 to |convs|
        invariant old(tick) <= tick && |passes| == i && forall k :: 0 <= k < i ==> !passes[k].lost
        invariant Passed(x, ticks, passes, a, tick, syncSeqs)
        invariant acks == old(acks) + Acks(convs, passes)
      {
        ghost var before, from := syncSeqs, tick;
        TableKeyed(x, convs[i].conv);
        var p := CatchUpConv(server, convs[i]);
        PassedMore(x, ticks, passes, a, from, before, p, tick, syncSeqs);
        AcksSnoc(convs, passes, p);
        passes, ticks := passes + [p], ticks + [tick];
        if p.lost {
          PassedIs(x, ticks, passes, a, tick, syncSeqs);
          return passes, ticks, false;
        }
        if p.local > 0 {
          acks := acks + [(convs[i].conv, p.local)];
        }
      }
      PassedIs(x, ticks, passes, a, tick, syncSeqs);
      done := true;
    }
  }

  /** A whole call: where it takes place, over which conversations, and its cursors at the start. */
  datatype Call = Call(db: Db, shard: string -> Shard, uid: int64, net: Net, convs: seq<Brief>, seqs: map<string, int>)

  ghost predicate Sound(x: Call) {
    && ValidDb(x.db) && (forall s: Shard :: Keyed(x.db.tables[s]))
    && forall i, j :: 0 <= i < j < |x.convs| ==> x.convs[i].conv != x.convs[j].conv
  }

  /** The passes made so far, with requests a..b, and the cursors they leave. */
  ghost predicate Passed(x: Call, ticks: seq<nat>, passes: seq<Pass>, a: nat, b: nat, now: map<string, int>) {
    && Sound(x) && Courses(x.uid, x.convs, x.net, ticks, passes, a, b)
    && (forall i :: 0 <= i < |passes| ==>
          && CaughtFor(x.db, x.shard, x.seqs, x.convs[i], passes[i]) && Cursor(now, x.convs[i].conv) == passes[i].local
          && passes[i].target == Raised(x.db, x.uid, x.net, x.convs[i], ticks[i], ticks[i + 1]))
    && forall i :: |passes| <= i < |x.convs| ==> Cursor(now, x.convs[i].conv) == Cursor(x.seqs, x.convs[i].conv)
  }

  lemma NoneDone(x: Call, a: nat, now: map<string, int>)
    requires Sound(x) && now == x.seqs
    ensures Passed(x, [a], [], a, a, now)
  {
  }

  lemma TableKeyed(x: Call, conv: string)
    requires Sound(x)
    ensures Keyed(x.db.tables[x.shard(conv)])
  {
  }

  lemma PassedMore(x: Call, ticks: seq<nat>, passes: seq<Pass>, a: nat, n: nat, before: map<string, int>,
                   p: Pass, b: nat, now: map<string, int>)
    requires Passed(x, ticks, passes, a, n, before) && |passes| < |x.convs| && n <= b
    requires var cv := x.convs[|passes|];
             && CaughtFor(x.db, x.shard, before, cv, p) && Course(x.uid, cv.conv, x.net, n, b, p)
             && p.target == Raised(x.db, x.uid, x.net, cv, n, b)
             && Cursor(now, cv.conv) == p.local && SameElsewhere(before, now, cv.conv)
    ensures Passed(x, ticks + [b], passes + [p], a, b, now)
  {
    hide CaughtFor;
    hide Course;
    hide Raised;
    hide Keyed;
    CursorsElsewhere(before, now, x.convs[|passes|].conv);
    hide Cursor;
    SameCursor(x.db, x.shard, x.seqs, before, x.convs[|passes|], p);
    CoursesMore(x.uid, x.convs, x.net, ticks, passes, a, n, b, p);
    assert ticks[|passes|] == n;
  }

  lemma PassedIs(x: Call, ticks: seq<nat>, passes: seq<Pass>, a: nat, b: nat, now: map<string, int>)
    requires Passed(x, ticks, passes, a, b, now) && forall i :: 0 <= i < |passes| - 1 ==> !passes[i].lost
    ensures |passes| <= |x.convs| && Courses(x.uid, x.convs, x.net, ticks, passes, a, b)
    ensures forall i :: 0 <= i < |passes| ==>
              && CaughtFor(x.db, x.shard, x.seqs, x.convs[i], passes[i]) && Cursor(now, x.convs[i].conv) == passes[i].local
              && passes[i].target == Raised(x.db, x.uid, x.net, x.convs[i], ticks[i], ticks[i + 1])
    ensures if passes != [] && passes[|passes| - 1].lost then a < b && Replied(x.net, a, b - 1) && !x.net.reply(b - 1)
            else Replied(x.net, a, b)
  {
    hide CaughtFor;
    hide Raised;
    hide Cursor;
    hide Course;
    CoursesReplied(x.uid, x.convs, x.net, ticks, passes, a, b);
  }

  lemma {:induction false} CoursesReplied(uid: int64, convs: seq<Brief>, net: Net, ticks: seq<nat>, passes: seq<Pass>, a: nat, b: nat)
    requires Courses(uid, convs, net, ticks, passes, a, b) && forall i :: 0 <= i < |passes| - 1 ==> !passes[i].lost
    ensures a <= b
    ensures if passes != [] && passes[|passes| - 1].lost then a < b && Replied(net, a, b - 1) && !net.reply(b - 1)
            else Replied(net, a, b)
  {
    hide Course;
    if passes != [] {
      var n := |passes| - 1;
      assert ticks[..n + 1][n] == ticks[n];
      CoursesReplied(uid, convs, net, ticks[..n + 1], passes[..n], a, ticks[n]);
      CourseReplied(uid, convs[n].conv, net, a, ticks[n], b, passes[n]);
    }
  }

  /** Where a pass takes place: the database, who asks over what connection, and for which conversation. */
  datatype Place = Place(db: Db, shard: string -> Shard, uid: int64, net: Net, cv: Brief)

  ghost function TableOf(x: Place): Table
    requires ValidDb(x.db)
  {
    x.db.tables[x.shard(x.cv.conv)]
  }

  /** The loop after the answered requests a..b, having started from the cursors seqs. */
  ghost predicate Underway(x: Place, seqs: map<string, int>, a: nat, b: nat, now: map<string, int>,
                           got: seq<Msg>, local: int, target: int) {
    && ValidDb(x.db) && Keyed(TableOf(x))
    && Seen(TableOf(x), x.cv.conv, Cursor(seqs, x.cv.conv), got, local)
    && target >= x.cv.maxSeq && target == Raised(x.db, x.uid, x.net, x.cv, a, b)
    && a <= b && Answered(x.uid, x.cv.conv, x.net, a, b)
    && Cursor(now, x.cv.conv) == local && SameElsewhere(seqs, now, x.cv.conv)
  }

  /** What the loop promises when it is left. */
  ghost predicate Left(x: Place, seqs: map<string, int>, a: nat, b: nat, now: map<string, int>, p: Pass) {
    && ValidDb(x.db) && CaughtFor(x.db, x.shard, seqs, x.cv, p)
    && p.target == Raised(x.db, x.uid, x.net, x.cv, a, b)
    && a <= b && Course(x.uid, x.cv.conv, x.net, a, b, p)
    && Cursor(now, x.cv.conv) == p.local && SameElsewhere(seqs, now, x.cv.conv)
  }

  lemma Begins(x: Place, seqs: map<string, int>, a: nat)
    requires ValidDb(x.db) && Keyed(TableOf(x))
    ensures Underway(x, seqs, a, a, seqs, [], Cursor(seqs, x.cv.conv), x.cv.maxSeq)
  {
    hide Scan;
  }

  lemma Stops(x: Place, seqs: map<string, int>, a: nat, b: nat, now: map<string, int>, p: Pass)
    requires Underway(x, seqs, a, b, now, p.got, p.local, p.target) && !p.lost && p.clean
    requires p.local >= p.target || AllSeen(TableOf(x), x.cv.conv, Cursor(seqs, x.cv.conv), p.got)
    ensures Left(x, seqs, a, b, now, p)
  {
    hide Seen;
    hide AllSeen;
    hide Answered;
    hide Reported;
    hide SameElsewhere;
  }

  lemma Loses(x: Place, seqs: map<string, int>, a: nat, n: nat, now: map<string, int>, p: Pass)
    requires Underway(x, seqs, a, n, now, p.got, p.local, p.target) && p.lost && !x.net.reply(n)
    ensures Left(x, seqs, a, n + 1, now, p)
  {
    hide Seen;
    hide AllSeen;
    hide Answered;
    hide Reported;
    hide SameElsewhere;
  }

  lemma Refuses(x: Place, seqs: map<string, int>, a: nat, n: nat, before: map<string, int>, was: int, maxSeq: int, p: Pass)
    requires Underway(x, seqs, a, n, before, p.got, p.local, was) && !p.lost && !p.clean
    requires x.net.reply(n) && !Answers(x.uid, x.cv.conv, x.net, n)
    requires maxSeq == Reported(x.db, x.uid, x.cv.conv, x.net, n) && p.target == if maxSeq > was then maxSeq else was
    ensures Left(x, seqs, a, n + 1, before[x.cv.conv := p.local], p)
  {
    hide Seen;
    hide AllSeen;
    hide Answered;
    hide Answers;
    hide Reported;
    MoveCursor(seqs, before, x.cv.conv, p.local);
  }

  lemma Advances(x: Place, seqs: map<string, int>, a: nat, n: nat, before: map<string, int>,
                 got: seq<Msg>, local: int, was: int, limit: nat, msgs: seq<Msg>, top: int, maxSeq: int)
    requires Underway(x, seqs, a, n, before, got, local, was) && limit > 0
    requires x.net.reply(n) && Answers(x.uid, x.cv.conv, x.net, n)
    requires msgs == PulledAll(Page(TableOf(x), x.cv.conv, local, limit)) && IsTop(local, msgs, top)
    requires maxSeq == Reported(x.db, x.uid, x.cv.conv, x.net, n)
    ensures Underway(x, seqs, a, n + 1, before[x.cv.conv := top], got + msgs, top, if maxSeq > was then maxSeq else was)
    ensures msgs == [] ==> AllSeen(TableOf(x), x.cv.conv, Cursor(seqs, x.cv.conv), got + msgs)
    ensures msgs != [] ==> |SeqsAbove(TableOf(x), x.cv.conv, top)| < |SeqsAbove(TableOf(x), x.cv.conv, local)|
  {
    hide Seen;
    hide AllSeen;
    hide Answers;
    hide Reported;
    hide IsTop;
    hide Page;
    hide PulledAll;
    AfterPage(TableOf(x), x.cv.conv, Cursor(seqs, x.cv.conv), got, local, limit, msgs, top);
    MoveCursor(seqs, before, x.cv.conv, top);
    hide Cursor;
    hide SameElsewhere;
  }

  lemma MoveCursor(start: map<string, int>, seqs: map<string, int>, conv: string, x: int)
    requires SameElsewhere(start, seqs, conv)
    ensures Cursor(seqs[conv := x], conv) == x && SameElsewhere(start, seqs[conv := x], conv)
  {
  }

  lemma NoneShown(local: int, top: int)
    requires IsTop(local, [], top)
    ensures top == local
  {
  }

  lemma PageSizes(t: Table, conv: string, local: int, limit: nat)
    ensures |PulledAll(Page(t, conv, local, limit))| == |Page(t, conv, local, limit)|
  {
    hide Page;
  }

  /** The received-acks of the finished conversations. */
  function Acks(convs: seq<Brief>, passes: seq<Pass>): seq<(string, int)>
    requires |passes| <= |convs|
  {
    if passes == [] then []
    else
      var i := |passes| - 1;
      Acks(convs, passes[..i])
      + if !passes[i].lost && passes[i].local > 0 then [(convs[i].conv, passes[i].local)] else []
  }

  lemma AcksNone(convs: seq<Brief>)
    ensures Acks(convs, []) == []
  {
  }

  lemma AcksSnoc(convs: seq<Brief>, passes: seq<Pass>, p: Pass)
    requires |passes| < |convs|
    ensures Acks(convs, passes + [p]) ==
            Acks(convs, passes) + if !p.lost && p.local > 0 then [(convs[|passes|].conv, p.local)] else []
  {
    assert (passes + [p])[..|passes|] == passes;
  }

  // ---------------------------------------------------------------- paging refines one scan

  /** Over a fixed table, the pages together are the stored messages above the start cursor in ascending
      order, each once and none skipped, and an undisturbed pass reaches its final target. */
  lemma PagingRefinesScan(t: Table, conv: string, from: int, target0: int, p: Pass)
    requires Keyed(t) && Caught(t, conv, from, target0, p)
    ensures forall i, j :: 0 <= i < j < |p.got| ==> p.got[i].seqNo < p.got[j].seqNo
    ensures forall m :: m in p.got <==> exists r :: RowAbove(t, conv, from, r) && r.seqNo <= p.local && m == Pulled(r)
    ensures !p.lost && p.clean ==> forall r :: RowAbove(t, conv, from, r) && r.seqNo <= p.target ==> Pulled(r) in p.got
  {
    hide Scan;
    var all := Scan(t, conv, from);
    ScanMembers(t, conv, from);
    forall i, j | 0 <= i < j < |p.got|
      ensures p.got[i].seqNo < p.got[j].seqNo
    {
      ScanAscends(t, conv, from, i, j);
    }
    forall r | RowAbove(t, conv, from, r) && (r.seqNo <= p.local || |p.got| == |all|)
      ensures Pulled(r) in p.got && r.seqNo <= p.local
    {
      var i :| 0 <= i < |all| && all[i] == r;
      Behind(t, conv, from, p, i);
      assert p.got[i] == Pulled(r);
    }
    forall m | m in p.got
      ensures exists r :: RowAbove(t, conv, from, r) && r.seqNo <= p.local && m == Pulled(r)
    {
      var i :| 0 <= i < |p.got| && p.got[i] == m;
      assert all[i] in all;
      Behind(t, conv, from, p, i);
    }
  }

  /** The rows seen are exactly those up to the final cursor. */
  lemma Behind(t: Table, conv: string, from: int, p: Pass, i: nat)
    requires Keyed(t) && At(t, conv, from, |p.got|, p.local) && i < |Scan(t, conv, from)|
    ensures Scan(t, conv, from)[i].seqNo <= p.local <==> i < |p.got|
  {
    hide Scan;
    var last := |p.got| - 1;
    if i <= last {
      LastIsHighest(t, conv, from, i, last);
    } else if last < 0 {
      LastIsHighest(t, conv, from, i, i);
    } else {
      ScanAscends(t, conv, from, last, i);
    }
  }

  /** What the fixed table is needed for: a message that reaches the table after the cursor was taken is
      offered if and only if its seq is above the cursor, so seqs that arrive out of order can be missed. */
  lemma LateMessageExactly(t: Table, r: MsgRow, local: int)
    requires Keyed(t) && Slot(r) !in t && !IdTaken(t, r.id)
    ensures r in Scan(InsertRow(t, r), r.conv, local) <==> r.seqNo > local
  {
    hide Scan;
    ScanMembers(InsertRow(t, r), r.conv, local);
  }
}
