/** Why a pull of a group reports max_seq 0: last_seq is read from the row of uid 0, and no run creates it. */
module GroupPull {
  import opened Common
  import opened Conv
  import opened Messages
  import opened Sql
  import opened Trace
  import opened Store
  import opened StoreFacts
  import opened Confluence
  import opened StoreWorkers
  import opened Pipeline
  import opened EndToEnd
  import opened Statements
  import opened Sync
  import Send
  import Retries

  /** Member lists hold real users only. */
  ghost predicate PositiveMembers(o: Oracle) {
    forall t: nat, gid: int64, u :: o.members(t, gid).Some? && u in o.members(t, gid).value ==> u > 0
  }

  /** The statement creates no group row for a uid that is not positive. */
  ghost predicate Fine(st: Stmt) {
    match st
    case UpsertConvs(ups) => forall u :: u in ups ==> FineUp(u)
    case JoinRow(uid, _, _, _) => uid > 0
    case _ => true
  }

  ghost predicate FineUp(u: Upsert) { u.uid > 0 || ParseP2P(u.conv).Some? }

  ghost predicate AllFine(sts: seq<Stmt>) { forall st :: st in sts ==> Fine(st) }

  lemma PairFine(m: Msg)
    ensures PairUps(m).Some? ==> forall u :: u in PairUps(m).value ==> FineUp(u)
  {
    hide ParseP2P;
  }

  lemma BuiltIsFine(o: Oracle, st: Stmt)
    requires PositiveMembers(o) && Built(o, st)
    ensures Fine(st)
  {
    hide PairUps;
    hide P2PUps;
    hide ParseP2P;
    hide ParseGroup;
    hide FineUp;
    if st.UpsertConvs? && PairStmt(st.ups) {
      var msgs :| P2PUps(msgs) == Some(st.ups);
      P2PUpsMembers(msgs);
      forall u | u in st.ups
        ensures FineUp(u)
      {
        var m :| m in msgs && u in PairUps(m).value;
        PairFine(m);
      }
    } else if st.UpsertConvs? {
      var m, t: nat, gid: int64 :| ForMembers(o, st.ups, m, t, gid);
      forall u | u in st.ups
        ensures FineUp(u)
      {
        Positive(u);
      }
    }
  }

  lemma Positive(u: Upsert)
    ensures u.uid > 0 ==> FineUp(u)
  {
  }

  lemma {:induction false} NoOneJoins(sts: seq<Stmt>, conv: string)
    requires AllFine(sts) && ParseGroup(conv).Some?
    ensures RunRow(None, OpsAt(sts, (0, conv))) == None
  {
    hide ParseGroup;
    hide ParseP2P;
    if sts != [] {
      var b, st := sts[..|sts| - 1], sts[|sts| - 1];
      assert st in sts && forall x :: x in b ==> x in sts;
      NoOneJoins(b, conv);
      KindsDisjoint(conv);
      if st.UpsertConvs? {
        UpsAtMembers(st.ups, (0, conv));
        assert OpsOf(st, (0, conv)) == [] by { Retries.NoneAt(st.ups, (0, conv)); }
      }
      var more := OpsOf(st, (0, conv));
      RunRowAppend(None, OpsAt(b, (0, conv)), more);
      assert more != [] ==> more[..0] == [];
    }
  }

  /** In every reachable state a pull of a group reports max_seq 0. */
  lemma GroupMaxSeqIsZero(env: Env, steps: seq<Step>, conv: string)
    requires PositiveMembers(env.o) && ParseGroup(conv).Some?
    ensures MaxSeqOf(ApplyAll(EMPTY, EndToEnd.Run(env, steps).job.done.trace), conv) == 0
  {
    hide ParseGroup;
    hide ParseP2P;
    hide ApplyAll;
    hide EndToEnd.Run;
    hide OpsAt;
    var trace := EndToEnd.Run(env, steps).job.done.trace;
    KindsDisjoint(conv);
    RunBuilt(env, steps);
    forall st | st in trace
      ensures Fine(st)
    {
      BuiltIsFine(env.o, st);
    }
    hide PositiveMembers;
    NoOneJoins(trace, conv);
    RowProjection(EMPTY, trace, (0, conv));
  }
}
