/** What a code of sendMsg says about what was written. */
module SendCodes {
  import opened Common
  import opened Decimal
  import opened Keys
  import opened Messages
  import opened Send

  /** The code a request will answer or has answered with, against whether it drew a message. */
  ghost predicate CodeOk(q: Req) {
    match q.pc
    case RollingBack(code) =>
      || (code == CODE_KAFKA_ERR && q.msg.Some?)
      || ((code == CODE_REDIS_ERR || code == CODE_NOT_FRIEND) && q.msg.None?)
    case Finished(ack) =>
      && (ack.code != CODE_OK ==> ack.msgId == "" && ack.seqNo == 0)
      && (|| ack.code == CODE_OK
          || (ack.code == CODE_KAFKA_ERR && q.msg.Some?)
          || (ack.code in {CODE_REDIS_ERR, CODE_NOT_FRIEND, CODE_IN_FLIGHT} && q.msg.None?))
    case Sequenced => q.msg.Some?
    case Pushing(_) => q.msg.Some?
    case Dead => true
    case _ => q.msg.None?
  }

  ghost predicate CodesOk(s: State) { forall r :: r in s.reqs ==> CodeOk(s.reqs[r]) }

  lemma CodeStep(s: State, a: Action)
    requires CodesOk(s)
    ensures CodesOk(Exec(s, a))
  {
    hide Validate;
    hide IdemKey;
    hide Others;
    hide FormatInt;
    if !a.Expire? && a.r in s.reqs {
      assert CodeOk(s.reqs[a.r]);
    }
  }

  lemma {:induction false} CodesRun(acts: seq<Action>)
    ensures CodesOk(Run(INITIAL, acts))
  {
    hide Exec;
    hide CodeOk;
    if acts != [] {
      CodesRun(acts[..|acts| - 1]);
      CodeStep(Run(INITIAL, acts[..|acts| - 1]), acts[|acts| - 1]);
    }
  }

  /** A request answered with any code but 0 and CODE_KAFKA_ERR drew no message, so every record of either
      topic belongs to other requests; CODE_KAFKA_ERR is answered only after a seq was drawn. */
  lemma RefusedWroteNothing(acts: seq<Action>, r: nat)
    requires r in Run(INITIAL, acts).reqs && Run(INITIAL, acts).reqs[r].pc.Finished?
    ensures var s := Run(INITIAL, acts);
            var code := s.reqs[r].pc.ack.code;
            && code in {CODE_OK, CODE_KAFKA_ERR, CODE_REDIS_ERR, CODE_NOT_FRIEND, CODE_IN_FLIGHT}
            && (code == CODE_KAFKA_ERR ==> s.reqs[r].msg.Some?)
            && (code != CODE_OK && code != CODE_KAFKA_ERR ==>
                  && s.reqs[r].msg.None?
                  && (forall m :: m in s.logs.store ==> exists r' :: r' != r && r' in s.reqs && s.reqs[r'].msg == Some(m))
                  && (forall e :: e in s.logs.push ==> exists r' :: r' != r && r' in s.reqs && s.reqs[r'].msg == Some(e.msg)))
  {
    hide Run;
    hide ReqOk;
    hide Shape;
    var s := Run(INITIAL, acts);
    CodesRun(acts);
    SeqRun(acts);
    assert CodeOk(s.reqs[r]);
    forall m | m in s.logs.store && s.reqs[r].msg.None?
      ensures exists r' :: r' != r && r' in s.reqs && s.reqs[r'].msg == Some(m)
    {
      assert Issued(s.reqs, m);
    }
    forall e | e in s.logs.push && s.reqs[r].msg.None?
      ensures exists r' :: r' != r && r' in s.reqs && s.reqs[r'].msg == Some(e.msg)
    {
      assert Issued(s.reqs, e.msg);
    }
  }
}
