/** sendMsg in the form of the source: one call over the shared stores, command by command, while other
    calls and expiring keys change those stores between any two of its commands. The call is proved to
    leave exactly what the machine of module Send leaves when the request takes its own steps in between. */
module SendServer {
  import opened Common
  import opened Messages
  import opened Keys
  import opened Decimal
  import opened Send

  /** What the environment decides for one call: how each command ends, the relation check, id and time,
      and what the others do before the command at each tick. */
  datatype Env = Env(
    setnx: Outcome, getOk: bool, verdict: Verdict, incr: Outcome, id: int64, ts: int,
    store: Outcome, push: nat -> Outcome, finalise: Outcome, undo: Outcome, meanwhile: nat -> seq<Action>)

  datatype Call = Call(r: nat, input: Input, env: Env)

  /** An action that request r does not perform. */
  predicate Foreign(a: Action, r: nat) { a.Expire? || a.r != r }

  ghost predicate OnlyOthers(c: Call) { forall t: nat, a :: a in c.env.meanwhile(t) ==> Foreign(a, c.r) }

  /** The check fits the kind of conversation. */
  predicate FitVerdict(c: Call) {
    && (c.input.convType == CONV_TYPE_P2P ==> !c.env.verdict.Roster?)
    && (c.input.convType == CONV_TYPE_GROUP ==> !c.env.verdict.Friends?)
  }

  /** The command a request issues next, with the outcome the environment has for it. */
  function Next(c: Call, s: State): Option<Action> {
    if c.r !in s.reqs then if Validate(c.input).Some? then Some(Arrive(c.r, c.input)) else None
    else
      var q := s.reqs[c.r];
      match q.pc
      case New => Some(SetNx(c.r, c.env.setnx))
      case Replaying => Some(Get(c.r, c.env.getOk))
      case Holding => Some(Check(c.r, c.env.verdict))
      case Allowed => Some(Incr(c.r, c.env.incr, c.env.id, c.env.ts))
      case Sequenced => Some(StoreSend(c.r, c.env.store))
      case Pushing(k) =>
        if k < |q.receivers| then Some(PushSend(c.r, c.env.push(k))) else Some(Finalise(c.r, c.env.finalise))
      case RollingBack(_) => Some(Undo(c.r, c.env.undo))
      case Finished(_) => None
      case Dead => None
  }

  function Act(c: Call, s: State): State {
    match Next(c, s)
    case Some(a) => Exec(s, a)
    case None => s
  }

  /** The state after n commands of the call, each preceded by what the others do. */
  function After(c: Call, start: State, t: nat, n: nat): State {
    if n == 0 then start else Act(c, Run(After(c, start, t, n - 1), c.env.meanwhile(t + n - 1)))
  }

  /** Every call is a run of the machine, so all that holds over runs holds with calls in them. */
  lemma {:induction false} AfterIsRun(c: Call, start: State, t: nat, n: nat) returns (acts: seq<Action>)
    ensures After(c, start, t, n) == Run(start, acts)
  {
    hide Exec;
    hide Next;
    if n == 0 {
      acts := [];
    } else {
      var before := AfterIsRun(c, start, t, n - 1);
      var others := c.env.meanwhile(t + n - 1);
      RunAppend(start, before, others);
      acts := before + others;
      var w := Run(start, acts);
      match Next(c, w)
      case None =>
      case Some(a) =>
        RunSnoc(start, acts, a);
        acts := acts + [a];
    }
  }

  lemma RunSnoc(s: State, acts: seq<Action>, a: Action)
    ensures Run(s, acts + [a]) == Exec(Run(s, acts), a)
  {
    hide Exec;
    assert (acts + [a])[..|acts|] == acts;
  }

  /** The state with another frame for this call. */
  function Moved(c: Call, w: State, q: Req, idem: map<string, IdemVal>, logs: Logs): State {
    State(w.reqs[c.r := q], idem, logs)
  }

  ghost predicate Stands(c: Call, w: State, q: Req) { c.r in w.reqs && w.reqs[c.r] == q }

  lemma SetNxAct(c: Call, w: State, q: Req)
    requires Stands(c, w, q) && q.pc.New?
    ensures var k, o := Key(q), c.env.setnx;
            Act(c, w) == Moved(c, w, q.(pc := if !o.Success? then Finished(Ack(CODE_REDIS_ERR, "", 0)) else if k in w.idem then Replaying else Holding),
                               if o.Applied() && k !in w.idem then w.idem[k := Pending] else w.idem, w.logs)
  {
    hide IdemKey;
  }

  lemma GetAct(c: Call, w: State, q: Req)
    requires Stands(c, w, q) && q.pc.Replaying?
    ensures var k := Key(q);
            var ack := if !c.env.getOk then Ack(CODE_REDIS_ERR, "", 0)
                       else if k !in w.idem || w.idem[k].Pending? then Ack(CODE_IN_FLIGHT, "", 0)
                       else Ack(CODE_OK, w.idem[k].msgId, w.idem[k].seqNo);
            Act(c, w) == Moved(c, w, q.(pc := Finished(ack)), w.idem, w.logs)
  {
    hide IdemKey;
  }

  lemma UndoAct(c: Call, w: State, q: Req)
    requires Stands(c, w, q) && q.pc.RollingBack?
    ensures Act(c, w) == Moved(c, w, q.(pc := Finished(Ack(q.pc.code, "", 0))),
                               if c.env.undo.Applied() then w.idem - {Key(q)} else w.idem, w.logs)
  {
    hide IdemKey;
  }

  lemma CheckAct(c: Call, w: State, q: Req)
    requires Stands(c, w, q) && q.pc.Holding?
    requires if q.target.Pair? then !c.env.verdict.Roster? else !c.env.verdict.Friends?
    ensures Act(c, w) == Moved(c, w,
              match c.env.verdict
              case CheckFailed => q.(pc := RollingBack(CODE_REDIS_ERR))
              case Friends(yes) =>
                if yes then q.(pc := Allowed, receivers := [q.target.peer]) else q.(pc := RollingBack(CODE_NOT_FRIEND))
              case Roster(members) =>
                if q.input.sender in members
                then q.(pc := Allowed, roster := members, receivers := Others(members, q.input.sender))
                else q.(pc := RollingBack(CODE_NOT_FRIEND)),
              w.idem, w.logs)
  {
    hide Others;
  }

  lemma IncrAct(c: Call, w: State, q: Req)
    requires Stands(c, w, q) && q.pc.Allowed?
    ensures var conv, o := q.target.conv, c.env.incr;
            var n := Counter(w.logs, conv) + 1;
            Act(c, w) == Moved(c, w,
              if o.Success? then q.(pc := Sequenced, msg := Some(MakeMsg(q.input, conv, c.env.id, n, c.env.ts)))
              else q.(pc := RollingBack(CODE_REDIS_ERR)),
              w.idem, if o.Applied() then w.logs.(counters := w.logs.counters[conv := n]) else w.logs)
  {
    hide MakeMsg;
  }

  lemma StoreAct(c: Call, w: State, q: Req)
    requires Stands(c, w, q) && q.pc.Sequenced? && q.msg.Some?
    ensures Act(c, w) == Moved(c, w, q.(pc := if c.env.store.Success? then Pushing(0) else RollingBack(CODE_KAFKA_ERR)),
              w.idem, if c.env.store.Applied() then w.logs.(store := w.logs.store + [q.msg.value]) else w.logs)
  {
  }

  lemma PushAct(c: Call, w: State, q: Req)
    requires Stands(c, w, q) && q.pc.Pushing? && q.msg.Some? && q.pc.next < |q.receivers|
    ensures var o := c.env.push(q.pc.next);
            Act(c, w) == Moved(c, w, q.(pc := if o.Success? then Pushing(q.pc.next + 1) else RollingBack(CODE_KAFKA_ERR)),
              w.idem,
              if o.Applied() then w.logs.(push := w.logs.push + [Envelope(q.receivers[q.pc.next], q.msg.value)]) else w.logs)
  {
  }

  lemma FinaliseAct(c: Call, w: State, q: Req)
    requires Stands(c, w, q) && q.pc == Pushing(|q.receivers|) && q.msg.Some?
    ensures var m := q.msg.value;
            Act(c, w) == Moved(c, w, q.(pc := if q.receivers == [] then Dead else Finished(Ack(CODE_OK, m.msgId, m.seqNo))),
              if c.env.finalise.Applied() then w.idem[Key(q) := Final(m.msgId, m.seqNo)] else w.idem, w.logs)
  {
    hide IdemKey;
  }

  lemma CounterIs(l: Logs, conv: string)
    ensures Counter(l, conv) == if conv in l.counters then l.counters[conv] else 0
  {
  }

  /** What others do leaves a request where it stands. */
  lemma ForeignLeaves(s: State, a: Action, r: nat)
    requires Foreign(a, r)
    ensures r in Exec(s, a).reqs <==> r in s.reqs
    ensures r in s.reqs ==> Exec(s, a).reqs[r] == s.reqs[r]
  {
    hide Validate;
    hide IdemKey;
    hide FormatInt;
    hide Others;
  }

  /** The fan-out loop over the member list. */
  method SplitMembers(members: seq<int64>, sender: int64) returns (isMember: bool, receivers: seq<int64>)
    ensures isMember <==> sender in members
    ensures receivers == Others(members, sender)
    ensures multiset(receivers) == multiset(members)[sender := 0]
    ensures exists at :: OthersAt(members, sender, at, receivers)
  {
    ghost var at := OthersExactly(members, sender);
    isMember, receivers := false, [];
    for i := 0 to |members|
      invariant isMember <==> sender in members[..i]
      invariant receivers == Others(members[..i], sender)
    {
      assert members[..i + 1][..i] == members[..i];
      if members[i] == sender {
        isMember := true;
      } else {
        receivers := receivers + [members[i]];
      }
    }
    assert members[..|members|] == members;
  }

  class LogicServer {
    var reqs: map<nat, Req> // the frames of the calls, this one's among them
    var idem: map<string, IdemVal>
    var counters: map<string, nat>
    var storeLog: seq<Msg>
    var pushLog: seq<Envelope>
    var tick: nat

    function Now(): State
      reads this
    {
      State(reqs, idem, Logs(counters, storeLog, pushLog))
    }

    /** The call has issued n commands since start, and its frame is q. */
    ghost predicate At(c: Call, q: Req, start: State, t: nat, n: nat)
      reads this
    {
      Now() == After(c, start, t, n) && tick == t + n && c.r in reqs && reqs[c.r] == q
    }

    constructor ()
      ensures Now() == INITIAL && tick == 0
    {
      reqs, idem, counters, storeLog, pushLog, tick := map[], map[], map[], [], [], 0;
    }

    method Set(s: State)
      modifies this
      ensures Now() == s && tick == old(tick)
    {
      reqs, idem := s.reqs, s.idem;
      counters, storeLog, pushLog := s.logs.counters, s.logs.store, s.logs.push;
    }

    /** What the others do before the next command. */
    method Meanwhile(c: Call)
      requires OnlyOthers(c)
      modifies this
      ensures Now() == Run(old(Now()), c.env.meanwhile(old(tick))) && tick == old(tick) + 1
      ensures c.r in reqs <==> c.r in old(reqs)
      ensures c.r in reqs ==> reqs[c.r] == old(reqs)[c.r]
    {
      var acts := c.env.meanwhile(tick);
      assert acts[..0] == [] && Run(Now(), []) == Now();
      hide Run;
      hide Exec;
      for i := 0 to |acts|
        invariant Now() == Run(old(Now()), acts[..i]) && tick == old(tick)
        invariant c.r in reqs <==> c.r in old(reqs)
        invariant c.r in reqs ==> reqs[c.r] == old(reqs)[c.r]
      {
        assert acts[i] in acts && acts[..i + 1] == acts[..i] + [acts[i]];
        RunSnoc(old(Now()), acts[..i], acts[i]);
        ForeignLeaves(Now(), acts[i], c.r);
        Set(Exec(Now(), acts[i]));
      }
      assert acts[..|acts|] == acts;
      tick := tick + 1;
    }

    /** One more command of the call is done. */
    lemma Landed(c: Call, q: Req, start: State, t: nat, n: nat, w: State)
      requires w == Run(After(c, start, t, n), c.env.meanwhile(t + n))
      requires Act(c, w) == Moved(c, w, q, idem, Logs(counters, storeLog, pushLog)) && reqs == w.reqs[c.r := q]
      requires tick == t + n + 1
      ensures At(c, q, start, t, n + 1)
    {
      hide Act;
      hide Run;
    }

    /** The wait for the next command's turn. */
    method Begin(c: Call, q: Req, ghost start: State, ghost t: nat, ghost n: nat) returns (ghost w: State)
      requires OnlyOthers(c) && At(c, q, start, t, n)
      modifies this
      ensures w == Run(After(c, start, t, n), c.env.meanwhile(t + n)) && Stands(c, w, q) && tick == t + n + 1
      ensures reqs == w.reqs && idem == w.idem
      ensures counters == w.logs.counters && storeLog == w.logs.store && pushLog == w.logs.push
    {
      hide Run;
      hide After;
      hide OnlyOthers;
      Meanwhile(c);
      w := Now();
    }

    /** SETNX: the reply, or the right to go on when it won, or to read what is there when it lost. */
    method Acquire(c: Call, q: Req, ghost start: State, ghost t: nat, ghost n: nat) returns (q': Req)
      requires OnlyOthers(c) && At(c, q, start, t, n) && q.pc.New?
      modifies this
      ensures At(c, q', start, t, n + 1)
      ensures q' == q.(pc := q'.pc) && (q'.pc.Holding? || q'.pc.Replaying? || q'.pc.Finished?)
    {
      hide *;
      ghost var w := Begin(c, q, start, t, n);
      var k, o := Key(q), c.env.setnx;
      var held := k in idem;
      if o.Applied() && !held {
        idem := idem[k := Pending];
      }
      q' := q.(pc := if !o.Success? then Finished(Ack(CODE_REDIS_ERR, "", 0)) else if held then Replaying else Holding);
      reqs := reqs[c.r := q'];
      SetNxAct(c, w, q);
      Landed(c, q', start, t, n, w);
    }

    /** replayOrBusy. */
    method ReplayOrBusy(c: Call, q: Req, ghost start: State, ghost t: nat, ghost n: nat) returns (ack: Ack)
      requires OnlyOthers(c) && At(c, q, start, t, n) && q.pc.Replaying?
      modifies this
      ensures At(c, q.(pc := Finished(ack)), start, t, n + 1)
    {
      hide *;
      ghost var w := Begin(c, q, start, t, n);
      var k := Key(q);
      ack := if !c.env.getOk then Ack(CODE_REDIS_ERR, "", 0)
             else if k !in idem || idem[k].Pending? then Ack(CODE_IN_FLIGHT, "", 0)
             else Ack(CODE_OK, idem[k].msgId, idem[k].seqNo);
      reqs := reqs[c.r := q.(pc := Finished(ack))];
      GetAct(c, w, q);
      Landed(c, q.(pc := Finished(ack)), start, t, n, w);
    }

    /** The deferred DEL of the failure paths. */
    method Rollback(c: Call, q: Req, ghost start: State, ghost t: nat, ghost n: nat) returns (ack: Ack)
      requires OnlyOthers(c) && At(c, q, start, t, n) && q.pc.RollingBack?
      modifies this
      ensures At(c, q.(pc := Finished(ack)), start, t, n + 1) && ack == Ack(q.pc.code, "", 0)
    {
      hide *;
      ghost var w := Begin(c, q, start, t, n);
      if c.env.undo.Applied() {
        idem := idem - {Key(q)};
      }
      ack := Ack(q.pc.code, "", 0);
      reqs := reqs[c.r := q.(pc := Finished(ack))];
      UndoAct(c, w, q);
      Landed(c, q.(pc := Finished(ack)), start, t, n, w);
    }

    /** Step 4: the friend or member check; a refusal leaves its code to the rollback. */
    method Relate(c: Call, q: Req, ghost start: State, ghost t: nat, ghost n: nat) returns (q': Req)
      requires OnlyOthers(c) && At(c, q, start, t, n) && q.pc.Holding?
      requires if q.target.Pair? then !c.env.verdict.Roster? else !c.env.verdict.Friends?
      modifies this
      ensures At(c, q', start, t, n + 1) && (q'.pc.Allowed? || q'.pc.RollingBack?)
      ensures q'.input == q.input && q'.target == q.target && q'.msg == q.msg
    {
      hide *;
      ghost var w := Begin(c, q, start, t, n);
      match c.env.verdict {
        case CheckFailed =>
          q' := q.(pc := RollingBack(CODE_REDIS_ERR));
        case Friends(yes) =>
          q' := if yes then q.(pc := Allowed, receivers := [q.target.peer]) else q.(pc := RollingBack(CODE_NOT_FRIEND));
        case Roster(members) =>
          var isMember, receivers := SplitMembers(members, q.input.sender);
          q' := if isMember then q.(pc := Allowed, roster := members, receivers := receivers)
                else q.(pc := RollingBack(CODE_NOT_FRIEND));
      }
      reqs := reqs[c.r := q'];
      CheckAct(c, w, q);
      Landed(c, q', start, t, n, w);
    }

    /** Steps 5 and 6: INCR, then the message. */
    method Draw(c: Call, q: Req, ghost start: State, ghost t: nat, ghost n: nat) returns (q': Req)
      requires OnlyOthers(c) && At(c, q, start, t, n) && q.pc.Allowed?
      modifies this
      ensures At(c, q', start, t, n + 1) && q' == q.(pc := q'.pc, msg := q'.msg)
      ensures (q'.pc.Sequenced? && q'.msg.Some?) || q'.pc.RollingBack?
    {
      hide *;
      ghost var w := Begin(c, q, start, t, n);
      var conv, o := q.target.conv, c.env.incr;
      var seqNo := (if conv in counters then counters[conv] else 0) + 1;
      if o.Applied() {
        counters := counters[conv := seqNo];
      }
      q' := if o.Success? then q.(pc := Sequenced, msg := Some(MakeMsg(q.input, conv, c.env.id, seqNo, c.env.ts)))
            else q.(pc := RollingBack(CODE_REDIS_ERR));
      reqs := reqs[c.r := q'];
      CounterIs(w.logs, conv);
      IncrAct(c, w, q);
      Landed(c, q', start, t, n, w);
    }

    /** Step 7, the store record. */
    method WriteStore(c: Call, q: Req, ghost start: State, ghost t: nat, ghost n: nat) returns (q': Req)
      requires OnlyOthers(c) && At(c, q, start, t, n) && q.pc.Sequenced? && q.msg.Some?
      modifies this
      ensures At(c, q', start, t, n + 1) && q' == q.(pc := if c.env.store.Success? then Pushing(0) else RollingBack(CODE_KAFKA_ERR))
    {
      hide *;
      ghost var w := Begin(c, q, start, t, n);
      if c.env.store.Applied() {
        storeLog := storeLog + [q.msg.value];
      }
      q' := q.(pc := if c.env.store.Success? then Pushing(0) else RollingBack(CODE_KAFKA_ERR));
      reqs := reqs[c.r := q'];
      StoreAct(c, w, q);
      Landed(c, q', start, t, n, w);
    }

    /** Step 7, one envelope. */
    method WritePush(c: Call, q: Req, ghost start: State, ghost t: nat, ghost n: nat) returns (q': Req)
      requires OnlyOthers(c) && At(c, q, start, t, n) && q.pc.Pushing? && q.msg.Some? && q.pc.next < |q.receivers|
      modifies this
      ensures At(c, q', start, t, n + 1)
      ensures q' == q.(pc := if c.env.push(q.pc.next).Success? then Pushing(q.pc.next + 1) else RollingBack(CODE_KAFKA_ERR))
    {
      hide *;
      ghost var w := Begin(c, q, start, t, n);
      var o := c.env.push(q.pc.next);
      if o.Applied() {
        pushLog := pushLog + [Envelope(q.receivers[q.pc.next], q.msg.value)];
      }
      q' := q.(pc := if o.Success? then Pushing(q.pc.next + 1) else RollingBack(CODE_KAFKA_ERR));
      reqs := reqs[c.r := q'];
      PushAct(c, w, q);
      Landed(c, q', start, t, n, w);
    }

    /** Step 7: the store record, then one envelope per receiver until one fails. */
    method Publish(c: Call, q: Req, ghost start: State, ghost t: nat, ghost n: nat) returns (q': Req, ghost n': nat)
      requires OnlyOthers(c) && At(c, q, start, t, n) && q.pc.Sequenced? && q.msg.Some?
      modifies this
      ensures At(c, q', start, t, n')
      ensures q' == q.(pc := Pushing(|q.receivers|)) || q' == q.(pc := RollingBack(CODE_KAFKA_ERR))
    {
      hide *;
      n' := n + 1;
      q' := WriteStore(c, q, start, t, n);
      if q'.pc.RollingBack? {
        return;
      }
      for i := 0 to |q.receivers|
        invariant q' == q.(pc := Pushing(i)) && At(c, q', start, t, n')
      {
        q' := WritePush(c, q', start, t, n');
        n' := n' + 1;
        if q'.pc.RollingBack? {
          return;
        }
      }
    }

    /** Step 8: SET of the replay value; None is the panic on receivers[0] of an empty list. */
    method Finish(c: Call, q: Req, ghost start: State, ghost t: nat, ghost n: nat) returns (ack: Option<Ack>)
      requires OnlyOthers(c) && At(c, q, start, t, n) && q.pc == Pushing(|q.receivers|) && q.msg.Some?
      modifies this
      ensures At(c, q.(pc := if ack.Some? then Finished(ack.value) else Dead), start, t, n + 1)
      ensures ack.None? <==> q.receivers == []
    {
      hide *;
      ghost var w := Begin(c, q, start, t, n);
      var m := q.msg.value;
      if c.env.finalise.Applied() {
        idem := idem[Key(q) := Final(m.msgId, m.seqNo)];
      }
      ack := if q.receivers == [] then None else Some(Ack(CODE_OK, m.msgId, m.seqNo));
      reqs := reqs[c.r := q.(pc := if ack.Some? then Finished(ack.value) else Dead)];
      FinaliseAct(c, w, q);
      Landed(c, q.(pc := if ack.Some? then Finished(ack.value) else Dead), start, t, n, w);
    }

    /** From a won SETNX to the reply. */
    method Serve(c: Call, q: Req, ghost start: State, ghost t: nat, ghost n: nat)
      returns (ack: Option<Ack>, q': Req, ghost n': nat)
      requires OnlyOthers(c) && At(c, q, start, t, n) && q.pc.Holding?
      requires if q.target.Pair? then !c.env.verdict.Roster? else !c.env.verdict.Friends?
      modifies this
      ensures At(c, q', start, t, n') && q'.pc == if ack.Some? then Finished(ack.value) else Dead
    {
      hide *;
      var done;
      q' := Relate(c, q, start, t, n);
      n' := n + 1;
      if q'.pc.Allowed? {
        q' := Draw(c, q', start, t, n');
        n' := n' + 1;
        if q'.pc.Sequenced? {
          q', n' := Publish(c, q', start, t, n');
          if q'.pc.Pushing? {
            ack := Finish(c, q', start, t, n');
            return ack, q'.(pc := if ack.Some? then Finished(ack.value) else Dead), n' + 1;
          }
        }
      }
      done := Rollback(c, q', start, t, n');
      return Some(done), q'.(pc := Finished(done)), n' + 1;
    }

    /** Steps 1 and 2, for a request that passes them: the call is under way. */
    method Enter(c: Call, target: Target) returns (q: Req)
      requires OnlyOthers(c) && c.r !in reqs && Validate(c.input) == Some(target)
      modifies this
      ensures At(c, q, old(Now()), old(tick), 1) && q == Req(c.input, target, New, [], [], None)
    {
      hide Validate;
      ghost var start, t := Now(), tick;
      Meanwhile(c);
      ghost var w := Now();
      q := Req(c.input, target, New, [], [], None);
      reqs := reqs[c.r := q];
      assert Now() == ExecArrive(w, c.r, c.input);
      assert Next(c, w) == Some(Arrive(c.r, c.input));
      assert After(c, start, t, 0) == start;
      hide ExecArrive;
    }

    /** The call. Bad parameters are answered at once. Otherwise the state it leaves is the one after its
        own commands, with the outcomes of its environment, each preceded by what the others did, up to the
        point where none is left: its reply, or the panic. */
    method SendMsg(c: Call) returns (ack: Option<Ack>, ghost n: nat)
      requires OnlyOthers(c) && c.r !in reqs && FitVerdict(c)
      modifies this
      ensures Validate(c.input).None? ==> ack == Some(Ack(CODE_BAD_PARAM, "", 0)) && n == 0 && Now() == old(Now())
      ensures Now() == After(c, old(Now()), old(tick), n)
      ensures Validate(c.input).Some? ==>
                c.r in reqs && reqs[c.r].pc == if ack.Some? then Finished(ack.value) else Dead
    {
      ghost var start, t := Now(), tick;
      var valid := Validate(c.input);
      if valid.None? {
        return Some(Ack(CODE_BAD_PARAM, "", 0)), 0;
      }
      TargetKind(c.input);
      hide Validate;
      hide After;
      hide OnlyOthers;
      var q := Enter(c, valid.value);
      q := Acquire(c, q, start, t, 1);
      n := 2;
      if q.pc.Finished? {
        return Some(q.pc.ack), n;
      }
      if q.pc.Replaying? {
        var done := ReplayOrBusy(c, q, start, t, n);
        return Some(done), n + 1;
      }
      ack, q, n := Serve(c, q, start, t, n);
    }
  }

  lemma TargetKind(i: Input)
    requires Validate(i).Some?
    ensures i.convType == CONV_TYPE_P2P <==> Validate(i).value.Pair?
    ensures i.convType == CONV_TYPE_GROUP <==> Validate(i).value.Group?
  {
  }

  lemma {:induction false} RunAppend(s: State, a: seq<Action>, b: seq<Action>)
    ensures Run(s, a + b) == Run(Run(s, a), b)
  {
    hide Exec;
    if b == [] {
      assert a + b == a;
    } else {
      var c := b[..|b| - 1];
      RunAppend(s, a, c);
      assert (a + b)[..|a + b| - 1] == a + c;
    }
  }
}
