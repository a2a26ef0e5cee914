/** What one undisturbed call of sendMsg answers and leaves, written out branch by branch without the
    machine: codes, idempotency key, counter and both topics, for every way its commands can end. */
module SendReplies {
  import opened Common
  import opened Decimal
  import opened Conv
  import opened Keys
  import opened Messages
  import opened Send
  import opened SendServer

  /** Nobody else issues a command while the call runs. */
  ghost predicate Alone(c: Call) { forall t: nat :: c.env.meanwhile(t) == [] }

  /** The message drawn as number n of its conversation. */
  function NthMsg(c: Call, n: int): Msg {
    var i := c.input;
    Msg(FormatInt(c.env.id), i.convId, i.convType, i.sender, i.msgType, i.payload, n, c.env.ts)
  }

  /** The users a call must fan out to, from its input and the member list it read. */
  ghost predicate Due(c: Call, recvs: seq<int64>) {
    var i := c.input;
    if i.convType == 1 then exists peer: int64 :: i.convId == P2PId(i.sender, peer) && peer != i.sender && recvs == [peer]
    else c.env.verdict.Roster? ==>
           var members := c.env.verdict.members;
           && multiset(recvs) == multiset(members)[i.sender := 0]
           && exists at :: OthersAt(members, i.sender, at, recvs)
  }

  /** One more envelope of m per receiver, in order. */
  ghost predicate Fanned(before: seq<Envelope>, after: seq<Envelope>, m: Msg, recvs: seq<int64>) {
    && |after| == |before| + |recvs| && before <= after
    && forall k :: 0 <= k < |recvs| ==> after[|before| + k] == Envelope(recvs[k], m)
  }

  /** Pushes 0 to k - 1 succeed. */
  ghost predicate AllPushed(c: Call, k: nat) { forall j :: 0 <= j < k ==> c.env.push(j).Success? }

  predicate Admitted(c: Call) {
    match c.env.verdict
    case CheckFailed => false
    case Friends(yes) => yes
    case Roster(members) => c.input.sender in members
  }

  /** The topics after a call that was admitted and drew its number, with what was pushed. */
  ghost predicate Published(c: Call, l: Logs, l': Logs, recvs: seq<int64>) {
    var n := Counter(l, c.input.convId) + 1;
    && l'.counters == l.counters[c.input.convId := n] && l'.store == l.store + [NthMsg(c, n)]
    && Fanned(l.push, l'.push, NthMsg(c, n), recvs)
  }

  /** The reply (None is the panic for want of a receiver) and the stores after the call, for a valid input. */
  ghost predicate Answers(c: Call, s: State, ack: Option<Ack>, idem: map<string, IdemVal>, l: Logs, recvs: seq<int64>) {
    var e, k := c.env, IdemKey(c.input.sender, c.input.clientMsgId);
    var n := Counter(s.logs, c.input.convId) + 1;
    var m := NthMsg(c, n);
    var rolledBack := if e.undo.Applied() then s.idem else s.idem[k := Pending];
    if !e.setnx.Success? then
      && ack == Some(Ack(50202, "", 0)) && l == s.logs
      && idem == if e.setnx.Applied() && k !in s.idem then s.idem[k := Pending] else s.idem
    else if k in s.idem then
      && idem == s.idem && l == s.logs
      && ack == Some(if !e.getOk then Ack(50202, "", 0)
                     else match s.idem[k] case Pending => Ack(50203, "", 0) case Final(msgId, seqNo) => Ack(0, msgId, seqNo))
    else if !Admitted(c) then
      ack == Some(Ack(if e.verdict.CheckFailed? then 50202 else 40301, "", 0)) && idem == rolledBack && l == s.logs
    else if !e.incr.Success? then
      && ack == Some(Ack(50202, "", 0)) && idem == rolledBack
      && l == if e.incr.Applied() then s.logs.(counters := s.logs.counters[c.input.convId := n]) else s.logs
    else if !e.store.Success? then
      && ack == Some(Ack(50201, "", 0)) && idem == rolledBack
      && l == Logs(s.logs.counters[c.input.convId := n], s.logs.store + (if e.store.Applied() then [m] else []), s.logs.push)
    else if !AllPushed(c, |recvs|) then
      && ack == Some(Ack(50201, "", 0)) && idem == rolledBack
      && exists j :: && 0 <= j < |recvs| && AllPushed(c, j) && !e.push(j).Success?
                     && Published(c, s.logs, l, recvs[..if e.push(j).Applied() then j + 1 else j])
    else
      && ack == (if recvs == [] then None else Some(Ack(0, FormatInt(e.id), n)))
      && Published(c, s.logs, l, recvs)
      && idem == s.idem[k := if e.finalise.Applied() then Final(FormatInt(e.id), n) else Pending]
  }

  // ---------------------------------------------------------------- one command after the other

  /** After n commands of the call the machine is here. */
  ghost predicate Is(c: Call, s: State, t: nat, n: nat, q: Req, idem: map<string, IdemVal>, l: Logs) {
    After(c, s, t, n) == State(s.reqs[c.r := q], idem, l)
  }

  function Here(c: Call, s: State, q: Req, idem: map<string, IdemVal>, l: Logs): State { State(s.reqs[c.r := q], idem, l) }

  lemma Step(c: Call, s: State, t: nat, n: nat, q: Req, idem: map<string, IdemVal>, l: Logs,
             q': Req, idem': map<string, IdemVal>, l': Logs)
    requires Alone(c) && Is(c, s, t, n, q, idem, l)
    requires var w := Here(c, s, q, idem, l); Act(c, w) == Moved(c, w, q', idem', l')
    ensures Is(c, s, t, n + 1, q', idem', l')
  {
    hide Act;
    assert c.env.meanwhile(t + n) == [];
    assert s.reqs[c.r := q][c.r := q'] == s.reqs[c.r := q'];
  }

  lemma Arrives(c: Call, s: State, t: nat)
    requires Alone(c) && c.r !in s.reqs && Validate(c.input).Some?
    ensures Is(c, s, t, 1, Req(c.input, Validate(c.input).value, New, [], [], None), s.idem, s.logs)
  {
    hide Validate;
    assert c.env.meanwhile(t + 0) == [];
    assert After(c, s, t, 0) == s;
  }

  /** The end of a failure path. */
  lemma RollsBack(c: Call, s: State, t: nat, n: nat, q: Req, code: int, l: Logs)
    requires var k := Key(q); Alone(c) && k !in s.idem && q.pc == RollingBack(code) && Is(c, s, t, n, q, s.idem[k := Pending], l)
    ensures Is(c, s, t, n + 1, q.(pc := Finished(Ack(code, "", 0))),
               if c.env.undo.Applied() then s.idem else s.idem[Key(q) := Pending], l)
  {
    hide Key;
    var k, mine := Key(q), s.idem[Key(q) := Pending];
    UndoAct(c, Here(c, s, q, mine, l), q);
    assert mine - {k} == s.idem;
    Step(c, s, t, n, q, mine, l, q.(pc := Finished(Ack(code, "", 0))), if c.env.undo.Applied() then s.idem else mine, l);
  }

  lemma FannedMore(before: seq<Envelope>, after: seq<Envelope>, m: Msg, recvs: seq<int64>, k: nat)
    requires k < |recvs| && Fanned(before, after, m, recvs[..k])
    ensures Fanned(before, after + [Envelope(recvs[k], m)], m, recvs[..k + 1])
  {
  }

  /** One envelope that is sent. */
  lemma PushesOne(c: Call, s: State, t: nat, n: nat, q: Req, m: Msg, idem: map<string, IdemVal>, l: Logs, k: nat)
    requires Alone(c) && q.msg == Some(m) && k < |q.receivers| && c.env.push(k).Success?
    requires Is(c, s, t, n, q.(pc := Pushing(k)), idem, l)
    ensures Is(c, s, t, n + 1, q.(pc := Pushing(k + 1)), idem, l.(push := l.push + [Envelope(q.receivers[k], m)]))
  {
    hide Is;
    hide Alone;
    var q0 := q.(pc := Pushing(k));
    PushAct(c, Here(c, s, q0, idem, l), q0);
    hide Act;
    Step(c, s, t, n, q0, idem, l, q.(pc := Pushing(k + 1)), idem, l.(push := l.push + [Envelope(q.receivers[k], m)]));
  }

  /** The first k envelopes. */
  lemma {:induction false} Pushes(c: Call, s: State, t: nat, n: nat, q: Req, m: Msg, idem: map<string, IdemVal>, l: Logs, k: nat)
    returns (push: seq<Envelope>)
    requires Alone(c) && q.msg == Some(m) && k <= |q.receivers| && AllPushed(c, k)
    requires Is(c, s, t, n, q.(pc := Pushing(0)), idem, l)
    ensures Is(c, s, t, n + k, q.(pc := Pushing(k)), idem, l.(push := push)) && Fanned(l.push, push, m, q.receivers[..k])
  {
    hide Is;
    hide Alone;
    if k == 0 {
      push := l.push;
      assert l.(push := l.push) == l;
    } else {
      assert AllPushed(c, k - 1) && c.env.push(k - 1).Success?;
      hide AllPushed;
      hide Fanned;
      var p := Pushes(c, s, t, n, q, m, idem, l, k - 1);
      PushesOne(c, s, t, n + k - 1, q, m, idem, l.(push := p), k - 1);
      push := p + [Envelope(q.receivers[k - 1], m)];
      FannedMore(l.push, p, m, q.receivers, k - 1);
    }
  }

  lemma {:induction false} FirstFailure(c: Call, n: nat) returns (j: nat)
    requires !AllPushed(c, n)
    ensures j < n && AllPushed(c, j) && !c.env.push(j).Success?
  {
    if AllPushed(c, n - 1) {
      j := n - 1;
    } else {
      j := FirstFailure(c, n - 1);
    }
  }

  /** From a drawn message to the reply. */
  lemma Delivers(c: Call, s: State, t: nat, n: nat, q: Req, l: Logs) returns (n': nat, q': Req, idem: map<string, IdemVal>, l': Logs)
    requires var k := Key(q); Alone(c) && k !in s.idem && k == IdemKey(c.input.sender, c.input.clientMsgId)
    requires q.pc.Sequenced? && Is(c, s, t, n, q, s.idem[Key(q) := Pending], l)
    requires Admitted(c) && c.env.setnx.Success? && c.env.incr.Success?
    requires var d := Counter(s.logs, c.input.convId) + 1;
             q.msg == Some(NthMsg(c, d)) && l == s.logs.(counters := s.logs.counters[c.input.convId := d])
    ensures Is(c, s, t, n', q', idem, l') && (q'.pc.Finished? || q'.pc.Dead?)
    ensures Answers(c, s, if q'.pc.Finished? then Some(q'.pc.ack) else None, idem, l', q.receivers)
  {
    hide Is;
    hide Alone;
    hide Fanned;
    hide AllPushed;
    hide Admitted;
    hide IdemKey;
    hide FormatInt;
    var mine, m, e := s.idem[Key(q) := Pending], q.msg.value, c.env;
    var l1 := l.(store := if e.store.Applied() then l.store + [m] else l.store);
    var q1 := q.(pc := if e.store.Success? then Pushing(0) else RollingBack(CODE_KAFKA_ERR));
    StoreAct(c, Here(c, s, q, mine, l), q);
    Step(c, s, t, n, q, mine, l, q1, mine, l1);
    hide Act;
    if !e.store.Success? {
      RollsBack(c, s, t, n + 1, q1, CODE_KAFKA_ERR, l1);
      n', q', idem, l' := n + 2, q1.(pc := Finished(Ack(CODE_KAFKA_ERR, "", 0))), if e.undo.Applied() then s.idem else mine, l1;
    } else if !AllPushed(c, |q.receivers|) {
      n', q', idem, l' := PushFails(c, s, t, n + 1, q1, m, l1);
    } else {
      var push := Pushes(c, s, t, n + 1, q1, m, mine, l1, |q.receivers|);
      assert q.receivers[..|q.receivers|] == q.receivers;
      n', q', idem, l' := n + 2 + |q.receivers|,
        q.(pc := if q.receivers == [] then Dead else Finished(Ack(CODE_OK, m.msgId, m.seqNo))),
        s.idem[Key(q) := if e.finalise.Applied() then Final(m.msgId, m.seqNo) else Pending], l1.(push := push);
      Finalises(c, s, t, n + 1 + |q.receivers|, q, m, l');
    }
  }

  /** The replay value and the reply. */
  lemma Finalises(c: Call, s: State, t: nat, n: nat, q: Req, m: Msg, l: Logs)
    requires Alone(c) && q.msg == Some(m) && Is(c, s, t, n, q.(pc := Pushing(|q.receivers|)), s.idem[Key(q) := Pending], l)
    ensures Is(c, s, t, n + 1, q.(pc := if q.receivers == [] then Dead else Finished(Ack(CODE_OK, m.msgId, m.seqNo))),
               s.idem[Key(q) := if c.env.finalise.Applied() then Final(m.msgId, m.seqNo) else Pending], l)
  {
    hide Is;
    hide IdemKey;
    hide Alone;
    var mine, q0 := s.idem[Key(q) := Pending], q.(pc := Pushing(|q.receivers|));
    FinaliseAct(c, Here(c, s, q0, mine, l), q0);
    hide Act;
    assert mine[Key(q) := Final(m.msgId, m.seqNo)] == s.idem[Key(q) := Final(m.msgId, m.seqNo)];
    Step(c, s, t, n, q0, mine, l, q.(pc := if q.receivers == [] then Dead else Finished(Ack(CODE_OK, m.msgId, m.seqNo))),
         s.idem[Key(q) := if c.env.finalise.Applied() then Final(m.msgId, m.seqNo) else Pending], l);
  }

  /** A push that fails: what was pushed before it stays. */
  lemma PushFails(c: Call, s: State, t: nat, n: nat, q: Req, m: Msg, l: Logs)
    returns (n': nat, q': Req, idem: map<string, IdemVal>, l': Logs)
    requires var k := Key(q); Alone(c) && k !in s.idem && q.msg == Some(m) && !AllPushed(c, |q.receivers|)
    requires q.pc == Pushing(0) && Is(c, s, t, n, q, s.idem[Key(q) := Pending], l)
    ensures Is(c, s, t, n', q', idem, l') && q'.pc == Finished(Ack(CODE_KAFKA_ERR, "", 0))
    ensures idem == if c.env.undo.Applied() then s.idem else s.idem[Key(q) := Pending]
    ensures l' == l.(push := l'.push)
    ensures exists j :: && 0 <= j < |q.receivers| && AllPushed(c, j) && !c.env.push(j).Success?
                        && Fanned(l.push, l'.push, m, q.receivers[..if c.env.push(j).Applied() then j + 1 else j])
  {
    hide Is;
    hide IdemKey;
    var mine, e := s.idem[Key(q) := Pending], c.env;
    var j := FirstFailure(c, |q.receivers|);
    var push := Pushes(c, s, t, n, q, m, mine, l, j);
    var q1, l1 := q.(pc := Pushing(j)), l.(push := push);
    PushAct(c, Here(c, s, q1, mine, l1), q1);
    l' := if e.push(j).Applied() then l1.(push := push + [Envelope(q.receivers[j], m)]) else l1;
    FannedMore(l.push, push, m, q.receivers, j);
    var q2 := q.(pc := RollingBack(CODE_KAFKA_ERR));
    Step(c, s, t, n + j, q1, mine, l1, q2, mine, l');
    RollsBack(c, s, t, n + j + 1, q2, CODE_KAFKA_ERR, l');
    n', q', idem := n + j + 2, q.(pc := Finished(Ack(CODE_KAFKA_ERR, "", 0))), if e.undo.Applied() then s.idem else mine;
  }

  /** From a won SETNX to the reply. */
  lemma Serves(c: Call, s: State, t: nat, n: nat, q: Req)
    returns (n': nat, q': Req, idem: map<string, IdemVal>, l': Logs, recvs: seq<int64>)
    requires var k := Key(q); Alone(c) && k !in s.idem && k == IdemKey(c.input.sender, c.input.clientMsgId)
    requires q == Req(c.input, q.target, Holding, [], [], None) && Validate(c.input) == Some(q.target) && FitVerdict(c)
    requires c.env.setnx.Success? && Is(c, s, t, n, q, s.idem[Key(q) := Pending], s.logs)
    ensures Is(c, s, t, n', q', idem, l') && (q'.pc.Finished? || q'.pc.Dead?) && (Admitted(c) ==> Due(c, recvs))
    ensures Answers(c, s, if q'.pc.Finished? then Some(q'.pc.ack) else None, idem, l', recvs)
  {
    ValidateExactly(c.input, q.target);
    hide Validate;
    hide Is;
    hide IdemKey;
    hide FormatInt;
    hide Others;
    hide OthersAt;
    var mine, e, i := s.idem[Key(q) := Pending], c.env, c.input;
    recvs := [];
    CheckAct(c, Here(c, s, q, mine, s.logs), q);
    if !Admitted(c) {
      var code := if e.verdict.CheckFailed? then CODE_REDIS_ERR else CODE_NOT_FRIEND;
      var q1 := q.(pc := RollingBack(code));
      Step(c, s, t, n, q, mine, s.logs, q1, mine, s.logs);
      RollsBack(c, s, t, n + 1, q1, code, s.logs);
      n', q', idem, l' := n + 2, q.(pc := Finished(Ack(code, "", 0))), if e.undo.Applied() then s.idem else mine, s.logs;
      return;
    }
    var q1: Req;
    if e.verdict.Friends? {
      recvs := [q.target.peer];
      q1 := q.(pc := Allowed, receivers := recvs);
    } else {
      recvs := Others(e.verdict.members, i.sender);
      var at := OthersExactly(e.verdict.members, i.sender);
      q1 := q.(pc := Allowed, roster := e.verdict.members, receivers := recvs);
    }
    assert Due(c, recvs);
    Step(c, s, t, n, q, mine, s.logs, q1, mine, s.logs);
    hide Due;
    n', q', idem, l' := Draws(c, s, t, n + 1, q1);
  }

  /** INCR, and the rest. */
  lemma Draws(c: Call, s: State, t: nat, n: nat, q: Req)
    returns (n': nat, q': Req, idem: map<string, IdemVal>, l': Logs)
    requires var k := Key(q); Alone(c) && k !in s.idem && k == IdemKey(c.input.sender, c.input.clientMsgId)
    requires q.pc.Allowed? && q.input == c.input && q.target.conv == c.input.convId && Admitted(c)
    requires c.env.setnx.Success? && Is(c, s, t, n, q, s.idem[Key(q) := Pending], s.logs)
    ensures Is(c, s, t, n', q', idem, l') && (q'.pc.Finished? || q'.pc.Dead?)
    ensures Answers(c, s, if q'.pc.Finished? then Some(q'.pc.ack) else None, idem, l', q.receivers)
  {
    hide Is;
    hide IdemKey;
    hide FormatInt;
    var mine, e := s.idem[Key(q) := Pending], c.env;
    var d := Counter(s.logs, c.input.convId) + 1;
    var l := if e.incr.Applied() then s.logs.(counters := s.logs.counters[c.input.convId := d]) else s.logs;
    IncrAct(c, Here(c, s, q, mine, s.logs), q);
    hide Act;
    if e.incr.Success? {
      var q1 := q.(pc := Sequenced, msg := Some(NthMsg(c, d)));
      Step(c, s, t, n, q, mine, s.logs, q1, mine, l);
      n', q', idem, l' := Delivers(c, s, t, n + 1, q1, l);
    } else {
      var q1 := q.(pc := RollingBack(CODE_REDIS_ERR));
      Step(c, s, t, n, q, mine, s.logs, q1, mine, l);
      RollsBack(c, s, t, n + 1, q1, CODE_REDIS_ERR, l);
      n', q', idem, l' := n + 2, q.(pc := Finished(Ack(CODE_REDIS_ERR, "", 0))), if e.undo.Applied() then s.idem else mine, l;
    }
  }

  /** The whole call. */
  lemma Finishes(c: Call, s: State, t: nat)
    returns (n: nat, q: Req, idem: map<string, IdemVal>, l: Logs, recvs: seq<int64>)
    requires Alone(c) && c.r !in s.reqs && Validate(c.input).Some? && FitVerdict(c)
    ensures Is(c, s, t, n, q, idem, l) && (q.pc.Finished? || q.pc.Dead?)
    ensures Answers(c, s, if q.pc.Finished? then Some(q.pc.ack) else None, idem, l, recvs)
    ensures c.env.setnx.Success? && IdemKey(c.input.sender, c.input.clientMsgId) !in s.idem && Admitted(c) ==> Due(c, recvs)
  {
    Arrives(c, s, t);
    hide Validate;
    hide Is;
    hide IdemKey;
    hide FormatInt;
    hide Due;
    var e, q0 := c.env, Req(c.input, Validate(c.input).value, New, [], [], None);
    var k := Key(q0);
    recvs := [];
    SetNxAct(c, Here(c, s, q0, s.idem, s.logs), q0);
    idem, l := if e.setnx.Applied() && k !in s.idem then s.idem[k := Pending] else s.idem, s.logs;
    if !e.setnx.Success? {
      n, q := 2, q0.(pc := Finished(Ack(CODE_REDIS_ERR, "", 0)));
      Step(c, s, t, 1, q0, s.idem, s.logs, q, idem, l);
    } else if k in s.idem {
      var q1 := q0.(pc := Replaying);
      Step(c, s, t, 1, q0, s.idem, s.logs, q1, idem, l);
      GetAct(c, Here(c, s, q1, idem, l), q1);
      var ack := if !e.getOk then Ack(CODE_REDIS_ERR, "", 0)
                 else if s.idem[k].Pending? then Ack(CODE_IN_FLIGHT, "", 0)
                 else Ack(CODE_OK, s.idem[k].msgId, s.idem[k].seqNo);
      n, q := 3, q0.(pc := Finished(ack));
      Step(c, s, t, 2, q1, idem, l, q, idem, l);
    } else {
      var q1 := q0.(pc := Holding);
      Step(c, s, t, 1, q0, s.idem, s.logs, q1, idem, l);
      n, q, idem, l, recvs := Serves(c, s, t, 2, q1);
    }
  }

  /** Once nothing is left to do, nothing more happens. */
  lemma {:induction false} Stays(c: Call, s: State, t: nat, a: nat, b: nat)
    requires Alone(c) && a <= b && Next(c, After(c, s, t, a)).None?
    ensures After(c, s, t, b) == After(c, s, t, a)
  {
    hide Next;
    if a < b {
      Stays(c, s, t, a, b - 1);
      assert c.env.meanwhile(t + b - 1) == [];
    }
  }

  /** The call on the server while nobody else moves: bad parameters, exactly the inputs that are not a
      printed conversation id of the sender with sound fields, are answered 40201 and change nothing; a
      valid one answers and leaves what its branch says. */
  method CallAlone(server: LogicServer, c: Call) returns (ack: Option<Ack>, ghost recvs: seq<int64>)
    requires Alone(c) && c.r !in server.reqs && FitVerdict(c)
    modifies server
    ensures Validate(c.input).None? ==>
              && ack == Some(Ack(40201, "", 0)) && server.idem == old(server.idem) && server.counters == old(server.counters)
              && server.storeLog == old(server.storeLog) && server.pushLog == old(server.pushLog)
    ensures Validate(c.input).Some? ==>
              && Answers(c, old(server.Now()), ack, server.idem, Logs(server.counters, server.storeLog, server.pushLog), recvs)
              && (c.env.setnx.Success? && IdemKey(c.input.sender, c.input.clientMsgId) !in old(server.idem) && Admitted(c) ==> Due(c, recvs))
  {
    ghost var s, t := server.Now(), server.tick;
    ghost var n0, q, idem, l;
    recvs := [];
    if Validate(c.input).Some? {
      n0, q, idem, l, recvs := Finishes(c, s, t);
    }
    hide *;
    ghost var n;
    ack, n := server.SendMsg(c);
    if Validate(c.input).Some? {
      SameEnd(c, s, t, n0, q, idem, l, n, server.Now());
    }
  }

  /** Two points at which the call is over are the same. */
  lemma SameEnd(c: Call, s: State, t: nat, a: nat, q: Req, idem: map<string, IdemVal>, l: Logs, b: nat, s': State)
    requires Alone(c) && Is(c, s, t, a, q, idem, l) && (q.pc.Finished? || q.pc.Dead?)
    requires s' == After(c, s, t, b) && c.r in s'.reqs && (s'.reqs[c.r].pc.Finished? || s'.reqs[c.r].pc.Dead?)
    ensures s' == State(s.reqs[c.r := q], idem, l)
  {
    hide After;
    hide Alone;
    if a <= b {
      Stays(c, s, t, a, b);
    } else {
      Stays(c, s, t, b, a);
    }
  }
}
