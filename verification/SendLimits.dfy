/** What the send protocol does not promise, shown by runs, and the undisturbed run they are built from. */
module SendLimits {
  import opened Common
  import opened Messages
  import opened Keys
  import opened Decimal
  import opened Send
  import opened SendAcks
  import opened SendServer

  lemma {:induction false} Fresh(reqs: map<nat, Req>) returns (r: nat)
    ensures forall t :: t in reqs ==> t < r
    decreases |reqs|
  {
    if reqs == map[] {
      r := 0;
    } else {
      var t :| t in reqs;
      assert |(reqs - {t}).Keys| < |reqs.Keys| by {
        assert reqs.Keys == (reqs - {t}).Keys + {t};
      }
      var r' := Fresh(reqs - {t});
      r := if r' > t then r' else t + 1;
      assert forall x :: x in reqs ==> x == t || x in reqs - {t};
    }
  }

  // ---------------------------------------------------------------- an undisturbed send

  /** A step of request r that succeeds. */
  predicate Succeeds(a: Action, r: nat) {
    match a
    case Arrive(t, _) => t == r
    case SetNx(t, o) => t == r && o.Success?
    case Check(t, v) => t == r && (v == Friends(true) || v.Roster?)
    case Incr(t, o, _, _) => t == r && o.Success?
    case StoreSend(t, o) => t == r && o.Success?
    case PushSend(t, o) => t == r && o.Success?
    case Finalise(t, o) => t == r && o.Success?
    case _ => false
  }

  /** A check that passes: a friend, or a group of the sender and one other. */
  function Passing(i: Input, t: Target): Verdict { if t.Pair? then Friends(true) else Roster([i.sender, 0]) }

  function Receiver(t: Target): int64 { if t.Pair? then t.peer else 0 }

  lemma RunOne(s: State, a: Action)
    ensures Run(s, [a]) == Exec(s, a)
  {
    hide Exec;
    assert [a][..0] == [];
  }

  lemma RunTwo(s: State, a: Action, b: Action)
    ensures Run(s, [a, b]) == Exec(Exec(s, a), b)
  {
    hide Exec;
    RunOne(s, a);
    RunSnoc(s, [a], b);
    assert [a] + [b] == [a, b];
  }

  function Cleared(i: Input, t: Target): Req {
    Req(i, t, Allowed, if t.Pair? then [] else [i.sender, 0], [Receiver(t)], None)
  }

  /** The frame of a request that passed its check and drew m. */
  function Frame(i: Input, t: Target, pc: Pc, m: Msg): Req { Cleared(i, t).(pc := pc, msg := Some(m)) }

  /** The message of an undisturbed send, and the state it leaves. */
  function Drawn(s: State, i: Input, t: Target, id: int64): Msg { MakeMsg(i, t.conv, id, Counter(s.logs, t.conv) + 1, 0) }

  function Sent(s: State, r: nat, i: Input, t: Target, id: int64): State {
    var m := Drawn(s, i, t, id);
    State(s.reqs[r := Frame(i, t, Finished(Ack(CODE_OK, m.msgId, m.seqNo)), m)],
          s.idem[IdemKey(i.sender, i.clientMsgId) := Final(m.msgId, m.seqNo)],
          Logs(s.logs.counters[t.conv := Counter(s.logs, t.conv) + 1], s.logs.store + [m], s.logs.push + [Envelope(Receiver(t), m)]))
  }

  lemma Begins(s: State, r: nat, i: Input, t: Target) returns (acts: seq<Action>)
    requires r !in s.reqs && IdemKey(i.sender, i.clientMsgId) !in s.idem && Validate(i) == Some(t)
    ensures forall a :: a in acts ==> Succeeds(a, r)
    ensures Run(s, acts) ==
            State(s.reqs[r := Req(i, t, Holding, [], [], None)], s.idem[IdemKey(i.sender, i.clientMsgId) := Pending], s.logs)
  {
    hide Validate;
    hide IdemKey;
    acts := [Arrive(r, i), SetNx(r, Success)];
    RunTwo(s, Arrive(r, i), SetNx(r, Success));
    hide Run;
    var q := Req(i, t, New, [], [], None);
    var s1 := Exec(s, Arrive(r, i));
    assert s1 == State(s.reqs[r := q], s.idem, s.logs);
    assert s.reqs[r := q][r := q.(pc := Holding)] == s.reqs[r := q.(pc := Holding)];
  }

  lemma SenderPositive(i: Input)
    requires Validate(i).Some?
    ensures i.sender > 0
  {
  }

  lemma OneOther(sender: int64)
    requires sender > 0
    ensures Others([sender, 0], sender) == [0] && sender in [sender, 0]
  {
    assert [sender, 0][..1] == [sender] && [sender][..0] == [];
    assert Others([sender], sender) == [];
  }

  lemma Passes(s: State, r: nat, i: Input, t: Target)
    requires r in s.reqs && s.reqs[r] == Req(i, t, Holding, [], [], None) && i.sender > 0
    ensures Exec(s, Check(r, Passing(i, t))) == State(s.reqs[r := Cleared(i, t)], s.idem, s.logs)
  {
    OneOther(i.sender);
    hide Others;
  }

  lemma Counts(s: State, r: nat, i: Input, t: Target, id: int64)
    requires r in s.reqs && s.reqs[r] == Cleared(i, t)
    ensures Exec(s, Incr(r, Success, id, 0)) ==
            State(s.reqs[r := Frame(i, t, Sequenced, Drawn(s, i, t, id))], s.idem,
                  s.logs.(counters := s.logs.counters[t.conv := Counter(s.logs, t.conv) + 1]))
  {
    hide MakeMsg;
  }

  lemma Draws(s: State, r: nat, i: Input, t: Target, id: int64) returns (acts: seq<Action>)
    requires r in s.reqs && s.reqs[r] == Req(i, t, Holding, [], [], None) && Validate(i) == Some(t)
    ensures forall a :: a in acts ==> Succeeds(a, r)
    ensures Run(s, acts) == State(s.reqs[r := Frame(i, t, Sequenced, Drawn(s, i, t, id))], s.idem,
                                  s.logs.(counters := s.logs.counters[t.conv := Counter(s.logs, t.conv) + 1]))
  {
    hide *;
    SenderPositive(i);
    var v := Passing(i, t);
    acts := [Check(r, v), Incr(r, Success, id, 0)];
    RunTwo(s, Check(r, v), Incr(r, Success, id, 0));
    StepsSucceed(i, t, r, id);
    Passes(s, r, i, t);
    var s1 := State(s.reqs[r := Cleared(i, t)], s.idem, s.logs);
    Counts(s1, r, i, t, id);
    assert s1.reqs[r := Frame(i, t, Sequenced, Drawn(s, i, t, id))] == s.reqs[r := Frame(i, t, Sequenced, Drawn(s, i, t, id))];
    DrawnIs(s, s1, i, t, id);
  }

  lemma StepsSucceed(i: Input, t: Target, r: nat, id: int64)
    ensures Succeeds(Check(r, Passing(i, t)), r) && Succeeds(Incr(r, Success, id, 0), r)
  {
  }

  lemma DrawnIs(s: State, s': State, i: Input, t: Target, id: int64)
    requires s'.logs == s.logs
    ensures Drawn(s', i, t, id) == Drawn(s, i, t, id)
  {
  }

  /** The writes: the record, one envelope. */
  lemma Writes(s: State, r: nat, i: Input, t: Target, m: Msg, push: Outcome) returns (acts: seq<Action>)
    requires r in s.reqs && s.reqs[r] == Frame(i, t, Sequenced, m) && (push.Success? || push.FailedBefore?)
    ensures push.Success? ==> forall a :: a in acts ==> Succeeds(a, r)
    ensures Run(s, acts) ==
            State(s.reqs[r := Frame(i, t, if push.Success? then Pushing(1) else RollingBack(CODE_KAFKA_ERR), m)], s.idem,
                  Logs(s.logs.counters, s.logs.store + [m],
                       s.logs.push + if push.Success? then [Envelope(Receiver(t), m)] else []))
  {
    acts := [StoreSend(r, Success), PushSend(r, push)];
    RunTwo(s, StoreSend(r, Success), PushSend(r, push));
    hide Run;
    var s1 := Exec(s, StoreSend(r, Success));
    assert s1 == State(s.reqs[r := Frame(i, t, Pushing(0), m)], s.idem, s.logs.(store := s.logs.store + [m]));
    assert s.logs.push + [] == s.logs.push;
  }

  lemma Finalises(s: State, r: nat, i: Input, t: Target, m: Msg)
    requires r in s.reqs && s.reqs[r] == Frame(i, t, Pushing(1), m)
    ensures Exec(s, Finalise(r, Success)) ==
            State(s.reqs[r := Frame(i, t, Finished(Ack(CODE_OK, m.msgId, m.seqNo)), m)],
                  s.idem[IdemKey(i.sender, i.clientMsgId) := Final(m.msgId, m.seqNo)], s.logs)
  {
    hide IdemKey;
  }

  /** From a drawn message to its ack, whatever else happened meanwhile. */
  lemma Delivers(s: State, r: nat, i: Input, t: Target, m: Msg) returns (acts: seq<Action>)
    requires r in s.reqs && s.reqs[r] == Frame(i, t, Sequenced, m)
    ensures forall a :: a in acts ==> Succeeds(a, r)
    ensures Run(s, acts) ==
            State(s.reqs[r := Frame(i, t, Finished(Ack(CODE_OK, m.msgId, m.seqNo)), m)],
                  s.idem[IdemKey(i.sender, i.clientMsgId) := Final(m.msgId, m.seqNo)],
                  Logs(s.logs.counters, s.logs.store + [m], s.logs.push + [Envelope(Receiver(t), m)]))
  {
    hide IdemKey;
    hide Exec;
    hide Run;
    hide Frame;
    var first := Writes(s, r, i, t, m, Success);
    var s1 := Run(s, first);
    RunSnoc(s, first, Finalise(r, Success));
    Finalises(s1, r, i, t, m);
    acts := first + [Finalise(r, Success)];
  }

  /** An undisturbed send of any valid request whose key is free is acked with the next seq of its
      conversation, in any state. */
  lemma UndisturbedAcks(s: State, r: nat, i: Input, t: Target, id: int64) returns (acts: seq<Action>)
    requires r !in s.reqs && IdemKey(i.sender, i.clientMsgId) !in s.idem && Validate(i) == Some(t)
    ensures forall a :: a in acts ==> Succeeds(a, r)
    ensures Run(s, acts) == Sent(s, r, i, t, id)
  {
    hide Validate;
    hide IdemKey;
    hide Run;
    hide Frame;
    hide Drawn;
    hide Succeeds;
    var k, m := IdemKey(i.sender, i.clientMsgId), Drawn(s, i, t, id);
    var a := Begins(s, r, i, t);
    var s1 := Run(s, a);
    DrawnIs(s, s1, i, t, id);
    var b := Draws(s1, r, i, t, id);
    var s2 := Run(s1, b);
    var c := Delivers(s2, r, i, t, m);
    RunAppend(s, a, b);
    RunAppend(s, a + b, c);
    acts := a + b + c;
    assert s.idem[k := Pending][k := Final(m.msgId, m.seqNo)] == s.idem[k := Final(m.msgId, m.seqNo)];
  }

  /** What that means for the request: it is acked under its own message, the next of its conversation. */
  lemma SentIs(s: State, r: nat, i: Input, t: Target, id: int64)
    ensures var s', m := Sent(s, r, i, t, id), Drawn(s, i, t, id);
            && r in s'.reqs && s'.reqs[r].input == i && s'.reqs[r].msg == Some(m) && Acked(s'.reqs[r])
            && s'.reqs[r].pc.ack == Ack(CODE_OK, FormatInt(id), Counter(s.logs, t.conv) + 1)
            && m.seqNo == Counter(s.logs, t.conv) + 1 && m.convId == t.conv
            && Counter(s'.logs, t.conv) == Counter(s.logs, t.conv) + 1
            && s'.logs.store == s.logs.store + [m]
  {
    hide FormatInt;
    hide IdemKey;
  }

  // ---------------------------------------------------------------- limits

  /** Why agreement needs the key to live: in every reachable state with an acked request, the expiry of
      its key and an undisturbed resend of the same input give another code-0 ack that differs. */
  lemma ExpiryBreaksAgreement(acts: seq<Action>, r: nat) returns (more: seq<Action>, r': nat)
    requires r in Run(INITIAL, acts).reqs && Acked(Run(INITIAL, acts).reqs[r])
    ensures var s, s', k := Run(INITIAL, acts), Run(INITIAL, acts + more), Key(Run(INITIAL, acts).reqs[r]);
            && r' !in s.reqs && r in s'.reqs && s'.reqs[r] == s.reqs[r]
            && r' in s'.reqs && s'.reqs[r'].input == s.reqs[r].input && Acked(s'.reqs[r'])
            && s'.reqs[r'].pc.ack != s'.reqs[r].pc.ack
            && more != [] && more[0] == Expire(k) && forall a :: a in more[1..] ==> Succeeds(a, r')
  {
    TargetsValid(acts);
    hide Run;
    hide Validate;
    hide IdemKey;
    hide FormatInt;
    var s := Run(INITIAL, acts);
    var q, k := s.reqs[r], Key(s.reqs[r]);
    r' := Fresh(s.reqs);
    RunSnoc(INITIAL, acts, Expire(k));
    var s1 := Run(INITIAL, acts + [Expire(k)]);
    assert s1 == s.(idem := s.idem - {k});
    var id: int64 := if q.pc.ack.msgId == FormatInt(7) then 8 else 7;
    Different();
    var second := UndisturbedAcks(s1, r', q.input, q.target, id);
    SentIs(s1, r', q.input, q.target, id);
    more := [Expire(k)] + second;
    RunAppend(INITIAL, acts + [Expire(k)], second);
    assert acts + more == acts + [Expire(k)] + second;
    assert more[1..] == second;
  }

  lemma Different()
    ensures FormatInt(7) != FormatInt(8)
  {
    ParseFormat(7);
    ParseFormat(8);
  }

  /** A rollback after the store write leaves the record: in every state, any valid request with a free key
      whose push fails and that is then resent has two more records in msg.store, under two seqs, and only
      the second is acked. */
  lemma RollbackLeavesRecord(s: State, i: Input, r0: nat, r1: nat) returns (acts: seq<Action>)
    requires Validate(i).Some? && IdemKey(i.sender, i.clientMsgId) !in s.idem
    requires r0 !in s.reqs && r1 !in s.reqs && r0 != r1
    ensures var s', n := Run(s, acts), Counter(s.logs, Validate(i).value.conv);
            && r0 in s'.reqs && r1 in s'.reqs && s'.reqs[r0].input == i && s'.reqs[r1].input == i
            && s'.reqs[r0].pc == Finished(Ack(CODE_KAFKA_ERR, "", 0)) && Acked(s'.reqs[r1])
            && s'.reqs[r0].msg.Some? && s'.reqs[r1].msg.Some?
            && s'.reqs[r0].msg.value.seqNo == n + 1 && s'.reqs[r1].msg.value.seqNo == n + 2
            && s'.logs.store == s.logs.store + [s'.reqs[r0].msg.value, s'.reqs[r1].msg.value]
  {
    hide Validate;
    hide IdemKey;
    hide FormatInt;
    hide Run;
    hide Frame;
    hide Drawn;
    hide Sent;
    var t, k := Validate(i).value, IdemKey(i.sender, i.clientMsgId);
    var m := Drawn(s, i, t, 7);
    var a := Begins(s, r0, i, t);
    var s1 := Run(s, a);
    DrawnIs(s, s1, i, t, 7);
    var b := Draws(s1, r0, i, t, 7);
    var s2 := Run(s1, b);
    var c := Writes(s2, r0, i, t, m, FailedBefore);
    var s3 := Run(s2, c);
    var s4 := Exec(s3, Undo(r0, Success));
    RolledBack(s3, r0, i, t, m);
    assert k !in s4.idem;
    var d := UndisturbedAcks(s4, r1, i, t, 8);
    SentIs(s4, r1, i, t, 8);
    SentElsewhere(s4, r1, i, t, 8, r0);
    RolledBackIs(i, t, m);
    NextCounter(s, s4, i, t);
    RunAppend(s, a, b);
    RunAppend(s, a + b, c);
    RunSnoc(s, a + b + c, Undo(r0, Success));
    RunAppend(s, a + b + c + [Undo(r0, Success)], d);
    acts := a + b + c + [Undo(r0, Success)] + d;
    assert s.logs.store + [m] + [Drawn(s4, i, t, 8)] == s.logs.store + [m, Drawn(s4, i, t, 8)];
  }

  lemma SentElsewhere(s: State, r: nat, i: Input, t: Target, id: int64, r': nat)
    requires r' in s.reqs && r' != r
    ensures r' in Sent(s, r, i, t, id).reqs && Sent(s, r, i, t, id).reqs[r'] == s.reqs[r']
  {
    hide IdemKey;
    hide Drawn;
  }

  lemma RolledBackIs(i: Input, t: Target, m: Msg)
    ensures var q := Frame(i, t, Finished(Ack(CODE_KAFKA_ERR, "", 0)), m);
            q.input == i && q.pc == Finished(Ack(CODE_KAFKA_ERR, "", 0)) && q.msg == Some(m)
  {
  }

  lemma NextCounter(s: State, s': State, i: Input, t: Target)
    requires s'.logs.counters == s.logs.counters[t.conv := Counter(s.logs, t.conv) + 1]
    ensures Counter(s'.logs, t.conv) == Counter(s.logs, t.conv) + 1
    ensures Drawn(s, i, t, 7).seqNo == Counter(s.logs, t.conv) + 1
  {
    hide FormatInt;
  }

  lemma RolledBack(s: State, r: nat, i: Input, t: Target, m: Msg)
    requires r in s.reqs && s.reqs[r] == Frame(i, t, RollingBack(CODE_KAFKA_ERR), m)
    ensures Exec(s, Undo(r, Success)) ==
            State(s.reqs[r := Frame(i, t, Finished(Ack(CODE_KAFKA_ERR, "", 0)), m)],
                  s.idem - {IdemKey(i.sender, i.clientMsgId)}, s.logs)
  {
    hide IdemKey;
  }
}
