/** The send protocol of internal/logic/sendmsg.go as a machine whose steps are the single Redis and
    Kafka commands of many concurrent requests. An action carries everything the environment decides,
    so a run is an arbitrary sequence of actions; a disabled action changes nothing. */
module Send {
  import opened Common
  import opened Decimal
  import opened Conv
  import opened Keys
  import opened Messages

  const CODE_OK := 0
  const CODE_BAD_PARAM := 40201
  const CODE_NOT_FRIEND := 40301
  const CODE_KAFKA_ERR := 50201
  const CODE_REDIS_ERR := 50202
  const CODE_IN_FLIGHT := 50203
  const MAX_PAYLOAD := 64 * 1024

  datatype Input = Input(
    sender: int64, clientMsgId: string, convType: int, convId: string, msgType: int, payload: seq<byte>)

  datatype Target = Pair(conv: string, peer: int64) | Group(conv: string, gid: int64)

  datatype Ack = Ack(code: int, msgId: string, seqNo: int)

  /** Steps 1 and 2 of sendMsg; None is CODE_BAD_PARAM, returned before any command is issued. */
  function Validate(i: Input): Option<Target> {
    if i.sender <= 0 || i.clientMsgId == "" || i.msgType <= 0 then None
    else if i.payload == [] || |i.payload| > MAX_PAYLOAD then None
    else if i.convType == CONV_TYPE_P2P then
      match CheckP2P(i.sender, i.convId)
      case Some(peer) => Some(Pair(i.convId, peer))
      case None => None
    else if i.convType == CONV_TYPE_GROUP then
      match CheckGroup(i.convId)
      case Some(gid) => Some(Group(i.convId, gid))
      case None => None
    else None
  }

  datatype Pc =
    | New                  // about to SETNX
    | Replaying            // lost the SETNX, about to GET
    | Holding              // won the SETNX, about to check the relation
    | Allowed              // receivers known, about to INCR
    | Sequenced            // seq and id drawn, about to write msg.store
    | Pushing(next: nat)   // msg.store written, receivers[..next] written to msg.push
    | RollingBack(code: int)
    | Finished(ack: Ack)
    | Dead                 // the process is gone, or panicked on receivers[0]

  /** roster is the member list read for a group; msg is set once seq and id are drawn and kept for ever. */
  datatype Req = Req(
    input: Input, target: Target, pc: Pc, roster: seq<int64>, receivers: seq<int64>, msg: Option<Msg>)

  datatype IdemVal = Pending | Final(msgId: string, seqNo: int)

  /** The seq counters and the two topics. */
  datatype Logs = Logs(counters: map<string, nat>, store: seq<Msg>, push: seq<Envelope>)

  datatype State = State(reqs: map<nat, Req>, idem: map<string, IdemVal>, logs: Logs)

  const INITIAL := State(map[], map[], Logs(map[], [], []))

  datatype Verdict = CheckFailed | Friends(yes: bool) | Roster(members: seq<int64>)

  datatype Action =
    | Arrive(r: nat, input: Input)
    | SetNx(r: nat, o: Outcome)
    | Get(r: nat, ok: bool)
    | Check(r: nat, verdict: Verdict)
    | Incr(r: nat, o: Outcome, id: int64, ts: int)
    | StoreSend(r: nat, o: Outcome)
    | PushSend(r: nat, o: Outcome)
    | Finalise(r: nat, o: Outcome)
    | Undo(r: nat, o: Outcome)
    | Crash(r: nat)
    | Expire(key: string)

  function Key(q: Req): string { IdemKey(q.input.sender, q.input.clientMsgId) }

  function Fail(code: int): Pc { Finished(Ack(code, "", 0)) }

  function Counter(l: Logs, conv: string): nat { if conv in l.counters then l.counters[conv] else 0 }

  /** The fan-out list: the members without the sender, in the order read. */
  function Others(members: seq<int64>, sender: int64): seq<int64> {
    if members == [] then []
    else
      var rest := Others(members[..|members| - 1], sender);
      if members[|members| - 1] == sender then rest else rest + [members[|members| - 1]]
  }

  /** recvs holds the members at these positions, which are those of users other than the sender. */
  ghost predicate OthersAt(members: seq<int64>, sender: int64, at: seq<nat>, recvs: seq<int64>) {
    Selects(members, (k: nat) => k < |members| && members[k] != sender, at, recvs)
  }

  /** The fan-out list is the member list with the sender's occurrences removed and nothing else: same
      order, same multiplicities. */
  lemma {:induction false} OthersExactly(members: seq<int64>, sender: int64) returns (at: seq<nat>)
    ensures OthersAt(members, sender, at, Others(members, sender))
    ensures multiset(Others(members, sender)) == multiset(members)[sender := 0]
  {
    if members == [] {
      at := [];
    } else {
      var b, last := members[..|members| - 1], members[|members| - 1];
      var at0 := OthersExactly(b, sender);
      var keep := (k: nat) => k < |members| && members[k] != sender;
      SelectsSame(b, (k: nat) => k < |b| && b[k] != sender, keep, at0, Others(b, sender));
      at := SelectsSnoc(b, last, keep, at0, Others(b, sender));
      assert b + [last] == members;
      assert Others(members, sender) == Others(b, sender) + if keep(|b|) then [last] else [];
      assert multiset(members) == multiset(b) + multiset{last};
    }
  }

  /** Which inputs pass, and as what: positive sender and message type, a client id, a payload of 1 to 65536
      bytes, and the printed id of the sender with another user or of a positive group, after the type. */
  lemma ValidateExactly(i: Input, t: Target)
    ensures Validate(i) == Some(t) <==>
            && i.sender > 0 && i.clientMsgId != "" && i.msgType > 0 && 1 <= |i.payload| <= 65536
            && match t
               case Pair(conv, peer) => i.convType == 1 && conv == i.convId && peer != i.sender && i.convId == P2PId(i.sender, peer)
               case Group(conv, gid) => i.convType == 2 && conv == i.convId && gid > 0 && i.convId == GroupId(gid)
  {
    hide CheckP2P;
    hide CheckGroup;
    hide P2PId;
    hide GroupId;
    match t
    case Pair(_, peer) => CheckP2PExact(i.sender, i.convId, peer);
    case Group(_, gid) => CheckGroupExact(i.convId, gid);
  }

  function MakeMsg(i: Input, conv: string, id: int64, n: nat, ts: int): Msg {
    Msg(FormatInt(id), conv, i.convType, i.sender, i.msgType, i.payload, n, ts)
  }

  function Put(s: State, r: nat, q: Req): State { s.(reqs := s.reqs[r := q]) }

  function ExecArrive(s: State, r: nat, i: Input): State {
    if r in s.reqs || Validate(i).None? then s
    else Put(s, r, Req(i, Validate(i).value, New, [], [], None))
  }

  function ExecSetNx(s: State, r: nat, o: Outcome): State
    requires r in s.reqs
  {
    var q := s.reqs[r];
    var k := Key(q);
    var s' := if o.Applied() && k !in s.idem then s.(idem := s.idem[k := Pending]) else s;
    if !o.Success? then Put(s', r, q.(pc := Fail(CODE_REDIS_ERR)))
    else if k in s.idem then Put(s', r, q.(pc := Replaying))
    else Put(s', r, q.(pc := Holding))
  }

  /** replayOrBusy. */
  function ExecGet(s: State, r: nat, ok: bool): State
    requires r in s.reqs
  {
    var q := s.reqs[r];
    var k := Key(q);
    if !ok then Put(s, r, q.(pc := Fail(CODE_REDIS_ERR)))
    else if k !in s.idem || s.idem[k].Pending? then Put(s, r, q.(pc := Fail(CODE_IN_FLIGHT)))
    else Put(s, r, q.(pc := Finished(Ack(CODE_OK, s.idem[k].msgId, s.idem[k].seqNo))))
  }

  function ExecCheck(s: State, r: nat, v: Verdict): State
    requires r in s.reqs
  {
    var q := s.reqs[r];
    match v
    case CheckFailed => Put(s, r, q.(pc := RollingBack(CODE_REDIS_ERR)))
    case Friends(yes) =>
      if !q.target.Pair? then s
      else if yes then Put(s, r, q.(pc := Allowed, receivers := [q.target.peer]))
      else Put(s, r, q.(pc := RollingBack(CODE_NOT_FRIEND)))
    case Roster(members) =>
      if !q.target.Group? then s
      else if q.input.sender in members then
        Put(s, r, q.(pc := Allowed, roster := members, receivers := Others(members, q.input.sender)))
      else Put(s, r, q.(pc := RollingBack(CODE_NOT_FRIEND)))
  }

  function ExecIncr(s: State, r: nat, o: Outcome, id: int64, ts: int): State
    requires r in s.reqs
  {
    var q := s.reqs[r];
    var n := Counter(s.logs, q.target.conv) + 1;
    var s' := if o.Applied() then s.(logs := s.logs.(counters := s.logs.counters[q.target.conv := n])) else s;
    if o.Success? then Put(s', r, q.(pc := Sequenced, msg := Some(MakeMsg(q.input, q.target.conv, id, n, ts))))
    else Put(s', r, q.(pc := RollingBack(CODE_REDIS_ERR)))
  }

  function ExecStoreSend(s: State, r: nat, o: Outcome): State
    requires r in s.reqs && s.reqs[r].msg.Some?
  {
    var q := s.reqs[r];
    var s' := if o.Applied() then s.(logs := s.logs.(store := s.logs.store + [q.msg.value])) else s;
    Put(s', r, q.(pc := if o.Success? then Pushing(0) else RollingBack(CODE_KAFKA_ERR)))
  }

  function ExecPushSend(s: State, r: nat, o: Outcome): State
    requires r in s.reqs && s.reqs[r].msg.Some? && s.reqs[r].pc.Pushing?
    requires s.reqs[r].pc.next < |s.reqs[r].receivers|
  {
    var q := s.reqs[r];
    var e := Envelope(q.receivers[q.pc.next], q.msg.value);
    var s' := if o.Applied() then s.(logs := s.logs.(push := s.logs.push + [e])) else s;
    Put(s', r, q.(pc := if o.Success? then Pushing(q.pc.next + 1) else RollingBack(CODE_KAFKA_ERR)))
  }

  /** SET of the final value, then the reply; logging receivers[0] panics when there is none. */
  function ExecFinalise(s: State, r: nat, o: Outcome): State
    requires r in s.reqs && s.reqs[r].msg.Some?
  {
    var q := s.reqs[r];
    var m := q.msg.value;
    var s' := if o.Applied() then s.(idem := s.idem[Key(q) := Final(m.msgId, m.seqNo)]) else s;
    Put(s', r, q.(pc := if q.receivers == [] then Dead else Finished(Ack(CODE_OK, m.msgId, m.seqNo))))
  }

  function ExecUndo(s: State, r: nat, o: Outcome): State
    requires r in s.reqs && s.reqs[r].pc.RollingBack?
  {
    var q := s.reqs[r];
    var s' := if o.Applied() then s.(idem := s.idem - {Key(q)}) else s;
    Put(s', r, q.(pc := Fail(q.pc.code)))
  }

  function Exec(s: State, a: Action): State {
    match a
    case Arrive(r, i) => ExecArrive(s, r, i)
    case SetNx(r, o) => if r in s.reqs && s.reqs[r].pc.New? then ExecSetNx(s, r, o) else s
    case Get(r, ok) => if r in s.reqs && s.reqs[r].pc.Replaying? then ExecGet(s, r, ok) else s
    case Check(r, v) => if r in s.reqs && s.reqs[r].pc.Holding? then ExecCheck(s, r, v) else s
    case Incr(r, o, id, ts) => if r in s.reqs && s.reqs[r].pc.Allowed? then ExecIncr(s, r, o, id, ts) else s
    case StoreSend(r, o) =>
      if r in s.reqs && s.reqs[r].pc.Sequenced? && s.reqs[r].msg.Some? then ExecStoreSend(s, r, o) else s
    case PushSend(r, o) =>
      if r in s.reqs && s.reqs[r].pc.Pushing? && s.reqs[r].msg.Some? && s.reqs[r].pc.next < |s.reqs[r].receivers|
      then ExecPushSend(s, r, o) else s
    case Finalise(r, o) =>
      if r in s.reqs && s.reqs[r].pc.Pushing? && s.reqs[r].msg.Some? && s.reqs[r].pc.next == |s.reqs[r].receivers|
      then ExecFinalise(s, r, o) else s
    case Undo(r, o) => if r in s.reqs && s.reqs[r].pc.RollingBack? then ExecUndo(s, r, o) else s
    case Crash(r) =>
      if r in s.reqs && !s.reqs[r].pc.Finished? then Put(s, r, s.reqs[r].(pc := Dead)) else s
    case Expire(k) => s.(idem := s.idem - {k})
  }

  function Run(s: State, acts: seq<Action>): State {
    if acts == [] then s else Exec(Run(s, acts[..|acts| - 1]), acts[|acts| - 1])
  }

  // ---------------------------------------------------------------- what the logs hold

  /** The msg.store records with this conversation and seq, in log order. */
  function StoredAs(log: seq<Msg>, conv: string, n: int): seq<Msg> {
    if log == [] then []
    else
      var rest := StoredAs(log[..|log| - 1], conv, n);
      var m := log[|log| - 1];
      if m.convId == conv && m.seqNo == n then rest + [m] else rest
  }

  /** The receivers of the msg.push envelopes with this conversation and seq, in log order. */
  function PushedTo(log: seq<Envelope>, conv: string, n: int): seq<int64> {
    if log == [] then []
    else
      var rest := PushedTo(log[..|log| - 1], conv, n);
      var e := log[|log| - 1];
      if e.msg.convId == conv && e.msg.seqNo == n then rest + [e.recv] else rest
  }

  lemma StoredAsAppend(log: seq<Msg>, m: Msg, c: string, n: int)
    ensures StoredAs(log + [m], c, n) == StoredAs(log, c, n) + if m.convId == c && m.seqNo == n then [m] else []
  {
    assert (log + [m])[..|log|] == log;
  }

  lemma PushedToAppend(log: seq<Envelope>, e: Envelope, c: string, n: int)
    ensures PushedTo(log + [e], c, n) ==
            PushedTo(log, c, n) + if e.msg.convId == c && e.msg.seqNo == n then [e.recv] else []
  {
    assert (log + [e])[..|log|] == log;
  }

  /** The message of q is in msg.store exactly once and in msg.push exactly once per receiver, in order. */
  ghost predicate Published(l: Logs, q: Req) {
    && q.msg.Some?
    && StoredAs(l.store, q.msg.value.convId, q.msg.value.seqNo) == [q.msg.value]
    && PushedTo(l.push, q.msg.value.convId, q.msg.value.seqNo) == q.receivers
  }

  /** Who must receive a message: the peer, or the members that were read, without the sender. */
  ghost predicate FanOut(q: Req) {
    match q.target
    case Pair(_, peer) => q.receivers == [peer]
    case Group(_, _) => q.input.sender in q.roster && q.receivers == Others(q.roster, q.input.sender)
  }

  predicate Acked(q: Req) { q.pc.Finished? && q.pc.ack.code == CODE_OK }

  // ---------------------------------------------------------------- invariant: sequence numbers and logs

  ghost predicate MsgOf(q: Req, m: Msg) {
    && m.convId == q.target.conv && m.convType == q.input.convType && m.senderId == q.input.sender
    && m.msgType == q.input.msgType && m.payload == q.input.payload
  }

  /** What a request may hold at each program point, whatever the logs say. */
  ghost predicate Shape(q: Req) {
    && (q.pc.New? || q.pc.Replaying? || q.pc.Holding? || q.pc.Allowed? ==> q.msg.None?)
    && (q.pc.Sequenced? || q.pc.Pushing? ==> q.msg.Some?)
    && (q.pc.Pushing? ==> q.pc.next <= |q.receivers|)
    && (q.pc.RollingBack? ==> q.pc.code != CODE_OK)
    && (q.pc.Allowed? || q.msg.Some? ==> FanOut(q))
    && (q.msg.Some? ==> MsgOf(q, q.msg.value))
    && (q.msg.Some? && Acked(q) ==> q.pc.ack == Ack(CODE_OK, q.msg.value.msgId, q.msg.value.seqNo))
  }

  /** How far the message m of q has come, given the records found under its slot. */
  ghost predicate Progress(q: Req, m: Msg, stored: seq<Msg>, pushed: seq<int64>) {
    && (q.pc.Sequenced? ==> stored == [] && pushed == [])
    && (q.pc.Pushing? ==> q.pc.next <= |q.receivers| && stored == [m] && pushed == q.receivers[..q.pc.next])
    && (Acked(q) ==> stored == [m] && pushed == q.receivers)
  }

  ghost predicate ReqOk(l: Logs, q: Req) {
    q.msg.Some? ==>
      var m := q.msg.value;
      && 1 <= m.seqNo <= Counter(l, m.convId)
      && Progress(q, m, StoredAs(l.store, m.convId, m.seqNo), PushedTo(l.push, m.convId, m.seqNo))
  }

  ghost predicate SameSlot(m1: Msg, m2: Msg) { m1.convId == m2.convId && m1.seqNo == m2.seqNo }

  ghost predicate Distinct(reqs: map<nat, Req>) {
    forall r1, r2 :: r1 in reqs && r2 in reqs && r1 != r2 && reqs[r1].msg.Some? && reqs[r2].msg.Some? ==>
      !SameSlot(reqs[r1].msg.value, reqs[r2].msg.value)
  }

  ghost predicate Issued(reqs: map<nat, Req>, m: Msg) {
    exists r :: r in reqs && reqs[r].msg == Some(m)
  }

  ghost predicate LogsOk(reqs: map<nat, Req>, l: Logs) {
    && (forall c, n: int :: n > Counter(l, c) ==> StoredAs(l.store, c, n) == [] && PushedTo(l.push, c, n) == [])
    && (forall m :: m in l.store ==> Issued(reqs, m))
    && (forall e :: e in l.push ==> Issued(reqs, e.msg))
  }

  ghost predicate SeqInv(s: State) {
    && (forall r :: r in s.reqs ==> Shape(s.reqs[r]) && ReqOk(s.logs, s.reqs[r]))
    && Distinct(s.reqs)
    && LogsOk(s.reqs, s.logs)
  }

  /** Messages are never forgotten by their requests. */
  ghost predicate Keeps(reqs: map<nat, Req>, reqs': map<nat, Req>) {
    forall r :: r in reqs ==> r in reqs' && (reqs[r].msg.Some? ==> reqs'[r].msg == reqs[r].msg)
  }

  lemma IssuedGrows(reqs: map<nat, Req>, reqs': map<nat, Req>)
    requires Keeps(reqs, reqs')
    ensures forall m :: Issued(reqs, m) ==> Issued(reqs', m)
  {
  }

  /** A step that touches neither logs nor messages. */
  lemma SeqPut(s: State, s': State, r: nat, q: Req)
    requires SeqInv(s) && s'.logs == s.logs && s'.reqs == s.reqs[r := q] && Shape(q) && ReqOk(s.logs, q)
    requires q.msg == if r in s.reqs then s.reqs[r].msg else None
    ensures SeqInv(s')
  {
    hide StoredAs;
    hide PushedTo;
    hide Others;
    IssuedGrows(s.reqs, s'.reqs);
  }

  /** Raising a counter frees no slot. */
  lemma SeqCount(s: State, s': State)
    requires SeqInv(s) && s'.reqs == s.reqs && s'.logs == s.logs.(counters := s'.logs.counters)
    requires forall c :: Counter(s.logs, c) <= Counter(s'.logs, c)
    ensures SeqInv(s')
  {
    hide StoredAs;
    hide PushedTo;
    hide Others;
    forall r | r in s.reqs
      ensures ReqOk(s'.logs, s.reqs[r])
    {
      assert ReqOk(s.logs, s.reqs[r]);
    }
  }

  /** A message under a slot nobody holds and no log knows. */
  lemma SeqDraw(s: State, s': State, r: nat, q: Req, m: Msg)
    requires SeqInv(s) && r in s.reqs && s.reqs[r].msg.None?
    requires q.msg == Some(m) && q.pc.Sequenced? && Shape(q) && 1 <= m.seqNo <= Counter(s.logs, m.convId)
    requires forall t :: t in s.reqs && s.reqs[t].msg.Some? ==> !SameSlot(s.reqs[t].msg.value, m)
    requires StoredAs(s.logs.store, m.convId, m.seqNo) == [] && PushedTo(s.logs.push, m.convId, m.seqNo) == []
    requires s' == Put(s, r, q)
    ensures SeqInv(s')
  {
    hide StoredAs;
    hide PushedTo;
    hide Others;
    IssuedGrows(s.reqs, s'.reqs);
  }

  lemma SeqIncr(s: State, r: nat, o: Outcome, id: int64, ts: int)
    requires SeqInv(s) && r in s.reqs && s.reqs[r].pc.Allowed?
    ensures SeqInv(ExecIncr(s, r, o, id, ts))
  {
    hide StoredAs;
    hide PushedTo;
    hide Others;
    hide FormatInt;
    var s' := ExecIncr(s, r, o, id, ts);
    var q := s.reqs[r];
    var conv, n := q.target.conv, Counter(s.logs, q.target.conv) + 1;
    assert Shape(q);
    var up := s.(logs := s'.logs);
    SeqCount(s, up);
    if o.Success? {
      forall t | t in s.reqs && s.reqs[t].msg.Some?
        ensures !SameSlot(s.reqs[t].msg.value, s'.reqs[r].msg.value)
      {
        assert ReqOk(s.logs, s.reqs[t]);
      }
      SeqDraw(up, s', r, s'.reqs[r], s'.reqs[r].msg.value);
    } else {
      SeqPut(up, s', r, s'.reqs[r]);
    }
  }

  /** The logs of s after appending store and push, which hold records of m only. */
  function Appended(l: Logs, m: Msg, store: seq<Msg>, push: seq<int64>): Logs {
    Logs(l.counters, l.store + store, l.push + Envelopes(push, m))
  }

  lemma AppendedViews(l: Logs, m: Msg, store: seq<Msg>, push: seq<int64>, c: string, n: int)
    requires |push| <= 1 && (store == [] || store == [m])
    ensures StoredAs(Appended(l, m, store, push).store, c, n) ==
            StoredAs(l.store, c, n) + if m.convId == c && m.seqNo == n then store else []
    ensures PushedTo(Appended(l, m, store, push).push, c, n) ==
            PushedTo(l.push, c, n) + if m.convId == c && m.seqNo == n then push else []
  {
    StoredAsMore(l.store, store, m, c, n);
    PushedToMore(l.push, push, m, c, n);
  }

  lemma LogsOkAppend(reqs: map<nat, Req>, l: Logs, m: Msg, store: seq<Msg>, push: seq<int64>)
    requires LogsOk(reqs, l) && |push| <= 1 && (store == [] || store == [m])
    requires Issued(reqs, m) && m.seqNo <= Counter(l, m.convId)
    ensures LogsOk(reqs, Appended(l, m, store, push))
  {
    var l' := Appended(l, m, store, push);
    forall c, n: int | n > Counter(l', c)
      ensures StoredAs(l'.store, c, n) == [] && PushedTo(l'.push, c, n) == []
    {
      assert Counter(l', c) == Counter(l, c);
      AppendedViews(l, m, store, push, c, n);
    }
  }

  /** Appending a record of r leaves every other request where it was. */
  lemma SeqAppend(s: State, s': State, r: nat, q: Req, store: seq<Msg>, push: seq<int64>)
    requires SeqInv(s) && r in s.reqs && q.msg == s.reqs[r].msg && q.msg.Some? && Shape(q)
    requires |push| <= 1 && (store == [] || store == [q.msg.value])
    requires s'.logs == Appended(s.logs, q.msg.value, store, push) && s'.reqs == s.reqs[r := q]
    requires var m := q.msg.value;
             Progress(q, m, StoredAs(s.logs.store, m.convId, m.seqNo) + store, PushedTo(s.logs.push, m.convId, m.seqNo) + push)
    ensures SeqInv(s')
  {
    hide StoredAs;
    hide PushedTo;
    hide Others;
    var m := q.msg.value;
    assert ReqOk(s.logs, s.reqs[r]);
    forall t | t in s'.reqs
      ensures ReqOk(s'.logs, s'.reqs[t])
    {
      assert ReqOk(s.logs, s.reqs[t]);
      if s'.reqs[t].msg.Some? {
        var u := s'.reqs[t].msg.value;
        assert t != r ==> !SameSlot(u, m);
        AppendedViews(s.logs, m, store, push, u.convId, u.seqNo);
        assert Counter(s'.logs, u.convId) == Counter(s.logs, u.convId);
      }
    }
    IssuedGrows(s.reqs, s'.reqs);
    assert Issued(s'.reqs, m) by { assert s'.reqs[r].msg == Some(m); }
    LogsOkAppend(s'.reqs, s.logs, m, store, push);
  }

  function Envelopes(recvs: seq<int64>, m: Msg): seq<Envelope> {
    seq(|recvs|, i requires 0 <= i < |recvs| => Envelope(recvs[i], m))
  }

  lemma StoredAsMore(log: seq<Msg>, more: seq<Msg>, m: Msg, c: string, n: int)
    requires more == [] || more == [m]
    ensures StoredAs(log + more, c, n) == StoredAs(log, c, n) + if m.convId == c && m.seqNo == n then more else []
  {
    if more == [] { assert log + more == log; } else { StoredAsAppend(log, m, c, n); }
  }

  lemma PushedToMore(log: seq<Envelope>, recvs: seq<int64>, m: Msg, c: string, n: int)
    requires |recvs| <= 1
    ensures PushedTo(log + Envelopes(recvs, m), c, n) ==
            PushedTo(log, c, n) + if m.convId == c && m.seqNo == n then recvs else []
  {
    if recvs == [] {
      assert log + Envelopes(recvs, m) == log;
    } else {
      assert Envelopes(recvs, m) == [Envelope(recvs[0], m)];
      PushedToAppend(log, Envelope(recvs[0], m), c, n);
    }
  }

  lemma SeqStoreSend(s: State, r: nat, o: Outcome)
    requires SeqInv(s) && r in s.reqs && s.reqs[r].pc.Sequenced? && s.reqs[r].msg.Some?
    ensures SeqInv(ExecStoreSend(s, r, o))
  {
    hide StoredAs;
    hide PushedTo;
    hide Others;
    var s' := ExecStoreSend(s, r, o);
    var m := s.reqs[r].msg.value;
    assert Shape(s.reqs[r]) && ReqOk(s.logs, s.reqs[r]);
    SeqAppend(s, s', r, s'.reqs[r], if o.Applied() then [m] else [], []);
  }

  lemma SeqPushSend(s: State, r: nat, o: Outcome)
    requires SeqInv(s) && r in s.reqs && s.reqs[r].pc.Pushing? && s.reqs[r].msg.Some?
    requires s.reqs[r].pc.next < |s.reqs[r].receivers|
    ensures SeqInv(ExecPushSend(s, r, o))
  {
    hide StoredAs;
    hide PushedTo;
    hide Others;
    var s' := ExecPushSend(s, r, o);
    var q := s.reqs[r];
    var recv := q.receivers[q.pc.next];
    assert Shape(q) && ReqOk(s.logs, q);
    assert Envelopes([recv], q.msg.value) == [Envelope(recv, q.msg.value)];
    assert q.receivers[..q.pc.next] + [recv] == q.receivers[..q.pc.next + 1];
    SeqAppend(s, s', r, s'.reqs[r], [], if o.Applied() then [recv] else []);
  }

  lemma SeqFinalise(s: State, r: nat, o: Outcome)
    requires SeqInv(s) && r in s.reqs && s.reqs[r].pc.Pushing? && s.reqs[r].msg.Some?
    requires s.reqs[r].pc.next == |s.reqs[r].receivers|
    ensures SeqInv(ExecFinalise(s, r, o))
  {
    hide StoredAs;
    hide PushedTo;
    hide Others;
    var s' := ExecFinalise(s, r, o);
    assert Shape(s.reqs[r]) && ReqOk(s.logs, s.reqs[r]);
    assert s.reqs[r].receivers[..s.reqs[r].pc.next] == s.reqs[r].receivers;
    SeqPut(s, s', r, s'.reqs[r]);
  }

  lemma SeqCheck(s: State, r: nat, v: Verdict)
    requires SeqInv(s) && r in s.reqs && s.reqs[r].pc.Holding?
    ensures SeqInv(ExecCheck(s, r, v))
  {
    hide StoredAs;
    hide PushedTo;
    var s' := ExecCheck(s, r, v);
    assert Shape(s.reqs[r]) && ReqOk(s.logs, s.reqs[r]);
    SeqPut(s, s', r, s'.reqs[r]);
  }

  /** The frames after a step that draws and writes nothing. */
  lemma QuietFrame(s: State, a: Action)
    requires Exec(s, a) != s && (a.SetNx? || a.Get? || a.Undo? || a.Crash?)
    ensures var s' := Exec(s, a);
            && a.r in s.reqs && s'.logs == s.logs && s'.reqs == s.reqs[a.r := s.reqs[a.r].(pc := s'.reqs[a.r].pc)]
            && (a.SetNx? ==> s.reqs[a.r].pc.New?) && (a.Get? ==> s.reqs[a.r].pc.Replaying?)
            && (a.Undo? ==> s.reqs[a.r].pc.RollingBack? && s'.reqs[a.r].pc == Fail(s.reqs[a.r].pc.code))
            && (a.Crash? ==> s'.reqs[a.r].pc == Dead)
            && (a.SetNx? || a.Get? ==> s'.reqs[a.r].pc.Holding? || s'.reqs[a.r].pc.Replaying? || s'.reqs[a.r].pc.Finished?)
  {
    hide Key;
  }

  /** The steps that only move a request, or the idempotency map. */
  lemma SeqQuiet(s: State, a: Action)
    requires SeqInv(s) && Exec(s, a) != s
    requires a.Arrive? || a.SetNx? || a.Get? || a.Undo? || a.Crash?
    ensures SeqInv(Exec(s, a))
  {
    hide StoredAs;
    hide PushedTo;
    hide Others;
    hide Validate;
    hide Key;
    var s', r := Exec(s, a), a.r;
    if a.Arrive? {
      SeqPut(s, s', r, Req(a.input, Validate(a.input).value, New, [], [], None));
    } else {
      QuietFrame(s, a);
      hide Exec;
      var q := s.reqs[r].(pc := s'.reqs[r].pc);
      assert Shape(s.reqs[r]) && ReqOk(s.logs, s.reqs[r]);
      assert Shape(q) && ReqOk(s.logs, q);
      hide SeqInv;
      hide Shape;
      hide ReqOk;
      SeqPut(s, s', r, q);
    }
  }

  lemma SeqStep(s: State, a: Action)
    requires SeqInv(s)
    ensures SeqInv(Exec(s, a))
  {
    hide StoredAs;
    hide PushedTo;
    hide Others;
    hide Validate;
    hide Key;
    hide Shape;
    hide ReqOk;
    if Exec(s, a) == s || a.Expire? { return; }
    match a
    case Incr(r, o, id, ts) => SeqIncr(s, r, o, id, ts);
    case StoreSend(r, o) => SeqStoreSend(s, r, o);
    case PushSend(r, o) => SeqPushSend(s, r, o);
    case Finalise(r, o) => SeqFinalise(s, r, o);
    case Check(r, v) => SeqCheck(s, r, v);
    case _ => SeqQuiet(s, a);
  }

  lemma {:induction false} SeqRun(acts: seq<Action>)
    ensures SeqInv(Run(INITIAL, acts))
  {
    if acts != [] {
      SeqRun(acts[..|acts| - 1]);
      SeqStep(Run(INITIAL, acts[..|acts| - 1]), acts[|acts| - 1]);
    }
  }
}
