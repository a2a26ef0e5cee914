/** Idempotency of the send protocol: who holds a key, which acks can be returned for it, and what an
    ack means for the logs. Everything here is about one key whose entry does not expire. */
module SendAcks {
  import opened Common
  import opened Decimal
  import opened Conv
  import opened Keys
  import opened Messages
  import opened Send

  /** Between a won SETNX and exit. */
  predicate Owns(q: Req) {
    q.pc.Holding? || q.pc.Allowed? || q.pc.Sequenced? || q.pc.Pushing? || q.pc.RollingBack?
  }

  predicate Owner(s: State, k: string, r: nat) { r in s.reqs && Key(s.reqs[r]) == k && Owns(s.reqs[r]) }

  predicate Acker(s: State, k: string, r: nat) { r in s.reqs && Key(s.reqs[r]) == k && Acked(s.reqs[r]) }

  ghost predicate KeyInv(s: State, k: string) {
    && (forall r :: Owner(s, k, r) ==> k in s.idem && s.idem[k].Pending?)
    && (forall r1, r2 :: Owner(s, k, r1) && Owner(s, k, r2) ==> r1 == r2)
    && (forall r1, r2 :: Owner(s, k, r1) ==> !Acker(s, k, r2))
    && (forall r :: Acker(s, k, r) ==> k in s.idem)
    && (forall r :: Acker(s, k, r) && k in s.idem && s.idem[k].Final? ==>
          s.reqs[r].pc.ack == Ack(CODE_OK, s.idem[k].msgId, s.idem[k].seqNo))
    && (forall r1, r2 :: Acker(s, k, r1) && Acker(s, k, r2) ==> s.reqs[r1].pc.ack == s.reqs[r2].pc.ack)
  }

  /** A step of another key: nothing about k moves. */
  lemma KeyForeign(s: State, s': State, k: string, r: nat)
    requires KeyInv(s, k)
    requires k in s.idem <==> k in s'.idem
    requires k in s.idem ==> s'.idem[k] == s.idem[k]
    requires r in s'.reqs && Key(s'.reqs[r]) != k && (r in s.reqs ==> Key(s.reqs[r]) != k)
    requires forall t :: t in s.reqs ==> t in s'.reqs
    requires forall t :: t in s'.reqs && t != r ==> t in s.reqs && s'.reqs[t] == s.reqs[t]
    ensures KeyInv(s', k)
  {
    assert forall t :: Owner(s', k, t) <==> Owner(s, k, t);
    assert forall t :: Acker(s', k, t) <==> Acker(s, k, t);
  }

  /** r moves within its key without gaining or losing ownership of anything, and acks nothing. */
  lemma KeyQuiet(s: State, s': State, k: string, r: nat)
    requires KeyInv(s, k)
    requires k in s.idem ==> k in s'.idem && s'.idem[k] == s.idem[k]
    requires k in s'.idem && k !in s.idem ==> s'.idem[k].Pending?
    requires r in s'.reqs && !Acked(s'.reqs[r])
    requires Owner(s', k, r) ==> Owner(s, k, r)
    requires forall t :: t in s'.reqs && t != r ==> t in s.reqs && s'.reqs[t] == s.reqs[t]
    ensures KeyInv(s', k)
  {
    assert forall t :: Owner(s', k, t) ==> Owner(s, k, t);
    assert forall t :: Acker(s', k, t) ==> Acker(s, k, t) && s'.reqs[t] == s.reqs[t];
  }

  lemma KeySetNx(s: State, r: nat, o: Outcome)
    requires r in s.reqs && s.reqs[r].pc.New? && KeyInv(s, Key(s.reqs[r]))
    ensures KeyInv(ExecSetNx(s, r, o), Key(s.reqs[r]))
  {
    hide IdemKey;
    var s', k := ExecSetNx(s, r, o), Key(s.reqs[r]);
    if o.Success? && k !in s.idem {
      assert forall t :: !Owner(s, k, t) && !Acker(s, k, t);
      assert forall t :: Owner(s', k, t) ==> t == r || Owner(s, k, t);
      assert forall t :: Acker(s', k, t) ==> Acker(s, k, t);
    } else {
      KeyQuiet(s, s', k, r);
    }
  }

  lemma KeyGet(s: State, r: nat, ok: bool)
    requires r in s.reqs && s.reqs[r].pc.Replaying? && KeyInv(s, Key(s.reqs[r]))
    ensures KeyInv(ExecGet(s, r, ok), Key(s.reqs[r]))
  {
    hide IdemKey;
    var s', k := ExecGet(s, r, ok), Key(s.reqs[r]);
    assert s'.idem == s.idem && s'.reqs == s.reqs[r := s'.reqs[r]] && s'.reqs[r].pc.Finished?;
    assert Key(s'.reqs[r]) == k;
    if !Acked(s'.reqs[r]) {
      hide ExecGet;
      KeyQuiet(s, s', k, r);
    } else {
      assert k in s.idem && s.idem[k].Final? && s'.reqs[r].pc.ack == Ack(CODE_OK, s.idem[k].msgId, s.idem[k].seqNo);
      hide ExecGet;
      assert forall t :: Owner(s', k, t) ==> Owner(s, k, t);
      assert forall t :: Acker(s', k, t) ==> t == r || (Acker(s, k, t) && s'.reqs[t] == s.reqs[t]);
    }
  }

  lemma KeyFinalise(s: State, r: nat, o: Outcome)
    requires r in s.reqs && s.reqs[r].pc.Pushing? && s.reqs[r].msg.Some? && KeyInv(s, Key(s.reqs[r]))
    ensures KeyInv(ExecFinalise(s, r, o), Key(s.reqs[r]))
  {
    hide IdemKey;
    var s', k := ExecFinalise(s, r, o), Key(s.reqs[r]);
    assert Owner(s, k, r);
    assert forall t :: Owner(s', k, t) ==> Owner(s, k, t) && t != r;
    assert forall t :: !Owner(s', k, t);
    assert forall t :: Acker(s', k, t) ==> t == r || Acker(s, k, t);
  }

  lemma KeyUndo(s: State, r: nat, o: Outcome)
    requires r in s.reqs && s.reqs[r].pc.RollingBack? && s.reqs[r].pc.code != CODE_OK && KeyInv(s, Key(s.reqs[r]))
    ensures KeyInv(ExecUndo(s, r, o), Key(s.reqs[r]))
  {
    hide IdemKey;
    var s', k := ExecUndo(s, r, o), Key(s.reqs[r]);
    assert Owner(s, k, r);
    assert forall t :: Owner(s', k, t) ==> Owner(s, k, t) && t != r;
    assert forall t :: !Owner(s', k, t);
    assert forall t :: Acker(s', k, t) ==> Acker(s, k, t);
  }

  /** What a step leaves alone: other requests, and the entries of other keys. */
  lemma StepReqs(s: State, a: Action)
    requires !a.Expire? && Exec(s, a) != s
    ensures var s' := Exec(s, a);
            && a.r in s'.reqs && s'.reqs == s.reqs[a.r := s'.reqs[a.r]]
            && (a.r in s.reqs ==> Key(s'.reqs[a.r]) == Key(s.reqs[a.r]))
  {
    hide IdemKey;
    hide Validate;
    hide Others;
    hide MakeMsg;
  }

  lemma StepIdem(s: State, a: Action)
    requires !a.Expire? && Exec(s, a) != s && a.r in Exec(s, a).reqs
    ensures var s' := Exec(s, a);
            s'.idem - {Key(s'.reqs[a.r])} == s.idem - {Key(s'.reqs[a.r])}
  {
    hide IdemKey;
    hide Validate;
    hide Others;
    hide MakeMsg;
  }

  lemma StepLogs(s: State, a: Action)
    ensures !a.StoreSend? ==> Exec(s, a).logs.store == s.logs.store
    ensures !a.PushSend? ==> Exec(s, a).logs.push == s.logs.push
  {
    hide IdemKey;
    hide Validate;
    hide Others;
    hide MakeMsg;
  }

  lemma StepFrame(s: State, a: Action)
    requires !a.Expire? && Exec(s, a) != s
    ensures var s' := Exec(s, a);
            && a.r in s'.reqs && s'.reqs == s.reqs[a.r := s'.reqs[a.r]]
            && (a.r in s.reqs ==> Key(s'.reqs[a.r]) == Key(s.reqs[a.r]))
            && (forall k :: k != Key(s'.reqs[a.r]) ==> (k in s.idem <==> k in s'.idem))
            && (forall k :: k != Key(s'.reqs[a.r]) && k in s.idem ==> s'.idem[k] == s.idem[k])
            && (!a.StoreSend? ==> s'.logs.store == s.logs.store)
            && (!a.PushSend? ==> s'.logs.push == s.logs.push)
  {
    hide Exec;
    hide Key;
    StepReqs(s, a);
    StepIdem(s, a);
    StepLogs(s, a);
    var s' := Exec(s, a);
    SameElsewhere(s.idem, s'.idem, Key(s'.reqs[a.r]));
  }

  lemma SameElsewhere(a: map<string, IdemVal>, b: map<string, IdemVal>, x: string)
    requires b - {x} == a - {x}
    ensures forall k :: k != x ==> (k in a <==> k in b)
    ensures forall k :: k != x && k in a ==> b[k] == a[k]
  {
    forall k | k != x
      ensures (k in a <==> k in b) && (k in a ==> b[k] == a[k])
    {
      assert k in a <==> k in a - {x};
      assert k in b <==> k in b - {x};
    }
  }

  lemma MovesOn(s: State, a: Action)
    requires a.Arrive? || a.Check? || a.Incr? || a.StoreSend? || a.PushSend? || a.Crash?
    requires Exec(s, a) != s && a.r in Exec(s, a).reqs
    ensures var s' := Exec(s, a);
            !Acked(s'.reqs[a.r]) && s'.idem == s.idem && (Owns(s'.reqs[a.r]) ==> a.r in s.reqs && Owns(s.reqs[a.r]))
  {
    hide IdemKey;
    hide Validate;
    hide Others;
    hide MakeMsg;
  }

  lemma KeyMove(s: State, a: Action)
    requires a.Arrive? || a.Check? || a.Incr? || a.StoreSend? || a.PushSend? || a.Crash?
    requires Exec(s, a) != s && a.r in Exec(s, a).reqs && KeyInv(s, Key(Exec(s, a).reqs[a.r]))
    ensures KeyInv(Exec(s, a), Key(Exec(s, a).reqs[a.r]))
  {
    hide IdemKey;
    hide Validate;
    hide StoredAs;
    hide PushedTo;
    hide Others;
    hide MakeMsg;
    StepFrame(s, a);
    MovesOn(s, a);
    hide Exec;
    KeyQuiet(s, Exec(s, a), Key(Exec(s, a).reqs[a.r]), a.r);
  }

  /** Every step but the expiry of k itself keeps the invariant of k. */
  lemma KeyStep(s: State, a: Action, k: string)
    requires SeqInv(s) && KeyInv(s, k) && a != Expire(k)
    ensures KeyInv(Exec(s, a), k)
  {
    hide IdemKey;
    hide Validate;
    hide SeqInv;
    var s' := Exec(s, a);
    if s' == s { return; }
    if a.Expire? {
      assert s'.reqs == s.reqs && s'.idem == s.idem - {a.key};
      hide Exec;
      assert forall t :: (Owner(s', k, t) <==> Owner(s, k, t)) && (Acker(s', k, t) <==> Acker(s, k, t));
    } else {
      hide Exec;
      StepFrame(s, a);
      if Key(s'.reqs[a.r]) != k {
        KeyForeign(s, s', k, a.r);
      } else {
        KeyOwnStep(s, a, k);
      }
    }
  }

  lemma KeyOwnStep(s: State, a: Action, k: string)
    requires SeqInv(s) && KeyInv(s, k) && !a.Expire? && Exec(s, a) != s
    requires a.r in Exec(s, a).reqs && Key(Exec(s, a).reqs[a.r]) == k
    ensures KeyInv(Exec(s, a), k)
  {
    hide IdemKey;
    hide Validate;
    hide StoredAs;
    hide PushedTo;
    match a
    case SetNx(r, o) => KeySetNx(s, r, o);
    case Get(r, ok) => KeyGet(s, r, ok);
    case Finalise(r, o) => KeyFinalise(s, r, o);
    case Undo(r, o) => assert Shape(s.reqs[r]); KeyUndo(s, r, o);
    case Arrive(_, _) => KeyMove(s, a);
    case Check(_, _) => KeyMove(s, a);
    case Incr(_, _, _, _) => KeyMove(s, a);
    case StoreSend(_, _) => KeyMove(s, a);
    case PushSend(_, _) => KeyMove(s, a);
    case Crash(_) => KeyMove(s, a);
  }

  /** The key never expires while it is there. */
  ghost predicate NeverLost(acts: seq<Action>, k: string) {
    acts == [] ||
    (NeverLost(acts[..|acts| - 1], k) && (acts[|acts| - 1] == Expire(k) ==> k !in Run(INITIAL, acts[..|acts| - 1]).idem))
  }

  lemma {:induction false} KeyRun(acts: seq<Action>, k: string)
    requires NeverLost(acts, k)
    ensures KeyInv(Run(INITIAL, acts), k)
  {
    hide Exec;
    hide KeyInv;
    if acts == [] {
      assert KeyInv(INITIAL, k) by { KeyStart(k); }
    } else {
      var before, a := acts[..|acts| - 1], acts[|acts| - 1];
      KeyRun(before, k);
      SeqRun(before);
      hide SeqInv;
      if a == Expire(k) {
        ExpireNothing(Run(INITIAL, before), k);
      } else {
        KeyStep(Run(INITIAL, before), a, k);
      }
    }
  }

  lemma KeyStart(k: string)
    ensures KeyInv(INITIAL, k)
  {
  }

  lemma ExpireNothing(s: State, k: string)
    requires k !in s.idem
    ensures Exec(s, Expire(k)) == s
  {
    assert s.idem - {k} == s.idem;
  }

  // ---------------------------------------------------------------- where an ack comes from

  /** Request r of key k produced exactly this ack and its message is out. */
  ghost predicate Source(s: State, k: string, ack: Ack, r: nat) {
    && r in s.reqs && Key(s.reqs[r]) == k
    && (s.reqs[r].pc.Finished? || s.reqs[r].pc.Dead?)
    && Published(s.logs, s.reqs[r])
    && ack == Ack(CODE_OK, s.reqs[r].msg.value.msgId, s.reqs[r].msg.value.seqNo)
  }

  ghost predicate Sourced(s: State, k: string, ack: Ack) { exists r :: Source(s, k, ack, r) }

  ghost predicate SourceInv(s: State) {
    && (forall k :: k in s.idem && s.idem[k].Final? ==> Sourced(s, k, Ack(CODE_OK, s.idem[k].msgId, s.idem[k].seqNo)))
    && (forall r :: r in s.reqs && Acked(s.reqs[r]) ==> Sourced(s, Key(s.reqs[r]), s.reqs[r].pc.ack))
  }

  lemma StoreElsewhere(s: State, r: nat, o: Outcome, m: Msg)
    requires r in s.reqs && s.reqs[r].msg.Some? && !SameSlot(s.reqs[r].msg.value, m)
    ensures StoredAs(ExecStoreSend(s, r, o).logs.store, m.convId, m.seqNo) == StoredAs(s.logs.store, m.convId, m.seqNo)
    ensures ExecStoreSend(s, r, o).logs.push == s.logs.push
  {
    var u := s.reqs[r].msg.value;
    StoredAsMore(s.logs.store, [u], u, m.convId, m.seqNo);
  }

  lemma PushElsewhere(s: State, r: nat, o: Outcome, m: Msg)
    requires r in s.reqs && s.reqs[r].msg.Some? && !SameSlot(s.reqs[r].msg.value, m)
    requires s.reqs[r].pc.Pushing? && s.reqs[r].pc.next < |s.reqs[r].receivers|
    ensures PushedTo(ExecPushSend(s, r, o).logs.push, m.convId, m.seqNo) == PushedTo(s.logs.push, m.convId, m.seqNo)
    ensures ExecPushSend(s, r, o).logs.store == s.logs.store
  {
    var u, recv := s.reqs[r].msg.value, s.reqs[r].receivers[s.reqs[r].pc.next];
    assert Envelopes([recv], u) == [Envelope(recv, u)];
    PushedToMore(s.logs.push, [recv], u, m.convId, m.seqNo);
  }

  /** Records are appended under a slot only by the request that holds it. */
  lemma ViewsStable(s: State, a: Action, r: nat)
    requires SeqInv(s) && r in s.reqs && s.reqs[r].msg.Some? && (s.reqs[r].pc.Finished? || s.reqs[r].pc.Dead?)
    ensures var m, l, l' := s.reqs[r].msg.value, s.logs, Exec(s, a).logs;
            && StoredAs(l'.store, m.convId, m.seqNo) == StoredAs(l.store, m.convId, m.seqNo)
            && PushedTo(l'.push, m.convId, m.seqNo) == PushedTo(l.push, m.convId, m.seqNo)
  {
    hide StoredAs;
    hide PushedTo;
    hide Validate;
    hide IdemKey;
    var s', m := Exec(s, a), s.reqs[r].msg.value;
    if s' == s {
    } else if a.StoreSend? {
      StoreElsewhere(s, a.r, a.o, m);
    } else if a.PushSend? {
      PushElsewhere(s, a.r, a.o, m);
    } else if !a.Expire? {
      StepFrame(s, a);
    }
  }

  /** A published message stays published. */
  lemma SourceStable(s: State, a: Action, k: string, ack: Ack, r: nat)
    requires SeqInv(s) && Source(s, k, ack, r)
    ensures Source(Exec(s, a), k, ack, r)
  {
    hide StoredAs;
    hide PushedTo;
    hide Validate;
    hide IdemKey;
    ViewsStable(s, a, r);
    if Exec(s, a) != s && !a.Expire? { StepFrame(s, a); }
    assert Exec(s, a).reqs[r].msg == s.reqs[r].msg && Exec(s, a).reqs[r].receivers == s.reqs[r].receivers;
  }

  lemma SourcedStable(s: State, a: Action)
    requires SeqInv(s)
    ensures forall k, ack :: Sourced(s, k, ack) ==> Sourced(Exec(s, a), k, ack)
  {
    hide StoredAs;
    hide PushedTo;
    hide Validate;
    hide IdemKey;
    forall k, ack | Sourced(s, k, ack)
      ensures Sourced(Exec(s, a), k, ack)
    {
      var r :| Source(s, k, ack, r);
      SourceStable(s, a, k, ack, r);
    }
  }

  /** A step that writes no final value and returns no ack. */
  lemma SourceQuiet(s: State, s': State)
    requires SourceInv(s)
    requires forall k, ack :: Sourced(s, k, ack) ==> Sourced(s', k, ack)
    requires forall k :: k in s'.idem && s'.idem[k].Final? ==> k in s.idem && s.idem[k] == s'.idem[k]
    requires forall r :: r in s'.reqs && Acked(s'.reqs[r]) ==> r in s.reqs && s.reqs[r] == s'.reqs[r]
    ensures SourceInv(s')
  {
  }

  lemma FinalisedIsSource(s: State, r: nat, o: Outcome)
    requires SeqInv(s) && r in s.reqs && s.reqs[r].pc.Pushing? && s.reqs[r].msg.Some?
    requires s.reqs[r].pc.next == |s.reqs[r].receivers|
    ensures var m := s.reqs[r].msg.value; Source(ExecFinalise(s, r, o), Key(s.reqs[r]), Ack(CODE_OK, m.msgId, m.seqNo), r)
  {
    hide StoredAs;
    hide PushedTo;
    hide IdemKey;
    hide Shape;
    hide LogsOk;
    hide Distinct;
    var q := s.reqs[r];
    assert ReqOk(s.logs, q);
    assert q.receivers[..q.pc.next] == q.receivers;
  }

  lemma SourceFinalise(s: State, r: nat, o: Outcome)
    requires SeqInv(s) && SourceInv(s) && r in s.reqs && s.reqs[r].pc.Pushing? && s.reqs[r].msg.Some?
    requires s.reqs[r].pc.next == |s.reqs[r].receivers|
    ensures SourceInv(ExecFinalise(s, r, o))
  {
    hide Source;
    hide IdemKey;
    var s', q, m := ExecFinalise(s, r, o), s.reqs[r], s.reqs[r].msg.value;
    assert s' == Exec(s, Finalise(r, o));
    SourcedStable(s, Finalise(r, o));
    hide SeqInv;
    hide Exec;
    FinalisedIsSource(s, r, o);
    assert Sourced(s', Key(q), Ack(CODE_OK, m.msgId, m.seqNo));
    assert s'.reqs == s.reqs[r := s'.reqs[r]] && Key(s'.reqs[r]) == Key(q);
    assert Acked(s'.reqs[r]) ==> s'.reqs[r].pc.ack == Ack(CODE_OK, m.msgId, m.seqNo);
    assert s'.idem == s.idem || s'.idem == s.idem[Key(q) := Final(m.msgId, m.seqNo)];
  }

  lemma SourceGet(s: State, r: nat, ok: bool)
    requires SeqInv(s) && SourceInv(s) && r in s.reqs && s.reqs[r].pc.Replaying?
    ensures SourceInv(ExecGet(s, r, ok))
  {
    hide StoredAs;
    hide PushedTo;
    hide Validate;
    hide IdemKey;
    var s' := ExecGet(s, r, ok);
    assert s' == Exec(s, Get(r, ok));
    SourcedStable(s, Get(r, ok));
    if Acked(s'.reqs[r]) {
      assert Sourced(s, Key(s.reqs[r]), s'.reqs[r].pc.ack);
    }
  }

  lemma NoNewFinal(s: State, a: Action)
    requires !a.Finalise?
    ensures forall k :: k in Exec(s, a).idem && Exec(s, a).idem[k].Final? ==> k in s.idem && s.idem[k] == Exec(s, a).idem[k]
  {
    hide IdemKey;
    hide Validate;
  }

  lemma NoNewAck(s: State, a: Action)
    requires SeqInv(s) && Exec(s, a) != s && !a.Finalise? && !a.Get? && !a.Expire?
    ensures a.r in Exec(s, a).reqs && !Acked(Exec(s, a).reqs[a.r])
  {
    hide IdemKey;
    hide Validate;
    hide StoredAs;
    hide PushedTo;
    hide Others;
    hide MakeMsg;
    hide Published;
    if a.Undo? { assert Shape(s.reqs[a.r]); }
  }

  lemma SourceOther(s: State, a: Action)
    requires SeqInv(s) && SourceInv(s) && Exec(s, a) != s && !a.Finalise? && !a.Get?
    ensures SourceInv(Exec(s, a))
  {
    hide StoredAs;
    hide PushedTo;
    hide Validate;
    hide IdemKey;
    SourcedStable(s, a);
    NoNewFinal(s, a);
    if !a.Expire? {
      StepFrame(s, a);
      NoNewAck(s, a);
    }
    SourceQuiet(s, Exec(s, a));
  }

  lemma SourceStep(s: State, a: Action)
    requires SeqInv(s) && SourceInv(s)
    ensures SourceInv(Exec(s, a))
  {
    hide StoredAs;
    hide PushedTo;
    hide Validate;
    hide IdemKey;
    if Exec(s, a) == s { return; }
    match a
    case Finalise(r, o) => SourceFinalise(s, r, o);
    case Get(r, ok) => SourceGet(s, r, ok);
    case _ => SourceOther(s, a);
  }

  lemma {:induction false} SourceRun(acts: seq<Action>)
    ensures SourceInv(Run(INITIAL, acts))
  {
    if acts != [] {
      var before := acts[..|acts| - 1];
      SourceRun(before);
      SeqRun(before);
      SourceStep(Run(INITIAL, before), acts[|acts| - 1]);
    }
  }

  // ---------------------------------------------------------------- requests stay what they are

  ghost predicate Targeted(s: State) { forall r :: r in s.reqs ==> Validate(s.reqs[r].input) == Some(s.reqs[r].target) }

  lemma TargetStep(s: State, a: Action)
    requires Targeted(s)
    ensures Targeted(Exec(s, a))
  {
    hide Validate;
    hide Key;
    hide Others;
    hide FormatInt;
  }

  lemma {:induction false} TargetsValid(acts: seq<Action>)
    ensures Targeted(Run(INITIAL, acts))
  {
    hide Exec;
    hide Validate;
    if acts != [] {
      TargetsValid(acts[..|acts| - 1]);
      TargetStep(Run(INITIAL, acts[..|acts| - 1]), acts[|acts| - 1]);
    }
  }

  /** The envelopes under the slot of an acked request's message go to the users they should: the one other
      user of the pair in the id, or, for a group id, every member read but the sender, as often and in the
      order they were read. */
  ghost predicate Reached(l: Logs, q: Req) {
    q.msg.Some? &&
    var m := q.msg.value;
    var recvs := PushedTo(l.push, m.convId, m.seqNo);
    match q.target
    case Pair(_, peer) => m.convType == 1 && peer != m.senderId && m.convId == P2PId(m.senderId, peer) && recvs == [peer]
    case Group(_, gid) =>
      && m.convType == 2 && gid > 0 && m.convId == GroupId(gid) && m.senderId in q.roster
      && multiset(recvs) == multiset(q.roster)[m.senderId := 0]
      && exists at :: OthersAt(q.roster, m.senderId, at, recvs)
  }

  lemma FanOutReaches(l: Logs, q: Req)
    requires Validate(q.input) == Some(q.target) && FanOut(q) && Published(l, q) && MsgOf(q, q.msg.value)
    ensures Reached(l, q)
  {
    hide Others;
    hide StoredAs;
    hide PushedTo;
    hide OthersAt;
    ValidateExactly(q.input, q.target);
    hide Validate;
    if q.target.Group? {
      var at := OthersExactly(q.roster, q.input.sender);
    }
  }

  // ---------------------------------------------------------------- main results

  /** At most one request is between a won SETNX and exit for one sender and client id. */
  lemma Exclusive(acts: seq<Action>, sender: int64, clientMsgId: string, r1: nat, r2: nat)
    requires NeverLost(acts, IdemKey(sender, clientMsgId))
    requires Owner(Run(INITIAL, acts), IdemKey(sender, clientMsgId), r1)
    requires Owner(Run(INITIAL, acts), IdemKey(sender, clientMsgId), r2)
    ensures r1 == r2
  {
    KeyRun(acts, IdemKey(sender, clientMsgId));
  }

  /** All code-0 acks for one sender and client id agree on message id and seq, in every run in which
      that key does not expire while it is there: retries, replays, crashes, lost replies and failed rollbacks included. */
  lemma AckAgreement(acts: seq<Action>, r1: nat, r2: nat)
    requires var s := Run(INITIAL, acts);
             && r1 in s.reqs && Acked(s.reqs[r1]) && r2 in s.reqs && Acked(s.reqs[r2])
             && s.reqs[r1].input.sender == s.reqs[r2].input.sender
             && s.reqs[r1].input.clientMsgId == s.reqs[r2].input.clientMsgId
             && NeverLost(acts, Key(s.reqs[r1]))
    ensures Run(INITIAL, acts).reqs[r1].pc.ack == Run(INITIAL, acts).reqs[r2].pc.ack
  {
    var s := Run(INITIAL, acts);
    KeyRun(acts, Key(s.reqs[r1]));
    assert Acker(s, Key(s.reqs[r1]), r1) && Acker(s, Key(s.reqs[r1]), r2);
  }

  /** A code-0 ack, direct or replayed, names a message that a request with the same sender and client id
      drew for its own conversation, type and payload, and that is in msg.store exactly once and in
      msg.push exactly once per receiver; for a direct ack it is the request itself. Expiry does not
      matter here. */
  lemma AckedIsPublished(acts: seq<Action>, r: nat) returns (r0: nat)
    requires r in Run(INITIAL, acts).reqs && Acked(Run(INITIAL, acts).reqs[r])
    ensures var s := Run(INITIAL, acts);
            && r0 in s.reqs && Published(s.logs, s.reqs[r0]) && FanOut(s.reqs[r0]) && Reached(s.logs, s.reqs[r0])
            && (s.reqs[r].msg.Some? ==> r0 == r)
            && s.reqs[r0].input.sender == s.reqs[r].input.sender
            && s.reqs[r0].input.clientMsgId == s.reqs[r].input.clientMsgId
            && MsgOf(s.reqs[r0], s.reqs[r0].msg.value)
            && s.reqs[r0].msg.value.msgId == s.reqs[r].pc.ack.msgId
            && s.reqs[r0].msg.value.seqNo == s.reqs[r].pc.ack.seqNo
            && s.reqs[r0].msg.value in s.logs.store
  {
    hide Run;
    hide StoredAs;
    hide PushedTo;
    hide Others;
    hide IdemKey;
    var s := Run(INITIAL, acts);
    SeqRun(acts);
    var q := s.reqs[r];
    assert Shape(q) && ReqOk(s.logs, q);
    if q.msg.Some? {
      r0 := r;
    } else {
      SourceRun(acts);
      var k, ack := Key(q), q.pc.ack;
      assert Sourced(s, k, ack);
      r0 :| Source(s, k, ack, r0);
      var q0 := s.reqs[r0];
      IdemKeyInjective(q0.input.sender, q0.input.clientMsgId, q.input.sender, q.input.clientMsgId);
      assert Shape(q0);
    }
    var m := s.reqs[r0].msg.value;
    StoredAsMember(s.logs.store, m.convId, m.seqNo, m);
    TargetsValid(acts);
    FanOutReaches(s.logs, s.reqs[r0]);
  }

  lemma {:induction false} StoredAsMember(log: seq<Msg>, c: string, n: int, m: Msg)
    requires m in StoredAs(log, c, n)
    ensures m in log
  {
    if m != log[|log| - 1] {
      StoredAsMember(log[..|log| - 1], c, n, m);
    }
  }

  /** No two requests are ever issued the same seq of a conversation, and two records of either topic
      under one (conversation, seq) are the same message. */
  lemma SlotDeterminesMessage(acts: seq<Action>, m1: Msg, m2: Msg)
    requires var l := Run(INITIAL, acts).logs;
             && (m1 in l.store || exists e :: e in l.push && e.msg == m1)
             && (m2 in l.store || exists e :: e in l.push && e.msg == m2)
             && SameSlot(m1, m2)
    ensures m1 == m2
  {
    var s := Run(INITIAL, acts);
    SeqRun(acts);
    var r1 :| r1 in s.reqs && s.reqs[r1].msg == Some(m1);
    var r2 :| r2 in s.reqs && s.reqs[r2].msg == Some(m2);
  }

  lemma SeqExclusive(acts: seq<Action>, r1: nat, r2: nat)
    requires var s := Run(INITIAL, acts);
             && r1 in s.reqs && r2 in s.reqs && s.reqs[r1].msg.Some? && s.reqs[r2].msg.Some?
             && SameSlot(s.reqs[r1].msg.value, s.reqs[r2].msg.value)
    ensures r1 == r2
  {
    SeqRun(acts);
  }
}
