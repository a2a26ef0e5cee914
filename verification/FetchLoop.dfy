/** StoreRunLoop of internal/job/runloop.go in place, while the rest of the job (BatchLoop) and the senders
    go on between any two of its steps. */
module FetchLoop {
  import opened Common
  import opened Messages
  import opened Sql
  import opened Store
  import opened Pipeline
  import StoreWorkers

  /** What others do meanwhile: a new record in msg.store, or a move of the batch loop. */
  datatype Other = Grow(m: Msg) | Did(mv: Move)

  /** One turn of the loop: what happens while FetchMessage blocks, how it ends, what happens while the
      channel blocks, and whether the record was sent before the context ended. */
  datatype Turn = Turn(before: seq<Other>, fetch: Fetched, between: seq<Other>, sent: bool)

  datatype Fetched = Got(i: nat) | Error(cancelled: bool)

  datatype World = World(log: seq<Msg>, job: Job)

  ghost predicate Allowed(o: Other) {
    match o
    case Grow(m) => RowOf(m).Some?
    case Did(mv) => mv.Receive? || mv.FlushPending? || mv.Outside?
  }

  function Play(env: Env, w: World, o: Other): World {
    match o
    case Grow(m) => w.(log := w.log + [m])
    case Did(mv) => w.(job := Move1(env, w.log, w.job, mv))
  }

  function PlayAll(env: Env, w: World, os: seq<Other>): World {
    if os == [] then w else Play(env, PlayAll(env, w, os[..|os| - 1]), os[|os| - 1])
  }

  ghost predicate Sound(env: Env, w: World) {
    Fair(env.o) && DecimalIds(w.log) && JobInv(env, w.log, w.job)
  }

  lemma PlaySound(env: Env, w: World, o: Other)
    requires Sound(env, w) && (o.Grow? ==> RowOf(o.m).Some?)
    ensures Sound(env, Play(env, w, o))
  {
    hide JobInv;
    hide Move1;
    hide RowOf;
    match o
    case Grow(m) => LogGrows(env, w.log, w.log + [m], w.job);
    case Did(mv) => MoveKeeps(env, w.log, w.job, mv);
  }

  /** The others leave the reader and the record in hand alone, and can only shorten the channel. */
  lemma OthersKeep(env: Env, w: World, o: Other)
    requires Allowed(o)
    ensures var w' := Play(env, w, o);
            && w.log <= w'.log && w'.job.next == w.job.next && w'.job.hand == w.job.hand && w'.job.stopped == w.job.stopped
            && |w'.job.chan| <= |w.job.chan|
  {
    hide FlushDone;
    hide Stash;
    hide RowOf;
  }

  datatype Status = Going | Ended(failed: bool)

  /** What one turn amounts to, and how it leaves the loop: the reader's record is fetched and then handed
      over, or the context ends. A record the reader could not return here is not fetched. */
  function TurnMoves(env: Env, w: World, turn: Turn): (seq<Other>, Status) {
    match turn.fetch
    case Error(cancelled) => (turn.before + if cancelled then [Did(Cancel)] else [], Ended(!cancelled))
    case Got(i) =>
      var w1 := PlayAll(env, w, turn.before);
      if !IsNext(env, w1.log, w1.job.next, i) then (turn.before, Going)
      else
        var os := turn.before + [Did(Fetch(i))] + turn.between;
        if turn.sent && |PlayAll(env, w, os).job.chan| < CHANNEL_SIZE then (os + [Did(HandOff)], Going)
        else (os + [Did(Cancel)], Ended(false))
  }

  /** The moves of the whole loop, its own and those of the others, and how it ends. */
  function Script(env: Env, w: World, turns: seq<Turn>): (seq<Other>, Status) {
    if turns == [] then ([], Going)
    else
      var before := Script(env, w, turns[..|turns| - 1]);
      if before.1.Ended? then before
      else
        var more := TurnMoves(env, PlayAll(env, w, before.0), turns[|turns| - 1]);
        (before.0 + more.0, more.1)
  }

  lemma ScriptSnoc(env: Env, w: World, turns: seq<Turn>, k: nat)
    requires k < |turns| && Script(env, w, turns[..k]).1.Going?
    ensures var os := Script(env, w, turns[..k]).0;
            var more := TurnMoves(env, PlayAll(env, w, os), turns[k]);
            Script(env, w, turns[..k + 1]) == (os + more.0, more.1)
  {
    assert turns[..k + 1][..k] == turns[..k];
  }

  lemma {:induction false} ScriptEnds(env: Env, w: World, turns: seq<Turn>, k: nat)
    requires k <= |turns| && Script(env, w, turns[..k]).1.Ended?
    ensures Script(env, w, turns) == Script(env, w, turns[..k])
  {
    if k < |turns| {
      assert turns[..|turns| - 1][..k] == turns[..k];
      ScriptEnds(env, w, turns[..|turns| - 1], k);
    } else {
      assert turns[..k] == turns;
    }
  }

  lemma {:induction false} PlayAppend(env: Env, w: World, a: seq<Other>, b: seq<Other>)
    ensures PlayAll(env, w, a + b) == PlayAll(env, PlayAll(env, w, a), b)
  {
    hide Play;
    if b == [] {
      assert a + b == a;
    } else {
      PlayAppend(env, w, a, b[..|b| - 1]);
      assert (a + b)[..|a + b| - 1] == a + b[..|b| - 1];
    }
  }

  lemma PlaySnoc(env: Env, w: World, os: seq<Other>, o: Other)
    ensures PlayAll(env, w, os + [o]) == Play(env, PlayAll(env, w, os), o)
  {
    assert (os + [o])[..|os|] == os;
  }

  lemma {:induction false} OthersKeepAll(env: Env, w: World, os: seq<Other>)
    requires forall o :: o in os ==> Allowed(o)
    ensures var w' := PlayAll(env, w, os);
            w.log <= w'.log && w'.job.next == w.job.next && w'.job.hand == w.job.hand && w'.job.stopped == w.job.stopped
  {
    hide Play;
    hide Allowed;
    if os != [] {
      var b, last := os[..|os| - 1], os[|os| - 1];
      assert last in os && forall o :: o in b ==> o in os;
      OthersKeepAll(env, w, b);
      OthersKeep(env, PlayAll(env, w, b), last);
    }
  }

  /** One turn, field by field. An error ends the loop, as a failure unless it is the end of the context. A
      record that is the reader's next moves its partition's position behind it; once there is room and the
      context lives it is the last in the channel, otherwise it stays in hand and the loop ends. */
  lemma TurnIs(env: Env, w: World, turn: Turn)
    requires w.job.hand == None && !w.job.stopped && forall o :: o in turn.before || o in turn.between ==> Allowed(o)
    ensures var (os, st) := TurnMoves(env, w, turn);
            var w', w1 := PlayAll(env, w, os), PlayAll(env, w, turn.before);
            match turn.fetch
            case Error(cancelled) =>
              st == Ended(!cancelled) && w' == w1.(job := w1.job.(stopped := cancelled))
            case Got(i) =>
              if !IsNext(env, w1.log, w1.job.next, i) then st == Going && w' == w1
              else
                var p := PartAt(env, w1.log, i);
                var w2 := PlayAll(env, w1.(job := w1.job.(next := w1.job.next[p := i + 1], hand := Some(i))), turn.between);
                if turn.sent && |w2.job.chan| < 256 then
                  st == Going && w' == w2.(job := w2.job.(hand := None, chan := w2.job.chan + [i]))
                else st == Ended(false) && w' == w2.(job := w2.job.(stopped := true)) && w2.job.hand == Some(i)
  {
    hide Allowed;
    hide IsNext;
    hide Stash;
    hide FlushDone;
    hide PlayAll;
    var w1 := PlayAll(env, w, turn.before);
    OthersKeepAll(env, w, turn.before);
    match turn.fetch
    case Error(cancelled) =>
      PlaySnoc(env, w, turn.before, Did(Cancel));
      assert turn.before + [] == turn.before;
    case Got(i) =>
      if IsNext(env, w1.log, w1.job.next, i) {
        var fetched := Play(env, w1, Did(Fetch(i)));
        PlaySnoc(env, w, turn.before, Did(Fetch(i)));
        PlayAppend(env, w, turn.before + [Did(Fetch(i))], turn.between);
        OthersKeepAll(env, fetched, turn.between);
        var os := turn.before + [Did(Fetch(i))] + turn.between;
        PlaySnoc(env, w, os, Did(HandOff));
        PlaySnoc(env, w, os, Did(Cancel));
      }
  }

  /** The loop goes on exactly while fetches return records that can be handed over, and only a fetch error
      with a living context makes it fail. */
  lemma {:induction false} ScriptStatus(env: Env, w: World, turns: seq<Turn>)
    ensures Script(env, w, turns).1 == Going ==> forall t :: t in turns ==> t.fetch.Got?
    ensures Script(env, w, turns).1 == Ended(true) ==> exists t :: t in turns && t.fetch == Error(false)
  {
    hide IsNext;
    hide PlayAll;
    if turns != [] {
      ScriptStatus(env, w, turns[..|turns| - 1]);
      assert turns[|turns| - 1] in turns;
    }
  }

  // ---------------------------------------------------------------- the machine's flush is the worker's

  /** The worker's database, topics and counters are those the machine keeps. */
  ghost predicate Mirrors(w: StoreWorkers.StoreWorker, env: Env, d: Done)
    reads w
  {
    && w.o == env.o && w.sink == env.sink && w.db == ApplyAll(EMPTY, d.trace) && w.tick == d.tick
    && w.dlq == d.dlq && w.dlqTick == d.dlqTick && w.commitTick == d.commitTick
  }

  /** Flushing the records of a batch is the machine's flush, and commits exactly those records when the
      machine moves its offsets. */
  method FlushAsMachine(w: StoreWorkers.StoreWorker, env: Env, log: seq<Msg>, idx: seq<nat>, ghost d: Done)
    requires Fair(env.o) && idx != [] && Mirrors(w, env, d) && Inside(log, idx)
    modifies w
    ensures Mirrors(w, env, FlushDone(env, log, d, idx))
    ensures w.committed == old(w.committed) +
              if env.sink.commit(d.commitTick).Applied() then [StoreWorkers.Records(ItemsAt(log, idx))] else []
  {
    hide Flush;
    hide StoreWorkers.DeadLetters;
    hide ApplyAll;
    hide MsgsOf;
    ItemsAtFacts(log, idx);
    var items := ItemsAt(log, idx);
    w.Flush(items);
    ApplyAppend(EMPTY, d.trace, Flush(env.o, d.tick, MsgsOf(items)).trace);
  }

  // ---------------------------------------------------------------- the fetch loop

  class StoreJob {
    const env: Env
    var log: seq<Msg>
    var next: map<nat, nat>
    var hand: Option<nat>
    var stopped: bool
    var chan: seq<nat>
    var rest: Job // pending, committed offsets and what was written; the other fields are not used

    ghost function Now(): World
      reads this
    {
      World(log, rest.(next := next, hand := hand, stopped := stopped, chan := chan))
    }

    constructor (env: Env)
      ensures this.env == env && Now() == World([], IDLE)
    {
      this.env, log, next, hand, stopped, chan, rest := env, [], map[], None, false, [], IDLE;
    }

    method Set(w: World)
      modifies this
      ensures Now() == w
    {
      log, rest := w.log, w.job;
      next, hand, stopped, chan := w.job.next, w.job.hand, w.job.stopped, w.job.chan;
    }

    /** What others do while this loop is blocked. */
    method Meanwhile(os: seq<Other>)
      requires Sound(env, Now()) && forall o :: o in os ==> Allowed(o)
      modifies this
      ensures Sound(env, Now()) && Now() == PlayAll(env, old(Now()), os)
      ensures next == old(next) && hand == old(hand) && stopped == old(stopped)
    {
      hide *;
      ghost var start := Now();
      PlayNone(env, start);
      assert os[..0] == [];
      for i := 0 to |os|
        invariant Sound(env, Now()) && Now() == PlayAll(env, start, os[..i])
        invariant next == old(next) && hand == old(hand) && stopped == old(stopped)
      {
        assert os[i] in os;
        AllowedIsStorable(os[i]);
        var w := World(log, rest.(next := next, hand := hand, stopped := stopped, chan := chan));
        NowIs();
        OthersKeep(env, w, os[i]);
        PlaySound(env, w, os[i]);
        PlaySnoc(env, start, os[..i], os[i]);
        assert os[..i] + [os[i]] == os[..i + 1];
        Set(Play(env, w, os[i]));
        NowIs();
      }
      assert os[..|os|] == os;
    }

    lemma NowIs()
      ensures Now() == World(log, rest.(next := next, hand := hand, stopped := stopped, chan := chan))
    {
    }

    /** One turn of the loop. */
    method TakeTurn(turn: Turn) returns (st: Status)
      requires Sound(env, Now()) && hand == None && !stopped
      requires forall o :: o in turn.before || o in turn.between ==> Allowed(o)
      modifies this
      ensures Sound(env, Now())
      ensures (Now(), st) == (PlayAll(env, old(Now()), TurnMoves(env, old(Now()), turn).0), TurnMoves(env, old(Now()), turn).1)
      ensures st == Going ==> hand == None && !stopped
      ensures st == Ended(true) ==> hand == None
      ensures st == Ended(false) ==> stopped
    {
      hide Sound;
      hide PlayAll;
      hide Allowed;
      hide IsNext;
      ghost var w := Now();
      Meanwhile(turn.before);
      ghost var w1 := Now();
      if turn.fetch.Error? {
        assert turn.before + [] == turn.before;
        if turn.fetch.cancelled {
          stopped := true;
          PlaySound(env, w1, Did(Cancel));
          PlaySnoc(env, w, turn.before, Did(Cancel));
        }
        return Ended(!turn.fetch.cancelled);
      }
      var i := turn.fetch.i;
      if !IsNext(env, log, next, i) {
        return Going;
      }
      next, hand := next[PartAt(env, log, i) := i + 1], Some(i);
      ghost var w2 := Now();
      PlaySound(env, w1, Did(Fetch(i)));
      PlaySnoc(env, w, turn.before, Did(Fetch(i)));
      Meanwhile(turn.between);
      ghost var os, w3 := turn.before + [Did(Fetch(i))] + turn.between, Now();
      PlayAppend(env, w, turn.before + [Did(Fetch(i))], turn.between);
      if turn.sent && |chan| < CHANNEL_SIZE {
        chan, hand := chan + [i], None;
        PlaySound(env, w3, Did(HandOff));
        PlaySnoc(env, w, os, Did(HandOff));
        st := Going;
      } else {
        stopped := true;
        PlaySound(env, w3, Did(Cancel));
        PlaySnoc(env, w, os, Did(Cancel));
        st := Ended(false);
      }
    }

    /** Fetch and hand over until the context ends or the reader fails. Whatever the others do in between,
        the whole is exactly the run of the job machine that the turns describe, and keeps its invariant; a
        record fetched but not delivered stays uncommitted. */
    method StoreRunLoop(turns: seq<Turn>) returns (st: Status)
      requires Sound(env, Now()) && hand == None && !stopped
      requires forall t, o :: t in turns && (o in t.before || o in t.between) ==> Allowed(o)
      modifies this
      ensures Sound(env, Now()) && st == Script(env, old(Now()), turns).1
      ensures Now() == PlayAll(env, old(Now()), Script(env, old(Now()), turns).0)
      ensures hand.Some? ==> stopped && st == Ended(false)
      ensures st == Going ==> forall t :: t in turns ==> t.fetch.Got?
      ensures st == Ended(true) ==> exists t :: t in turns && t.fetch == Error(false)
    {
      ghost var start := Now();
      ScriptStatus(env, start, turns);
      st := Going;
      assert turns[..0] == [] && Script(env, start, []) == ([], Going);
      PlayNone(env, start);
      hide *;
      for k := 0 to |turns|
        invariant Sound(env, Now()) && hand == None && !stopped && st == Going
        invariant Script(env, start, turns[..k]).1 == Going
        invariant Now() == PlayAll(env, start, Script(env, start, turns[..k]).0)
      {
        assert turns[k] in turns;
        ghost var os, w := Script(env, start, turns[..k]).0, Now();
        ScriptSnoc(env, start, turns, k);
        PlayAppend(env, start, os, TurnMoves(env, w, turns[k]).0);
        st := TakeTurn(turns[k]);
        if st.Ended? {
          ScriptEnds(env, start, turns, k + 1);
          return;
        }
      }
      assert turns[..|turns|] == turns;
    }
  }

  lemma PlayNone(env: Env, w: World)
    ensures PlayAll(env, w, []) == w
  {
  }

  lemma AllowedIsStorable(o: Other)
    requires Allowed(o)
    ensures o.Grow? ==> RowOf(o.m).Some?
  {
  }
}
