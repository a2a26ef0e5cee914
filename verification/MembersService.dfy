/** The member source of one group and the consumer of its membership events, in place. A call of Members
    is proved to leave exactly what the machine of module Members leaves when the call takes its own
    steps, while changes, events, evictions and other calls go on between any two of its commands. */
module MembersService {
  import opened Common
  import opened Decimal
  import opened Conv
  import opened Sql
  import M = Members

  /** How the commands of one call end, in what order Redis and MySQL list what they hold, and what goes on
      before the command at each tick. */
  datatype Env = Env(
    lookupOk: bool, list: set<string> -> seq<string>, queryOk: bool, rows: set<int64> -> seq<int64>,
    add: Outcome, meanwhile: nat -> seq<M.Action>)

  datatype Call = Call(r: nat, env: Env)

  /** Lists hold what the sets hold. */
  ghost predicate FairLists(c: Call) {
    (forall s: set<string> :: M.SetOf(c.env.list(s)) == s) && (forall s: set<int64> :: M.SetOf(c.env.rows(s)) == s)
  }

  predicate Foreign(a: M.Action, r: nat) { a.Lookup? || a.Query? || a.Backfill? ==> a.r != r }

  ghost predicate OnlyOthers(c: Call) { forall t: nat, a :: a in c.env.meanwhile(t) ==> Foreign(a, c.r) }

  /** The command a call issues next, with the outcome the environment has for it. */
  function Next(c: Call, s: M.State): Option<M.Action> {
    if c.r !in s.loads then Some(M.Lookup(c.r, if c.env.lookupOk then Some(c.env.list(s.cache)) else None))
    else
      match s.loads[c.r]
      case Querying(_) => Some(M.Query(c.r, if c.env.queryOk then Some(c.env.rows(s.table)) else None))
      case Loaded(_, _) => Some(M.Backfill(c.r, c.env.add))
      case _ => None
  }

  function Act(c: Call, s: M.State): M.State {
    match Next(c, s)
    case Some(a) => M.Exec(s, a)
    case None => s
  }

  /** The state after n commands of the call, each preceded by what goes on meanwhile. */
  function After(c: Call, start: M.State, t: nat, n: nat): M.State {
    if n == 0 then start else Act(c, M.Run(After(c, start, t, n - 1), c.env.meanwhile(t + n - 1)))
  }

  /** Every call is a run of the machine. */
  lemma {:induction false} AfterIsRun(c: Call, start: M.State, t: nat, n: nat) returns (acts: seq<M.Action>)
    ensures After(c, start, t, n) == M.Run(start, acts)
  {
    hide M.Exec;
    hide Next;
    if n == 0 {
      acts := [];
    } else {
      var before := AfterIsRun(c, start, t, n - 1);
      var others := c.env.meanwhile(t + n - 1);
      RunAppend(start, before, others);
      acts := before + others;
      var w := M.Run(start, acts);
      match Next(c, w)
      case None =>
      case Some(a) =>
        RunSnoc(start, acts, a);
        acts := acts + [a];
    }
  }

  method ParseUids(vals: seq<string>) returns (uids: seq<int64>)
    ensures uids == M.ParseAll(vals)
    ensures exists at :: M.ParsedAt(vals, at, uids)
  {
    ghost var at := M.ParsesInOrder(vals);
    hide M.ParsedAt;
    hide ParseInt;
    uids := [];
    for i := 0 to |vals|
      invariant uids == M.ParseAll(vals[..i])
    {
      assert vals[..i + 1][..i] == vals[..i];
      var n := ParseInt(vals[i]);
      if n.Some? {
        uids := uids + [n.value];
      }
    }
    assert vals[..|vals|] == vals;
  }

  method PrintUids(uids: seq<int64>) returns (printed: seq<string>)
    ensures M.SetOf(printed) == M.Printed(M.SetOf(uids))
  {
    hide FormatInt;
    printed := [];
    for i := 0 to |uids|
      invariant |printed| == i && forall k :: 0 <= k < i ==> printed[k] == FormatInt(uids[k])
    {
      printed := printed + [FormatInt(uids[i])];
    }
    assert forall u :: u in uids ==> FormatInt(u) in printed;
  }

  lemma RunSnoc(s: M.State, acts: seq<M.Action>, a: M.Action)
    ensures M.Run(s, acts + [a]) == M.Exec(M.Run(s, acts), a)
  {
    hide M.Exec;
    assert (acts + [a])[..|acts|] == acts;
  }

  lemma {:induction false} RunAppend(s: M.State, a: seq<M.Action>, b: seq<M.Action>)
    ensures M.Run(s, a + b) == M.Run(M.Run(s, a), b)
  {
    hide M.Exec;
    if b == [] {
      assert a + b == a;
    } else {
      var c := b[..|b| - 1];
      RunAppend(s, a, c);
      assert (a + b)[..|a + b| - 1] == a + c;
    }
  }

  lemma ForeignLeaves(s: M.State, a: M.Action, r: nat)
    requires Foreign(a, r)
    ensures r in M.Exec(s, a).loads <==> r in s.loads
    ensures r in s.loads ==> M.Exec(s, a).loads[r] == s.loads[r]
  {
    hide M.ParseAll;
    hide M.Printed;
  }

  class GroupMembers {
    var table: set<int64>
    var epoch: nat
    var cache: set<string>
    var loads: map<nat, M.Load> // where the calls stand, this one among them
    var tick: nat

    function Now(): M.State
      reads this
    {
      M.State(table, epoch, cache, loads)
    }

    constructor (table: set<int64>)
      ensures Now() == M.Start(table) && tick == 0
    {
      this.table, epoch, cache, loads, tick := table, 0, {}, map[], 0;
    }

    method Set(s: M.State)
      modifies this
      ensures Now() == s && tick == old(tick)
    {
      table, epoch, cache, loads := s.table, s.epoch, s.cache, s.loads;
    }

    method Meanwhile(c: Call)
      requires OnlyOthers(c)
      modifies this
      ensures Now() == M.Run(old(Now()), c.env.meanwhile(old(tick))) && tick == old(tick) + 1
      ensures c.r in loads <==> c.r in old(loads)
      ensures c.r in loads ==> loads[c.r] == old(loads)[c.r]
    {
      var acts := c.env.meanwhile(tick);
      assert acts[..0] == [] && M.Run(Now(), []) == Now();
      hide M.Run;
      hide M.Exec;
      for i := 0 to |acts|
        invariant Now() == M.Run(old(Now()), acts[..i]) && tick == old(tick)
        invariant c.r in loads <==> c.r in old(loads)
        invariant c.r in loads ==> loads[c.r] == old(loads)[c.r]
      {
        assert acts[i] in acts && acts[..i + 1] == acts[..i] + [acts[i]];
        RunSnoc(old(Now()), acts[..i], acts[i]);
        ForeignLeaves(Now(), acts[i], c.r);
        Set(M.Exec(Now(), acts[i]));
      }
      assert acts[..|acts|] == acts;
      tick := tick + 1;
    }

    /** Members: the cache if it answers with something, else the table, added to the cache if it answered
        at all. The state left is the one after the call's own commands, with the outcomes of its
        environment, each preceded by what went on meanwhile. */
    method Members(c: Call) returns (uids: Option<seq<int64>>, ghost n: nat)
      requires OnlyOthers(c) && FairLists(c) && c.r !in loads
      modifies this
      ensures Now() == After(c, old(Now()), old(tick), n) && tick == old(tick) + n
      ensures c.r in loads && loads[c.r] == if uids.Some? then M.Returned(uids.value) else M.Failed
    {
      ghost var start, t := Now(), tick;
      assert After(c, start, t, 0) == start;
      hide After;
      hide M.Run;
      hide M.ParseAll;
      hide OnlyOthers;
      Meanwhile(c);
      ghost var w := Now();
      n := 1;
      AfterNext(c, start, t, 0);
      var vals := c.env.list(cache);
      if c.env.lookupOk && |vals| > 0 {
        var hit := ParseUids(vals);
        loads := loads[c.r := M.Returned(hit)];
        LookupAct(c, w);
        return Some(hit), n;
      }
      loads := loads[c.r := M.Querying(c.env.lookupOk)];
      LookupAct(c, w);
      uids, n := LoadAndBackfill(c, c.env.lookupOk, start, t, n);
    }

    method LoadAndBackfill(c: Call, backfill: bool, ghost start: M.State, ghost t: nat, ghost n: nat)
      returns (uids: Option<seq<int64>>, ghost n': nat)
      requires OnlyOthers(c) && FairLists(c) && Now() == After(c, start, t, n) && tick == t + n
      requires c.r in loads && loads[c.r] == M.Querying(backfill)
      modifies this
      ensures Now() == After(c, start, t, n') && tick == t + n'
      ensures c.r in loads && loads[c.r] == if uids.Some? then M.Returned(uids.value) else M.Failed
    {
      hide After;
      hide M.Run;
      hide M.Printed;
      hide OnlyOthers;
      Meanwhile(c);
      ghost var w := Now();
      n' := n + 1;
      AfterNext(c, start, t, n);
      QueryAct(c, w);
      if !c.env.queryOk {
        loads := loads[c.r := M.Failed];
        return None, n';
      }
      var rows := c.env.rows(table);
      uids := Some(rows);
      if !backfill || |rows| == 0 {
        loads := loads[c.r := M.Returned(rows)];
        return;
      }
      loads := loads[c.r := M.Loaded(rows, epoch)];
      Meanwhile(c);
      w := Now();
      AfterNext(c, start, t, n');
      n' := n' + 1;
      BackfillAct(c, w);
      var printed := PrintUids(rows);
      if c.env.add.Applied() {
        cache := cache + M.SetOf(printed);
      }
      loads := loads[c.r := M.Returned(rows)];
    }

    method Invalidate(o: Outcome)
      modifies this
      ensures Now() == M.Exec(old(Now()), M.Event(o)) && table == old(table)
    {
      if o.Applied() {
        cache := {};
      }
    }
  }

  lemma AfterNext(c: Call, start: M.State, t: nat, n: nat)
    ensures After(c, start, t, n + 1) == Act(c, M.Run(After(c, start, t, n), c.env.meanwhile(t + n)))
  {
    hide Act;
    hide M.Run;
  }

  lemma LookupAct(c: Call, w: M.State)
    requires FairLists(c) && c.r !in w.loads
    ensures var vals := c.env.list(w.cache);
            Act(c, w) == w.(loads := w.loads[c.r :=
              if c.env.lookupOk && |vals| > 0 then M.Returned(M.ParseAll(vals)) else M.Querying(c.env.lookupOk)])
  {
    hide M.ParseAll;
  }

  lemma QueryAct(c: Call, w: M.State)
    requires FairLists(c) && c.r in w.loads && w.loads[c.r].Querying?
    ensures var rows := c.env.rows(w.table);
            Act(c, w) == w.(loads := w.loads[c.r :=
              if !c.env.queryOk then M.Failed
              else if w.loads[c.r].backfill && |rows| > 0 then M.Loaded(rows, w.epoch) else M.Returned(rows)])
  {
  }

  lemma BackfillAct(c: Call, w: M.State)
    requires c.r in w.loads && w.loads[c.r].Loaded?
    ensures var rows := w.loads[c.r].uids;
            Act(c, w) == w.(loads := w.loads[c.r := M.Returned(rows)],
              cache := if c.env.add.Applied() then w.cache + M.Printed(M.SetOf(rows)) else w.cache)
  {
    hide M.Printed;
  }

  // ---------------------------------------------------------------- an undisturbed call

  ghost predicate Alone(c: Call) { forall t: nat :: c.env.meanwhile(t) == [] }

  lemma AfterAlone(c: Call, s: M.State, t: nat, n: nat)
    requires Alone(c)
    ensures After(c, s, t, n + 1) == Act(c, After(c, s, t, n))
  {
    hide Act;
    assert c.env.meanwhile(t + n) == [];
  }

  lemma {:induction false} Stays(c: Call, s: M.State, t: nat, a: nat, b: nat)
    requires Alone(c) && a <= b && Next(c, After(c, s, t, a)).None?
    ensures After(c, s, t, b) == After(c, s, t, a)
  {
    hide Next;
    if a < b {
      Stays(c, s, t, a, b - 1);
      AfterAlone(c, s, t, b - 1);
    }
  }

  /** The end of a call that nobody disturbs. */
  lemma Finishes(c: Call, s: M.State, t: nat) returns (n: nat)
    requires Alone(c) && FairLists(c) && c.r !in s.loads
    ensures var e, s' := c.env, After(c, s, t, n);
            && s'.table == s.table && c.r in s'.loads && Next(c, s').None?
            && if e.lookupOk && e.list(s.cache) != [] then
                 s'.loads[c.r] == M.Returned(M.ParseAll(e.list(s.cache))) && s'.cache == s.cache
               else if !e.queryOk then s'.loads[c.r] == M.Failed && s'.cache == s.cache
               else
                 && s'.loads[c.r] == M.Returned(e.rows(s.table))
                 && s'.cache == s.cache + if e.lookupOk && e.rows(s.table) != [] && e.add.Applied() then M.Printed(s.table) else {}
  {
    hide M.Printed;
    hide M.ParseAll;
    var e := c.env;
    assert After(c, s, t, 0) == s;
    AfterAlone(c, s, t, 0);
    LookupAct(c, s);
    n := 1;
    hide After;
    hide Act;
    if !(e.lookupOk && e.list(s.cache) != []) {
      var s1 := After(c, s, t, 1);
      AfterAlone(c, s, t, 1);
      QueryAct(c, s1);
      n := 2;
      if e.queryOk && e.lookupOk && e.rows(s.table) != [] {
        AfterAlone(c, s, t, 2);
        BackfillAct(c, After(c, s, t, 2));
        n := 3;
      }
    }
  }

  /** What an undisturbed call returns and leaves: a cache that answers with something is trusted and left
      alone; an error of the cache is not repaired; only an empty answer is filled from the table. */
  method MembersAlone(group: GroupMembers, c: Call) returns (uids: Option<seq<int64>>)
    requires Alone(c) && FairLists(c) && c.r !in group.loads
    modifies group
    ensures group.table == old(group.table)
    ensures if c.env.lookupOk && old(group.cache) != {} then
              && uids.Some? && (exists at :: M.ParsedAt(c.env.list(old(group.cache)), at, uids.value))
              && group.cache == old(group.cache)
            else if !c.env.queryOk then uids == None && group.cache == old(group.cache)
            else
              && uids == Some(c.env.rows(old(group.table)))
              && group.cache == if c.env.lookupOk && c.env.add.Applied()
                                then (set u | u in old(group.table) :: FormatInt(u)) else old(group.cache)
  {
    ghost var s, t := group.Now(), group.tick;
    assert M.SetOf(c.env.list(s.cache)) == s.cache && M.SetOf(c.env.rows(s.table)) == s.table;
    assert c.env.list(s.cache) == [] <==> s.cache == {} by {
      if c.env.list(s.cache) != [] { assert c.env.list(s.cache)[0] in s.cache; }
    }
    ghost var at := M.ParsesInOrder(c.env.list(s.cache));
    ghost var n0 := Finishes(c, s, t);
    hide After;
    hide M.ParsedAt;
    hide M.ParseAll;
    hide M.Exec;
    hide FormatInt;
    ghost var n;
    uids, n := group.Members(c);
    if n <= n0 {
      Stays(c, s, t, n, n0);
    } else {
      Stays(c, s, t, n0, n);
    }
    if c.env.rows(s.table) == [] {
      assert s.table == {};
    }
  }

  datatype GroupEvent = GroupEvent(kind: string, gid: int64, uid: int64)

  class GroupEventWorker {
    var db: Db

    constructor (db: Db)
      ensures this.db == db
    {
      this.db := db;
    }

    /** Handle: None is a payload that does not parse. Both commands may fail and are then only logged,
        so an event counts as consumed even if its DEL did nothing. */
    method Handle(group: GroupMembers, ev: Option<GroupEvent>, del: Outcome, insert: Outcome, now: int)
      requires ValidDb(db)
      modifies this, group
      ensures ValidDb(db) && group.table == old(group.table)
      ensures var valid := ev.Some? && ev.value.gid > 0 && ev.value.uid > 0;
              && group.Now() == (if valid then M.Exec(old(group.Now()), M.Event(del)) else old(group.Now()))
              && db == (if valid && ev.value.kind == "join" && insert.Applied()
                        then Apply(old(db), JoinRow(ev.value.uid, GroupId(ev.value.gid), ev.value.gid, now)) else old(db))
    {
      if ev.None? || ev.value.gid <= 0 || ev.value.uid <= 0 {
        return;
      }
      group.Invalidate(del);
      if ev.value.kind == "join" && insert.Applied() {
        db := Apply(db, JoinRow(ev.value.uid, GroupId(ev.value.gid), ev.value.gid, now));
      }
    }
  }
}
