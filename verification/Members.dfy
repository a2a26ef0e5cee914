/** The cached member list of one group (internal/service/members.go): readers that miss load the table
    and add what they saw to a Redis set, member changes commit first and delete the set later. */
module Members {
  import opened Common
  import opened Decimal

  /** A call of Members: about to query the table, holding a snapshot to backfill, or finished. epoch
      counts the membership changes before the snapshot was taken. */
  datatype Load =
    | Querying(backfill: bool)
    | Loaded(uids: seq<int64>, epoch: nat)
    | Returned(uids: seq<int64>)
    | Failed

  datatype State = State(table: set<int64>, epoch: nat, cache: set<string>, loads: map<nat, Load>)

  datatype Action =
    | Change(table: set<int64>)               // a membership change commits
    | Event(o: Outcome)                       // its event is handled: DEL
    | Lookup(r: nat, vals: Option<seq<string>>) // SMEMBERS in any order, None for an error
    | Query(r: nat, uids: Option<seq<int64>>) // SELECT in any order, None for an error
    | Backfill(r: nat, o: Outcome)            // SADD
    | Evict                                   // the key expires

  function Printed(uids: set<int64>): set<string> { set u | u in uids :: FormatInt(u) }

  function SetOf<T>(s: seq<T>): set<T> { set x | x in s }

  /** parseUIDs: values that do not parse are skipped. */
  function ParseAll(vals: seq<string>): seq<int64> {
    if vals == [] then []
    else
      var before := ParseAll(vals[..|vals| - 1]);
      match ParseInt(vals[|vals| - 1])
      case Some(n) => before + [n]
      case None => before
  }

  /** uids are the values at these positions, which are those that parse: none is lost, doubled or moved. */
  ghost predicate ParsedAt(vals: seq<string>, at: seq<nat>, uids: seq<int64>) {
    && |at| == |uids|
    && (forall i, j :: 0 <= i < j < |at| ==> at[i] < at[j])
    && (forall k: nat :: k in at <==> k < |vals| && ParseInt(vals[k]).Some?)
    && forall i :: 0 <= i < |at| && at[i] < |vals| ==> ParseInt(vals[at[i]]) == Some(uids[i])
  }

  lemma {:induction false} ParsesInOrder(vals: seq<string>) returns (at: seq<nat>)
    ensures ParsedAt(vals, at, ParseAll(vals))
  {
    hide ParseInt;
    if vals == [] {
      at := [];
    } else {
      var b, n := vals[..|vals| - 1], |vals| - 1;
      var at0 := ParsesInOrder(b);
      at := at0 + if ParseInt(vals[n]).Some? then [n] else [];
      forall i | 0 <= i < |at0|
        ensures at0[i] < n && b[at0[i]] == vals[at0[i]]
      {
        assert at0[i] in at0;
      }
      forall k: nat | true
        ensures k in at <==> k < |vals| && ParseInt(vals[k]).Some?
      {
        assert k in at <==> k in at0 || (ParseInt(vals[n]).Some? && k == n);
      }
    }
  }

  function Put(s: State, r: nat, l: Load): State { s.(loads := s.loads[r := l]) }

  function Exec(s: State, a: Action): State {
    match a
    case Change(table) => s.(table := table, epoch := s.epoch + 1)
    case Event(o) => if o.Applied() then s.(cache := {}) else s
    case Lookup(r, vals) =>
      if r in s.loads || (vals.Some? && SetOf(vals.value) != s.cache) then s
      else if vals.None? then Put(s, r, Querying(false))
      else if vals.value == [] then Put(s, r, Querying(true))
      else Put(s, r, Returned(ParseAll(vals.value)))
    case Query(r, uids) =>
      if r !in s.loads || !s.loads[r].Querying? || (uids.Some? && SetOf(uids.value) != s.table) then s
      else if uids.None? then Put(s, r, Failed)
      else if s.loads[r].backfill && uids.value != [] then Put(s, r, Loaded(uids.value, s.epoch))
      else Put(s, r, Returned(uids.value))
    case Backfill(r, o) =>
      if r !in s.loads || !s.loads[r].Loaded? then s
      else
        var uids := s.loads[r].uids;
        Put(if o.Applied() then s.(cache := s.cache + Printed(SetOf(uids))) else s, r, Returned(uids))
    case Evict => s.(cache := {})
  }

  function Run(s: State, acts: seq<Action>): State {
    if acts == [] then s else Exec(Run(s, acts[..|acts| - 1]), acts[|acts| - 1])
  }

  function Start(table: set<int64>): State { State(table, 0, {}, map[]) }

  // ---------------------------------------------------------------- coherence

  ghost predicate Coherent(s: State) { s.cache == {} || s.cache == Printed(s.table) }

  /** No load holds a snapshot that differs from the table. */
  ghost predicate NoneStale(s: State) {
    forall r :: r in s.loads && s.loads[r].Loaded? ==> SetOf(s.loads[r].uids) == s.table
  }

  ghost predicate Unchanged(acts: seq<Action>) { forall a :: a in acts ==> !a.Change? }

  lemma CalmStep(s: State, a: Action)
    requires Coherent(s) && NoneStale(s) && !a.Change?
    ensures Coherent(Exec(s, a)) && NoneStale(Exec(s, a))
  {
    hide Printed;
    hide ParseAll;
  }

  lemma {:induction false} CalmRun(s: State, acts: seq<Action>)
    requires Coherent(s) && NoneStale(s) && Unchanged(acts)
    ensures Coherent(Run(s, acts)) && NoneStale(Run(s, acts))
  {
    hide Coherent;
    hide NoneStale;
    hide Exec;
    if acts != [] {
      CalmRun(s, acts[..|acts| - 1]);
      CalmStep(Run(s, acts[..|acts| - 1]), acts[|acts| - 1]);
    }
  }

  lemma PrintedInjective(a: set<int64>, b: set<int64>)
    requires Printed(a) == Printed(b)
    ensures a == b
  {
    forall u: int64
      ensures u in a <==> u in b
    {
      assert u in a ==> FormatInt(u) in Printed(a);
      assert u in b ==> FormatInt(u) in Printed(b);
      forall v: int64 | FormatInt(v) == FormatInt(u)
        ensures u == v
      {
        FormatIntInjective(u, v);
      }
    }
  }

  lemma RunTwo(s: State, a: Action, b: Action)
    ensures Run(s, [a, b]) == Exec(Exec(s, a), b)
  {
    hide Exec;
    assert [a][..0] == [] && Run(s, [a]) == Exec(s, a);
    assert [a, b][..1] == [a];
  }

  /** A backfill only adds: what others cached meanwhile stays, beside the printed uids of the snapshot. */
  lemma BackfillAdds(s: State, r: nat, o: Outcome, v: string)
    requires r in s.loads && s.loads[r].Loaded?
    ensures v in Exec(s, Backfill(r, o)).cache <==>
            v in s.cache || (o.Applied() && exists i :: 0 <= i < |s.loads[r].uids| && FormatInt(s.loads[r].uids[i]) == v)
  {
    hide FormatInt;
    var uids := s.loads[r].uids;
    if v in Printed(SetOf(uids)) {
      var u :| u in SetOf(uids) && FormatInt(u) == v;
      var i :| 0 <= i < |uids| && uids[i] == u;
    }
    forall i | 0 <= i < |uids|
      ensures FormatInt(uids[i]) in Printed(SetOf(uids))
    {
      assert uids[i] in SetOf(uids);
    }
  }

  /** A stale non-empty snapshot in flight can always poison the cache. */
  lemma StalePoisons(s: State, r: nat) returns (acts: seq<Action>)
    requires r in s.loads && s.loads[r].Loaded? && s.loads[r].uids != [] && SetOf(s.loads[r].uids) != s.table
    ensures Unchanged(acts) && !Coherent(Run(s, acts))
  {
    hide Printed;
    acts := [Evict, Backfill(r, Success)];
    RunTwo(s, Evict, Backfill(r, Success));
    var snap := SetOf(s.loads[r].uids);
    var c := Run(s, acts).cache;
    assert c == {} + Printed(snap);
    assert s.loads[r].uids[0] in snap;
    PrintedSome(snap, s.loads[r].uids[0]);
    if Printed(snap) == Printed(s.table) {
      PrintedInjective(snap, s.table);
    }
  }

  lemma PrintedSome(a: set<int64>, u: int64)
    requires u in a
    ensures Printed(a) != {}
  {
    assert FormatInt(u) in Printed(a);
  }

  /** Snapshots waiting to be backfilled are never empty, and one taken since the last change is fresh. */
  ghost predicate LoadsOk(s: State) {
    forall r :: r in s.loads && s.loads[r].Loaded? ==>
      && s.loads[r].uids != [] && s.loads[r].epoch <= s.epoch
      && (s.loads[r].epoch == s.epoch ==> SetOf(s.loads[r].uids) == s.table)
  }

  lemma LoadsStep(s: State, a: Action)
    requires LoadsOk(s)
    ensures LoadsOk(Exec(s, a))
  {
    hide Printed;
    hide ParseAll;
    hide SetOf;
  }

  lemma {:induction false} LoadsRun(table: set<int64>, acts: seq<Action>)
    ensures LoadsOk(Run(Start(table), acts))
  {
    hide Exec;
    if acts != [] {
      LoadsRun(table, acts[..|acts| - 1]);
      LoadsStep(Run(Start(table), acts[..|acts| - 1]), acts[|acts| - 1]);
    }
  }

  // ---------------------------------------------------------------- main results

  /** The cache stays coherent in every continuation without further changes if and only if it is coherent
      now and no load in flight holds an outdated snapshot. */
  lemma CoherentExactly(table: set<int64>, before: seq<Action>)
    ensures var s := Run(Start(table), before);
            (forall acts :: Unchanged(acts) ==> Coherent(Run(s, acts))) <==> Coherent(s) && NoneStale(s)
  {
    var s := Run(Start(table), before);
    LoadsRun(table, before);
    hide Run;
    if Coherent(s) && NoneStale(s) {
      forall acts | Unchanged(acts)
        ensures Coherent(Run(s, acts))
      {
        CalmRun(s, acts);
      }
    }
    if forall acts :: Unchanged(acts) ==> Coherent(Run(s, acts)) {
      assert Coherent(s) by {
        assert Unchanged([]);
        RunNone(s);
      }
      forall r | r in s.loads && s.loads[r].Loaded?
        ensures SetOf(s.loads[r].uids) == s.table
      {
        if SetOf(s.loads[r].uids) != s.table {
          var acts := StalePoisons(s, r);
          assert false;
        }
      }
    }
  }

  lemma RunNone(s: State)
    ensures Run(s, []) == s
  {
  }

  /** Once the DEL of an event took effect at a moment when every load that had read the table before the
      last change was finished, the cache is empty or equal to the table until the next change, in spite
      of concurrent loads that add to it. */
  lemma CoherentAfterEvent(table: set<int64>, before: seq<Action>, o: Outcome, after: seq<Action>)
    requires o.Applied() && Unchanged(after)
    requires var s := Run(Start(table), before);
             forall r :: r in s.loads && s.loads[r].Loaded? ==> s.loads[r].epoch == s.epoch
    ensures Coherent(Run(Exec(Run(Start(table), before), Event(o)), after))
  {
    LoadsRun(table, before);
    hide Run;
    var s := Run(Start(table), before);
    CalmRun(Exec(s, Event(o)), after);
  }

  lemma {:induction false} ParsePrinted(vals: seq<string>, u: int64)
    requires forall v :: v in vals ==> exists w: int64 :: v == FormatInt(w)
    ensures u in ParseAll(vals) <==> FormatInt(u) in vals
  {
    hide ParseInt;
    hide FormatInt;
    if vals != [] {
      var b, last := vals[..|vals| - 1], vals[|vals| - 1];
      assert last in vals && forall v :: v in b ==> v in vals;
      ParsePrinted(b, u);
      var w: int64 :| FormatInt(w) == last;
      ParseFormat(w);
      if FormatInt(u) == last { FormatIntInjective(u, w); }
      assert vals == b + [last];
    }
  }

  /** While the cache is coherent and nothing stale is in flight, every call that finishes returns the
      members in the table. */
  lemma AnswersAreTheTable(s: State, a: Action, r: nat)
    requires Coherent(s) && NoneStale(s) && !a.Change?
    requires r in Exec(s, a).loads && Exec(s, a).loads[r].Returned? && !(r in s.loads && s.loads[r].Returned?)
    ensures forall u :: u in Exec(s, a).loads[r].uids <==> u in s.table
  {
    hide ParseAll;
    if a.Lookup? {
      var vals := a.vals.value;
      assert vals[0] in SetOf(vals);
      assert forall v :: v in vals <==> v in Printed(s.table);
      forall u: int64
        ensures u in ParseAll(vals) <==> u in s.table
      {
        ParsePrinted(vals, u);
        if FormatInt(u) in Printed(s.table) {
          var v: int64 :| v in s.table && FormatInt(v) == FormatInt(u);
          FormatIntInjective(u, v);
        }
      }
    } else {
      assert r == a.r;
      var uids := Exec(s, a).loads[r].uids;
      assert forall u :: u in uids <==> u in SetOf(uids);
    }
  }
}
