/** Message ids (pkg/snowflake/snowflake.go): 41 bits of milliseconds, 10 of node, 12 of sequence. */
module Snowflake {
  import opened Common

  const EPOCH_MS := 1704067200000
  const MAX_NODE := 1023
  const SEQS := 4096         // maxSequence + 1
  const NODE_UNIT := 4096    // 1 << nodeShift
  const MS_UNIT := 0x40_0000 // 1 << timestampShift
  const MS_RANGE := 0x200_0000_0000 // 1 << timestampBits

  datatype Gen = Gen(node: nat, lastMs: int, seqNo: nat)

  /** What one call read: the clock at its start, and the reading that ended the wait for the next
      millisecond (used only when the sequence wraps). */
  datatype Call = Call(now: int, later: int)

  ghost predicate Valid(g: Gen) { g.node <= MAX_NODE && g.seqNo < SEQS }

  /** The bits above the low 64 are lost by the shift. */
  function Wrap64(x: int): int64 { (x - INT64_MIN) % (UINT64_MAX + 1) + INT64_MIN }

  /** The three fields do not overlap, so or-ing them is adding them. */
  function Id(ms: int, node: nat, seqNo: nat): int { Wrap64((ms - EPOCH_MS) * MS_UNIT) + node * NODE_UNIT + seqNo }

  function Code(g: Gen): int { Id(g.lastMs, g.node, g.seqNo) }

  function Step(g: Gen, c: Call): Gen {
    if c.now < g.lastMs then g
    else if c.now == g.lastMs then
      var next := (g.seqNo + 1) % SEQS;
      Gen(g.node, if next == 0 then c.later else c.now, next)
    else Gen(g.node, c.now, 0)
  }

  /** The wait ends only with a reading past the last millisecond used. */
  predicate Waited(g: Gen, c: Call) { c.now == g.lastMs && (g.seqNo + 1) % SEQS == 0 ==> c.later > g.lastMs }

  predicate InRange(ms: int) { EPOCH_MS <= ms < EPOCH_MS + MS_RANGE }

  // ---------------------------------------------------------------- the fields

  lemma NoWrap(ms: int)
    requires InRange(ms)
    ensures Wrap64((ms - EPOCH_MS) * MS_UNIT) == (ms - EPOCH_MS) * MS_UNIT
  {
  }

  /** All three fields can be read back, and the id is a non-negative int64. */
  lemma FieldsDecode(ms: int, node: nat, seqNo: nat)
    requires InRange(ms) && node <= MAX_NODE && seqNo < SEQS
    ensures var id := Id(ms, node, seqNo);
            && 0 <= id <= INT64_MAX
            && id / MS_UNIT + EPOCH_MS == ms && id / NODE_UNIT % (MAX_NODE + 1) == node && id % SEQS == seqNo
  {
    NoWrap(ms);
    var d, id := ms - EPOCH_MS, Id(ms, node, seqNo);
    assert id == NODE_UNIT * (d * (MAX_NODE + 1) + node) + seqNo;
    assert id / NODE_UNIT == (MAX_NODE + 1) * d + node;
  }

  lemma IdInjective(a: Gen, b: Gen)
    requires Valid(a) && Valid(b) && InRange(a.lastMs) && InRange(b.lastMs) && Code(a) == Code(b)
    ensures a == b
  {
    FieldsDecode(a.lastMs, a.node, a.seqNo);
    FieldsDecode(b.lastMs, b.node, b.seqNo);
  }

  // ---------------------------------------------------------------- one call

  /** An id repeats exactly when the clock stands behind the last millisecond used; otherwise it grows. */
  lemma StepOrder(g: Gen, c: Call)
    requires Valid(g) && Waited(g, c) && InRange(g.lastMs) && InRange(Step(g, c).lastMs)
    ensures Valid(Step(g, c)) && Step(g, c).node == g.node
    ensures c.now < g.lastMs ==> Code(Step(g, c)) == Code(g)
    ensures c.now >= g.lastMs ==> Code(Step(g, c)) > Code(g)
    ensures c.now == g.lastMs && g.seqNo < 4095 ==> Code(Step(g, c)) == Code(g) + 1
    ensures c.now == g.lastMs && g.seqNo == 4095 ==> Code(Step(g, c)) == Id(c.later, g.node, 0)
    ensures c.now > g.lastMs ==> Code(Step(g, c)) == Id(c.now, g.node, 0)
  {
    NoWrap(g.lastMs);
    NoWrap(Step(g, c).lastMs);
    if c.now >= g.lastMs && Step(g, c).lastMs == g.lastMs {
      assert (g.seqNo + 1) % SEQS == g.seqNo + 1;
    }
  }

  class Node {
    const node: nat
    const clock: nat -> int // successive readings
    var lastMs: int
    var sequence: nat
    var tick: nat

    ghost predicate Ok()
      reads this
    {
      Valid(Now())
    }

    ghost function Now(): Gen
      reads this
    {
      Gen(node, lastMs, sequence)
    }

    constructor (node: nat, clock: nat -> int)
      requires node <= MAX_NODE
      ensures this.node == node && this.clock == clock && Ok() && lastMs == 0 && sequence == 0 && tick == 0
    {
      this.node, this.clock := node, clock;
      lastMs, sequence, tick := 0, 0, 0;
    }

    /** Next, with the two readings it used; the wait ends because the clock goes on. */
    method Next() returns (id: int, ghost c: Call)
      requires Ok() && Runs(clock)
      modifies this
      ensures Ok() && Waited(old(Now()), c) && Now() == Step(old(Now()), c) && id == Code(Now())
      ensures c.now == clock(old(tick)) && old(tick) < tick && c.later == clock(tick - 1)
    {
      ghost var g := Now();
      var now := clock(tick);
      ghost var first := now;
      tick := tick + 1;
      if now < lastMs {
        now := lastMs;
      } else if now == lastMs {
        sequence := (sequence + 1) % SEQS;
        if sequence == 0 {
          ghost var stop := Past(clock, tick, lastMs);
          while now <= lastMs
            invariant lastMs == g.lastMs && sequence == 0 && tick <= stop + 1 && now == clock(tick - 1)
            invariant old(tick) < tick && (now <= lastMs ==> tick <= stop)
            decreases stop + 1 - tick
          {
            now := clock(tick);
            tick := tick + 1;
          }
        }
      } else {
        sequence := 0;
      }
      lastMs := now;
      c := Call(first, clock(tick - 1));
      id := Wrap64((now - EPOCH_MS) * MS_UNIT) + node * NODE_UNIT + sequence;
    }
  }

  ghost predicate Exceeds(clock: nat -> int, t: nat, x: int, k: nat) { t <= k && clock(k) > x }

  /** Every value is passed some time after every reading. */
  ghost predicate Passes(clock: nat -> int, t: nat, x: int) { exists k: nat :: Exceeds(clock, t, x, k) }

  ghost predicate Runs(clock: nat -> int) { forall t: nat, x: int :: Passes(clock, t, x) }

  ghost function Past(clock: nat -> int, t: nat, x: int): (k: nat)
    requires Runs(clock)
    ensures Exceeds(clock, t, x, k)
  {
    assert Passes(clock, t, x);
    var k: nat :| Exceeds(clock, t, x, k);
    k
  }

  /** NewNode. */
  method NewNode(node: int, clock: nat -> int) returns (n: Option<Node>)
    ensures n.Some? <==> 0 <= node <= MAX_NODE
    ensures n.Some? ==> fresh(n.value) && n.value.Ok() && n.value.node == node && n.value.clock == clock
  {
    if node < 0 || node > MAX_NODE {
      return None;
    }
    var x := new Node(node, clock);
    n := Some(x);
  }

  // ---------------------------------------------------------------- whole runs

  function After(g: Gen, calls: seq<Call>): Gen {
    if calls == [] then g else Step(After(g, calls[..|calls| - 1]), calls[|calls| - 1])
  }

  /** The id of the i-th call. */
  function IdAt(g: Gen, calls: seq<Call>, i: nat): int
    requires i < |calls|
  {
    Code(After(g, calls[..i + 1]))
  }

  /** Any clock after the epoch and inside the 41-bit range, stepping back as it likes. */
  ghost predicate GoodRun(g: Gen, calls: seq<Call>) {
    forall i :: 0 <= i < |calls| ==> GoodCall(g, calls, i)
  }

  ghost predicate GoodCall(g: Gen, calls: seq<Call>, i: nat)
    requires i < |calls|
  {
    Waited(After(g, calls[..i]), calls[i]) && InRange(After(g, calls[..i + 1]).lastMs)
  }

  /** Call i found the clock behind the last millisecond used. */
  ghost predicate SteppedBack(g: Gen, calls: seq<Call>, i: nat)
    requires i < |calls|
  {
    calls[i].now < After(g, calls[..i]).lastMs
  }

  lemma {:induction false} AfterValid(g: Gen, calls: seq<Call>)
    requires Valid(g)
    ensures Valid(After(g, calls)) && After(g, calls).node == g.node
  {
    if calls != [] {
      AfterValid(g, calls[..|calls| - 1]);
    }
  }

  lemma NextCall(g: Gen, calls: seq<Call>, j: nat)
    requires Valid(g) && GoodRun(g, calls) && 0 < j < |calls|
    ensures SteppedBack(g, calls, j) ==> IdAt(g, calls, j) == IdAt(g, calls, j - 1)
    ensures !SteppedBack(g, calls, j) ==> IdAt(g, calls, j) > IdAt(g, calls, j - 1)
  {
    hide Code;
    assert calls[..j + 1][..j] == calls[..j] && calls[..j - 1 + 1] == calls[..j];
    var before := After(g, calls[..j]);
    assert GoodCall(g, calls, j) && GoodCall(g, calls, j - 1);
    AfterValid(g, calls[..j]);
    StepOrder(before, calls[j]);
  }

  /** Over a whole run with any clock ids never decrease, and two ids are equal exactly when the clock
      stood behind at every call from the first to the second. */
  lemma {:induction false} RunOrder(g: Gen, calls: seq<Call>, i: nat, j: nat)
    requires Valid(g) && GoodRun(g, calls) && i < j < |calls|
    ensures IdAt(g, calls, i) <= IdAt(g, calls, j)
    ensures IdAt(g, calls, i) == IdAt(g, calls, j) <==> forall k :: i < k <= j ==> SteppedBack(g, calls, k)
    decreases j
  {
    hide IdAt;
    hide SteppedBack;
    NextCall(g, calls, j);
    if i < j - 1 {
      RunOrder(g, calls, i, j - 1);
      assert (forall k :: i < k <= j ==> SteppedBack(g, calls, k)) <==>
             (forall k :: i < k <= j - 1 ==> SteppedBack(g, calls, k)) && SteppedBack(g, calls, j);
    }
  }

  /** Successive readings of a clock that never steps back. */
  ghost predicate Monotone(calls: seq<Call>) {
    && (forall i :: 0 <= i < |calls| ==> calls[i].now <= calls[i].later)
    && (forall i :: 0 < i < |calls| ==> calls[i - 1].later <= calls[i].now)
  }

  lemma {:induction false} LastMsRead(g: Gen, calls: seq<Call>)
    requires Monotone(calls) && calls != [] && calls[0].now >= g.lastMs
    ensures After(g, calls).lastMs <= calls[|calls| - 1].later
  {
    var b := calls[..|calls| - 1];
    if b != [] {
      assert Monotone(b);
      LastMsRead(g, b);
    }
  }

  /** With such a clock ids strictly increase, across sequence wrap and waiting. */
  lemma MonotoneRun(g: Gen, calls: seq<Call>, i: nat, j: nat)
    requires Valid(g) && GoodRun(g, calls) && Monotone(calls) && i < j < |calls| && calls[0].now >= g.lastMs
    ensures IdAt(g, calls, i) < IdAt(g, calls, j)
  {
    hide IdAt;
    hide Waited;
    RunOrder(g, calls, i, j);
    var b := calls[..j];
    assert Monotone(b);
    LastMsRead(g, b);
    assert !SteppedBack(g, calls, j);
  }

  /** Ids of different nodes never coincide, whatever their clocks do. */
  lemma NodesNeverCollide(g1: Gen, c1: seq<Call>, i: nat, g2: Gen, c2: seq<Call>, j: nat)
    requires Valid(g1) && Valid(g2) && g1.node != g2.node
    requires GoodRun(g1, c1) && GoodRun(g2, c2) && i < |c1| && j < |c2|
    ensures IdAt(g1, c1, i) != IdAt(g2, c2, j)
  {
    hide Code;
    assert GoodCall(g1, c1, i) && GoodCall(g2, c2, j);
    var a, b := After(g1, c1[..i + 1]), After(g2, c2[..j + 1]);
    AfterValid(g1, c1[..i + 1]);
    AfterValid(g2, c2[..j + 1]);
    if Code(a) == Code(b) {
      IdInjective(a, b);
    }
  }

  // ---------------------------------------------------------------- restarts

  /** A process that starts knows nothing of the ids its node number gave out before. */
  function NewGen(node: nat): Gen { Gen(node, 0, 0) }

  /** Every millisecond a process uses begins with sequence 0. */
  lemma {:induction false} FirstOfMs(node: nat, calls: seq<Call>, i: nat) returns (j: nat)
    requires node <= MAX_NODE && GoodRun(NewGen(node), calls) && i < |calls|
    ensures j <= i
    ensures After(NewGen(node), calls[..j + 1]).lastMs == After(NewGen(node), calls[..i + 1]).lastMs
    ensures After(NewGen(node), calls[..j + 1]).seqNo == 0
    decreases i
  {
    var g, c := After(NewGen(node), calls[..i]), calls[i];
    assert GoodCall(NewGen(node), calls, i) && calls[..i + 1][..i] == calls[..i];
    if c.now > g.lastMs || (c.now == g.lastMs && (g.seqNo + 1) % SEQS == 0) {
      j := i;
    } else {
      assert i > 0 by {
        assert calls[..0] == [];
      }
      assert calls[..i - 1 + 1] == calls[..i];
      j := FirstOfMs(node, calls, i - 1);
    }
  }

  /** The millisecond the i-th call used. */
  function MsAt(g: Gen, calls: seq<Call>, i: nat): int
    requires i < |calls|
  {
    After(g, calls[..i + 1]).lastMs
  }

  lemma SameIdSameState(node: nat, calls: seq<Call>, i: nat, x: Gen)
    requires node <= MAX_NODE && GoodRun(NewGen(node), calls) && i < |calls| && Valid(x) && InRange(x.lastMs)
    ensures IdAt(NewGen(node), calls, i) == Code(x) <==> After(NewGen(node), calls[..i + 1]) == x
  {
    hide Code;
    assert GoodCall(NewGen(node), calls, i);
    AfterValid(NewGen(node), calls[..i + 1]);
    if IdAt(NewGen(node), calls, i) == Code(x) {
      IdInjective(After(NewGen(node), calls[..i + 1]), x);
    }
  }

  /** The first id after a restart repeats an id of an earlier process of the same node number exactly if
      its clock reads a millisecond that process had used. */
  lemma RestartRepeatsExactly(node: nat, calls: seq<Call>, c: Call)
    requires node <= MAX_NODE && GoodRun(NewGen(node), calls) && InRange(c.now)
    ensures (exists i :: 0 <= i < |calls| && IdAt(NewGen(node), calls, i) == Code(Step(NewGen(node), c))) <==>
            (exists i :: 0 <= i < |calls| && MsAt(NewGen(node), calls, i) == c.now)
  {
    var g, x := NewGen(node), Step(NewGen(node), c);
    assert x == Gen(node, c.now, 0);
    hide Code;
    hide GoodRun;
    hide IdAt;
    if exists i :: 0 <= i < |calls| && IdAt(g, calls, i) == Code(x) {
      var i :| 0 <= i < |calls| && IdAt(g, calls, i) == Code(x);
      SameIdSameState(node, calls, i, x);
      assert MsAt(g, calls, i) == c.now;
    }
    if exists i :: 0 <= i < |calls| && MsAt(g, calls, i) == c.now {
      var i :| 0 <= i < |calls| && MsAt(g, calls, i) == c.now;
      var j := FirstOfMs(node, calls, i);
      AfterValid(g, calls[..j + 1]);
      SameIdSameState(node, calls, j, x);
    }
  }

  lemma StepRises(g: Gen, c: Call)
    requires c.now <= c.later
    ensures Step(g, c).lastMs >= g.lastMs && (c.now >= g.lastMs ==> Step(g, c).lastMs >= c.now)
  {
  }

  lemma {:induction false} FirstBelow(g: Gen, calls: seq<Call>, i: nat)
    requires Monotone(calls) && i < |calls| && calls[0].now >= g.lastMs
    ensures calls[0].now <= MsAt(g, calls, i)
  {
    hide Step;
    assert calls[..i + 1][..i] == calls[..i];
    StepRises(After(g, calls[..i]), calls[i]);
    if i == 0 {
      assert After(g, calls[..0]) == g;
    } else {
      FirstBelow(g, calls, i - 1);
    }
  }

  /** With a clock that does not step back, the milliseconds used lie between its first and last reading. */
  lemma MsBetween(g: Gen, calls: seq<Call>, i: nat)
    requires Monotone(calls) && i < |calls| && calls[0].now >= g.lastMs
    ensures calls[0].now <= MsAt(g, calls, i) <= calls[|calls| - 1].later
  {
    FirstBelow(g, calls, i);
    var b := calls[..i + 1];
    assert Monotone(b);
    LastMsRead(g, b);
    LaterRises(calls, i, |calls| - 1);
  }

  lemma {:induction false} LaterRises(calls: seq<Call>, i: nat, j: nat)
    requires Monotone(calls) && i <= j < |calls|
    ensures calls[i].later <= calls[j].later
  {
    if i < j {
      LaterRises(calls, i, j - 1);
    }
  }
}
