/** Where the ids of the send protocol come from: on each logic node one generator at a time, which starts
    afresh whenever the process restarts under its node number. */
module IdSource {
  import opened Common
  import opened Snowflake
  import Send
  import EndToEnd

  /** The processes that ran on each node number, one after the other, with the calls each made. */
  datatype Cluster = Cluster(processes: nat -> seq<seq<Call>>)

  datatype Draw = Draw(node: nat, process: nat, call: nat)

  ghost predicate GoodProcess(node: nat, calls: seq<Call>) {
    GoodRun(NewGen(node), calls) && Monotone(calls) && (calls != [] ==> calls[0].now >= 0)
  }

  /** A later process reads its clock only after the last millisecond the earlier ones read. */
  ghost predicate RestartsLater(processes: seq<seq<Call>>) {
    forall p, q :: 0 <= p < q < |processes| && processes[p] != [] && processes[q] != [] ==>
      processes[p][|processes[p]| - 1].later < processes[q][0].now
  }

  ghost predicate GoodNode(c: Cluster, n: nat) {
    && n <= MAX_NODE && RestartsLater(c.processes(n))
    && forall p :: 0 <= p < |c.processes(n)| ==> GoodProcess(n, c.processes(n)[p])
  }

  /** Action a took its id from this call. */
  ghost predicate DrawnFrom(c: Cluster, a: Send.Action, d: Draw) {
    && GoodNode(c, d.node) && d.process < |c.processes(d.node)| && d.call < |c.processes(d.node)[d.process]|
    && a.Incr? && a.id == IdAt(NewGen(d.node), c.processes(d.node)[d.process], d.call)
  }

  /** Processes of one node number never give out the same id. */
  lemma ProcessesDiffer(n: nat, processes: seq<seq<Call>>, p: nat, i: nat, q: nat, j: nat)
    requires n <= MAX_NODE && RestartsLater(processes) && p < q < |processes|
    requires GoodProcess(n, processes[p]) && GoodProcess(n, processes[q]) && i < |processes[p]| && j < |processes[q]|
    ensures IdAt(NewGen(n), processes[p], i) != IdAt(NewGen(n), processes[q], j)
  {
    hide Code;
    hide Monotone;
    hide Waited;
    var g, a, b := NewGen(n), processes[p], processes[q];
    MsBetween(g, a, i);
    MsBetween(g, b, j);
    assert GoodCall(g, a, i) && GoodCall(g, b, j);
    AfterValid(g, a[..i + 1]);
    AfterValid(g, b[..j + 1]);
    if Code(After(g, a[..i + 1])) == Code(After(g, b[..j + 1])) {
      IdInjective(After(g, a[..i + 1]), After(g, b[..j + 1]));
    }
  }

  lemma DrawsDiffer(c: Cluster, a: Send.Action, d: Draw, b: Send.Action, e: Draw)
    requires DrawnFrom(c, a, d) && DrawnFrom(c, b, e) && d != e
    ensures a.id != b.id
  {
    hide IdAt;
    hide GoodRun;
    hide Monotone;
    hide RestartsLater;
    var x, y := c.processes(d.node), c.processes(e.node);
    assert GoodProcess(d.node, x[d.process]) && GoodProcess(e.node, y[e.process]);
    if d.node != e.node {
      NodesNeverCollide(NewGen(d.node), x[d.process], d.call, NewGen(e.node), y[e.process], e.call);
    } else if d.process < e.process {
      ProcessesDiffer(d.node, x, d.process, d.call, e.process, e.call);
    } else if e.process < d.process {
      ProcessesDiffer(d.node, x, e.process, e.call, d.process, d.call);
    } else if d.call < e.call {
      MonotoneRun(NewGen(d.node), x[d.process], d.call, e.call);
    } else {
      MonotoneRun(NewGen(d.node), x[d.process], e.call, d.call);
    }
  }

  lemma DrawNonNegative(c: Cluster, a: Send.Action, d: Draw)
    requires DrawnFrom(c, a, d)
    ensures a.id >= 0
  {
    hide Monotone;
    hide Waited;
    hide Id;
    hide RestartsLater;
    var g, calls := NewGen(d.node), c.processes(d.node)[d.process];
    assert GoodProcess(d.node, calls) && GoodCall(g, calls, d.call);
    AfterValid(g, calls[..d.call + 1]);
    var x := After(g, calls[..d.call + 1]);
    FieldsDecode(x.lastMs, x.node, x.seqNo);
  }

  /** Clocks that do not step back, distinct node numbers, and restarts that read a later millisecond than
      the process before are enough for the ids of every run: each action drew from its own call, so no two
      ids are equal and none is negative. */
  lemma ClusterIdsUnique(c: Cluster, acts: seq<Send.Action>, draws: seq<Draw>)
    requires |draws| == |acts|
    requires forall j :: 0 <= j < |acts| && acts[j].Incr? ==> DrawnFrom(c, acts[j], draws[j])
    requires forall i, j :: 0 <= i < j < |acts| ==> draws[i] != draws[j]
    ensures EndToEnd.UniqueIds(acts)
  {
    hide DrawnFrom;
    forall i | 0 <= i < |acts| && acts[i].Incr?
      ensures acts[i].id >= 0
    {
      DrawNonNegative(c, acts[i], draws[i]);
    }
    forall i, j | 0 <= i < j < |acts| && acts[i].Incr? && acts[j].Incr?
      ensures acts[i].id != acts[j].id
    {
      DrawsDiffer(c, acts[i], draws[i], acts[j], draws[j]);
    }
  }
}
