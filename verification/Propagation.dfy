/** Config propagation between HA nodes: a shared version, a marker file per node, and the
    apply and reconcile tasks that interleave on them. An apply's file change and version
    bump happen under one lock and transaction and are one step here; so is each file read,
    marker write, reload and registry write. */
module Propagation {
  type NodeId = string

  /** The marker of a node that never reconciled. */
  const UNKNOWN := -1

  /** `marker` is the node's marker file, `loaded` the version its nginx runs, `reported` its
      row in the registry. */
  datatype Node = Node(marker: int, loaded: int, reported: int)

  /** Where a task on a node is. `Deciding` holds the shared version it read, `Reloading` also
      the marker it read; `Marking` is about to write the marker, `Recording` the registry. */
  datatype Place =
    | Deciding(version: int)
    | Reloading(version: int, local: int)
    | Marking(version: int, vouched: bool)
    | Recording(version: int)

  datatype Task = Task(node: NodeId, place: Place)

  datatype State = State(shared: int, nodes: map<NodeId, Node>, tasks: seq<Task>)

  datatype Step =
    | Join(node: NodeId)
    | ApplyChanged(node: NodeId)
    | ApplyUnchanged(node: NodeId)
    | ApplyRolledBack(node: NodeId, reloaded: bool)
    | StartReconcile(node: NodeId)
    | Advance(task: nat, ok: bool)
    | NginxRestart(node: NodeId)
    | MarkerLost(node: NodeId)

  predicate Enabled(s: State, step: Step) {
    match step
    case Join(n) => n !in s.nodes
    case Advance(i, _) => i < |s.tasks| && s.tasks[i].node in s.nodes
    case ApplyChanged(n) => n in s.nodes
    case ApplyUnchanged(n) => n in s.nodes
    case ApplyRolledBack(n, _) => n in s.nodes
    case StartReconcile(n) => n in s.nodes
    case NginxRestart(n) => n in s.nodes
    case MarkerLost(n) => n in s.nodes
  }

  function WithNode(s: State, n: NodeId, node: Node): State { s.(nodes := s.nodes[n := node]) }

  function Spawn(s: State, n: NodeId, place: Place): State { s.(tasks := s.tasks + [Task(n, place)]) }

  function Move(s: State, i: nat, place: Place): State
    requires i < |s.tasks|
  {
    s.(tasks := s.tasks[i := Task(s.tasks[i].node, place)])
  }

  function Advanced(s: State, i: nat, ok: bool): State
    requires Enabled(s, Advance(i, ok))
  {
    var Task(n, place) := s.tasks[i];
    var node := s.nodes[n];
    match place
    case Deciding(v) =>
      if v <= node.marker then Move(s, i, Recording(node.marker)) else Move(s, i, Reloading(v, node.marker))
    case Reloading(v, local) =>
      if ok then Move(WithNode(s, n, node.(loaded := s.shared)), i, Marking(v, true)) else Move(s, i, Recording(local))
    case Marking(v, _) => Move(WithNode(s, n, node.(marker := v)), i, Recording(v))
    case Recording(v) => WithNode(s, n, node.(reported := v)).(tasks := s.tasks[..i] + s.tasks[i + 1..])
  }

  function Next(s: State, step: Step): State
    requires Enabled(s, step)
  {
    match step
    case Join(n) => WithNode(s, n, Node(UNKNOWN, UNKNOWN, UNKNOWN))
    case ApplyChanged(n) =>
      var v := s.shared + 1;
      Spawn(WithNode(s, n, s.nodes[n].(loaded := v)).(shared := v), n, Marking(v, true))
    case ApplyUnchanged(n) => Spawn(s, n, Marking(s.shared, s.nodes[n].loaded == s.shared))
    case ApplyRolledBack(n, reloaded) =>
      Spawn(if reloaded then WithNode(s, n, s.nodes[n].(loaded := s.shared)) else s, n,
            Marking(s.shared, reloaded || s.nodes[n].loaded == s.shared))
    case StartReconcile(n) => Spawn(s, n, Deciding(s.shared))
    case Advance(i, ok) => Advanced(s, i, ok)
    case NginxRestart(n) => WithNode(s, n, s.nodes[n].(loaded := s.shared))
    case MarkerLost(n) => WithNode(s, n, s.nodes[n].(marker := UNKNOWN))
  }

  ghost predicate ValidRun(s: State, steps: seq<Step>)
    decreases |steps|
  {
    steps == [] || (Enabled(s, steps[0]) && ValidRun(Next(s, steps[0]), steps[1..]))
  }

  ghost function Run(s: State, steps: seq<Step>): State
    requires ValidRun(s, steps)
    decreases |steps|
  {
    if steps == [] then s else Run(Next(s, steps[0]), steps[1..])
  }

  // ----- undisturbed, from start to end -----

  /** The last task, advanced to its end with nothing in between, leaves the state `end`. */
  ghost predicate Finishes(s: State, oks: seq<bool>, end: State) {
    && |s.tasks| > 0
    && ValidRun(s, Advances(|s.tasks| - 1, oks)) && Run(s, Advances(|s.tasks| - 1, oks)) == end
  }

  function Advances(i: nat, oks: seq<bool>): seq<Step> {
    if oks == [] then [] else [Advance(i, oks[0])] + Advances(i, oks[1..])
  }

  lemma StepFirst(s: State, step: Step, rest: seq<Step>)
    requires Enabled(s, step) && ValidRun(Next(s, step), rest)
    ensures ValidRun(s, [step] + rest) && Run(s, [step] + rest) == Run(Next(s, step), rest)
  {
    assert ([step] + rest)[1..] == rest;
  }

  lemma RecordingEnds(s: State, base: seq<Task>, n: NodeId, v: int)
    requires s.tasks == base + [Task(n, Recording(v))] && n in s.nodes
    ensures Finishes(s, [true], State(s.shared, s.nodes[n := s.nodes[n].(reported := v)], base))
  {
    var i := |base|;
    assert s.tasks[..i] + s.tasks[i + 1..] == base;
    StepFirst(s, Advance(i, true), []);
    assert [true][1..] == [] && Advances(i, [true]) == [Advance(i, true)] + [];
  }

  lemma MarkingEnds(s: State, base: seq<Task>, n: NodeId, v: int, vouched: bool)
    requires s.tasks == base + [Task(n, Marking(v, vouched))] && n in s.nodes
    ensures Finishes(s, [true, true], State(s.shared, s.nodes[n := Node(v, s.nodes[n].loaded, v)], base))
  {
    var i := |base|;
    var t := Next(s, Advance(i, true));
    assert t.tasks == base + [Task(n, Recording(v))];
    RecordingEnds(t, base, n, v);
    StepFirst(s, Advance(i, true), Advances(i, [true]));
    assert [true, true][1..] == [true];
    assert t.nodes[n := t.nodes[n].(reported := v)] == s.nodes[n := Node(v, s.nodes[n].loaded, v)];
  }

  /** An apply that changes the files, left to finish: the shared version rises by one, and its node
      has loaded, marked and reported just that. */
  lemma WholeApply(s: State, n: NodeId)
    requires n in s.nodes
    ensures var v, steps := s.shared + 1, [ApplyChanged(n)] + Advances(|s.tasks|, [true, true]);
            ValidRun(s, steps) && Run(s, steps) == State(v, s.nodes[n := Node(v, v, v)], s.tasks)
  {
    hide Next, Enabled, Run, ValidRun, Advances;
    var v := s.shared + 1;
    ApplyStarts(s, n);
    var t := Next(s, ApplyChanged(n));
    MarkingEnds(t, s.tasks, n, v, true);
    StepFirst(s, ApplyChanged(n), Advances(|s.tasks|, [true, true]));
    assert t.nodes[n := Node(v, v, v)] == s.nodes[n := Node(v, v, v)];
  }

  lemma ApplyStarts(s: State, n: NodeId)
    requires n in s.nodes
    ensures Enabled(s, ApplyChanged(n))
    ensures var v := s.shared + 1;
            Next(s, ApplyChanged(n)) ==
            State(v, s.nodes[n := s.nodes[n].(loaded := v)], s.tasks + [Task(n, Marking(v, true))])
  {
  }

  /** The answers a reconcile meets: none asked, the reload failing, or the reload working. */
  function Answers(s: State, n: NodeId, ok: bool): seq<bool>
    requires n in s.nodes
  {
    if s.shared <= s.nodes[n].marker then [true, true] else if ok then [true, true, true, true] else [true, false, true]
  }

  /** A reconcile left to finish: a node marked as current only reports its marker; one that is
      behind loads, marks and reports the shared version, or, when the reload fails, keeps what it
      runs and reports the marker it had. */
  lemma WholeReconcile(s: State, n: NodeId, ok: bool)
    requires n in s.nodes
    ensures var steps := [StartReconcile(n)] + Advances(|s.tasks|, Answers(s, n, ok));
            var node := s.nodes[n];
            && ValidRun(s, steps)
            && Run(s, steps)
               == s.(nodes := s.nodes[n := if node.marker < s.shared && ok then Node(s.shared, s.shared, s.shared)
                                           else node.(reported := node.marker)])
  {
    var i, v, local := |s.tasks|, s.shared, s.nodes[n].marker;
    var t := Next(s, StartReconcile(n));
    var u := Next(t, Advance(i, true));
    if v <= local {
      assert u.tasks == s.tasks + [Task(n, Recording(local))];
      RecordingEnds(u, s.tasks, n, local);
      StepFirst(t, Advance(i, true), Advances(i, [true]));
      assert [true, true][1..] == [true];
    } else {
      assert u.tasks == s.tasks + [Task(n, Reloading(v, local))];
      ReloadingEnds(u, s.tasks, n, v, local, ok);
      var rest := if ok then [true, true, true] else [false, true];
      StepFirst(t, Advance(i, true), Advances(i, rest));
      assert Answers(s, n, ok)[1..] == rest;
    }
    StepFirst(s, StartReconcile(n), Advances(i, Answers(s, n, ok)));
  }

  lemma ReloadingEnds(s: State, base: seq<Task>, n: NodeId, v: int, local: int, ok: bool)
    requires s.tasks == base + [Task(n, Reloading(v, local))] && n in s.nodes
    ensures Finishes(s, if ok then [true, true, true] else [false, true],
                     State(s.shared, s.nodes[n := if ok then Node(v, s.shared, v) else s.nodes[n].(reported := local)],
                           base))
  {
    var i := |base|;
    var t := Next(s, Advance(i, ok));
    if ok {
      assert t.tasks == base + [Task(n, Marking(v, true))];
      MarkingEnds(t, base, n, v, true);
      StepFirst(s, Advance(i, ok), Advances(i, [true, true]));
      assert [true, true, true][1..] == [true, true];
      assert t.nodes[n := Node(v, s.shared, v)] == s.nodes[n := Node(v, s.shared, v)];
    } else {
      assert t.tasks == base + [Task(n, Recording(local))];
      RecordingEnds(t, base, n, local);
      StepFirst(s, Advance(i, ok), Advances(i, [true]));
      assert [false, true][1..] == [true];
    }
  }

  // ----- marker <= loaded <= shared -----

  predicate NodeInOrder(node: Node, shared: int) {
    UNKNOWN <= node.loaded && node.marker <= node.loaded <= shared && node.reported <= node.loaded
  }

  ghost predicate NodesInOrder(s: State) {
    && s.shared >= 0
    && forall n <- s.nodes :: NodeInOrder(s.nodes[n], s.shared)
  }

  ghost predicate TaskInOrder(s: State, t: Task) {
    && t.node in s.nodes
    && match t.place
       case Deciding(v) => v <= s.shared
       case Reloading(v, local) => v <= s.shared && local <= s.nodes[t.node].loaded
       case Marking(v, _) => v <= s.nodes[t.node].loaded
       case Recording(v) => v <= s.nodes[t.node].loaded
  }

  ghost predicate InOrder(s: State) {
    NodesInOrder(s) && forall t <- s.tasks :: TaskInOrder(s, t)
  }

  /** What the comment in the apply claims: an apply that reloads nothing happens only on a
      node that already runs the current version. */
  predicate AsClaimed(s: State, step: Step) {
    match step
    case ApplyUnchanged(n) => n in s.nodes && s.nodes[n].loaded == s.shared
    case ApplyRolledBack(n, reloaded) => n in s.nodes && (reloaded || s.nodes[n].loaded == s.shared)
    case _ => true
  }

  /** Nodes never lose versions, and the shared version never goes back. */
  ghost predicate Grows(s: State, t: State) {
    s.shared <= t.shared && forall n <- s.nodes :: n in t.nodes && s.nodes[n].loaded <= t.nodes[n].loaded
  }

  lemma GrowthKeepsTasks(s: State, t: State)
    requires Grows(s, t)
    ensures forall x <- s.tasks | TaskInOrder(s, x) :: TaskInOrder(t, x)
  {
  }

  lemma StepGrows(s: State, step: Step)
    requires InOrder(s) && Enabled(s, step)
    ensures Grows(s, Next(s, step))
  {
  }

  lemma StepKeepsNodes(s: State, step: Step)
    requires InOrder(s) && Enabled(s, step) && AsClaimed(s, step)
    ensures NodesInOrder(Next(s, step))
  {
    if step.Advance? { assert s.tasks[step.task] in s.tasks; }
  }

  /** The task that a step starts or moves on. */
  lemma StepKeepsTasks(s: State, step: Step)
    requires InOrder(s) && Enabled(s, step) && AsClaimed(s, step)
    ensures forall x <- Next(s, step).tasks | x !in s.tasks :: TaskInOrder(Next(s, step), x)
  {
    var t := Next(s, step);
    if step.Advance? { assert s.tasks[step.task] in s.tasks; }
    forall x <- t.tasks | x !in s.tasks ensures TaskInOrder(t, x) {
      if !step.Advance? { assert x == t.tasks[|s.tasks|]; }
    }
  }

  lemma StepKeepsOrder(s: State, step: Step)
    requires InOrder(s) && Enabled(s, step) && AsClaimed(s, step)
    ensures InOrder(Next(s, step))
  {
    hide Next, TaskInOrder, NodesInOrder, Grows;
    StepGrows(s, step);
    GrowthKeepsTasks(s, Next(s, step));
    StepKeepsNodes(s, step);
    StepKeepsTasks(s, step);
  }

  ghost predicate ClaimHolds(s: State, steps: seq<Step>)
    requires ValidRun(s, steps)
    decreases |steps|
  {
    steps == [] || (AsClaimed(s, steps[0]) && ClaimHolds(Next(s, steps[0]), steps[1..]))
  }

  /** Every interleaving in which the comment's claim holds keeps marker <= loaded <= shared on
      every node, and never reports a version a node does not run. */
  lemma {:induction false} RunKeepsOrder(s: State, steps: seq<Step>)
    requires InOrder(s) && ValidRun(s, steps) && ClaimHolds(s, steps)
    ensures InOrder(Run(s, steps))
    decreases |steps|
  {
    if steps != [] {
      StepKeepsOrder(s, steps[0]);
      RunKeepsOrder(Next(s, steps[0]), steps[1..]);
    }
  }

  // ----- the claim is needed -----

  /** The marker of an apply that reloaded nothing on a node that was not current is written only
      after that node has come to run the version. */
  ghost predicate Truthful(s: State, step: Step)
    requires Enabled(s, step)
  {
    step.Advance? && s.tasks[step.task].place.Marking? && !s.tasks[step.task].place.vouched ==>
      s.tasks[step.task].place.version <= s.nodes[s.tasks[step.task].node].loaded
  }

  /** Which markers are not vouched for: exactly those of silent applies on a node behind. */
  lemma UnvouchedIff(s: State, step: Step, x: Task)
    requires Enabled(s, step) && x in Next(s, step).tasks && x !in s.tasks && x.place.Marking?
    ensures !x.place.vouched <==> exists n <- s.nodes :: Silent(step, n) && s.nodes[n].loaded != s.shared
  {
    var t := Next(s, step);
    if step.Advance? {
      assert x == t.tasks[step.task] || x in s.tasks;
    } else {
      assert x == t.tasks[|s.tasks|];
    }
  }

  /** What tasks can be relied on for without the claim: a marker about to be written may lie. */
  ghost predicate TaskSound(s: State, t: Task) {
    && t.node in s.nodes
    && match t.place
       case Deciding(v) => v <= s.shared
       case Reloading(v, local) => v <= s.shared && local <= s.nodes[t.node].loaded
       case Marking(v, vouched) => v <= s.shared && (vouched ==> v <= s.nodes[t.node].loaded)
       case Recording(v) => v <= s.nodes[t.node].loaded
  }

  ghost predicate TasksSound(s: State) { forall t <- s.tasks :: TaskSound(s, t) }

  lemma GrowthKeepsSound(s: State, t: State)
    requires Grows(s, t)
    ensures forall x <- s.tasks | TaskSound(s, x) :: TaskSound(t, x)
  {
  }

  lemma StepOrderIff(s: State, step: Step)
    requires NodesInOrder(s) && TasksSound(s) && Enabled(s, step)
    ensures NodesInOrder(Next(s, step)) <==> Truthful(s, step)
    ensures Truthful(s, step) ==> Grows(s, Next(s, step))
  {
    var t := Next(s, step);
    if step.Advance? {
      var task := s.tasks[step.task];
      assert task in s.tasks;
      assert task.node in t.nodes;
    }
  }

  lemma StepKeepsSound(s: State, step: Step)
    requires NodesInOrder(s) && TasksSound(s) && Enabled(s, step) && Truthful(s, step)
    ensures TasksSound(Next(s, step))
  {
    StepOrderIff(s, step);
    GrowthKeepsSound(s, Next(s, step));
    if step.Advance? { AdvanceIsSound(s, step); } else { SpawnIsSound(s, step); }
  }

  lemma AdvanceIsSound(s: State, step: Step)
    requires NodesInOrder(s) && TasksSound(s) && Enabled(s, step) && Truthful(s, step) && step.Advance?
    ensures forall x <- Next(s, step).tasks | x !in s.tasks :: TaskSound(Next(s, step), x)
  {
    assert s.tasks[step.task] in s.tasks;
  }

  lemma SpawnIsSound(s: State, step: Step)
    requires NodesInOrder(s) && Enabled(s, step) && !step.Advance?
    ensures forall x <- Next(s, step).tasks | x !in s.tasks :: TaskSound(Next(s, step), x)
  {
    var t := Next(s, step);
    forall x <- t.tasks | x !in s.tasks ensures TaskSound(t, x) {
      assert x == t.tasks[|s.tasks|];
    }
  }

  ghost predicate TruthfulRun(s: State, steps: seq<Step>)
    requires ValidRun(s, steps)
    decreases |steps|
  {
    steps == [] || (Truthful(s, steps[0]) && TruthfulRun(Next(s, steps[0]), steps[1..]))
  }

  ghost predicate OrderedThroughout(s: State, steps: seq<Step>)
    requires ValidRun(s, steps)
    decreases |steps|
  {
    NodesInOrder(s) && (steps == [] || OrderedThroughout(Next(s, steps[0]), steps[1..]))
  }

  /** The order holds throughout a run, with no assumption about its applies, if and only if every
      apply that reloaded nothing found its node current, or that node came to run the version
      before the apply's marker was written. */
  lemma {:induction false} OrderedIffTruthful(s: State, steps: seq<Step>)
    requires NodesInOrder(s) && TasksSound(s) && ValidRun(s, steps)
    ensures OrderedThroughout(s, steps) <==> TruthfulRun(s, steps)
    decreases |steps|
  {
    hide Next, NodesInOrder, TasksSound, Truthful, Grows;
    if steps != [] {
      StepOrderIff(s, steps[0]);
      if Truthful(s, steps[0]) {
        StepKeepsSound(s, steps[0]);
        OrderedIffTruthful(Next(s, steps[0]), steps[1..]);
      } else {
        UnorderedAtOnce(Next(s, steps[0]), steps[1..]);
      }
    }
  }

  lemma UnorderedAtOnce(s: State, steps: seq<Step>)
    requires ValidRun(s, steps) && !NodesInOrder(s)
    ensures !OrderedThroughout(s, steps)
  {
  }

  /** An apply that reloads nothing: it found nothing to change, or was rolled back without a
      reload. */
  predicate Silent(step: Step, n: NodeId) { step == ApplyUnchanged(n) || step == ApplyRolledBack(n, false) }

  /** Such an apply, followed by its marker write, keeps the order exactly when the node already
      ran the shared version. */
  lemma SilentApplyExactly(s: State, n: NodeId, step: Step)
    requires InOrder(s) && n in s.nodes && Silent(step, n)
    ensures var applied := Next(s, step);
            && Enabled(applied, Advance(|s.tasks|, true))
            && (NodesInOrder(Next(applied, Advance(|s.tasks|, true))) <==> s.nodes[n].loaded == s.shared)
  {
    var applied := Next(s, step);
    assert applied.tasks[|s.tasks|] == Task(n, Marking(s.shared, s.nodes[n].loaded == s.shared));
    var marked := Next(applied, Advance(|s.tasks|, true));
    assert marked.nodes == s.nodes[n := s.nodes[n].(marker := s.shared)];
    assert n in marked.nodes;
  }

  /** A node whose marker claims the shared version while its nginx runs an older one. */
  ghost predicate Stale(s: State, n: NodeId) {
    n in s.nodes && s.nodes[n].marker >= s.shared && s.nodes[n].loaded < s.shared
  }

  /** No task on `n` is about to reload or to take the marker back. */
  ghost predicate Settled(s: State, n: NodeId) {
    forall t <- s.tasks | t.node == n ::
      match t.place
      case Deciding(v) => v <= s.shared
      case Reloading(_, _) => false
      case Marking(v, _) => v >= s.shared
      case Recording(_) => true
  }

  /** Everything but what could cure `n`: a change applied anywhere, and a reload, restart or lost
      marker of its own. */
  predicate NoCure(step: Step, n: NodeId) {
    && !step.ApplyChanged?
    && step != ApplyRolledBack(n, true) && step != NginxRestart(n) && step != MarkerLost(n)
  }

  lemma StaleStep(s: State, n: NodeId, step: Step)
    requires Stale(s, n) && Settled(s, n) && Enabled(s, step) && NoCure(step, n)
    ensures Stale(Next(s, step), n) && Settled(Next(s, step), n)
    ensures Next(s, step).nodes[n].loaded == s.nodes[n].loaded
  {
    var t := Next(s, step);
    if step.Advance? { assert s.tasks[step.task] in s.tasks; }
    forall x <- t.tasks | x.node == n
      ensures match x.place
              case Deciding(v) => v <= t.shared
              case Reloading(_, _) => false
              case Marking(v, _) => v >= t.shared
              case Recording(_) => true
    {
      if x !in s.tasks {
        if !step.Advance? { assert x == t.tasks[|s.tasks|]; }
      }
    }
  }

  /** Once stale, a node stays stale under every amount of reconciling and of applies that change
      nothing: each one finds the marker current and reloads nothing. */
  lemma {:induction false} StaleForever(s: State, n: NodeId, steps: seq<Step>)
    requires Stale(s, n) && Settled(s, n) && ValidRun(s, steps)
    requires forall step <- steps :: NoCure(step, n)
    ensures Stale(Run(s, steps), n) && Run(s, steps).nodes[n].loaded == s.nodes[n].loaded
    decreases |steps|
  {
    if steps != [] {
      StaleStep(s, n, steps[0]);
      StaleForever(Next(s, steps[0]), n, steps[1..]);
    }
  }

  /** Two nodes, both current at version 0. */
  const Cluster := State(0, map["a" := Node(0, 0, 0), "b" := Node(0, 0, 0)], [])

  /** Node a applies a change; an apply on node b then reloads nothing. */
  function SilentAfterChange(step: Step): seq<Step> { [ApplyChanged("a"), step, Advance(1, true)] }

  /** The run that breaks the order, with node b's own startup render or with an apply of its that
      is rolled back: b marks version 1 while its nginx still runs version 0. */
  lemma SilentApplyBreaksOrder(step: Step)
    requires Silent(step, "b")
    ensures InOrder(Cluster) && ValidRun(Cluster, SilentAfterChange(step))
    ensures var s := Run(Cluster, SilentAfterChange(step));
            s.nodes["b"].marker == 1 && s.nodes["b"].loaded == 0 && Stale(s, "b") && Settled(s, "b")
  {
    var steps := SilentAfterChange(step);
    var s1 := Next(Cluster, ApplyChanged("a"));
    var s2 := Next(s1, step);
    assert s2.tasks == [Task("a", Marking(1, true)), Task("b", Marking(1, false))];
    var s3 := Next(s2, Advance(1, true));
    assert s3.tasks == [Task("a", Marking(1, true)), Task("b", Recording(1))];
    assert steps[1..] == [step, Advance(1, true)];
    assert steps[1..][1..] == [Advance(1, true)];
    assert steps[1..][1..][1..] == [];
  }

  // ----- convergence -----

  /** The step that completes a reconcile of `n` against the current version: the marker was
      current already, or the reload succeeded. */
  predicate Reconciles(s: State, step: Step, n: NodeId) {
    && step.Advance? && Enabled(s, step) && s.tasks[step.task].node == n
    && match s.tasks[step.task].place
       case Deciding(v) => v == s.shared && v <= s.nodes[n].marker
       case Reloading(v, _) => v == s.shared && step.ok
       case _ => false
  }

  lemma ReconcileMakesCurrent(s: State, step: Step, n: NodeId)
    requires InOrder(s) && Reconciles(s, step, n)
    ensures Next(s, step).nodes[n].loaded == s.shared == Next(s, step).shared
  {
  }

  lemma {:induction false} CurrentStays(s: State, n: NodeId, steps: seq<Step>)
    requires InOrder(s) && ValidRun(s, steps) && ClaimHolds(s, steps)
    requires n in s.nodes && s.nodes[n].loaded == s.shared
    requires forall step <- steps :: !step.ApplyChanged?
    ensures Run(s, steps).shared == s.shared && n in Run(s, steps).nodes && Run(s, steps).nodes[n].loaded == s.shared
    decreases |steps|
  {
    if steps != [] {
      StepKeepsOrder(s, steps[0]);
      StepGrows(s, steps[0]);
      CurrentStays(Next(s, steps[0]), n, steps[1..]);
    }
  }

  /** Whether a run holds a completed reconcile of `n`. */
  ghost predicate Reconciled(s: State, steps: seq<Step>, n: NodeId)
    requires ValidRun(s, steps)
    decreases |steps|
  {
    steps != [] && (Reconciles(s, steps[0], n) || Reconciled(Next(s, steps[0]), steps[1..], n))
  }

  /** With no further change applied, a run in which every node completes one reconcile, in any
      interleaving, ends with every node running the shared version. */
  lemma {:induction false} ReconciledIsCurrent(s: State, n: NodeId, steps: seq<Step>)
    requires InOrder(s) && ValidRun(s, steps) && ClaimHolds(s, steps)
    requires forall step <- steps :: !step.ApplyChanged?
    requires Reconciled(s, steps, n)
    ensures n in Run(s, steps).nodes && Run(s, steps).nodes[n].loaded == Run(s, steps).shared == s.shared
    decreases |steps|
  {
    var t := Next(s, steps[0]);
    StepKeepsOrder(s, steps[0]);
    if Reconciles(s, steps[0], n) {
      ReconcileMakesCurrent(s, steps[0], n);
      CurrentStays(t, n, steps[1..]);
    } else {
      ReconciledIsCurrent(t, n, steps[1..]);
    }
  }
}
