/** When the rendered files hold the newest configuration. Every committed write queues an apply;
    an apply first loads the database and only then takes the lock under which it writes the
    files, so writes and other applies can come in between. Database states are numbered by their
    commits, and `content` says what each of them renders to: two may render alike. */
module ApplyOrder {

  type Id = nat

  /** `Holding` is an apply that has loaded a database state and not yet taken the lock. */
  datatype Task = Queued | Holding(loaded: nat)

  type Content = nat -> string

  datatype State = State(db: nat, files: string, version: nat, tasks: map<Id, Task>, nextId: Id)

  function Start(content: Content): State { State(0, content(0), 0, map[], 0) }

  /** `Render` queues an apply without a write, as a starting worker does. `Finish` is everything
      under the lock; it leaves the files alone when the apply is rolled back. */
  datatype Step =
    | Commit
    | Render
    | Load(task: Id)
    | Finish(task: Id, ok: bool)

  predicate Enabled(s: State, step: Step) {
    match step
    case Load(t) => t in s.tasks && s.tasks[t].Queued?
    case Finish(t, _) => t in s.tasks && s.tasks[t].Holding?
    case _ => true
  }

  function Queue(s: State): State { s.(tasks := s.tasks[s.nextId := Queued], nextId := s.nextId + 1) }

  function Next(content: Content, s: State, step: Step): State
    requires Enabled(s, step)
  {
    match step
    case Commit => Queue(s.(db := s.db + 1))
    case Render => Queue(s)
    case Load(t) => s.(tasks := s.tasks[t := Holding(s.db)])
    case Finish(t, ok) =>
      var rendered := content(s.tasks[t].loaded);
      var done := s.(tasks := s.tasks - {t});
      if !ok || rendered == s.files then done else done.(files := rendered, version := s.version + 1)
  }

  ghost predicate Valid(content: Content, steps: seq<Step>)
    decreases |steps|, 0
  {
    steps == []
    || (Valid(content, steps[..|steps| - 1]) && Enabled(Run(content, steps[..|steps| - 1]), steps[|steps| - 1]))
  }

  ghost function Run(content: Content, steps: seq<Step>): State
    requires Valid(content, steps)
    decreases |steps|, 1
  {
    if steps == [] then Start(content) else Next(content, Run(content, steps[..|steps| - 1]), steps[|steps| - 1])
  }

  lemma {:induction false} PrefixValid(content: Content, steps: seq<Step>, n: nat)
    requires Valid(content, steps) && n <= |steps|
    ensures Valid(content, steps[..n])
  {
    if n == |steps| {
      assert steps[..n] == steps;
    } else {
      PrefixValid(content, steps[..|steps| - 1], n);
      assert steps[..|steps| - 1][..n] == steps[..n];
    }
  }

  lemma StepAt(content: Content, steps: seq<Step>, i: nat)
    requires Valid(content, steps) && i < |steps|
    ensures Valid(content, steps[..i]) && Valid(content, steps[..i + 1]) && Enabled(Run(content, steps[..i]), steps[i])
    ensures Run(content, steps[..i + 1]) == Next(content, Run(content, steps[..i]), steps[i])
  {
    PrefixValid(content, steps, i);
    PrefixValid(content, steps, i + 1);
    assert steps[..i + 1][..i] == steps[..i];
  }

  lemma StepEffect(content: Content, s: State, step: Step)
    requires Enabled(s, step)
    ensures var t := Next(content, s, step);
            && t.db == s.db + (if step.Commit? then 1 else 0)
            && (!(step.Finish? && step.ok) ==> t.files == s.files)
            && (!step.Finish? ==> s.tasks.Keys <= t.tasks.Keys)
            && (step.Commit? ==> s.nextId in t.tasks)
  {
  }

  // ----- what happens between two points of a run -----

  ghost predicate NoCommit(steps: seq<Step>, i: nat, j: nat)
    requires i <= j <= |steps|
  {
    forall k :: i <= k < j ==> !steps[k].Commit?
  }

  lemma NoCommitStep(steps: seq<Step>, i: nat, j: nat)
    requires i <= j <= |steps|
    ensures NoCommit(steps, i, i)
    ensures i < j ==> (NoCommit(steps, i, j) <==> NoCommit(steps, i, j - 1) && !steps[j - 1].Commit?)
  {
  }

  /** The database state stands still exactly while nothing commits. */
  lemma {:induction false} DbBetween(content: Content, steps: seq<Step>, i: nat, j: nat)
    requires Valid(content, steps) && i <= j <= |steps|
    ensures Valid(content, steps[..i]) && Valid(content, steps[..j])
    ensures Run(content, steps[..i]).db <= Run(content, steps[..j]).db
    ensures Run(content, steps[..i]).db == Run(content, steps[..j]).db <==> NoCommit(steps, i, j)
  {
    PrefixValid(content, steps, i);
    PrefixValid(content, steps, j);
    hide Run, Valid, Next, NoCommit;
    NoCommitStep(steps, i, j);
    if i < j {
      DbBetween(content, steps, i, j - 1);
      StepAt(content, steps, j - 1);
      StepEffect(content, Run(content, steps[..j - 1]), steps[j - 1]);
    }
  }

  /** The files change only when an apply succeeds. */
  lemma {:induction false} FilesBetween(content: Content, steps: seq<Step>, i: nat, j: nat)
    requires Valid(content, steps) && i <= j <= |steps|
    requires forall k :: i <= k < j ==> !(steps[k].Finish? && steps[k].ok)
    ensures Valid(content, steps[..i]) && Valid(content, steps[..j])
    ensures Run(content, steps[..i]).files == Run(content, steps[..j]).files
  {
    PrefixValid(content, steps, i);
    PrefixValid(content, steps, j);
    hide Run, Valid, Next;
    if i < j {
      FilesBetween(content, steps, i, j - 1);
      StepAt(content, steps, j - 1);
      StepEffect(content, Run(content, steps[..j - 1]), steps[j - 1]);
    }
  }

  /** The step at `k` leaves the files as they are. */
  ghost predicate Leaves(content: Content, steps: seq<Step>, k: nat)
    requires k < |steps|
  {
    && Valid(content, steps[..k]) && Valid(content, steps[..k + 1])
    && Run(content, steps[..k]).files == Run(content, steps[..k + 1]).files
  }

  /** The version is a faithful record of what was applied: over every run it never falls, it stands
      still exactly while the files do, and it rises by one with each change of them. So one version
      is never two different sets of files. */
  lemma {:induction false} VersionIsFaithful(content: Content, steps: seq<Step>, i: nat, j: nat)
    requires Valid(content, steps) && i <= j <= |steps|
    ensures Valid(content, steps[..i]) && Valid(content, steps[..j])
    ensures var before, after := Run(content, steps[..i]), Run(content, steps[..j]);
            && before.version <= after.version
            && (before.version == after.version <==> forall k :: i <= k < j ==> Leaves(content, steps, k))
            && (before.version == after.version ==> before.files == after.files)
            && (j == i + 1 ==> after.version == before.version + if before.files == after.files then 0 else 1)
  {
    PrefixValid(content, steps, i);
    PrefixValid(content, steps, j);
    hide Run, Valid, Leaves, Next;
    if i < j {
      VersionIsFaithful(content, steps, i, j - 1);
      VersionStep(content, steps, j - 1);
    }
  }

  lemma VersionStep(content: Content, steps: seq<Step>, k: nat)
    requires Valid(content, steps) && k < |steps|
    ensures Valid(content, steps[..k]) && Valid(content, steps[..k + 1])
    ensures var before, after := Run(content, steps[..k]), Run(content, steps[..k + 1]);
            && after.version == before.version + (if before.files == after.files then 0 else 1)
            && (Leaves(content, steps, k) <==> before.files == after.files)
  {
    hide Run, Valid, Leaves;
    StepAt(content, steps, k);
    LeavesMeans(content, steps, k);
  }

  lemma LeavesMeans(content: Content, steps: seq<Step>, k: nat)
    requires k < |steps| && Valid(content, steps[..k]) && Valid(content, steps[..k + 1])
    ensures Leaves(content, steps, k) <==> Run(content, steps[..k]).files == Run(content, steps[..k + 1]).files
  {
  }

  /** A loaded apply keeps what it loaded until it finishes. */
  lemma {:induction false} HeldBetween(content: Content, steps: seq<Step>, i: nat, j: nat)
    requires Valid(content, steps) && i < j <= |steps| && steps[i].Load?
    requires forall k :: i < k < j ==> !(steps[k].Finish? && steps[k].task == steps[i].task)
    ensures Valid(content, steps[..i]) && Valid(content, steps[..j])
    ensures var s, t := Run(content, steps[..j]), steps[i].task;
            t in s.tasks && t < s.nextId && s.tasks[t] == Holding(Run(content, steps[..i]).db)
  {
    PrefixValid(content, steps, i);
    PrefixValid(content, steps, j);
    hide Run, Valid;
    StepAt(content, steps, j - 1);
    if i + 1 < j {
      HeldBetween(content, steps, i, j - 1);
    } else {
      TasksNumbered(content, steps, i);
    }
  }

  lemma RunOfNothing(content: Content, steps: seq<Step>)
    ensures Valid(content, steps[..0]) && Run(content, steps[..0]) == Start(content)
  {
  }

  lemma {:induction false} TasksNumbered(content: Content, steps: seq<Step>, i: nat)
    requires Valid(content, steps) && i <= |steps|
    ensures Valid(content, steps[..i])
    ensures forall t <- Run(content, steps[..i]).tasks :: t < Run(content, steps[..i]).nextId
  {
    PrefixValid(content, steps, i);
    hide Run, Valid;
    if i > 0 {
      TasksNumbered(content, steps, i - 1);
      StepAt(content, steps, i - 1);
    } else {
      RunOfNothing(content, steps);
    }
  }

  /** A queued apply stays until something finishes it. */
  lemma {:induction false} PendingBetween(content: Content, steps: seq<Step>, i: nat, j: nat)
    requires Valid(content, steps) && i <= j <= |steps| && forall k :: i <= k < j ==> !steps[k].Finish?
    ensures Valid(content, steps[..i]) && Valid(content, steps[..j])
    ensures Run(content, steps[..i]).tasks.Keys <= Run(content, steps[..j]).tasks.Keys
    ensures !NoCommit(steps, i, j) ==> Run(content, steps[..j]).tasks != map[]
  {
    PrefixValid(content, steps, i);
    PrefixValid(content, steps, j);
    hide Run, Valid, Next, NoCommit;
    NoCommitStep(steps, i, j);
    if i < j {
      PendingBetween(content, steps, i, j - 1);
      StepAt(content, steps, j - 1);
      StepEffect(content, Run(content, steps[..j - 1]), steps[j - 1]);
      var s := Run(content, steps[..j - 1]);
      if steps[j - 1].Commit? {
        assert s.nextId in Run(content, steps[..j]).tasks;
      } else if !NoCommit(steps, i, j - 1) {
        var t :| t in s.tasks;
        assert t in Run(content, steps[..j]).tasks;
      }
    }
  }

  // ----- the files against the database -----

  /** `load` and `finish` are the two steps of one successful apply, and none succeeds after it. */
  ghost predicate LastSuccess(steps: seq<Step>, load: nat, finish: nat) {
    && load < finish < |steps|
    && steps[load].Load? && steps[finish] == Finish(steps[load].task, true)
    && (forall k :: load < k < finish ==> !(steps[k].Finish? && steps[k].task == steps[load].task))
    && (forall k :: finish < k < |steps| ==> !(steps[k].Finish? && steps[k].ok))
  }

  /** No two database states from `i` to `j` render alike. */
  ghost predicate Distinct(content: Content, i: nat, j: nat) {
    forall x, y :: i <= x < y <= j ==> content(x) != content(y)
  }

  /** In every run, the files hold what the last apply to succeed loaded. So they are the newest
      rendering if and only if the writes committed since that load left the rendering as it was;
      and, when no two database states since then render alike, if and only if nothing committed. */
  lemma FilesNewestIff(content: Content, steps: seq<Step>, load: nat, finish: nat)
    requires Valid(content, steps) && LastSuccess(steps, load, finish)
    ensures Valid(content, steps[..load])
    ensures var loaded, end := Run(content, steps[..load]).db, Run(content, steps);
            && end.files == content(loaded)
            && (end.files == content(end.db) <==> content(loaded) == content(end.db))
            && (NoCommit(steps, load, |steps|) ==> end.files == content(end.db))
            && (Distinct(content, loaded, end.db) ==>
                  (end.files == content(end.db) <==> NoCommit(steps, load, |steps|)))
  {
    hide Run, Valid;
    var n := |steps|;
    assert steps[..n] == steps;
    StepAt(content, steps, finish);
    HeldBetween(content, steps, load, finish);
    FilesBetween(content, steps, finish + 1, n);
    DbBetween(content, steps, load, n);
    assert Run(content, steps[..finish + 1]).files == content(Run(content, steps[..load]).db);
  }

  /** When no apply is pending and none is rolled back, the files are the newest rendering if and
      only if the writes committed between the last finishing apply's load and its lock left the
      rendering as it was; when no two states render alike, if and only if there are none. */
  lemma SettledNewestIff(content: Content, steps: seq<Step>, load: nat, finish: nat)
    requires Valid(content, steps) && LastSuccess(steps, load, finish)
    requires Run(content, steps).tasks == map[] && forall step <- steps :: step.Finish? ==> step.ok
    ensures Valid(content, steps[..load]) && Valid(content, steps[..finish])
    ensures var loaded, locked := Run(content, steps[..load]).db, Run(content, steps[..finish]).db;
            var end := Run(content, steps);
            && (end.files == content(end.db) <==> content(loaded) == content(locked))
            && (Distinct(content, loaded, locked) ==>
                  (end.files == content(end.db) <==> NoCommit(steps, load, finish)))
  {
    hide Run, Valid;
    var n := |steps|;
    assert steps[..n] == steps;
    FilesNewestIff(content, steps, load, finish);
    forall k | finish < k < n ensures !steps[k].Finish? { assert steps[k] in steps; }
    PendingBetween(content, steps, finish + 1, n);
    DbBetween(content, steps, finish + 1, n);
    DbBetween(content, steps, load, finish);
    StepAt(content, steps, finish);
    StepEffect(content, Run(content, steps[..finish]), steps[finish]);
  }

  /** Whenever an apply has succeeded, there is a last one that did, and it loaded what it wrote. */
  lemma {:induction false} LastSuccessExists(content: Content, steps: seq<Step>) returns (load: nat, finish: nat)
    requires Valid(content, steps) && exists k :: 0 <= k < |steps| && steps[k].Finish? && steps[k].ok
    ensures LastSuccess(steps, load, finish)
  {
    finish := LastFinish(steps, |steps|);
    load := LoadOf(content, steps, finish);
  }

  lemma {:induction false} LastFinish(steps: seq<Step>, n: nat) returns (finish: nat)
    requires n <= |steps| && exists k :: 0 <= k < n && steps[k].Finish? && steps[k].ok
    ensures finish < n && steps[finish].Finish? && steps[finish].ok
    ensures forall k :: finish < k < n ==> !(steps[k].Finish? && steps[k].ok)
  {
    if steps[n - 1].Finish? && steps[n - 1].ok {
      finish := n - 1;
    } else {
      finish := LastFinish(steps, n - 1);
    }
  }

  lemma LoadOf(content: Content, steps: seq<Step>, finish: nat) returns (load: nat)
    requires Valid(content, steps) && finish < |steps| && steps[finish].Finish?
    ensures load < finish && steps[load] == Load(steps[finish].task)
    ensures forall k :: load < k < finish ==> !(steps[k].Finish? && steps[k].task == steps[finish].task)
  {
    hide Run, Valid;
    StepAt(content, steps, finish);
    load := LoadedBy(content, steps, finish, steps[finish].task);
  }

  /** Whoever holds a database state loaded it earlier. */
  lemma {:induction false} LoadedBy(content: Content, steps: seq<Step>, n: nat, t: Id) returns (load: nat)
    requires Valid(content, steps) && n <= |steps| && Valid(content, steps[..n])
    requires t in Run(content, steps[..n]).tasks && Run(content, steps[..n]).tasks[t].Holding?
    ensures load < n && steps[load] == Load(t)
    ensures forall k :: load < k < n ==> !(steps[k].Finish? && steps[k].task == t)
  {
    StepAt(content, steps, n - 1);
    if steps[n - 1] == Load(t) {
      load := n - 1;
    } else {
      load := LoadedBy(content, steps, n - 1, t);
    }
  }

  /** One apply loads the first write, a second write overtakes it, and the older state is written
      last. */
  const Overtaken := [Commit, Load(0), Commit, Load(1), Finish(1, true), Finish(0, true)]

  /** Both applies succeed and nothing is pending, yet the files hold the first write; the version
      was raised for it, so every node is told to load it. */
  lemma OvertakenRun(content: Content)
    requires Distinct(content, 0, 2)
    ensures Valid(content, Overtaken)
    ensures Run(content, Overtaken) == State(2, content(1), 2, map[], 2) && content(1) != content(2)
  {
    hide Run, Valid;
    var steps := Overtaken;
    var c := content(0);
    RunOfNothing(content, steps);
    Extend(content, steps, 0, Start(content), State(1, c, 0, map[0 := Queued], 1));
    Extend(content, steps, 1, State(1, c, 0, map[0 := Queued], 1), State(1, c, 0, map[0 := Holding(1)], 1));
    Extend(content, steps, 2, State(1, c, 0, map[0 := Holding(1)], 1),
           State(2, c, 0, map[0 := Holding(1), 1 := Queued], 2));
    Extend(content, steps, 3, State(2, c, 0, map[0 := Holding(1), 1 := Queued], 2),
           State(2, c, 0, map[0 := Holding(1), 1 := Holding(2)], 2));
    Extend(content, steps, 4, State(2, c, 0, map[0 := Holding(1), 1 := Holding(2)], 2),
           State(2, content(2), 1, map[0 := Holding(1)], 2));
    Extend(content, steps, 5, State(2, content(2), 1, map[0 := Holding(1)], 2), State(2, content(1), 2, map[], 2));
    assert steps[..6] == steps;
  }

  lemma Extend(content: Content, steps: seq<Step>, i: nat, s: State, t: State)
    requires i < |steps| && Valid(content, steps[..i]) && Run(content, steps[..i]) == s
    requires Enabled(s, steps[i]) && Next(content, s, steps[i]) == t
    ensures Valid(content, steps[..i + 1]) && Run(content, steps[..i + 1]) == t
  {
    assert steps[..i + 1][..i] == steps[..i];
  }
}
