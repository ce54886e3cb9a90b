/** Writing the CrowdSec whitelist file: render, write, test, restart, verify, roll back. */
module WhitelistApply {
  import opened Text

  /** What the config test answers; `NoAnswer` is a container that cannot be reached. */
  datatype Verdict = Accepts | Rejects | NoAnswer

  /** How a restart request ends. A request can raise before the container was touched, or
      after it restarted (the daemon's reply was lost). */
  datatype RestartOutcome = Restarted | RaisedUntouched | RaisedAfterRestart

  /** The outside world's part in one call: the rendered file (`None` when rendering refuses),
      the config test, the first restart, the health check, and the rollback restart. */
  datatype Environment = Environment(
    rendered: Option<string>, verdict: Verdict, restart: RestartOutcome, healthy: bool, rollback: RestartOutcome)

  /** The file, the content the engine was last started on, and the recorded digest. */
  datatype World = World(disk: string, loaded: string, applied: Option<string>)

  /** The result, with the contents the engine was asked to restart onto and those written. */
  datatype Outcome = Outcome(ok: bool, restarted: bool, restarts: seq<string>, writes: seq<string>)

  function RestartOn(loaded: string, disk: string, r: RestartOutcome): string {
    if r == RaisedUntouched then loaded else disk
  }

  /** One apply and the recording of its outcome. */
  function Apply(w: World, env: Environment, digest: string -> string): (World, Outcome) {
    if env.rendered.None? then (w, Outcome(false, false, [], []))
    else
      var content, previous := env.rendered.value, w.disk;
      if w.applied == Some(digest(content)) && previous == content then (w, Outcome(true, false, [], []))
      else if env.verdict != Accepts then (w, Outcome(false, false, [], [content, previous]))
      else
        var loaded := RestartOn(w.loaded, content, env.restart);
        if env.restart != Restarted then
          (w.(loaded := loaded), Outcome(false, false, [content], [content, previous]))
        else if env.healthy then
          (World(content, loaded, Some(digest(content))), Outcome(true, true, [content], [content]))
        else
          (w.(loaded := RestartOn(loaded, previous, env.rollback)),
           Outcome(false, true, [content, previous], [content, previous]))
  }

  /** The host the task runs on. */
  class WhitelistHost {
    var disk: string
    var loaded: string
    var applied: Option<string>

    function Value(): World
      reads this
    {
      World(disk, loaded, applied)
    }

    constructor (w: World)
      ensures Value() == w
    {
      disk, loaded, applied := w.disk, w.loaded, w.applied;
    }

    /** Ask the container to restart; true when the request did not raise. */
    method Restart(r: RestartOutcome) returns (ok: bool)
      modifies this`loaded
      ensures ok == (r == Restarted) && loaded == RestartOn(old(loaded), disk, r)
    {
      if r != RaisedUntouched { loaded := disk; }
      ok := r == Restarted;
    }

    method ApplyToDisk(env: Environment, digest: string -> string)
      returns (ok: bool, restarted: bool, ghost out: Outcome)
      modifies this`disk, this`loaded
      ensures var (w, o) := Apply(old(Value()), env, digest);
              out == o && ok == o.ok && restarted == o.restarted && disk == w.disk && loaded == w.loaded
    {
      if env.rendered.None? { return false, false, Outcome(false, false, [], []); }
      var content, previous := env.rendered.value, disk;
      if applied == Some(digest(content)) && previous == content {
        return true, false, Outcome(true, false, [], []);
      }
      disk := content;
      if env.verdict != Accepts {
        disk := previous;
        return false, false, Outcome(false, false, [], [content, previous]);
      }
      var up := Restart(env.restart);
      if !up {
        disk := previous;
        return false, false, Outcome(false, false, [content], [content, previous]);
      }
      if env.healthy { return true, true, Outcome(true, true, [content], [content]); }
      disk := previous;
      up := Restart(env.rollback);
      return false, true, Outcome(false, true, [content, previous], [content, previous]);
    }

    /** The task: apply, then record; the recorded digest only advances on success. */
    method ApplyWhitelists(env: Environment, digest: string -> string) returns (ok: bool, ghost out: Outcome)
      modifies this
      ensures (Value(), out) == Apply(old(Value()), env, digest) && ok == out.ok
    {
      var restarted;
      ok, restarted, out := ApplyToDisk(env, digest);
      if ok { applied := Some(digest(env.rendered.value)); }
    }
  }

  // ----- one call -----

  /** The engine is only ever restarted onto content the config test accepted in this call,
      or onto what was there before; at most twice, and never without a write first. */
  lemma RestartsAreSafe(w: World, env: Environment, digest: string -> string)
    ensures var out := Apply(w, env, digest).1;
            && |out.restarts| <= 2
            && (forall c <- out.restarts :: c == w.disk || (env.verdict == Accepts && env.rendered == Some(c)))
            && (out.restarts != [] ==> out.writes != [] && out.writes[0] == out.restarts[0])
  {
  }

  /** Repeating a successful apply unchanged writes nothing and restarts nothing, whatever the
      engine would answer. */
  lemma RepeatIsSilent(w: World, env: Environment, again: Environment, digest: string -> string)
    requires Apply(w, env, digest).1.ok && again.rendered == env.rendered
    ensures var w' := Apply(w, env, digest).0;
            Apply(w', again, digest) == (w', Outcome(true, false, [], []))
  {
  }

  // ----- whole runs -----

  function Run(w: World, calls: seq<Environment>, digest: string -> string): World {
    if calls == [] then w else Apply(Run(w, calls[..|calls| - 1], digest), calls[|calls| - 1], digest).0
  }

  /** The content of the most recent successful apply, or the initial content. */
  function LastGood(w: World, calls: seq<Environment>, digest: string -> string): string {
    if calls == [] then w.disk
    else
      var before, env := calls[..|calls| - 1], calls[|calls| - 1];
      if Apply(Run(w, before, digest), env, digest).1.ok then env.rendered.value else LastGood(w, before, digest)
  }

  /** After every run, for every behaviour of test, restart and health check, the file holds
      the content of the most recent successful apply, and the recorded digest is its digest. */
  lemma {:induction false} DiskIsLastGood(w: World, calls: seq<Environment>, digest: string -> string)
    ensures var end := Run(w, calls, digest);
            && end.disk == LastGood(w, calls, digest)
            && (w.applied == Some(digest(w.disk)) ==> end.applied == Some(digest(end.disk)))
            && (end.applied == w.applied || end.applied == Some(digest(end.disk)))
  {
    if calls != [] { DiskIsLastGood(w, calls[..|calls| - 1], digest); }
  }

  /** In every run, each restart is onto the last good content at that moment or onto content
      the config test accepted in that very call. */
  lemma RunRestartsAreSafe(w: World, calls: seq<Environment>, digest: string -> string, k: nat)
    requires k < |calls|
    ensures var out := Apply(Run(w, calls[..k], digest), calls[k], digest).1;
            && |out.restarts| <= 2
            && forall c <- out.restarts ::
                 c == LastGood(w, calls[..k], digest) || (calls[k].verdict == Accepts && calls[k].rendered == Some(c))
  {
    hide Run, LastGood;
    DiskIsLastGood(w, calls[..k], digest);
    RestartsAreSafe(Run(w, calls[..k], digest), calls[k], digest);
  }

  predicate InSync(w: World) { w.loaded == w.disk }

  /** Whether a call gets as far as restarting the engine. */
  predicate Touches(w: World, env: Environment, digest: string -> string) {
    && env.rendered.Some? && !(w.applied == Some(digest(env.rendered.value)) && w.disk == env.rendered.value)
    && env.verdict == Accepts && env.restart != RaisedUntouched
  }

  /** Whether a call that restarts the engine leaves it on content that is not on disk: the
      first restart took effect but raised, or the engine stayed unhealthy and the rollback
      restart never reached the container. */
  predicate Strands(w: World, env: Environment, digest: string -> string) {
    && Touches(w, env, digest) && env.rendered.value != w.disk
    && (env.restart == RaisedAfterRestart || (!env.healthy && env.rollback == RaisedUntouched))
  }

  /** Exactly when the engine runs what is on disk after a call. */
  lemma SyncAfterCall(w: World, env: Environment, digest: string -> string)
    ensures InSync(Apply(w, env, digest).0)
       <==> if Touches(w, env, digest) then !Strands(w, env, digest) else InSync(w)
  {
  }

  /** A run from a synchronised host ends out of sync only if one of its calls stranded the
      engine and no later call restarted it. */
  lemma {:induction false} OutOfSyncIsStranded(w: World, calls: seq<Environment>, digest: string -> string)
    returns (k: nat)
    requires InSync(w) && !InSync(Run(w, calls, digest))
    ensures k < |calls| && Strands(Run(w, calls[..k], digest), calls[k], digest)
    ensures forall j | k < j < |calls| :: !Touches(Run(w, calls[..j], digest), calls[j], digest)
  {
    var before := calls[..|calls| - 1];
    SyncAfterCall(Run(w, before, digest), calls[|calls| - 1], digest);
    if Strands(Run(w, before, digest), calls[|calls| - 1], digest) {
      k := |calls| - 1;
    } else {
      k := OutOfSyncIsStranded(w, before, digest);
      assert before[..k] == calls[..k];
      forall j | k < j < |calls| ensures !Touches(Run(w, calls[..j], digest), calls[j], digest) {
        if j < |before| { assert before[..j] == calls[..j]; }
      }
    }
  }

  /** The short-circuit: the rendered content is what is recorded as applied and what is on disk. */
  predicate Unchanged(w: World, env: Environment, digest: string -> string) {
    env.rendered.Some? && w.applied == Some(digest(env.rendered.value)) && w.disk == env.rendered.value
  }

  /** A call succeeds exactly when there is nothing to change or the engine's test, the restart and
      the health check all do; only then do the file and the recorded digest move. It restarts the
      engine exactly when the test accepted a changed file. */
  lemma OutcomeMeans(w: World, env: Environment, digest: string -> string)
    ensures var (end, out) := Apply(w, env, digest);
            var same := env.rendered.Some? && w.disk == env.rendered.value
                        && w.applied == Some(digest(env.rendered.value));
            var tested := env.rendered.Some? && !same && env.verdict == Accepts;
            && (out.ok <==> same || (tested && env.restart == Restarted && env.healthy))
            && (out.restarts != [] <==> tested)
            && out.writes == (if same || env.rendered.None? then []
                              else if out.ok then [env.rendered.value] else [env.rendered.value, w.disk])
            && (out.restarted <==> tested && env.restart == Restarted)
            && end.disk == (if out.ok then env.rendered.value else w.disk)
            && end.applied == (if out.ok then Some(digest(env.rendered.value)) else w.applied)
            && (!tested ==> end.loaded == w.loaded)
            && (tested && env.restart != Restarted ==>
                  end.loaded == if env.restart == RaisedUntouched then w.loaded else env.rendered.value)
            && (tested && env.restart == Restarted && !env.healthy ==>
                  end.loaded == if env.rollback == RaisedUntouched then env.rendered.value else w.disk)
            && (tested && out.ok ==> end.loaded == env.rendered.value)
  {
  }

  /** A successful result means the engine runs the file, except when there was nothing to change
      and the engine was out of step before the call. */
  lemma OkMeansLoaded(w: World, env: Environment, digest: string -> string)
    requires Apply(w, env, digest).1.ok
    ensures InSync(Apply(w, env, digest).0) <==> !Unchanged(w, env, digest) || InSync(w)
    ensures Apply(w, env, digest).1.restarted <==> !Unchanged(w, env, digest)
  {
  }

  /** The short-circuit hides a stranded engine: after any stranding call, applying the
      content that is on disk again reports success and still leaves the engine on the other. */
  lemma StrandedRepeatReportsOk(w: World, env: Environment, again: Environment, digest: string -> string)
    requires w.applied == Some(digest(w.disk)) && Strands(w, env, digest) && again.rendered == Some(w.disk)
    ensures var (end, out) := Apply(Apply(w, env, digest).0, again, digest);
            out.ok && !out.restarted && !InSync(end)
  {
  }
}
