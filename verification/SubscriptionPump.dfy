/** The task that keeps a live-log socket's Redis subscription matching what the page
    watches. The event loop runs code between two awaits without interruption, so a step
    here is one such stretch, and a watch change can only fall between steps. */
module SubscriptionPump {
  import opened Text

  type Channel = string

  /** Where the task is suspended, or the head of its loop. */
  datatype Place =
    | LoopHead
    | WaitingForWatch
    | Unsubscribing(wanted: set<Channel>)
    | Subscribing(wanted: set<Channel>)
    | Reading
    | Forwarding
    | Closing
    | RetryPause

  /** `connection` is what the Redis connection is subscribed to, `None` without one;
      `current` is the task's own record of it; `watched` and `changed` are the session's
      latest watch and the event that announces a new one. */
  datatype State = State(
    place: Place, connection: Option<set<Channel>>, current: set<Channel>,
    watched: set<Channel>, changed: bool)

  /** The task's first turn; the client may have set a watch before it. */
  function Start(watched: set<Channel>, changed: bool): State { State(LoopHead, None, {}, watched, changed) }

  /** What happens next: the client changes the watch, the task runs to its next await with
      the awaited call succeeding or failing, or a read yields a message. */
  datatype Step =
    | WatchChange(hosts: set<Channel>)
    | Proceed
    | Failure
    | Message

  predicate Enabled(s: State, step: Step) {
    match step
    case WatchChange(_) => s.place != LoopHead
    case Proceed => s.place == WaitingForWatch ==> s.changed
    case Failure =>
      || (s.place.LoopHead? && Connects(s) && s.connection.None?)
      || s.place.Unsubscribing? || s.place.Subscribing? || s.place.Reading? || s.place.Closing?
    case Message => s.place.Reading?
  }

  /** Whether the loop head has something to do on Redis, opening a connection if there is none. */
  predicate Connects(s: State) { s.watched != {} || s.current != {} }

  /** The part of the loop after `open_pubsub` succeeded, up to the next await. */
  function Reconcile(s: State, wanted: set<Channel>): State {
    if wanted != s.current then
      if s.current - wanted != {} then s.(place := Unsubscribing(wanted))
      else s.(place := Subscribing(wanted))
    else s.(place := Reading)
  }

  /** The except branch: close what there is, then forget it. */
  function Fail(s: State): State {
    if s.connection.Some? then s.(place := Closing) else s.(place := RetryPause, current := {})
  }

  function Next(s: State, step: Step): State
    requires Enabled(s, step)
  {
    match step
    case WatchChange(hosts) => s.(watched := hosts, changed := true)
    case Message => s.(place := Forwarding)
    case Failure =>
      if s.place.Closing? then s.(place := RetryPause, connection := None, current := {}) else Fail(s)
    case Proceed =>
      match s.place
      case LoopHead =>
        if !Connects(s) then s.(place := WaitingForWatch, changed := false)
        else
          Reconcile(if s.connection.None? then s.(connection := Some({})) else s, s.watched)
      case WaitingForWatch => s.(place := LoopHead)
      case Unsubscribing(wanted) =>
        var gone := s.current - wanted;
        var s := s.(current := s.current - gone,
                    connection := if s.connection.Some? then Some(s.connection.value - gone) else None);
        if wanted - s.current != {} then s.(place := Subscribing(wanted)) else s.(place := LoopHead)
      case Subscribing(wanted) =>
        var added := wanted - s.current;
        s.(place := LoopHead, current := s.current + added,
           connection := if s.connection.Some? then Some(s.connection.value + added) else None)
      case Reading => s.(place := LoopHead)
      case Forwarding => s.(place := LoopHead)
      case Closing => s.(place := RetryPause, connection := None, current := {})
      case RetryPause => s.(place := LoopHead)
  }

  ghost predicate ValidRun(s: State, steps: seq<Step>)
    decreases |steps|
  {
    steps == [] || (Enabled(s, steps[0]) && ValidRun(Next(s, steps[0]), steps[1..]))
  }

  ghost function Run(s: State, steps: seq<Step>): State
    requires ValidRun(s, steps)
    decreases |steps|
  {
    if steps == [] then s else Run(Next(s, steps[0]), steps[1..])
  }

  // ----- what every step keeps -----

  ghost predicate Inv(s: State) {
    // The record matches the connection whenever the task is not tearing it down.
    && (!s.place.Closing? ==> s.current == (if s.connection.Some? then s.connection.value else {}))
    // (Un)subscribing and reading happen on a connection.
    && (s.place.Unsubscribing? || s.place.Subscribing? || s.place.Reading? || s.place.Closing? ==> s.connection.Some?)
    && (s.place.Subscribing? ==> s.current <= s.place.wanted)
    && (s.place.RetryPause? ==> s.connection.None? && s.current == {})
    // No lost wake-up: asleep without a pending wake-up only while nothing is watched.
    && (s.place.WaitingForWatch? && !s.changed ==> s.watched == {})
    && (s.place.WaitingForWatch? ==> s.current == {})
  }

  lemma NoDifference(a: set<Channel>, b: set<Channel>)
    ensures a - b == {} <==> a <= b
    ensures b - (a - (a - b)) == {} ==> a - (a - b) == b
  {
    if a - b == {} {
      forall c <- a ensures c in b { assert c !in a - b; }
    }
    if b - (a - (a - b)) == {} {
      forall c <- b ensures c in a - (a - b) { assert c !in b - (a - (a - b)); }
    }
  }

  lemma StepKeepsInv(s: State, step: Step)
    requires Inv(s) && Enabled(s, step)
    ensures Inv(Next(s, step))
  {
    NoDifference(s.current, s.watched);
    if s.place.Unsubscribing? { NoDifference(s.current, s.place.wanted); }
  }

  lemma {:induction false} RunKeepsInv(s: State, steps: seq<Step>)
    requires Inv(s) && ValidRun(s, steps)
    ensures Inv(Run(s, steps))
    decreases |steps|
  {
    if steps != [] {
      StepKeepsInv(s, steps[0]);
      RunKeepsInv(Next(s, steps[0]), steps[1..]);
    }
  }

  /** In every run: at the loop head the connection's subscriptions equal `current`, and
      without a connection `current` is empty; and the task never sleeps on the event while
      something is watched. */
  lemma PumpSafety(watched: set<Channel>, changed: bool, steps: seq<Step>)
    requires ValidRun(Start(watched, changed), steps)
    ensures var s := Run(Start(watched, changed), steps);
            && (s.place.LoopHead? && s.connection.Some? ==> s.connection.value == s.current)
            && (s.place.LoopHead? && s.connection.None? ==> s.current == {})
            && (s.place.WaitingForWatch? && s.watched != {} ==> Enabled(s, Proceed))
  {
    RunKeepsInv(Start(watched, changed), steps);
  }

  /** A read starts only when the subscriptions equal the latest watch, whatever failed and
      whatever changed before. */
  lemma ReadsStartCurrent(watched: set<Channel>, changed: bool, steps: seq<Step>, step: Step)
    requires ValidRun(Start(watched, changed), steps)
    requires var s := Run(Start(watched, changed), steps);
             Enabled(s, step) && !s.place.Reading? && Next(s, step).place.Reading?
    ensures var s := Next(Run(Start(watched, changed), steps), step);
            s.current == s.watched && s.connection == Some(s.watched)
  {
    RunKeepsInv(Start(watched, changed), steps);
    StepKeepsInv(Run(Start(watched, changed), steps), step);
  }

  // ----- convergence -----

  /** The task running on its own for `n` steps: Redis answers, the watch stays as it is. */
  function Undisturbed(s: State, n: nat): State
    decreases n
  {
    if n == 0 || !Enabled(s, Proceed) then s else Undisturbed(Next(s, Proceed), n - 1)
  }

  /** From the loop head, undisturbed, at most four steps lead to reading exactly the watched
      channels, or to waiting when nothing is watched. */
  lemma Converges(s: State) returns (n: nat)
    requires Inv(s) && s.place.LoopHead?
    ensures n <= 4
    ensures var t := Undisturbed(s, n);
            && t.watched == t.current == s.watched
            && (if s.watched == {} then t.place.WaitingForWatch? else t.place.Reading?)
  {
    var s1 := Next(s, Proceed);
    assert Undisturbed(s, 1) == Undisturbed(s1, 0) == s1;
    if s1.place.WaitingForWatch? || s1.place.Reading? { return 1; }
    NoDifference(s.current, s.watched);
    var s2 := Next(s1, Proceed);
    var s3 := Next(s2, Proceed);
    assert Undisturbed(s, 3) == Undisturbed(s1, 2) == Undisturbed(s2, 1) == Undisturbed(s3, 0) == s3;
    if s2.place.LoopHead? {
      return 3;
    }
    assert s3.current == s.watched;
    var s4 := Next(s3, Proceed);
    assert Undisturbed(s, 4) == Undisturbed(s1, 3) == Undisturbed(s2, 2) == Undisturbed(s3, 1);
    assert Undisturbed(s3, 1) == Undisturbed(s4, 0) == s4;
    return 4;
  }
}
