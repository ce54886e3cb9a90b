/** The second factor of one account: enrolment, one-time codes with a replay guard, and recovery
    codes. The code generator, the shape test of a typed code and the password hash are foreign. */
module Totp {
  import opened Text

  type Secret = string

  /** `shape` gives the six digits of a code that looks like a one-time code; any other code is
      a recovery code, spelled the one way by `normal`. */
  datatype Foreign = Foreign(codeAt: (Secret, int) -> string, shape: string -> Option<string>,
                             normal: string -> string, verifies: (string, string) -> bool)

  datatype Row = Row(id: nat, hash: string, used: bool)

  /** A secret without `enabled` is pending: shown, not yet proven. */
  datatype Factor = Factor(secret: Option<Secret>, enabled: bool, lastStep: Option<int>, version: nat,
                           rows: seq<Row>, nextRow: nat)

  const Fresh := Factor(None, false, None, 0, [], 0)

  function StepOf(now: int): int { now / 30 }

  /** A step the code may be accepted for: next to the current one, later than the last accepted
      one, and with this code. */
  predicate Admissible(f: Foreign, secret: Secret, digits: string, last: Option<int>, now: int, step: int) {
    && StepOf(now) - 1 <= step <= StepOf(now) + 1
    && (last.Some? ==> step > last.value)
    && f.codeAt(secret, step * 30) == digits
  }

  /** The step a code is accepted for: the earliest admissible one. */
  function Matched(f: Foreign, secret: Secret, code: string, last: Option<int>, now: int): (r: Option<int>)
    ensures r.Some? ==> f.shape(code).Some? && Admissible(f, secret, f.shape(code).value, last, now, r.value)
    ensures f.shape(code).Some? ==>
              forall step :: Admissible(f, secret, f.shape(code).value, last, now, step) ==> r.Some? && r.value <= step
  {
    var current := StepOf(now);
    if f.shape(code).None? then None
    else
      var digits := f.shape(code).value;
      if Admissible(f, secret, digits, last, now, current - 1) then Some(current - 1)
      else if Admissible(f, secret, digits, last, now, current) then Some(current)
      else if Admissible(f, secret, digits, last, now, current + 1) then Some(current + 1)
      else None
  }

  /** An app's code is accepted when the app's clock `t` is within a step of the server's and past the
      last accepted step: the code it shows is the one generated for the start of its step. */
  lemma AppCodeAccepted(f: Foreign, secret: Secret, code: string, last: Option<int>, now: int, t: int)
    requires f.shape(code) == Some(f.codeAt(secret, t / 30 * 30))
    requires now / 30 - 1 <= t / 30 <= now / 30 + 1 && (last.Some? ==> t / 30 > last.value)
    ensures Matched(f, secret, code, last, now).Some? && Matched(f, secret, code, last, now).value <= t / 30
  {
    assert Admissible(f, secret, f.shape(code).value, last, now, t / 30);
  }

  /** And whatever is accepted is the code generated for second `30 * k` of a step `k` like that. */
  lemma AcceptedCode(f: Foreign, secret: Secret, code: string, last: Option<int>, now: int)
    requires Matched(f, secret, code, last, now).Some?
    ensures var k := Matched(f, secret, code, last, now).value;
            && f.shape(code) == Some(f.codeAt(secret, 30 * k))
            && now / 30 - 1 <= k <= now / 30 + 1 && (last.Some? ==> k > last.value)
  {
  }

  method VerifyTotp(f: Foreign, secret: Secret, code: string, last: Option<int>, now: int) returns (r: Option<int>)
    ensures r == Matched(f, secret, code, last, now)
  {
    var digits := f.shape(code);
    if digits.None? { return None; }
    var current := StepOf(now);
    var offset := -1;
    while offset <= 1
      invariant -1 <= offset <= 2
      invariant forall step :: current - 1 <= step < current + offset ==>
                  !Admissible(f, secret, digits.value, last, now, step)
    {
      var step := current + offset;
      offset := offset + 1;
      if last.Some? && step <= last.value { continue; }
      if f.codeAt(secret, step * 30) == digits.value { return Some(step); }
    }
    return None;
  }

  /** The first unused row, from `i` on, that the typed recovery code verifies against. */
  function FirstMatch(f: Foreign, rows: seq<Row>, wanted: string, i: nat): (r: Option<nat>)
    requires i <= |rows|
    ensures r.Some? ==> i <= r.value < |rows| && !rows[r.value].used && f.verifies(wanted, rows[r.value].hash)
    ensures forall k :: i <= k < |rows| && !rows[k].used && f.verifies(wanted, rows[k].hash) ==> r.Some? && r.value <= k
    decreases |rows| - i
  {
    if i == |rows| then None
    else if !rows[i].used && f.verifies(wanted, rows[i].hash) then Some(i)
    else FirstMatch(f, rows, wanted, i + 1)
  }

  function NewRows(hashes: seq<string>, first: nat): seq<Row> {
    seq(|hashes|, i requires 0 <= i < |hashes| => Row(first + i, hashes[i], false))
  }

  /** New rows are unused, hold the given hashes in order, and have the next ids. */
  lemma NewRowsAre(hashes: seq<string>, first: nat)
    ensures |NewRows(hashes, first)| == |hashes|
    ensures forall i :: 0 <= i < |hashes| ==>
              && NewRows(hashes, first)[i].id == first + i && NewRows(hashes, first)[i].hash == hashes[i]
              && !NewRows(hashes, first)[i].used
  {
  }

  // ----- one account's steps -----

  datatype Step =
    | Start(secret: Secret)
    | Confirm(now: int, code: string, hashes: seq<string>)
    | Verify(now: int, code: string)
    | Mint(hashes: seq<string>)
    | Disable

  datatype Event = Reset | AcceptedStep(step: int, now: int) | Redeemed(row: nat)

  /** What a step did, and `None` when it was refused. */
  function Outcome(f: Foreign, u: Factor, step: Step): Option<seq<Event>> {
    match step
    case Start(_) => if u.enabled then None else Some([Reset])
    case Confirm(now, code, _) =>
      if u.enabled || u.secret.None? then None
      else
        var m := Matched(f, u.secret.value, code, None, now);
        if m.None? then None else Some([AcceptedStep(m.value, now)])
    case Verify(now, code) =>
      if !u.enabled || u.secret.None? then None
      else if f.shape(code).Some? then
        var m := Matched(f, u.secret.value, code, u.lastStep, now);
        if m.None? then None else Some([AcceptedStep(m.value, now)])
      else
        var m := FirstMatch(f, u.rows, f.normal(code), 0);
        if m.None? then None else Some([Redeemed(u.rows[m.value].id)])
    case Mint(_) => if !u.enabled then None else Some([])
    case Disable => if !u.enabled then None else Some([Reset])
  }

  function Next(f: Foreign, u: Factor, step: Step): Factor {
    if Outcome(f, u, step).None? then u
    else
      match step
      case Start(secret) => u.(secret := Some(secret), lastStep := None)
      case Confirm(now, code, hashes) =>
        u.(enabled := true, lastStep := Matched(f, u.secret.value, code, None, now), version := u.version + 1,
           rows := NewRows(hashes, u.nextRow), nextRow := u.nextRow + |hashes|)
      case Verify(now, code) =>
        if f.shape(code).Some? then u.(lastStep := Matched(f, u.secret.value, code, u.lastStep, now))
        else
          var i := FirstMatch(f, u.rows, f.normal(code), 0).value;
          u.(rows := u.rows[i := u.rows[i].(used := true)])
      case Mint(hashes) =>
        u.(rows := NewRows(hashes, u.nextRow), nextRow := u.nextRow + |hashes|, version := u.version + 1)
      case Disable => u.(secret := None, enabled := false, lastStep := None, version := u.version + 1, rows := [])
  }

  /** The account row and its code rows, updated in place. */
  class TwoFactor {
    var secret: Option<Secret>
    var enabled: bool
    var lastStep: Option<int>
    var version: nat
    var rows: seq<Row>
    var nextRow: nat

    function Value(): Factor reads this { Factor(secret, enabled, lastStep, version, rows, nextRow) }

    constructor ()
      ensures Value() == Fresh
    {
      secret, enabled, lastStep, version, rows, nextRow := None, false, None, 0, [], 0;
    }

    method StartEnrolment(f: Foreign, generated: Secret) returns (ok: bool)
      modifies this
      ensures Value() == Next(f, old(Value()), Start(generated))
      ensures ok == Outcome(f, old(Value()), Start(generated)).Some?
    {
      if enabled { return false; }
      secret := Some(generated);
      lastStep := None;
      return true;
    }

    method ReplaceRecoveryCodes(hashes: seq<string>)
      modifies this`rows, this`nextRow
      ensures rows == NewRows(hashes, old(nextRow)) && nextRow == old(nextRow) + |hashes|
    {
      rows := [];
      var i := 0;
      while i < |hashes|
        invariant 0 <= i <= |hashes| && nextRow == old(nextRow) + i
        invariant rows == NewRows(hashes[..i], old(nextRow))
      {
        rows := rows + [Row(nextRow, hashes[i], false)];
        nextRow := nextRow + 1;
        i := i + 1;
      }
      assert hashes[..|hashes|] == hashes;
    }

    method ConfirmEnrolment(f: Foreign, now: int, code: string, hashes: seq<string>) returns (ok: bool)
      modifies this
      ensures Value() == Next(f, old(Value()), Confirm(now, code, hashes))
      ensures ok == Outcome(f, old(Value()), Confirm(now, code, hashes)).Some?
    {
      if enabled || secret.None? { return false; }
      var step := VerifyTotp(f, secret.value, code, None, now);
      if step.None? { return false; }
      enabled := true;
      lastStep := step;
      version := version + 1;
      ReplaceRecoveryCodes(hashes);
      return true;
    }

    method MintRecoveryCodes(f: Foreign, hashes: seq<string>) returns (ok: bool)
      modifies this
      ensures Value() == Next(f, old(Value()), Mint(hashes))
      ensures ok == Outcome(f, old(Value()), Mint(hashes)).Some?
    {
      if !enabled { return false; }
      ReplaceRecoveryCodes(hashes);
      version := version + 1;
      return true;
    }

    method VerifyCode(f: Foreign, now: int, code: string) returns (ok: bool)
      modifies this
      ensures Value() == Next(f, old(Value()), Verify(now, code))
      ensures ok == Outcome(f, old(Value()), Verify(now, code)).Some?
    {
      if !enabled || secret.None? { return false; }
      if f.shape(code).Some? {
        var step := VerifyTotp(f, secret.value, code, lastStep, now);
        if step.None? { return false; }
        lastStep := step;
        return true;
      }
      var wanted := f.normal(code);
      var i := 0;
      while i < |rows|
        invariant 0 <= i <= |rows| && Value() == old(Value())
        invariant FirstMatch(f, rows, wanted, 0) == FirstMatch(f, rows, wanted, i)
      {
        if !rows[i].used && f.verifies(wanted, rows[i].hash) {
          rows := rows[i := rows[i].(used := true)];
          return true;
        }
        i := i + 1;
      }
      return false;
    }

    method TurnOff(f: Foreign) returns (ok: bool)
      modifies this
      ensures Value() == Next(f, old(Value()), Disable)
      ensures ok == Outcome(f, old(Value()), Disable).Some?
    {
      if !enabled { return false; }
      secret := None;
      enabled := false;
      lastStep := None;
      version := version + 1;
      rows := [];
      return true;
    }
  }

  // ----- one step, in plain terms -----

  lemma StartMeans(f: Foreign, u: Factor, secret: Secret)
    ensures var v := Next(f, u, Start(secret));
            if u.enabled then Outcome(f, u, Start(secret)).None? && v == u
            else Outcome(f, u, Start(secret)) == Some([Reset])
                 && v == Factor(Some(secret), false, None, u.version, u.rows, u.nextRow)
  {
  }

  /** Confirming needs a pending secret and one of its codes; it then turns the factor on, remembers
      the step, raises the version and replaces every recovery code by the given ones. */
  lemma ConfirmMeans(f: Foreign, u: Factor, now: int, code: string, hashes: seq<string>)
    ensures var v := Next(f, u, Confirm(now, code, hashes));
            var ok := Outcome(f, u, Confirm(now, code, hashes)).Some?;
            && (ok <==> !u.enabled && u.secret.Some? && Matched(f, u.secret.value, code, None, now).Some?)
            && (!ok ==> v == u)
            && (ok ==> && v.enabled && v.secret == u.secret && v.version == u.version + 1
                       && v.lastStep == Matched(f, u.secret.value, code, None, now)
                       && |v.rows| == |hashes| && v.nextRow == u.nextRow + |hashes|
                       && forall i :: 0 <= i < |hashes| ==> v.rows[i] == Row(u.nextRow + i, hashes[i], false))
  {
  }

  /** A shaped code is a time-step, and only the remembered step changes; any other is a recovery
      code, and only the first row it opens is used up. */
  lemma VerifyMeans(f: Foreign, u: Factor, now: int, code: string)
    ensures var v := Next(f, u, Verify(now, code));
            var ok := Outcome(f, u, Verify(now, code)).Some?;
            var on := u.enabled && u.secret.Some?;
            && (!ok ==> v == u)
            && (f.shape(code).Some? ==>
                  && (ok <==> on && Matched(f, u.secret.value, code, u.lastStep, now).Some?)
                  && (ok ==> v == u.(lastStep := Matched(f, u.secret.value, code, u.lastStep, now))))
            && (f.shape(code).None? ==>
                  && (ok <==> on && exists i :: 0 <= i < |u.rows| && Opens(f, u.rows[i], code))
                  && (ok ==> exists i :: 0 <= i < |u.rows| && Opens(f, u.rows[i], code)
                                         && (forall j :: 0 <= j < i ==> !Opens(f, u.rows[j], code))
                                         && v == u.(rows := u.rows[i := u.rows[i].(used := true)])))
  {
    if f.shape(code).None? {
      var m := FirstMatch(f, u.rows, f.normal(code), 0);
      if m.Some? { assert Opens(f, u.rows[m.value], code); }
    }
  }

  predicate Opens(f: Foreign, row: Row, code: string) { !row.used && f.verifies(f.normal(code), row.hash) }

  /** Minting leaves exactly the given recovery codes, none of them used. */
  lemma MintMeans(f: Foreign, u: Factor, hashes: seq<string>)
    ensures var v := Next(f, u, Mint(hashes));
            if !u.enabled then Outcome(f, u, Mint(hashes)).None? && v == u
            else && Outcome(f, u, Mint(hashes)).Some?
                 && v == u.(rows := v.rows, nextRow := u.nextRow + |hashes|, version := u.version + 1)
                 && |v.rows| == |hashes|
                 && forall i :: 0 <= i < |hashes| ==> v.rows[i] == Row(u.nextRow + i, hashes[i], false)
  {
  }

  /** Disabling leaves nothing that any code or recovery code could answer to, until a new start. */
  lemma DisableMeans(f: Foreign, u: Factor, now: int, code: string, hashes: seq<string>)
    ensures var v := Next(f, u, Disable);
            if !u.enabled then Outcome(f, u, Disable).None? && v == u
            else && v == Factor(None, false, None, u.version + 1, [], u.nextRow)
                 && Outcome(f, v, Verify(now, code)).None? && Outcome(f, v, Confirm(now, code, hashes)).None?
  {
  }

  // ----- whole runs -----

  datatype Trace = Trace(user: Factor, log: seq<Event>)

  function Run(f: Foreign, steps: seq<Step>): Trace {
    if steps == [] then Trace(Fresh, [])
    else
      var before := Run(f, steps[..|steps| - 1]);
      var step := steps[|steps| - 1];
      var outcome := Outcome(f, before.user, step);
      Trace(Next(f, before.user, step), before.log + if outcome.Some? then outcome.value else [])
  }

  ghost predicate NoResetFrom(log: seq<Event>, i: nat, j: nat)
    requires i <= j <= |log|
  {
    forall k :: i <= k < j ==> !log[k].Reset?
  }

  ghost predicate Increasing(log: seq<Event>) {
    forall i, j :: 0 <= i < j < |log| && log[i].AcceptedStep? && log[j].AcceptedStep? && NoResetFrom(log, i, j)
                   ==> log[i].step < log[j].step
  }

  ghost predicate Timely(log: seq<Event>) {
    forall e <- log :: e.AcceptedStep? ==> StepOf(e.now) - 1 <= e.step <= StepOf(e.now) + 1
  }

  ghost predicate OnceEach(log: seq<Event>) {
    forall i, j :: 0 <= i < j < |log| && log[i].Redeemed? && log[j].Redeemed? ==> log[i].row != log[j].row
  }

  /** Everything accepted since the last reset is at or before the remembered step. */
  ghost predicate Remembered(u: Factor, log: seq<Event>) {
    forall i :: 0 <= i < |log| && log[i].AcceptedStep? && NoResetFrom(log, i, |log|)
                ==> u.enabled && u.lastStep.Some? && log[i].step <= u.lastStep.value
  }

  /** A redeemed row is used up, and row ids are handed out once. */
  ghost predicate UsedUp(u: Factor, log: seq<Event>) {
    && (forall i :: 0 <= i < |u.rows| ==> u.rows[i].id < u.nextRow)
    && (forall i, j :: 0 <= i < j < |u.rows| ==> u.rows[i].id != u.rows[j].id)
    && (forall e <- log :: e.Redeemed? ==> e.row < u.nextRow)
    && (forall e <- log, i :: e.Redeemed? && 0 <= i < |u.rows| && u.rows[i].id == e.row ==> u.rows[i].used)
  }

  ghost predicate Inv(t: Trace) {
    Increasing(t.log) && Timely(t.log) && OnceEach(t.log) && Remembered(t.user, t.log) && UsedUp(t.user, t.log)
  }

  lemma LogReset(log: seq<Event>, u: Factor)
    requires Increasing(log) && Timely(log) && OnceEach(log)
    ensures var more := log + [Reset]; Increasing(more) && Timely(more) && OnceEach(more) && Remembered(u, more)
  {
    var more := log + [Reset];
    forall i, j | 0 <= i <= j <= |log| && NoResetFrom(more, i, j) ensures NoResetFrom(log, i, j) {
      assert forall k :: i <= k < j ==> more[k] == log[k];
    }
    assert more[|log|].Reset?;
  }

  lemma LogStep(t: Trace, step: int, now: int, u: Factor)
    requires Inv(t) && StepOf(now) - 1 <= step <= StepOf(now) + 1
    requires t.user.enabled && t.user.lastStep.Some? ==> t.user.lastStep.value < step
    requires u.enabled && u.lastStep == Some(step)
    ensures var more := t.log + [AcceptedStep(step, now)];
            Increasing(more) && Timely(more) && OnceEach(more) && Remembered(u, more)
  {
    var more := t.log + [AcceptedStep(step, now)];
    forall i, j | 0 <= i <= j <= |t.log| && NoResetFrom(more, i, j) ensures NoResetFrom(t.log, i, j) {
      assert forall k :: i <= k < j ==> more[k] == t.log[k];
    }
    forall i | 0 <= i < |t.log| && t.log[i].AcceptedStep? && NoResetFrom(more, i, |more|)
      ensures NoResetFrom(t.log, i, |t.log|)
    {
      assert forall k :: i <= k < |t.log| ==> more[k] == t.log[k];
    }
  }

  lemma LogRow(t: Trace, row: nat, u: Factor)
    requires Inv(t) && Redeemed(row) !in t.log && u.enabled == t.user.enabled && u.lastStep == t.user.lastStep
    ensures var more := t.log + [Redeemed(row)];
            Increasing(more) && Timely(more) && OnceEach(more) && Remembered(u, more)
  {
    var more := t.log + [Redeemed(row)];
    forall i, j | 0 <= i <= j <= |t.log| && NoResetFrom(more, i, j) ensures NoResetFrom(t.log, i, j) {
      assert forall k :: i <= k < j ==> more[k] == t.log[k];
    }
    forall i | 0 <= i < |t.log| && t.log[i].AcceptedStep? && NoResetFrom(more, i, |more|)
      ensures NoResetFrom(t.log, i, |t.log|)
    {
      assert forall k :: i <= k < |t.log| ==> more[k] == t.log[k];
    }
    forall i | 0 <= i < |t.log| && t.log[i].Redeemed? ensures t.log[i].row != row {
      assert t.log[i] in t.log;
    }
  }

  lemma RowsStayUsedUp(t: Trace, u: Factor, events: seq<Event>)
    requires UsedUp(t.user, t.log) && (forall e <- events :: !e.Redeemed?)
    requires (u.rows == t.user.rows && u.nextRow == t.user.nextRow)
          || (u.nextRow >= t.user.nextRow
              && (forall i :: 0 <= i < |u.rows| ==> t.user.nextRow <= u.rows[i].id < u.nextRow)
              && (forall i, j :: 0 <= i < j < |u.rows| ==> u.rows[i].id != u.rows[j].id))
    ensures UsedUp(u, t.log + events)
  {
  }

  lemma StepKeepsInv(f: Foreign, t: Trace, step: Step)
    requires Inv(t)
    ensures var outcome := Outcome(f, t.user, step);
            Inv(Trace(Next(f, t.user, step), t.log + if outcome.Some? then outcome.value else []))
  {
    var outcome := Outcome(f, t.user, step);
    var u := Next(f, t.user, step);
    hide Increasing, Timely, OnceEach, Remembered, UsedUp, FirstMatch, Matched;
    if outcome.None? {
      assert t.log + [] == t.log;
    } else {
      match step
      case Start(_) =>
        LogReset(t.log, u);
        RowsStayUsedUp(t, u, [Reset]);
      case Confirm(now, code, hashes) =>
        LogStep(t, u.lastStep.value, now, u);
        RowsStayUsedUp(t, u, outcome.value);
      case Verify(now, code) =>
        if f.shape(code).Some? {
          LogStep(t, u.lastStep.value, now, u);
          RowsStayUsedUp(t, u, outcome.value);
        } else {
          RedeemKeepsInv(f, t, code);
        }
      case Mint(hashes) =>
        assert t.log + [] == t.log;
        RowsStayUsedUp(t, u, []);
        MintRemembers(t, u);
      case Disable =>
        LogReset(t.log, u);
        RowsStayUsedUp(t, u, [Reset]);
    }
  }

  lemma MintRemembers(t: Trace, u: Factor)
    requires Remembered(t.user, t.log) && u.enabled == t.user.enabled && u.lastStep == t.user.lastStep
    ensures Remembered(u, t.log)
  {
  }

  lemma RedeemKeepsInv(f: Foreign, t: Trace, code: string)
    requires Inv(t) && t.user.enabled && t.user.secret.Some? && f.shape(code).None?
    requires FirstMatch(f, t.user.rows, f.normal(code), 0).Some?
    ensures var i := FirstMatch(f, t.user.rows, f.normal(code), 0).value;
            var rows := t.user.rows[i := t.user.rows[i].(used := true)];
            Inv(Trace(t.user.(rows := rows), t.log + [Redeemed(t.user.rows[i].id)]))
  {
    hide Increasing, Timely, OnceEach, Remembered, FirstMatch;
    var i := FirstMatch(f, t.user.rows, f.normal(code), 0).value;
    var u := t.user.(rows := t.user.rows[i := t.user.rows[i].(used := true)]);
    var id := t.user.rows[i].id;
    assert Redeemed(id) !in t.log;
    LogRow(t, id, u);
  }

  lemma {:induction false} RunKeepsInv(f: Foreign, steps: seq<Step>)
    ensures Inv(Run(f, steps))
  {
    hide Inv, Outcome, Next;
    if steps == [] {
      assert Inv(Trace(Fresh, [])) by { StartsWell(); }
    } else {
      RunKeepsInv(f, steps[..|steps| - 1]);
      StepKeepsInv(f, Run(f, steps[..|steps| - 1]), steps[|steps| - 1]);
    }
  }

  lemma StartsWell()
    ensures Inv(Trace(Fresh, []))
  {
  }

  /** Whatever the clock does: between resets no time-step is accepted twice, nor an earlier one
      after a later one; every accepted step is next to the clock's; no recovery code works twice. */
  lemma ReplayGuard(f: Foreign, steps: seq<Step>, i: nat, j: nat)
    requires i < j < |Run(f, steps).log|
    ensures var log := Run(f, steps).log;
            && (log[i].AcceptedStep? && log[j].AcceptedStep? && (forall k :: i <= k < j ==> !log[k].Reset?)
                ==> log[i].step < log[j].step)
            && (log[j].AcceptedStep? ==> log[j].now / 30 - 1 <= log[j].step <= log[j].now / 30 + 1)
            && (log[i].Redeemed? && log[j].Redeemed? ==> log[i].row != log[j].row)
  {
    hide Run;
    RunKeepsInv(f, steps);
    var log := Run(f, steps).log;
    assert log[j] in log;
    if forall k :: i <= k < j ==> !log[k].Reset? { assert NoResetFrom(log, i, j); }
  }

  /** The secret in force was confirmed at step `i`, and nothing has replaced it since. */
  ghost predicate ConfirmedAt(f: Foreign, steps: seq<Step>, secret: Secret, i: nat)
    requires i < |steps|
  {
    var then_ := Run(f, steps[..i]).user;
    steps[i].Confirm? && Outcome(f, then_, steps[i]).Some? && then_.secret == Some(secret)
  }

  lemma {:induction false} EnabledWasConfirmed(f: Foreign, steps: seq<Step>) returns (i: nat)
    requires Run(f, steps).user.enabled
    ensures i < |steps| && Run(f, steps).user.secret.Some?
    ensures ConfirmedAt(f, steps, Run(f, steps).user.secret.value, i)
  {
    var n := |steps| - 1;
    var before := steps[..n];
    if ConfirmsNow(f, Run(f, before).user, steps[n]) {
      i := n;
    } else {
      i := EnabledWasConfirmed(f, before);
      assert before[..i] == steps[..i] && before[i] == steps[i];
    }
  }

  predicate ConfirmsNow(f: Foreign, u: Factor, step: Step) { step.Confirm? && Outcome(f, u, step).Some? }

  /** A pending secret never answers for the account: whatever is accepted, by code or by recovery
      code, is accepted under a secret that an earlier confirmation proved. */
  lemma PendingNeverVerifies(f: Foreign, steps: seq<Step>, now: int, code: string) returns (i: nat)
    requires Outcome(f, Run(f, steps).user, Verify(now, code)).Some?
    ensures i < |steps| && Run(f, steps).user.secret.Some?
    ensures ConfirmedAt(f, steps, Run(f, steps).user.secret.value, i)
  {
    i := EnabledWasConfirmed(f, steps);
  }

  /** The guard refuses no honest code: one generated for a step next to the clock's and later
      than the last accepted one is accepted, and a correct unused recovery code is too. */
  lemma HonestCodesWork(f: Foreign, u: Factor, now: int, code: string, step: int, row: nat)
    requires u.enabled && u.secret.Some?
    ensures f.shape(code).Some? && Admissible(f, u.secret.value, f.shape(code).value, u.lastStep, now, step)
        ==> Outcome(f, u, Verify(now, code)).Some?
    ensures f.shape(code).None? && row < |u.rows| && !u.rows[row].used && f.verifies(f.normal(code), u.rows[row].hash)
        ==> Outcome(f, u, Verify(now, code)).Some?
  {
  }
}
