/** Announcing new CrowdSec decisions on a live-log socket: each poll is compared with the
    previous successful one. */
module DecisionFeed {
  import opened Text
  import RL = RateLimiter

  datatype Decision = Decision(id: Option<int>, value: string)

  const DECISIONS_SECONDS := 5.0

  function Ids(ds: seq<Decision>): set<int> { set d <- ds | d.id.Some? :: d.id.value }

  lemma IdsAppend(ds: seq<Decision>, d: Decision)
    ensures Ids(ds + [d]) == Ids(ds) + (if d.id.Some? then {d.id.value} else {})
  {
    var all := ds + [d];
    assert d in all && forall x <- ds :: x in all;
  }

  /** The decisions with an id neither in `seen` nor met earlier in the list. */
  function Fresh(seen: set<int>, ds: seq<Decision>): seq<Decision> {
    if ds == [] then []
    else
      var before, d := ds[..|ds| - 1], ds[|ds| - 1];
      Fresh(seen, before) + (if d.id.Some? && d.id.value !in seen + Ids(before) then [d] else [])
  }

  method NewDecisions(seen: set<int>, decisions: seq<Decision>) returns (unseen: seq<Decision>, seen': set<int>)
    ensures unseen == Fresh(seen, decisions) && seen' == seen + Ids(decisions)
  {
    IdsNone();
    hide Ids;
    unseen, seen' := [], seen;
    for i := 0 to |decisions|
      invariant unseen == Fresh(seen, decisions[..i]) && seen' == seen + Ids(decisions[..i])
    {
      var d := decisions[i];
      assert decisions[..i + 1][..i] == decisions[..i] && decisions[..i + 1] == decisions[..i] + [d];
      IdsAppend(decisions[..i], d);
      if d.id.None? || d.id.value in seen' { continue; }
      seen' := seen' + {d.id.value};
      unseen := unseen + [d];
    }
    assert decisions[..|decisions|] == decisions;
  }

  /** Fresh decisions carry exactly the unseen ids, each of them once. */
  lemma {:induction false} FreshExact(seen: set<int>, ds: seq<Decision>)
    ensures Ids(Fresh(seen, ds)) == Ids(ds) - seen
    ensures forall d <- Fresh(seen, ds) :: d in ds && d.id.Some?
    ensures |Fresh(seen, ds)| == |Ids(ds) - seen|
  {
    IdsNone();
    hide Ids;
    if ds != [] {
      var before, d := ds[..|ds| - 1], ds[|ds| - 1];
      assert ds == before + [d];
      FreshExact(seen, before);
      IdsAppend(before, d);
      IdsAppend(Fresh(seen, before), d);
      if d.id.Some? && d.id.value !in seen + Ids(before) {
        assert Ids(ds) - seen == (Ids(before) - seen) + {d.id.value};
        assert Fresh(seen, ds) == Fresh(seen, before) + [d];
      } else {
        assert Ids(ds) - seen == Ids(before) - seen;
        assert Fresh(seen, ds) == Fresh(seen, before);
      }
    }
  }

  /** How many of the first `i` are marked. */
  function Rank(marks: seq<bool>, i: nat): nat
    requires i <= |marks|
  {
    if i == 0 then 0 else Rank(marks, i - 1) + if marks[i - 1] then 1 else 0
  }

  /** The first occurrences of the unseen ids. */
  ghost function FirstSeen(seen: set<int>, ds: seq<Decision>): (marks: seq<bool>)
    ensures |marks| == |ds|
    ensures forall i :: 0 <= i < |ds| ==> (marks[i] <==> FirstAt(seen, ds, i))
  {
    seq(|ds|, i requires 0 <= i < |ds| => FirstAt(seen, ds, i))
  }

  ghost predicate FirstAt(seen: set<int>, ds: seq<Decision>, i: nat)
    requires i < |ds|
  {
    ds[i].id.Some? && ds[i].id.value !in seen && forall j :: 0 <= j < i ==> ds[j].id != ds[i].id
  }

  /** The new decisions are the first occurrences of the unseen ids, in the order they are listed. */
  lemma {:induction false} FreshInOrder(seen: set<int>, ds: seq<Decision>)
    ensures Fresh(seen, ds) == Selected(ds, FirstSeen(seen, ds))
  {
    hide Ids;
    if ds != [] {
      var n := |ds| - 1;
      FreshInOrder(seen, ds[..n]);
      assert FirstSeen(seen, ds)[..n] == FirstSeen(seen, ds[..n]) by { SameFirsts(seen, ds); }
      IdsAre(ds[..n], ds[n]);
      assert forall j :: 0 <= j < n ==> ds[..n][j] == ds[j];
      assert FirstAt(seen, ds, n) <==> ds[n].id.Some? && ds[n].id.value !in seen + Ids(ds[..n]);
    }
  }

  lemma SameFirsts(seen: set<int>, ds: seq<Decision>)
    requires ds != []
    ensures FirstSeen(seen, ds)[..|ds| - 1] == FirstSeen(seen, ds[..|ds| - 1])
  {
    hide FirstSeen;
    var n := |ds| - 1;
    forall i | 0 <= i < n ensures FirstAt(seen, ds, i) <==> FirstAt(seen, ds[..n], i) {}
  }

  lemma IdsAre(ds: seq<Decision>, d: Decision)
    ensures d.id.Some? ==> (d.id.value in Ids(ds) <==> exists j :: 0 <= j < |ds| && ds[j].id == d.id)
  {
    if d.id.Some? && d.id.value in Ids(ds) {
      var x :| x in ds && x.id.Some? && x.id.value == d.id.value;
      var j :| 0 <= j < |ds| && ds[j] == x;
      assert ds[j].id == d.id;
    }
  }

  lemma {:induction false} RankOfPrefix(a: seq<bool>, b: seq<bool>, i: nat)
    requires a <= b && i <= |a|
    ensures Rank(a, i) == Rank(b, i)
  {
    if i > 0 { RankOfPrefix(a, b, i - 1); }
  }

  lemma IdsNone()
    ensures Ids([]) == {}
  {
  }

  // ----- the poller -----

  /** The poller's memory; `nextPoll` is `None` for minus infinity. */
  datatype Poller = Poller(seen: set<int>, primed: bool, nextPoll: Option<real>)

  const Idle := Poller({}, false, None)

  /** One turn of the loop: whether decisions are watched, the clock, and what reading them
      would give (`None` when CrowdSec cannot be read). */
  datatype Turn = Turn(watched: bool, now: real, listing: Option<seq<Decision>>)

  predicate Due(nextPoll: Option<real>, now: real) { nextPoll.None? || now >= nextPoll.value }

  function Advance(p: Poller, t: Turn): (Poller, seq<Decision>) {
    if !t.watched then (Idle, [])
    else if !Due(p.nextPoll, t.now) then (p, [])
    else
      var p := p.(nextPoll := Some(t.now + DECISIONS_SECONDS));
      if t.listing.None? then (p, [])
      else
        var unseen := Fresh(p.seen, t.listing.value);
        (Poller((p.seen + Ids(t.listing.value)) * Ids(t.listing.value), true, p.nextPoll),
         if p.primed then unseen else [])
  }

  class DecisionPoller {
    var seen: set<int>
    var primed: bool
    var nextPoll: Option<real>

    function Value(): Poller
      reads this
    {
      Poller(seen, primed, nextPoll)
    }

    constructor ()
      ensures Value() == Idle
    {
      seen, primed, nextPoll := {}, false, None;
    }

    method ReadDecisions(listing: Option<seq<Decision>>, announce: bool) returns (ok: bool, offered: seq<Decision>)
      modifies this`seen
      ensures ok == listing.Some?
      ensures !ok ==> seen == old(seen) && offered == []
      ensures ok ==> seen == Ids(listing.value)
      ensures ok ==> offered == if announce then Fresh(old(seen), listing.value) else []
    {
      if listing.None? { return false, []; }
      var unseen;
      unseen, seen := NewDecisions(seen, listing.value);
      offered := if announce then unseen else [];
      seen := seen * Ids(listing.value);
      ok := true;
    }

    method Poll(t: Turn) returns (offered: seq<Decision>)
      modifies this
      ensures (Value(), offered) == Advance(old(Value()), t)
    {
      offered := [];
      if !t.watched {
        seen, primed, nextPoll := {}, false, None;
      } else if Due(nextPoll, t.now) {
        nextPoll := Some(t.now + DECISIONS_SECONDS);
        var ok;
        ok, offered := ReadDecisions(t.listing, primed);
        if ok {
          assert (old(seen) + Ids(t.listing.value)) * Ids(t.listing.value) == Ids(t.listing.value);
          primed := true;
        }
      }
    }
  }

  function After(turns: seq<Turn>): Poller {
    if turns == [] then Idle else Advance(After(turns[..|turns| - 1]), turns[|turns| - 1]).0
  }

  /** When decisions were last asked for since they were last switched on. */
  function LastAttempt(turns: seq<Turn>): Option<real> {
    if turns == [] then None
    else
      var before, t := LastAttempt(turns[..|turns| - 1]), turns[|turns| - 1];
      if !t.watched then None
      else if before.None? || t.now >= before.value + DECISIONS_SECONDS then Some(t.now)
      else before
  }

  /** Whether the last turn asks for decisions. */
  predicate Asks(turns: seq<Turn>)
    requires turns != []
  {
    var before, t := LastAttempt(turns[..|turns| - 1]), turns[|turns| - 1];
    t.watched && (before.None? || t.now >= before.value + DECISIONS_SECONDS)
  }

  /** What the last successful read held, since decisions were last switched on. */
  function LastRead(turns: seq<Turn>): Option<set<int>> {
    if turns == [] then None
    else
      var t := turns[|turns| - 1];
      if !t.watched then None
      else if Asks(turns) && t.listing.Some? then Some(Ids(t.listing.value))
      else LastRead(turns[..|turns| - 1])
  }

  /** After every run of turns, the poller remembers exactly the ids of the last successful read. */
  lemma {:induction false} SeenIsLastRead(turns: seq<Turn>)
    ensures var p := After(turns);
            && (p.primed <==> LastRead(turns).Some?)
            && p.seen == (if p.primed then LastRead(turns).value else {})
            && p.nextPoll == (match LastAttempt(turns) case None => None case Some(at) => Some(at + DECISIONS_SECONDS))
  {
    if turns != [] {
      hide Ids, Fresh;
      SeenIsLastRead(turns[..|turns| - 1]);
      var p, t := After(turns[..|turns| - 1]), turns[|turns| - 1];
      if t.listing.Some? {
        assert (p.seen + Ids(t.listing.value)) * Ids(t.listing.value) == Ids(t.listing.value);
      }
    }
  }

  /** A decision is offered exactly when its id is present now and was absent from the
      previous successful read; the first read after switching on offers nothing. */
  lemma OfferedExactly(turns: seq<Turn>)
    requires turns != []
    ensures var before, t := turns[..|turns| - 1], turns[|turns| - 1];
            var offered := Advance(After(before), t).1;
            if Asks(turns) && t.listing.Some? && LastRead(before).Some?
            then Ids(offered) == Ids(t.listing.value) - LastRead(before).value
                 && |offered| == |Ids(offered)| && forall d <- offered :: d in t.listing.value && d.id.Some?
            else offered == []
  {
    var before, t := turns[..|turns| - 1], turns[|turns| - 1];
    SeenIsLastRead(before);
    if t.listing.Some? { FreshExact(After(before).seen, t.listing.value); }
  }

  // ----- sending what is offered -----

  /** Whether the limiter admits each of the lines offered at these times, one after another. */
  function Verdicts(l: RL.Limiter, clock: seq<real>): (admitted: seq<bool>)
    ensures |admitted| == |clock|
  {
    if clock == [] then []
    else
      var before := clock[..|clock| - 1];
      Verdicts(l, before) + [RL.Allow(LimiterAfter(l, before), clock[|clock| - 1]).1]
  }

  function LimiterAfter(l: RL.Limiter, clock: seq<real>): RL.Limiter {
    if clock == [] then l else RL.Allow(LimiterAfter(l, clock[..|clock| - 1]), clock[|clock| - 1]).0
  }

  /** The decisions at the admitted positions, in order. */
  function Selected(offered: seq<Decision>, admitted: seq<bool>): seq<Decision>
    requires |offered| == |admitted|
  {
    if offered == [] then []
    else
      var n := |offered| - 1;
      Selected(offered[..n], admitted[..n]) + if admitted[n] then [offered[n]] else []
  }

  function Refused(admitted: seq<bool>): nat {
    if admitted == [] then 0
    else Refused(admitted[..|admitted| - 1]) + if admitted[|admitted| - 1] then 0 else 1
  }

  /** The admitted decision at `i` stands behind as many as were admitted before it. */
  lemma {:induction false} SelectedInOrder(offered: seq<Decision>, admitted: seq<bool>, i: nat)
    requires i < |offered| == |admitted| && admitted[i]
    ensures Rank(admitted, i) < |Selected(offered, admitted)| == Rank(admitted, |admitted|)
    ensures Selected(offered, admitted)[Rank(admitted, i)] == offered[i]
  {
    SelectedSize(offered, admitted);
    var n := |offered| - 1;
    SelectedSize(offered[..n], admitted[..n]);
    RankOfPrefix(admitted[..n], admitted, n);
    if i < n {
      SelectedInOrder(offered[..n], admitted[..n], i);
      RankOfPrefix(admitted[..n], admitted, i);
    }
  }

  lemma {:induction false} SelectedSize(offered: seq<Decision>, admitted: seq<bool>)
    requires |offered| == |admitted|
    ensures |Selected(offered, admitted)| == Rank(admitted, |admitted|)
  {
    if offered != [] {
      var n := |offered| - 1;
      SelectedSize(offered[..n], admitted[..n]);
      RankOfPrefix(admitted[..n], admitted, n);
    }
  }

  lemma {:induction false} SelectedAndRefused(offered: seq<Decision>, admitted: seq<bool>)
    requires |offered| == |admitted|
    ensures |Selected(offered, admitted)| + Refused(admitted) == |offered|
  {
    if offered != [] { SelectedAndRefused(offered[..|offered| - 1], admitted[..|offered| - 1]); }
  }

  /** Sent are exactly the offered decisions at the positions the limiter admitted, in order, and
      every other one is counted as skipped. */
  method SendOffered(limiter: RL.RateLimiter, offered: seq<Decision>, clock: seq<real>) returns (sent: seq<Decision>)
    requires |clock| == |offered|
    modifies limiter
    ensures sent == Selected(offered, Verdicts(old(limiter.Value()), clock))
    ensures limiter.skipped == old(limiter.skipped) + Refused(Verdicts(old(limiter.Value()), clock))
    ensures |sent| + limiter.skipped == |offered| + old(limiter.skipped)
  {
    sent := [];
    ghost var start := limiter.Value();
    for i := 0 to |offered|
      invariant limiter.Value() == LimiterAfter(start, clock[..i])
      invariant sent == Selected(offered[..i], Verdicts(start, clock[..i]))
      invariant limiter.skipped == start.skipped + Refused(Verdicts(start, clock[..i]))
    {
      VerdictStep(start, clock, offered, i);
      var ok := limiter.AllowLine(clock[i]);
      if ok { sent := sent + [offered[i]]; }
    }
    assert clock[..|clock|] == clock && offered[..|offered|] == offered;
    SelectedAndRefused(offered, Verdicts(start, clock));
  }

  lemma VerdictStep(l: RL.Limiter, clock: seq<real>, offered: seq<Decision>, i: nat)
    requires i < |clock| == |offered|
    ensures var ok := RL.Allow(LimiterAfter(l, clock[..i]), clock[i]).1;
            var before := Verdicts(l, clock[..i]);
            && Verdicts(l, clock[..i + 1]) == before + [ok]
            && LimiterAfter(l, clock[..i + 1]) == RL.Allow(LimiterAfter(l, clock[..i]), clock[i]).0
            && Selected(offered[..i + 1], before + [ok])
               == Selected(offered[..i], before) + (if ok then [offered[i]] else [])
            && Refused(before + [ok]) == Refused(before) + (if ok then 0 else 1)
  {
    hide RL.Allow;
    assert clock[..i + 1][..i] == clock[..i] && offered[..i + 1][..i] == offered[..i];
    var before := Verdicts(l, clock[..i]);
    var ok := RL.Allow(LimiterAfter(l, clock[..i]), clock[i]).1;
    assert (before + [ok])[..i] == before;
  }
}
