/** What the bootstrap service gets done: every flight can end, and a creation succeeds while there is no manifest. */
module BootstrapRuns {
  import opened Bytes
  import opened BootstrapService

  /** The service after the events, one after the other. */
  function Play(s: Service, events: seq<Event>): Option<Service>
    decreases |events|
  {
    if events == [] then Some(s)
    else
      var n :- Next(s, events[0].action, events[0].flight);
      Play(n, events[1..])
  }

  lemma PlayFirst(s: Service, e: Event, rest: seq<Event>)
    ensures Play(s, [e] + rest) == match Next(s, e.action, e.flight) case Some(n) => Play(n, rest) case None => None
  {
    hide Next;
    assert ([e] + rest)[1..] == rest;
  }

  lemma {:induction false} PlayAppend(s: Service, first: seq<Event>, second: seq<Event>)
    ensures Play(s, first + second) == match Play(s, first) case Some(n) => Play(n, second) case None => None
    decreases |first|
  {
    hide Next;
    if first == [] {
      assert first + second == second;
    } else {
      assert (first + second)[1..] == first[1..] + second;
      var n := Next(s, first[0].action, first[0].flight);
      if n.Some? {
        PlayAppend(n.value, first[1..], second);
      }
    }
  }

  /** Events that can be played from the start are a run. */
  lemma {:induction false} PlayIsRun(events: seq<Event>, initial: Option<string>)
    requires Play(Fresh(initial), events).Some?
    ensures exists states ::
              IsRun(states, events, initial) && Some(states[|events|]) == Play(Fresh(initial), events)
    decreases |events|
  {
    hide Next;
    if events == [] {
      assert IsRun([Fresh(initial)], events, initial);
    } else {
      var before, last := events[..|events| - 1], events[|events| - 1];
      assert events == before + [last] && [last] == [last] + [];
      PlayAppend(Fresh(initial), before, [last]);
      PlayIsRun(before, initial);
      var states :| IsRun(states, before, initial) && Some(states[|before|]) == Play(Fresh(initial), before);
      PlayFirst(states[|before|], last, []);
      var n := Next(states[|before|], last.action, last.flight).value;
      var longer := states + [n];
      forall k | 0 <= k < |events| ensures IsStep(longer[k], events[k], longer[k + 1]) {
        if k < |before| {
          assert IsStep(states[k], before[k], states[k + 1]);
        }
      }
      assert IsRun(longer, events, initial);
    }
  }

  // ----- A creation that succeeds -----

  /** What the call and the verification are followed by, in a creation of flight `id` that succeeds. */
  function Creation(account: string, id: nat): seq<Event> {
    var resume := Event(Resume(true), id);
    [resume] + ([resume] + ([resume] + ([resume] + ([Event(Record(account), id)]
    + ([resume] + ([Event(ClearFlight, id)] + []))))))
  }

  /** The service with one more flight, in the given phase. */
  predicate HasFlight(n: Service, s: Service, key: string, phase: Phase) {
    && n.active == Some(|s.flights|) && n.flights == s.flights + [Flight(key, phase)]
    && n.callers == s.callers + [Joined(key, |s.flights|)]
    && n.failedAttempts == s.failedAttempts
  }

  lemma PhaseIsSet(n: Service, s: Service, key: string, phase: Phase, next: Phase)
    requires HasFlight(n, s, key, phase)
    ensures HasFlight(SetPhase(n, |s.flights|, next), s, key, next)
  {
  }

  /** From the call until the deployment is verified. */
  lemma CallIsVerified(s: Service, key: string, initial: Option<string>) returns (n: Service)
    requires Inv(s, initial) && s.active.None?
    ensures var id := |s.flights|;
            Play(s, [Event(Call(key), id)] + if s.verification.Verified? then [] else [Event(VerificationPasses, id)])
            == Some(n)
    ensures n.verification.Verified? && n.manifest == s.manifest && n.started == s.started
    ensures n.unrecorded == s.unrecorded
    ensures exists attempt :: attempt !in s.failedAttempts && HasFlight(n, s, key, AwaitingDeployment(attempt))
  {
    var id := |s.flights|;
    var call, pass := Event(Call(key), id), Event(VerificationPasses, id);
    var called := Bootstrap(s, key).value;
    hide Play;
    var attempt := called.flights[id].phase.attempt;
    assert attempt !in s.failedAttempts && HasFlight(called, s, key, AwaitingDeployment(attempt));
    PlayFirst(s, call, []);
    PlayNothing(called);
    if s.verification.Verified? {
      n := called;
    } else {
      n := called.(verification := Verified);
      assert HasFlight(n, s, key, AwaitingDeployment(attempt));
      PlayFirst(s, call, [pass]);
      PlayFirst(called, pass, []);
      PlayNothing(n);
      assert [pass] + [] == [pass];
    }
    assert [call] + [] == [call];
  }

  lemma PlayNothing(s: Service)
    ensures Play(s, []) == Some(s)
  {
  }

  /** And from there, when everything awaited succeeds. */
  lemma VerifiedIsCreated(v: Service, s: Service, key: string, account: string, attempt: nat) returns (n: Service)
    requires v.verification.Verified? && v.manifest.None? && attempt !in s.failedAttempts
    requires HasFlight(v, s, key, AwaitingDeployment(attempt))
    ensures Play(v, Creation(account, |s.flights|)) == Some(n)
    ensures n.manifest == Some(account) && n.started == v.started + 1 && n.unrecorded == v.unrecorded
    ensures n.active.None? && n.flights == s.flights + [Flight(key, Cleared)]
  {
    hide Play;
    hide Creation;
    var id := |s.flights|;
    PhaseIsSet(v, s, key, AwaitingDeployment(attempt), Exporting);
    var exporting := SetPhase(v, id, Exporting);
    PhaseIsSet(exporting, s, key, Exporting, Reading(false));
    var reading := SetPhase(exporting, id, Reading(false));
    PhaseIsSet(reading, s, key, Reading(false), Funding);
    var funding := SetPhase(reading, id, Funding);
    PhaseIsSet(funding, s, key, Funding, Broadcasting(false));
    var broadcasting := SetPhase(funding, id, Broadcasting(false)).(started := v.started + 1);
    PhaseIsSet(broadcasting, s, key, Broadcasting(false), Broadcasting(true));
    var recorded := SetPhase(broadcasting, id, Broadcasting(true)).(manifest := Some(account));
    PhaseIsSet(recorded, s, key, Broadcasting(true), Settled);
    var settled := SetPhase(recorded, id, Settled);
    PhaseIsSet(settled, s, key, Settled, Cleared);
    n := SetPhase(settled, id, Cleared).(active := None);
    var resume, record, clear := Resume(true), Record(account), ClearFlight;
    assert IsStep(v, Event(resume, id), exporting) && IsStep(exporting, Event(resume, id), reading);
    assert IsStep(reading, Event(resume, id), funding) && IsStep(funding, Event(resume, id), broadcasting);
    assert IsStep(broadcasting, Event(record, id), recorded) && IsStep(recorded, Event(resume, id), settled);
    assert IsStep(settled, Event(clear, id), n);
    CreationPlays(v, exporting, reading, funding, broadcasting, recorded, settled, n, account, id);
  }

  lemma CreationPlays(v: Service, exporting: Service, reading: Service, funding: Service, broadcasting: Service,
                      recorded: Service, settled: Service, n: Service, account: string, id: nat)
    requires IsStep(v, Event(Resume(true), id), exporting) && IsStep(exporting, Event(Resume(true), id), reading)
    requires IsStep(reading, Event(Resume(true), id), funding) && IsStep(funding, Event(Resume(true), id), broadcasting)
    requires IsStep(broadcasting, Event(Record(account), id), recorded)
    requires IsStep(recorded, Event(Resume(true), id), settled) && IsStep(settled, Event(ClearFlight, id), n)
    ensures Play(v, Creation(account, id)) == Some(n)
  {
    hide Next;
    hide Play;
    var resume := Event(Resume(true), id);
    var e6 := [Event(ClearFlight, id)] + [];
    var e5 := [resume] + e6;
    var e4 := [Event(Record(account), id)] + e5;
    var e3 := [resume] + e4;
    var e2 := [resume] + e3;
    var e1 := [resume] + e2;
    PlayFirst(v, resume, e1);
    PlayFirst(exporting, resume, e2);
    PlayFirst(reading, resume, e3);
    PlayFirst(funding, resume, e4);
    PlayFirst(broadcasting, Event(Record(account), id), e5);
    PlayFirst(recorded, resume, e6);
    PlayFirst(settled, Event(ClearFlight, id), []);
    PlayNothing(n);
  }

  /** From `s` on, one creation has broadcast, recorded its account and left the service free. */
  predicate Created(s: Service, n: Service, key: string, account: string) {
    && n.manifest == Some(account) && n.started == s.started + 1 && n.unrecorded == s.unrecorded
    && n.active.None? && n.flights == s.flights + [Flight(key, Cleared)]
  }

  /**
   * Whenever no creation is in flight and there is no manifest, whatever happened before, one for any key can succeed:
   * it broadcasts once, records its account and leaves the service free.
   */
  lemma CreationSucceeds(s: Service, key: string, account: string, initial: Option<string>)
    requires Inv(s, initial) && s.active.None? && s.manifest.None?
    ensures exists events: seq<Event> ::
              && events != [] && events[0].action == Call(key)
              && Play(s, events).Some? && Created(s, Play(s, events).value, key, account)
  {
    hide Play;
    hide Inv;
    hide HasFlight;
    var id := |s.flights|;
    var v := CallIsVerified(s, key, initial);
    var attempt :| attempt !in s.failedAttempts && HasFlight(v, s, key, AwaitingDeployment(attempt));
    var n := VerifiedIsCreated(v, s, key, account, attempt);
    var first := [Event(Call(key), id)] + if s.verification.Verified? then [] else [Event(VerificationPasses, id)];
    var events := first + Creation(account, id);
    PlayAppend(s, first, Creation(account, id));
    assert events[0] == Event(Call(key), id) && Created(s, n, key, account);
  }

  /** So from the start of a service without an account there is a run that creates one. */
  lemma AccountCanBeCreated(key: string, account: string)
    ensures exists states: seq<Service>, events: seq<Event> ::
              && IsRun(states, events, None) && states[|events|].manifest == Some(account)
              && states[|events|].started == 1 && states[|events|].active.None?
              && states[|events|].flights == [Flight(key, Cleared)]
  {
    CreationSucceeds(Fresh(None), key, account, None);
    hide Play;
    var events: seq<Event> :|
      Play(Fresh(None), events).Some? && Created(Fresh(None), Play(Fresh(None), events).value, key, account);
    PlayIsRun(events, None);
    var states: seq<Service> :| IsRun(states, events, None) && Some(states[|events|]) == Play(Fresh(None), events);
    assert Created(Fresh(None), states[|events|], key, account);
    assert [] + [Flight(key, Cleared)] == [Flight(key, Cleared)];
    assert Fresh(None).started == 0 && states[|events|].flights == [Flight(key, Cleared)];
  }

  // ----- Every flight can end -----

  /** How far a flight is from its end. */
  function Rank(phase: Phase): nat {
    match phase
    case AwaitingDeployment(_) => 6
    case Exporting => 5
    case Reading(_) => 4
    case Comparing => 3
    case Funding => 3
    case Broadcasting(_) => 2
    case Settled => 1
    case Cleared => 0
  }

  /** Each step of a flight brings it nearer to its end. */
  lemma ContinueLowers(s: Service, i: nat, ok: bool)
    requires i < |s.flights| && Continue(s, i, ok).Some?
    ensures Rank(Continue(s, i, ok).value.flights[i].phase) < Rank(s.flights[i].phase)
  {
  }

  /** The check that a flight waits for can end either way. */
  lemma CheckEnds(s: Service, passes: bool, initial: Option<string>) returns (events: seq<Event>, n: Service)
    requires Inv(s, initial) && s.active.Some?
    ensures Play(s, events) == Some(n) && Inv(n, initial) && n.active == s.active && n.flights == s.flights
    ensures ActivePhase(n) == ActivePhase(s)
    ensures ActivePhase(n).AwaitingDeployment? ==>
              ActivePhase(n).attempt in n.failedAttempts || n.verification.Verified?
  {
    PlayNothing(s);
    if s.verification.Checking? {
      var check := if passes then VerificationPasses else VerificationFails;
      n := Next(s, check, 0).value;
      hide Play;
      NextKeepsInv(s, check, 0, initial);
      PlayFirst(s, Event(check, 0), []);
      PlayNothing(n);
      events := [Event(check, 0)] + [];
    } else {
      events, n := [], s;
    }
  }

  /** The step that takes the active flight on. */
  function Forward(s: Service, ok: bool): Action {
    if ActivePhase(s).Settled? then ClearFlight else Resume(ok)
  }

  lemma ForwardLowers(c: Service, ok: bool)
    requires c.active.Some? && c.active.value < |c.flights| && ActivePhase(c) != Cleared
    requires ActivePhase(c).AwaitingDeployment? ==>
               ActivePhase(c).attempt in c.failedAttempts || c.verification.Verified?
    ensures var n := Next(c, Forward(c, ok), c.active.value);
            && n.Some? && Rank(ActivePhase(n.value)) < Rank(ActivePhase(c))
            && |n.value.flights| == |c.flights| && (n.value.active == c.active || n.value.active.None?)
  {
  }

  /** However the deployment check and everything awaited turn out, the active flight can go on. */
  lemma FlightGoesOn(s: Service, passes: bool, ok: bool, initial: Option<string>)
    returns (events: seq<Event>, n: Service)
    requires Inv(s, initial) && s.active.Some?
    ensures Play(s, events) == Some(n) && Inv(n, initial)
    ensures Rank(ActivePhase(n)) < Rank(ActivePhase(s)) && |n.flights| == |s.flights|
    ensures n.active.Some? ==> n.active == s.active
  {
    hide Play;
    var i := s.active.value;
    var checked, c := CheckEnds(s, passes, initial);
    var a := Forward(c, ok);
    assert i < |c.flights| && ActivePhase(c) != Cleared;
    hide Inv;
    hide Next;
    hide ActivePhase;
    hide Rank;
    hide Forward;
    ForwardLowers(c, ok);
    n := Next(c, a, i).value;
    NextKeepsInv(c, a, i, initial);
    PlayFirst(c, Event(a, i), []);
    PlayNothing(n);
    events := checked + ([Event(a, i)] + []);
    PlayAppend(s, checked, [Event(a, i)] + []);
  }

  /** So the service is never stuck: from wherever a run has come to, it can become free again. */
  lemma {:induction false} ServiceBecomesFree(s: Service, initial: Option<string>)
    returns (events: seq<Event>, n: Service)
    requires Inv(s, initial)
    ensures Play(s, events) == Some(n) && Inv(n, initial) && n.active.None?
    decreases Rank(ActivePhase(s))
  {
    hide Play;
    hide Inv;
    if s.active.None? {
      events, n := [], s;
      PlayNothing(s);
    } else {
      var first, next := FlightGoesOn(s, true, true, initial);
      var rest;
      rest, n := ServiceBecomesFree(next, initial);
      events := first + rest;
      PlayAppend(s, first, rest);
    }
  }

  // ----- Calls -----

  /** While a flight is active, a call for another key changes nothing and one for the same key joins it. */
  lemma CallsWhileActive(s: Service, key: string, initial: Option<string>)
    requires Inv(s, initial) && s.active.Some?
    ensures var joined := s.flights[s.active.value].key == key;
            Bootstrap(s, key) == Some(if joined then s.(callers := s.callers + [Joined(key, s.active.value)]) else s)
  {
  }

  /** A flight that finds a manifest compares it and never broadcasts. */
  lemma ExistingIsCompared(s: Service, i: nat, initial: Option<string>)
    requires Inv(s, initial) && i < |s.flights| && s.manifest.Some? && s.flights[i].phase.Exporting?
    ensures Continue(s, i, true) == Some(SetPhase(s, i, Reading(true)))
    ensures Continue(SetPhase(s, i, Reading(true)), i, true) == Some(SetPhase(s, i, Comparing))
    ensures forall ok :: Continue(SetPhase(s, i, Comparing), i, ok) == Some(SetPhase(s, i, Settled))
  {
    forall phase: Phase, next: Phase ensures SetPhase(SetPhase(s, i, phase), i, next) == SetPhase(s, i, next) {
      SetTwice(s, i, phase, next);
    }
  }

  lemma SetTwice(s: Service, i: nat, phase: Phase, next: Phase)
    requires i < |s.flights|
    ensures SetPhase(SetPhase(s, i, phase), i, next) == SetPhase(s, i, next)
  {
    assert SetPhase(SetPhase(s, i, phase), i, next).flights == SetPhase(s, i, next).flights;
  }
}
