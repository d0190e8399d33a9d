/** The server's single-flight account creation: every interleaving of calls and of the awaits inside one creation. */
module BootstrapService {
  import opened Bytes

  /** The deployment check shared by all callers; a failed attempt is forgotten so that the next caller retries. */
  datatype Verification = Unverified | Checking(attempt: nat) | Verified

  /** Where one creation is suspended. `Reading` says whether it found a manifest, which it reads before that
      suspension; `Broadcasting` whether it has written one yet. */
  datatype Phase =
    | AwaitingDeployment(attempt: nat)
    | Exporting
    | Reading(found: bool)
    | Comparing
    | Funding
    | Broadcasting(recorded: bool)
    | Settled
    | Cleared

  datatype Flight = Flight(key: string, phase: Phase)

  /** A call that was given the promise of a flight. */
  datatype Joined = Joined(key: string, flight: nat)

  datatype Service = Service(
    active: Option<nat>,
    flights: seq<Flight>,
    verification: Verification,
    attempts: nat,
    failedAttempts: set<nat>,
    manifest: Option<string>,
    callers: seq<Joined>,
    started: nat,
    unrecorded: nat)

  datatype Action =
    | Call(key: string)
    | Status
    | VerificationPasses
    | VerificationFails
    | Resume(ok: bool)
    | Record(account: string)
    | ClearFlight

  function Fresh(manifest: Option<string>): Service {
    Service(None, [], Unverified, 0, {}, manifest, [], 0, 0)
  }

  /** `verifyDeployment`: the running or finished check, or a new one; with it the attempt to wait for. */
  function Verify(s: Service): Service {
    if s.verification.Unverified? then s.(verification := Checking(s.attempts), attempts := s.attempts + 1) else s
  }

  function AwaitedAttempt(s: Service): nat {
    if s.verification.Checking? then s.verification.attempt else s.attempts
  }

  function SetPhase(s: Service, i: nat, phase: Phase): Service
    requires i < |s.flights|
  {
    s.(flights := s.flights[i := s.flights[i].(phase := phase)])
  }

  /** `bootstrap`: joins the active flight of the same key, is refused by one of another, or starts one. */
  function Bootstrap(s: Service, key: string): Option<Service> {
    if s.active.Some? then
      if s.active.value >= |s.flights| then None
      else if s.flights[s.active.value].key != key then Some(s)
      else Some(s.(callers := s.callers + [Joined(key, s.active.value)]))
    else
      var v, id := Verify(s), |s.flights|;
      Some(v.(active := Some(id), flights := v.flights + [Flight(key, AwaitingDeployment(AwaitedAttempt(v)))],
              callers := v.callers + [Joined(key, id)]))
  }

  /** `bootstrapOnce` from one await to the next; `ok` says whether what was awaited succeeded. */
  function Continue(s: Service, i: nat, ok: bool): Option<Service>
    requires i < |s.flights|
  {
    match s.flights[i].phase
    case AwaitingDeployment(attempt) =>
      if attempt in s.failedAttempts then Some(SetPhase(s, i, Settled))
      else if s.verification.Verified? then Some(SetPhase(s, i, Exporting))
      else None
    case Exporting => Some(SetPhase(s, i, if ok then Reading(s.manifest.Some?) else Settled))
    case Reading(found) => Some(SetPhase(s, i, if !ok then Settled else if found then Comparing else Funding))
    case Comparing => Some(SetPhase(s, i, Settled))
    case Funding =>
      // The manifest is not read again here.
      if ok then Some(SetPhase(s, i, Broadcasting(false)).(started := s.started + 1))
      else Some(SetPhase(s, i, Settled))
    case Broadcasting(recorded) =>
      Some(SetPhase(s, i, Settled).(unrecorded := s.unrecorded + if recorded then 0 else 1))
    case Settled => None
    case Cleared => None
  }

  /** One step of the event loop. Steps of flights are tried on the flight `i`. */
  function Next(s: Service, a: Action, i: nat): Option<Service> {
    match a
    case Call(key) => Bootstrap(s, key)
    case Status => Some(Verify(s))
    case VerificationPasses => if s.verification.Checking? then Some(s.(verification := Verified)) else None
    case VerificationFails =>
      if s.verification.Checking? then
        Some(s.(verification := Unverified, failedAttempts := s.failedAttempts + {s.verification.attempt}))
      else None
    case Resume(ok) => if i < |s.flights| then Continue(s, i, ok) else None
    case Record(account) =>
      // Creation overwrites whatever manifest there is.
      if i < |s.flights| && s.flights[i].phase == Broadcasting(false) then
        Some(SetPhase(s, i, Broadcasting(true)).(manifest := Some(account)))
      else None
    case ClearFlight =>
      if i < |s.flights| && s.flights[i].phase.Settled? then
        Some(SetPhase(s, i, Cleared).(active := if s.active == Some(i) then None else s.active))
      else None
  }

  // ----- The invariant -----

  predicate PastVerification(p: Phase) {
    !p.AwaitingDeployment? && !p.Settled? && !p.Cleared?
  }

  /** Only the active flight is not cleared. */
  ghost predicate SingleFlight(s: Service) {
    && (s.active.Some? ==> s.active.value < |s.flights| && s.flights[s.active.value].phase != Cleared)
    && (forall i | 0 <= i < |s.flights| && s.active != Some(i) :: s.flights[i].phase == Cleared)
  }

  function ActivePhase(s: Service): Phase {
    if s.active.Some? && s.active.value < |s.flights| then s.flights[s.active.value].phase else Cleared
  }

  /** Whether a creation is under way that has not written its manifest. */
  function Pending(s: Service): nat {
    if ActivePhase(s) == Broadcasting(false) then 1 else 0
  }

  /** The check a flight waits for runs, has passed, or has failed; and attempts are numbered in order. */
  ghost predicate IsAwaited(s: Service) {
    && (forall a | a in s.failedAttempts :: a < s.attempts)
    && (s.verification.Checking? ==>
          s.verification.attempt < s.attempts && s.verification.attempt !in s.failedAttempts)
    && (ActivePhase(s).AwaitingDeployment? ==>
          var attempt := ActivePhase(s).attempt;
          attempt in s.failedAttempts || s.verification.Verified? || s.verification == Checking(attempt))
  }

  ghost predicate Inv(s: Service, initial: Option<string>) {
    && SingleFlight(s) && IsAwaited(s)
    && (forall j | 0 <= j < |s.callers| ::
          s.callers[j].flight < |s.flights| && s.flights[s.callers[j].flight].key == s.callers[j].key)
    && (PastVerification(ActivePhase(s)) ==> s.verification.Verified?)
    && (ActivePhase(s) in {Reading(false), Funding, Broadcasting(false)} ==> s.manifest.None?)
    && (initial.Some? ==> s.manifest == initial && s.started == 0)
    && s.started == s.unrecorded + Pending(s) + if initial.None? && s.manifest.Some? then 1 else 0
  }

  /** A change of the active flight's phase touches no other flight and no caller's key. */
  lemma SetActivePhase(s: Service, i: nat, phase: Phase, initial: Option<string>)
    requires Inv(s, initial) && i < |s.flights| && s.flights[i].phase != Cleared && phase != Cleared
    ensures s.active == Some(i)
    ensures var n := SetPhase(s, i, phase);
            && SingleFlight(n) && ActivePhase(n) == phase
            && forall j | 0 <= j < |n.callers| ::
                 n.callers[j].flight < |n.flights| && n.flights[n.callers[j].flight].key == n.callers[j].key
  {
  }

  lemma CallKeepsInv(s: Service, key: string, initial: Option<string>)
    requires Inv(s, initial)
    ensures Bootstrap(s, key).Some? && Inv(Bootstrap(s, key).value, initial)
  {
    if s.active.None? {
      var n := Bootstrap(s, key).value;
      assert forall j | 0 <= j < |s.flights| :: n.flights[j] == s.flights[j];
      assert ActivePhase(n).AwaitingDeployment?;
    }
  }

  lemma ContinueKeepsInv(s: Service, i: nat, ok: bool, initial: Option<string>)
    requires Inv(s, initial) && i < |s.flights| && Continue(s, i, ok).Some?
    ensures Inv(Continue(s, i, ok).value, initial)
  {
    var n := Continue(s, i, ok).value;
    SetActivePhase(s, i, n.flights[i].phase, initial);
    assert ActivePhase(n) == n.flights[i].phase && ActivePhase(s) == s.flights[i].phase;
    hide SingleFlight;
    hide ActivePhase;
  }

  lemma RecordKeepsInv(s: Service, account: string, i: nat, initial: Option<string>)
    requires Inv(s, initial) && Next(s, Record(account), i).Some?
    ensures Inv(Next(s, Record(account), i).value, initial) && s.manifest.None?
  {
    SetActivePhase(s, i, Broadcasting(true), initial);
  }

  lemma ClearKeepsInv(s: Service, i: nat, initial: Option<string>)
    requires Inv(s, initial) && Next(s, ClearFlight, i).Some?
    ensures Inv(Next(s, ClearFlight, i).value, initial)
  {
    assert s.active == Some(i);
  }

  lemma CheckKeepsInv(s: Service, a: Action, initial: Option<string>)
    requires a.Status? || a.VerificationPasses? || a.VerificationFails?
    requires Inv(s, initial) && Next(s, a, 0).Some?
    ensures Inv(Next(s, a, 0).value, initial)
  {
    assert ActivePhase(Next(s, a, 0).value) == ActivePhase(s);
    assert SingleFlight(Next(s, a, 0).value);
    hide SingleFlight;
    hide ActivePhase;
  }

  /** Every step keeps the invariant, and none overwrites a manifest. */
  lemma NextKeepsInv(s: Service, a: Action, i: nat, initial: Option<string>)
    requires Inv(s, initial) && Next(s, a, i).Some?
    ensures Inv(Next(s, a, i).value, initial)
    ensures s.manifest.Some? ==> Next(s, a, i).value.manifest == s.manifest
  {
    hide Inv;
    match a
    case Call(key) => CallKeepsInv(s, key, initial);
    case Resume(ok) => ContinueKeepsInv(s, i, ok, initial);
    case Record(account) => RecordKeepsInv(s, account, i, initial);
    case ClearFlight => ClearKeepsInv(s, i, initial);
    case Status => CheckKeepsInv(s, a, initial);
    case VerificationPasses => CheckKeepsInv(s, a, initial);
    case VerificationFails => CheckKeepsInv(s, a, initial);
  }

  // ----- Whole runs -----

  datatype Event = Event(action: Action, flight: nat)

  predicate IsStep(s: Service, e: Event, n: Service) {
    Next(s, e.action, e.flight) == Some(n)
  }

  predicate IsRun(states: seq<Service>, events: seq<Event>, initial: Option<string>) {
    && |states| == |events| + 1
    && states[0] == Fresh(initial)
    && forall k | 0 <= k < |events| :: IsStep(states[k], events[k], states[k + 1])
  }

  lemma {:induction false} RunKeepsInv(states: seq<Service>, events: seq<Event>, initial: Option<string>, k: nat)
    requires IsRun(states, events, initial) && k < |states|
    ensures Inv(states[k], initial)
  {
    if k > 0 {
      RunKeepsInv(states, events, initial, k - 1);
      assert IsStep(states[k - 1], events[k - 1], states[k]);
      NextKeepsInv(states[k - 1], events[k - 1].action, events[k - 1].flight, initial);
    }
  }

  /** Flights that have neither settled nor failed. */
  predicate InFlight(s: Service, i: nat) {
    i < |s.flights| && !s.flights[i].phase.Settled? && !s.flights[i].phase.Cleared?
  }

  /** The step at `k` starts broadcasting a creation. */
  predicate StartsBroadcast(states: seq<Service>, k: nat)
    requires k + 1 < |states|
  {
    states[k].started < states[k + 1].started
  }

  /**
   * In every interleaving: at most one creation is in flight; a caller is only ever given a creation
   * for its own key; a broadcast starts only on a verified deployment and while there is no manifest; and
   * a manifest once there stays.
   */
  lemma RunsAreSingleFlight(states: seq<Service>, events: seq<Event>, initial: Option<string>, k: nat)
    requires IsRun(states, events, initial) && k < |states|
    ensures forall i: nat, j: nat :: InFlight(states[k], i) && InFlight(states[k], j) ==> i == j
    ensures forall c | c in states[k].callers ::
              c.flight < |states[k].flights| && states[k].flights[c.flight].key == c.key
    ensures k + 1 < |states| && StartsBroadcast(states, k) ==>
              states[k].manifest.None? && states[k].verification.Verified?
    ensures forall j | k <= j < |states| && states[k].manifest.Some? :: states[j].manifest == states[k].manifest
  {
    RunKeepsInv(states, events, initial, k);
    var s := states[k];
    forall c | c in s.callers ensures c.flight < |s.flights| && s.flights[c.flight].key == c.key {
      var j :| 0 <= j < |s.callers| && s.callers[j] == c;
    }
    if k + 1 < |states| && StartsBroadcast(states, k) {
      assert IsStep(s, events[k], states[k + 1]);
      StartNeedsNoManifest(s, events[k].action, events[k].flight, initial);
    }
    forall j | k <= j < |states| && s.manifest.Some? ensures states[j].manifest == s.manifest {
      ManifestStays(states, events, initial, k, j);
    }
  }

  lemma StartNeedsNoManifest(s: Service, a: Action, i: nat, initial: Option<string>)
    requires Inv(s, initial) && Next(s, a, i).Some? && s.started < Next(s, a, i).value.started
    ensures s.manifest.None? && s.verification.Verified?
  {
    assert a.Resume? && s.flights[i].phase == Funding;
    assert s.active == Some(i) && ActivePhase(s) == Funding;
  }

  lemma {:induction false} ManifestStays(states: seq<Service>, events: seq<Event>, initial: Option<string>, k: nat,
                                       j: nat)
    requires IsRun(states, events, initial) && k <= j < |states| && states[k].manifest.Some?
    ensures states[j].manifest == states[k].manifest
  {
    hide Inv;
    hide Next;
    if j > k {
      ManifestStays(states, events, initial, k, j - 1);
      assert IsStep(states[j - 1], events[j - 1], states[j]);
      RunKeepsInv(states, events, initial, j - 1);
      NextKeepsInv(states[j - 1], events[j - 1].action, events[j - 1].flight, initial);
    }
  }

  /**
   * Every broadcast is accounted for: it is the one that recorded the manifest, or it ended without
   * recording one, or it is still under way. So a second creation is only ever started after one that
   * ended without a record, such as a confirmation timeout.
   */
  lemma BroadcastsAreAccounted(states: seq<Service>, events: seq<Event>, initial: Option<string>, k: nat)
    requires IsRun(states, events, initial) && k < |states|
    ensures states[k].started == states[k].unrecorded + Pending(states[k])
                                 + if initial.None? && states[k].manifest.Some? then 1 else 0
    ensures states[k].unrecorded == 0 ==> states[k].started <= 1
  {
    RunKeepsInv(states, events, initial, k);
  }
}
