/**
 One-shot consumption of signed releases. Any number of runners, of two kinds, work on one create-only
 custody directory: each checks, revalidates, creates a consume marker, and closes the attempt with a
 terminal (collection admission) or a receipt (readonly deployment). Steps interleave arbitrarily, every
 clock reading and revalidation answer is the environment's, and a runner may fail or crash anywhere.
 */
module CustodyProtocol {
  import opened Optional
  import opened Clock

  const ADMISSION_TTL: Time := 600 * SECOND
  const DEPLOYMENT_TTL: Time := 7200 * SECOND

  datatype Kind = Admission | Deployment

  /** The signed window; `reserve` is the revalidation margin, or the deployment's longest duration, in seconds. */
  datatype Terms = Terms(release: string, issuedAt: Time, notBefore: Time, expiresAt: Time, reserve: nat)

  /** A release verified with its whole source chain; two verifications agree when all of this does. */
  datatype Verified = Verified(
    terms: Terms, acceptedAt: Time, rawSha: string, canonicalSha: string, keyringSha: string, sourceBinding: string)

  /** The time rules of the admission bindings at one instant. */
  predicate AdmissionOpen(v: Verified, now: Time) {
    && v.terms.issuedAt <= v.terms.notBefore < v.terms.expiresAt
    && v.terms.expiresAt - v.terms.issuedAt <= ADMISSION_TTL
    && v.terms.notBefore <= now < v.terms.expiresAt
    && now + v.terms.reserve * SECOND < v.terms.expiresAt
    && v.acceptedAt <= v.terms.issuedAt
  }

  /** The time rules of a deployment release at one instant: whole seconds left must cover the deployment. */
  predicate DeploymentOpen(v: Verified, now: Time) {
    && v.terms.issuedAt <= v.terms.notBefore < v.terms.expiresAt
    && v.terms.expiresAt - v.terms.issuedAt <= DEPLOYMENT_TTL
    && v.terms.notBefore <= now < v.terms.expiresAt
    && v.terms.reserve <= (v.terms.expiresAt - v.terms.notBefore) / SECOND
    && v.terms.reserve <= (v.terms.expiresAt - now) / SECOND
  }

  predicate Open(kind: Kind, v: Verified, now: Time) {
    if kind == Admission then AdmissionOpen(v, now) else DeploymentOpen(v, now)
  }

  // ---------------------------------------------------------------- custody

  /** The marker and closing files of one attempt; an attempt is named after its release. */
  datatype Name = MarkerFile(kind: Kind, release: string) | ClosingFile(kind: Kind, release: string)

  datatype Marker = Marker(kind: Kind, verified: Verified, consumedAt: Time)

  /** An injective hash, so it is modelled by what it hashes. */
  datatype Digest = Sha(of: Marker)

  datatype ErrorCode = NoError | FinalRevalidationFailed | NonMonotonicClock

  datatype Closing =
    | Terminal(verified: Verified, consume: Digest, startedAt: Time, finalAt: Option<Time>, endedAt: Time, error: ErrorCode)
    | Receipt(verified: Verified, consume: Digest, verifiedAt: Time)

  /** A custody file: opened exclusively and not yet complete, or complete. */
  datatype Entry =
    | Torn(owner: nat)
    | MarkerEntry(owner: nat, marker: Marker)
    | ClosingEntry(owner: nat, closing: Closing)

  type Custody = map<Name, Entry>

  // ---------------------------------------------------------------- runners

  datatype Phase =
    | Verifying
    | CheckingMarker(now: Time)
    | CheckingClosing(now: Time)
    | ReadingPreClock
    | PreRevalidating(pre: Time)
    | ReadingConsumeClock(pre: Time)
    | Consuming(at: Time)
    | WritingMarker(marker: Marker)
    | Reopening(marker: Marker)
    | ReadingFinalClock(marker: Marker)
    | FinalRevalidating(marker: Marker, finalAt: Time)
    | ReadingEndClock(marker: Marker, finalAt: Time, error: ErrorCode)
    | CreatingClosing(marker: Marker, closing: Closing)
    | WritingClosing(marker: Marker, closing: Closing)
    | Finished(marker: Marker, closing: Closing)
    | Aborted
    | Crashed

  datatype Runner = Runner(kind: Kind, initial: Verified, phase: Phase)

  /** What the environment does to one runner. */
  datatype Event =
    | Proceed
    | Tick(now: Time, bindingsHold: bool)
    | Answer(again: Option<Verified>, bindingsHold: bool)
    | WriteCompletes
    | WriteCompletesThenFails
    | WriteFails(unlinked: bool)
    | Fault
    | Crash

  datatype World = World(custody: Custody, runners: seq<Runner>)

  function MarkerName(r: Runner): Name { MarkerFile(r.kind, r.initial.terms.release) }

  function ClosingName(r: Runner): Name { ClosingFile(r.kind, r.initial.terms.release) }

  function Max(a: Time, b: Time): Time { if a >= b then a else b }

  function TerminalOf(r: Runner, m: Marker, finalAt: Time, error: ErrorCode, observedEnd: Time): Closing {
    var latest := Max(m.consumedAt, finalAt);
    var code := if observedEnd < latest then NonMonotonicClock else error;
    Terminal(r.initial, Sha(m), m.consumedAt, if code == NoError then Some(finalAt) else None, Max(latest, observedEnd), code)
  }

  /** One step of runner `id`; an event that does not fit the phase changes nothing. */
  function Step(c: Custody, r: Runner, id: nat, e: Event): (Custody, Phase) {
    if r.phase.Finished? || r.phase.Aborted? || r.phase.Crashed? then (c, r.phase)
    else if e.Crash? then (c, Crashed)
    else if e.Fault? && !r.phase.WritingMarker? && !r.phase.WritingClosing? then (c, Aborted)
    else
      match (r.phase, e)
      case (Verifying, Proceed) =>
        if r.kind == Admission then (c, CheckingMarker(0)) else (c, Verifying)
      case (Verifying, Tick(now, ok)) =>
        if r.kind == Admission then (c, Verifying)
        else if ok && DeploymentOpen(r.initial, now) then (c, CheckingMarker(now)) else (c, Aborted)
      case (CheckingMarker(now), Proceed) =>
        (c, if MarkerName(r) in c then Aborted else CheckingClosing(now))
      case (CheckingClosing(now), Proceed) =>
        (c, if ClosingName(r) in c then Aborted else if r.kind == Admission then ReadingPreClock else Consuming(now))
      case (ReadingPreClock, Tick(now, _)) => (c, PreRevalidating(now))
      case (PreRevalidating(pre), Answer(again, ok)) =>
        (c, if again == Some(r.initial) && ok && AdmissionOpen(r.initial, pre) then ReadingConsumeClock(pre) else Aborted)
      case (ReadingConsumeClock(pre), Tick(now, ok)) =>
        (c, if now >= pre && ok && AdmissionOpen(r.initial, now) then Consuming(now) else Aborted)
      case (Consuming(at), Proceed) =>
        if MarkerName(r) in c then (c, Aborted)
        else (c[MarkerName(r) := Torn(id)], WritingMarker(Marker(r.kind, r.initial, at)))
      case (WritingMarker(m), WriteCompletes) =>
        (c[MarkerName(r) := MarkerEntry(id, m)],
         if r.kind == Admission then Reopening(m) else CreatingClosing(m, Receipt(r.initial, Sha(m), m.consumedAt)))
      case (WritingMarker(m), WriteCompletesThenFails) => (c[MarkerName(r) := MarkerEntry(id, m)], Aborted)
      case (WritingMarker(m), WriteFails(unlinked)) => (if unlinked then c - {MarkerName(r)} else c, Aborted)
      case (Reopening(m), Proceed) =>
        (c, if MarkerName(r) in c && c[MarkerName(r)] == MarkerEntry(id, m) then ReadingFinalClock(m) else Aborted)
      case (ReadingFinalClock(m), Tick(now, _)) =>
        (c, if now < m.consumedAt then ReadingEndClock(m, now, NonMonotonicClock) else FinalRevalidating(m, now))
      case (FinalRevalidating(m, finalAt), Answer(again, ok)) =>
        (c, ReadingEndClock(m, finalAt,
              if again == Some(r.initial) && ok && AdmissionOpen(r.initial, finalAt) then NoError else FinalRevalidationFailed))
      case (ReadingEndClock(m, finalAt, error), Tick(now, ok)) =>
        (c, if ok then CreatingClosing(m, TerminalOf(r, m, finalAt, error, now)) else Aborted)
      case (CreatingClosing(m, closing), Proceed) =>
        if ClosingName(r) in c then (c, Aborted)
        else (c[ClosingName(r) := Torn(id)], WritingClosing(m, closing))
      case (WritingClosing(m, closing), WriteCompletes) =>
        (c[ClosingName(r) := ClosingEntry(id, closing)], Finished(m, closing))
      case (WritingClosing(m, closing), WriteCompletesThenFails) => (c[ClosingName(r) := ClosingEntry(id, closing)], Aborted)
      case (WritingClosing(m, closing), WriteFails(unlinked)) => (if unlinked then c - {ClosingName(r)} else c, Aborted)
      case _ => (c, r.phase)
  }

  function Next(w: World, id: nat, e: Event): World
    requires id < |w.runners|
  {
    var r := w.runners[id];
    var (c, phase) := Step(w.custody, r, id, e);
    World(c, w.runners[id := r.(phase := phase)])
  }

  /** A schedule names the runner and the event of each step. */
  function Run(w: World, schedule: seq<(nat, Event)>): World {
    if schedule == [] then w
    else
      var n := |schedule| - 1;
      var before := Run(w, schedule[..n]);
      if schedule[n].0 < |before.runners| then Next(before, schedule[n].0, schedule[n].1) else before
  }

  ghost predicate Start(w: World) {
    w.custody == map[] && forall i :: 0 <= i < |w.runners| ==> w.runners[i].phase == Verifying
  }

  // ---------------------------------------------------------------- the invariant

  /** A marker records the runner's own verified release, consumed while it was open. */
  predicate GoodMarker(r: Runner, m: Marker) {
    m.kind == r.kind && m.verified == r.initial && Open(r.kind, r.initial, m.consumedAt)
  }

  /** A closing names exactly that marker and keeps the signed timeline. */
  predicate GoodClosing(r: Runner, m: Marker, closing: Closing) {
    && closing.verified == r.initial
    && closing.consume == Sha(m)
    && (closing.Terminal? <==> r.kind == Admission)
    && (closing.Receipt? ==> closing.verifiedAt == m.consumedAt)
    && (closing.Terminal? ==>
        && closing.startedAt == m.consumedAt <= closing.endedAt
        && (closing.error == NoError <==> closing.finalAt.Some?)
        && (closing.finalAt.Some? ==>
            && m.consumedAt <= closing.finalAt.value <= closing.endedAt
            && AdmissionOpen(r.initial, closing.finalAt.value)))
  }

  ghost predicate PhaseHolds(c: Custody, r: Runner, id: nat) {
    match r.phase
    case CheckingMarker(now) => r.kind == Deployment ==> DeploymentOpen(r.initial, now)
    case CheckingClosing(now) => r.kind == Deployment ==> DeploymentOpen(r.initial, now)
    case ReadingPreClock => r.kind == Admission
    case PreRevalidating(_) => r.kind == Admission
    case ReadingConsumeClock(_) => r.kind == Admission
    case Consuming(at) => Open(r.kind, r.initial, at)
    case WritingMarker(m) => GoodMarker(r, m) && MarkerName(r) in c && c[MarkerName(r)] == Torn(id)
    case Reopening(m) => Holds(c, r, id, m) && r.kind == Admission
    case ReadingFinalClock(m) => Holds(c, r, id, m) && r.kind == Admission
    case FinalRevalidating(m, finalAt) => Holds(c, r, id, m) && r.kind == Admission && m.consumedAt <= finalAt
    case ReadingEndClock(m, finalAt, error) =>
      && Holds(c, r, id, m) && r.kind == Admission
      && (error == NoError ==> m.consumedAt <= finalAt && AdmissionOpen(r.initial, finalAt))
    case CreatingClosing(m, closing) => Holds(c, r, id, m) && GoodClosing(r, m, closing)
    case WritingClosing(m, closing) =>
      Holds(c, r, id, m) && GoodClosing(r, m, closing) && ClosingName(r) in c && c[ClosingName(r)] == Torn(id)
    case Finished(m, closing) =>
      Holds(c, r, id, m) && GoodClosing(r, m, closing) && ClosingName(r) in c && c[ClosingName(r)] == ClosingEntry(id, closing)
    case _ => true
  }

  /** The runner's own complete marker is in custody. */
  ghost predicate Holds(c: Custody, r: Runner, id: nat, m: Marker) {
    GoodMarker(r, m) && MarkerName(r) in c && c[MarkerName(r)] == MarkerEntry(id, m)
  }

  ghost predicate EntryHolds(w: World, n: Name)
    requires n in w.custody
  {
    var entry := w.custody[n];
    && entry.owner < |w.runners|
    && var r := w.runners[entry.owner];
    if n.MarkerFile? then
      n == MarkerName(r) && !entry.ClosingEntry? && (entry.MarkerEntry? ==> GoodMarker(r, entry.marker))
    else
      && n == ClosingName(r) && !entry.MarkerEntry?
      && MarkerName(r) in w.custody
      && w.custody[MarkerName(r)].MarkerEntry?
      && w.custody[MarkerName(r)].owner == entry.owner
      && (entry.ClosingEntry? ==> GoodClosing(r, w.custody[MarkerName(r)].marker, entry.closing))
  }

  ghost predicate Inv(w: World) {
    && (forall i: nat :: i < |w.runners| ==> PhaseHolds(w.custody, w.runners[i], i))
    && (forall n :: n in w.custody ==> EntryHolds(w, n))
  }

  /** Complete files stay, byte for byte; nothing complete is ever removed or replaced. */
  ghost predicate Preserves(c: Custody, c': Custody) {
    forall n :: n in c && !c[n].Torn? ==> n in c' && c'[n] == c[n]
  }
}
