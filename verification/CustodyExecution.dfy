/** One offline admission as the program runs it, from the custody checks to the terminal, on a create-only directory. */
module CustodyExecution {
  import opened Optional
  import opened Clock
  import opened CustodyProtocol
  import opened CustodySafety

  /** A create-only directory: a name is written once or not at all. */
  class CustodyDirectory {
    var files: Custody

    constructor ()
      ensures files == map[]
    {
      files := map[];
    }

    /** Exclusive creation: an existing file is left alone and reported. */
    method CreateOnly(name: Name, entry: Entry) returns (created: bool)
      modifies this
      ensures created <==> name !in old(files)
      ensures files == if created then old(files)[name := entry] else old(files)
    {
      created := name !in files;
      if created {
        files := files[name := entry];
      }
    }

    /** Creates a file exclusively, fills it, and on failure may remove it again; completion may still be reported as failure. */
    method WriteCreateOnly(name: Name, id: nat, entry: Entry, reply: WriteReply) returns (ok: bool)
      modifies this
      ensures ok <==> name !in old(files) && reply.Completes?
      ensures files == if name in old(files) then old(files) else AfterWrite(old(files), name, id, entry, reply)
    {
      ok := CreateOnly(name, Torn(id));
      if !ok {
        return;
      }
      if reply.Fails? {
        if reply.unlinked {
          files := files - {name};
          assert files == old(files);
        }
        return false;
      }
      files := files[name := entry];
      assert files == old(files)[name := entry];
      ok := reply.Completes?;
    }
  }

  /** How filling a file that was created came back. */
  datatype WriteReply = Completes | CompletesThenFails | Fails(unlinked: bool)

  function WriteEvent(r: WriteReply): Event {
    match r
    case Completes => WriteCompletes
    case CompletesThenFails => WriteCompletesThenFails
    case Fails(unlinked) => WriteFails(unlinked)
  }

  /** The directory after a write that got as far as creating the file. */
  function AfterWrite(c: Custody, name: Name, id: nat, entry: Entry, r: WriteReply): Custody {
    match r
    case Completes => c[name := entry]
    case CompletesThenFails => c[name := entry]
    case Fails(unlinked) => if unlinked then c else c[name := Torn(id)]
  }

  /**
   What the environment answers during one run: four clock readings, two revalidations, the checks on bindings and
   on the custody directory, the reopening of the marker, and both writes.
   */
  datatype Answers = Answers(
    preClock: Time, preAgain: Option<Verified>, preBindings: bool,
    consumeClock: Time, consumeBindings: bool, markerWrite: WriteReply, reopens: bool,
    finalClock: Time, finalAgain: Option<Verified>, finalBindings: bool,
    endClock: Time, custodyHolds: bool, closingWrite: WriteReply)

  /** Replays a list of events on one runner. */
  ghost function Drive(c: Custody, r: Runner, id: nat, events: seq<Event>): (Custody, Phase)
    decreases |events|
  {
    if events == [] then (c, r.phase)
    else
      var next := Step(c, r, id, events[0]);
      Drive(next.0, r.(phase := next.1), id, events[1..])
  }

  lemma DriveFirst(c: Custody, r: Runner, id: nat, e: Event, rest: seq<Event>, c': Custody, p: Phase)
    requires Step(c, r, id, e) == (c', p)
    ensures Drive(c, r, id, [e] + rest) == Drive(c', r.(phase := p), id, rest)
  {
    assert ([e] + rest)[1..] == rest;
  }

  function Tagged(id: nat, events: seq<Event>): seq<(nat, Event)> {
    seq(|events|, i requires 0 <= i < |events| => (id, events[i]))
  }

  /** Driving one runner alone is a schedule of the whole protocol, so everything proved of schedules applies to it. */
  lemma {:induction false} DriveIsRun(w: World, id: nat, events: seq<Event>)
    requires id < |w.runners|
    ensures var (c, p) := Drive(w.custody, w.runners[id], id, events);
      Run(w, Tagged(id, events)) == World(c, w.runners[id := w.runners[id].(phase := p)])
    decreases |events|
  {
    var tagged := Tagged(id, events);
    if events == [] {
      assert w.runners[id := w.runners[id].(phase := w.runners[id].phase)] == w.runners;
    } else {
      var first := [(id, events[0])];
      assert tagged == first + Tagged(id, events[1..]);
      RunSplits(w, first, Tagged(id, events[1..]));
      assert first[..0] == [];
      assert Run(w, first) == Next(w, id, events[0]);
      DriveIsRun(Next(w, id, events[0]), id, events[1..]);
    }
  }

  lemma {:induction false} DriveStopped(c: Custody, r: Runner, id: nat, events: seq<Event>)
    requires r.phase == Aborted
    ensures Drive(c, r, id, events) == (c, Aborted)
    decreases |events|
  {
    if events != [] {
      DriveStopped(c, r, id, events[1..]);
    }
  }

  /** The attempt may be consumed: no file of it exists, and the release is open and unchanged at both instants. */
  predicate MayConsume(files: Custody, v: Verified, a: Answers) {
    && MarkerFile(Admission, v.terms.release) !in files
    && ClosingFile(Admission, v.terms.release) !in files
    && Revalidated(v, a)
  }

  /** The final revalidation and the clocks agree that nothing changed. */
  predicate Confirmed(v: Verified, a: Answers) {
    && a.consumeClock <= a.finalClock <= a.endClock
    && a.finalAgain == Some(v) && a.finalBindings && AdmissionOpen(v, a.finalClock)
  }

  function Candidate(v: Verified): Runner { Runner(Admission, v, Verifying) }

  // The undisturbed schedule, stage by stage; what follows a refusal changes nothing.

  ghost function Checks(rest: seq<Event>): seq<Event> { [Proceed] + ([Proceed] + ([Proceed] + rest)) }

  ghost function Revalidation(a: Answers, rest: seq<Event>): seq<Event> {
    [Tick(a.preClock, true)] + ([Answer(a.preAgain, a.preBindings)] + ([Tick(a.consumeClock, a.consumeBindings)] + rest))
  }

  ghost function Write(r: WriteReply, rest: seq<Event>): seq<Event> { [Proceed] + ([WriteEvent(r)] + rest) }

  ghost function FinalCheck(a: Answers, rest: seq<Event>): seq<Event> {
    [if a.reopens then Proceed else Fault]
    + ([Tick(a.finalClock, true)] + ([Answer(a.finalAgain, a.finalBindings)] + ([Tick(a.endClock, a.custodyHolds)] + rest)))
  }

  ghost function Schedule(a: Answers): seq<Event> {
    Checks(Revalidation(a, Write(a.markerWrite, FinalCheck(a, Write(a.closingWrite, [])))))
  }

  lemma DriveChecks(c: Custody, v: Verified, id: nat, rest: seq<Event>)
    ensures Drive(c, Candidate(v), id, Checks(rest))
         == if MarkerFile(Admission, v.terms.release) in c || ClosingFile(Admission, v.terms.release) in c
            then (c, Aborted)
            else Drive(c, Candidate(v).(phase := ReadingPreClock), id, rest)
  {
    var r := Candidate(v);
    DriveFirst(c, r, id, Proceed, [Proceed] + ([Proceed] + rest), c, CheckingMarker(0));
    var p1 := if MarkerName(r) in c then Aborted else CheckingClosing(0);
    DriveFirst(c, r.(phase := CheckingMarker(0)), id, Proceed, [Proceed] + rest, c, p1);
    if p1 == Aborted {
      DriveStopped(c, r.(phase := p1), id, [Proceed] + rest);
    } else {
      var p2 := if ClosingName(r) in c then Aborted else ReadingPreClock;
      DriveFirst(c, r.(phase := p1), id, Proceed, rest, c, p2);
      if p2 == Aborted {
        DriveStopped(c, r.(phase := p2), id, rest);
      }
    }
  }

  predicate Revalidated(v: Verified, a: Answers) {
    && a.preAgain == Some(v) && a.preBindings && AdmissionOpen(v, a.preClock)
    && a.preClock <= a.consumeClock && a.consumeBindings && AdmissionOpen(v, a.consumeClock)
  }

  lemma DriveRevalidation(c: Custody, v: Verified, id: nat, a: Answers, rest: seq<Event>)
    ensures Drive(c, Candidate(v).(phase := ReadingPreClock), id, Revalidation(a, rest))
         == if Revalidated(v, a) then Drive(c, Candidate(v).(phase := Consuming(a.consumeClock)), id, rest)
            else (c, Aborted)
  {
    var r, pre := Candidate(v), a.preClock;
    var last := [Tick(a.consumeClock, a.consumeBindings)] + rest;
    DriveFirst(c, r.(phase := ReadingPreClock), id, Tick(pre, true), [Answer(a.preAgain, a.preBindings)] + last,
               c, PreRevalidating(pre));
    var p1 := if a.preAgain == Some(v) && a.preBindings && AdmissionOpen(v, pre) then ReadingConsumeClock(pre) else Aborted;
    DriveFirst(c, r.(phase := PreRevalidating(pre)), id, Answer(a.preAgain, a.preBindings), last, c, p1);
    if p1 == Aborted {
      DriveStopped(c, r.(phase := p1), id, last);
    } else {
      var p2 := if Revalidated(v, a) then Consuming(a.consumeClock) else Aborted;
      DriveFirst(c, r.(phase := p1), id, Tick(a.consumeClock, a.consumeBindings), rest, c, p2);
      if p2 == Aborted {
        DriveStopped(c, r.(phase := p2), id, rest);
      }
    }
  }

  lemma DriveMarkerWrite(c: Custody, v: Verified, id: nat, at: Time, reply: WriteReply, rest: seq<Event>)
    requires MarkerFile(Admission, v.terms.release) !in c
    ensures var m := Marker(Admission, v, at);
      var c' := AfterWrite(c, MarkerFile(Admission, v.terms.release), id, MarkerEntry(id, m), reply);
      Drive(c, Candidate(v).(phase := Consuming(at)), id, Write(reply, rest))
      == if reply.Completes? then Drive(c', Candidate(v).(phase := Reopening(m)), id, rest) else (c', Aborted)
  {
    var r, name, m := Candidate(v), MarkerFile(Admission, v.terms.release), Marker(Admission, v, at);
    var c' := AfterWrite(c, name, id, MarkerEntry(id, m), reply);
    var p := if reply.Completes? then Reopening(m) else Aborted;
    DriveFirst(c, r.(phase := Consuming(at)), id, Proceed, [WriteEvent(reply)] + rest, c[name := Torn(id)], WritingMarker(m));
    assert c[name := Torn(id)][name := MarkerEntry(id, m)] == c[name := MarkerEntry(id, m)];
    assert c[name := Torn(id)] - {name} == c;
    DriveFirst(c[name := Torn(id)], r.(phase := WritingMarker(m)), id, WriteEvent(reply), rest, c', p);
    if p == Aborted {
      DriveStopped(c', r.(phase := p), id, rest);
    }
  }

  lemma DriveFinalCheck(c: Custody, v: Verified, id: nat, m: Marker, a: Answers, rest: seq<Event>)
    requires m.consumedAt == a.consumeClock
    requires MarkerFile(Admission, v.terms.release) in c && c[MarkerFile(Admission, v.terms.release)] == MarkerEntry(id, m)
    ensures var t := TerminalOf(Candidate(v), m, a.finalClock, FinalError(v, a), a.endClock);
      Drive(c, Candidate(v).(phase := Reopening(m)), id, FinalCheck(a, rest))
      == if a.reopens && a.custodyHolds then Drive(c, Candidate(v).(phase := CreatingClosing(m, t)), id, rest)
         else (c, Aborted)
  {
    var r, f := Candidate(v), a.finalClock;
    var end := [Tick(a.endClock, a.custodyHolds)] + rest;
    var answer := [Answer(a.finalAgain, a.finalBindings)] + end;
    if !a.reopens {
      DriveFirst(c, r.(phase := Reopening(m)), id, Fault, [Tick(f, true)] + answer, c, Aborted);
      DriveStopped(c, r.(phase := Aborted), id, [Tick(f, true)] + answer);
    } else {
      DriveFirst(c, r.(phase := Reopening(m)), id, Proceed, [Tick(f, true)] + answer, c, ReadingFinalClock(m));
      DriveAnswer(c, v, id, m, a, rest);
    }
  }

  lemma DriveAnswer(c: Custody, v: Verified, id: nat, m: Marker, a: Answers, rest: seq<Event>)
    requires m.consumedAt == a.consumeClock
    ensures var t := TerminalOf(Candidate(v), m, a.finalClock, FinalError(v, a), a.endClock);
      Drive(c, Candidate(v).(phase := ReadingFinalClock(m)), id,
            [Tick(a.finalClock, true)] + ([Answer(a.finalAgain, a.finalBindings)] + ([Tick(a.endClock, a.custodyHolds)] + rest)))
      == if a.custodyHolds then Drive(c, Candidate(v).(phase := CreatingClosing(m, t)), id, rest) else (c, Aborted)
  {
    var r, f, error := Candidate(v), a.finalClock, FinalError(v, a);
    var end := [Tick(a.endClock, a.custodyHolds)] + rest;
    var answer := [Answer(a.finalAgain, a.finalBindings)] + end;
    var p := if f < a.consumeClock then ReadingEndClock(m, f, NonMonotonicClock) else FinalRevalidating(m, f);
    DriveFirst(c, r.(phase := ReadingFinalClock(m)), id, Tick(f, true), answer, c, p);
    DriveFirst(c, r.(phase := p), id, Answer(a.finalAgain, a.finalBindings), end, c, ReadingEndClock(m, f, error));
    var q := if a.custodyHolds then CreatingClosing(m, TerminalOf(r, m, f, error, a.endClock)) else Aborted;
    DriveFirst(c, r.(phase := ReadingEndClock(m, f, error)), id, Tick(a.endClock, a.custodyHolds), rest, c, q);
    if q == Aborted {
      DriveStopped(c, r.(phase := q), id, rest);
    }
  }

  lemma DriveClosingWrite(c: Custody, v: Verified, id: nat, m: Marker, t: Closing, reply: WriteReply)
    requires ClosingFile(Admission, v.terms.release) !in c
    ensures Drive(c, Candidate(v).(phase := CreatingClosing(m, t)), id, Write(reply, []))
         == (AfterWrite(c, ClosingFile(Admission, v.terms.release), id, ClosingEntry(id, t), reply),
             if reply.Completes? then Finished(m, t) else Aborted)
  {
    var r, name := Candidate(v), ClosingFile(Admission, v.terms.release);
    var c' := AfterWrite(c, name, id, ClosingEntry(id, t), reply);
    DriveFirst(c, r.(phase := CreatingClosing(m, t)), id, Proceed, [WriteEvent(reply)] + [],
               c[name := Torn(id)], WritingClosing(m, t));
    assert c[name := Torn(id)][name := ClosingEntry(id, t)] == c[name := ClosingEntry(id, t)];
    assert c[name := Torn(id)] - {name} == c;
    DriveFirst(c[name := Torn(id)], r.(phase := WritingClosing(m, t)), id, WriteEvent(reply), [],
               c', if reply.Completes? then Finished(m, t) else Aborted);
  }

  function FinalError(v: Verified, a: Answers): ErrorCode {
    if a.finalClock < a.consumeClock then NonMonotonicClock
    else if a.finalAgain == Some(v) && a.finalBindings && AdmissionOpen(v, a.finalClock) then NoError
    else FinalRevalidationFailed
  }

  function MarkerOf(v: Verified, a: Answers): Marker { Marker(Admission, v, a.consumeClock) }

  function TerminalFor(v: Verified, a: Answers): Closing {
    TerminalOf(Candidate(v), MarkerOf(v, a), a.finalClock, FinalError(v, a), a.endClock)
  }

  function AfterMarker(c: Custody, v: Verified, id: nat, a: Answers): Custody {
    AfterWrite(c, MarkerFile(Admission, v.terms.release), id, MarkerEntry(id, MarkerOf(v, a)), a.markerWrite)
  }

  /** The run gets as far as writing its terminal. */
  predicate ReachesClosing(c: Custody, v: Verified, a: Answers) {
    MayConsume(c, v, a) && a.markerWrite.Completes? && a.reopens && a.custodyHolds
  }

  /** Where the runner's own schedule leads, for every answer. */
  ghost function Outcome(c: Custody, v: Verified, id: nat, a: Answers): (Custody, Phase) {
    if !MayConsume(c, v, a) then (c, Aborted)
    else if !ReachesClosing(c, v, a) then (AfterMarker(c, v, id, a), Aborted)
    else
      (AfterWrite(AfterMarker(c, v, id, a), ClosingFile(Admission, v.terms.release), id, ClosingEntry(id, TerminalFor(v, a)),
                  a.closingWrite),
       if a.closingWrite.Completes? then Finished(MarkerOf(v, a), TerminalFor(v, a)) else Aborted)
  }

  /** The runner's own schedule of the protocol and the closed-form outcome agree for every answer of the environment. */
  lemma DriveSolo(c: Custody, v: Verified, id: nat, a: Answers)
    ensures Drive(c, Candidate(v), id, Schedule(a)) == Outcome(c, v, id, a)
  {
    var closing := Write(a.closingWrite, []);
    var c' := AfterMarker(c, v, id, a);
    DriveChecks(c, v, id, Revalidation(a, Write(a.markerWrite, FinalCheck(a, closing))));
    DriveRevalidation(c, v, id, a, Write(a.markerWrite, FinalCheck(a, closing)));
    if MayConsume(c, v, a) {
      DriveMarkerWrite(c, v, id, a.consumeClock, a.markerWrite, FinalCheck(a, closing));
      if a.markerWrite.Completes? {
        DriveFinalCheck(c', v, id, MarkerOf(v, a), a, closing);
        DriveClosingWrite(c', v, id, MarkerOf(v, a), TerminalFor(v, a), a.closingWrite);
      }
    }
  }

  /** Success and the error code of a finished run, in terms of the answers alone. */
  lemma OutcomeExact(c: Custody, v: Verified, id: nat, a: Answers)
    ensures Outcome(c, v, id, a).1.Finished? <==> ReachesClosing(c, v, a) && a.closingWrite.Completes?
    ensures Outcome(c, v, id, a).1.Finished? ==>
      var t := Outcome(c, v, id, a).1.closing;
      && t.Terminal?
      && (t.error == NoError <==> Confirmed(v, a))
      && (t.error == NonMonotonicClock <==>
            a.finalClock < a.consumeClock || a.endClock < a.consumeClock || a.endClock < a.finalClock)
      && t.endedAt >= a.consumeClock && t.endedAt >= a.finalClock && t.endedAt >= a.endClock
  {}

  /**
   Nothing is in the way: no file of the attempt exists, every check and both writes come back well, the clock never
   runs backwards, and the whole run fits between not-before and the signed margin before expiry.
   */
  ghost predicate Punctual(c: Custody, v: Verified, a: Answers) {
    && MarkerFile(Admission, v.terms.release) !in c && ClosingFile(Admission, v.terms.release) !in c
    && a.preAgain == Some(v) && a.finalAgain == Some(v)
    && a.preBindings && a.consumeBindings && a.finalBindings && a.reopens && a.custodyHolds
    && a.markerWrite == Completes && a.closingWrite == Completes
    && a.preClock <= a.consumeClock <= a.finalClock <= a.endClock
    && v.acceptedAt <= v.terms.issuedAt <= v.terms.notBefore
    && v.terms.expiresAt - v.terms.issuedAt <= 600 * 1_000_000
    && v.terms.notBefore <= a.preClock
    && a.finalClock + v.terms.reserve * 1_000_000 < v.terms.expiresAt
  }

  /** A run succeeds exactly when it is punctual, and then leaves the marker and the success terminal with its three instants. */
  lemma SuccessExactly(c: Custody, v: Verified, id: nat, a: Answers)
    ensures var (files, phase) := Outcome(c, v, id, a);
      && (phase.Finished? && phase.closing.Terminal? && phase.closing.error == NoError <==> Punctual(c, v, a))
      && (Punctual(c, v, a) ==>
            var m := Marker(Admission, v, a.consumeClock);
            files == c[MarkerFile(Admission, v.terms.release) := MarkerEntry(id, m)]
                      [ClosingFile(Admission, v.terms.release) :=
                         ClosingEntry(id, Terminal(v, Sha(m), a.consumeClock, Some(a.finalClock), a.endClock, NoError))])
  {
    OutcomeExact(c, v, id, a);
    if a.preClock <= a.consumeClock <= a.finalClock {
      OpenWhile(v, a.preClock, a.consumeClock, a.finalClock);
    }
  }

  /** Instants in order are all open exactly when the first is late enough and the last early enough. */
  lemma OpenWhile(v: Verified, first: Time, middle: Time, last: Time)
    requires first <= middle <= last
    ensures AdmissionOpen(v, first) && AdmissionOpen(v, middle) && AdmissionOpen(v, last) <==>
      && v.acceptedAt <= v.terms.issuedAt <= v.terms.notBefore
      && v.terms.expiresAt - v.terms.issuedAt <= 600 * 1_000_000
      && v.terms.notBefore <= first && last + v.terms.reserve * 1_000_000 < v.terms.expiresAt
  {}

  // ---------------------------------------------------------------- the deployment runner

  function Deployer(v: Verified): Runner { Runner(Deployment, v, Verifying) }

  /** The undisturbed schedule of a deployment consume that reads the clock once. */
  ghost function DeploymentSchedule(now: Time, bindings: bool): seq<Event> {
    [Tick(now, bindings)] + ([Proceed] + ([Proceed] + ([Proceed] + ([WriteCompletes] + ([Proceed] + ([WriteCompletes] + []))))))
  }

  /** Both files are new, the bindings hold, and from now to expiry the longest deployment still fits. */
  ghost predicate PunctualDeployment(c: Custody, v: Verified, now: Time, bindings: bool) {
    && MarkerFile(Deployment, v.terms.release) !in c && ClosingFile(Deployment, v.terms.release) !in c && bindings
    && v.terms.issuedAt <= v.terms.notBefore <= now < v.terms.expiresAt
    && v.terms.expiresAt - v.terms.issuedAt <= 7200 * 1_000_000
    && now + v.terms.reserve * 1_000_000 <= v.terms.expiresAt
  }

  lemma RoomInSeconds(reserve: nat, from: Time, to: Time)
    ensures reserve <= (to - from) / SECOND <==> from + reserve * SECOND <= to
  {}

  lemma OpenDeployment(v: Verified, now: Time)
    ensures DeploymentOpen(v, now) <==>
      && v.terms.issuedAt <= v.terms.notBefore <= now < v.terms.expiresAt
      && v.terms.expiresAt - v.terms.issuedAt <= 7200 * 1_000_000
      && now + v.terms.reserve * 1_000_000 <= v.terms.expiresAt
  {
    RoomInSeconds(v.terms.reserve, now, v.terms.expiresAt);
    RoomInSeconds(v.terms.reserve, v.terms.notBefore, v.terms.expiresAt);
  }

  /** Left alone, a deployment consume ends with its receipt exactly when it is punctual, and otherwise changes nothing. */
  lemma DeploymentExactly(c: Custody, v: Verified, id: nat, now: Time, bindings: bool)
    ensures var m := Marker(Deployment, v, now);
      var receipt := Receipt(v, Sha(m), now);
      Drive(c, Deployer(v), id, DeploymentSchedule(now, bindings))
      == if PunctualDeployment(c, v, now, bindings) then
           (c[MarkerFile(Deployment, v.terms.release) := MarkerEntry(id, m)]
             [ClosingFile(Deployment, v.terms.release) := ClosingEntry(id, receipt)], Finished(m, receipt))
         else (c, Aborted)
  {
    hide DeploymentOpen;
    OpenDeployment(v, now);
    var r, m := Deployer(v), Marker(Deployment, v, now);
    var receipt := Receipt(v, Sha(m), now);
    var write2: seq<Event> := [WriteCompletes] + [];
    var close := [Proceed] + write2;
    var write1 := [WriteCompletes] + close;
    var create := [Proceed] + write1;
    var check2 := [Proceed] + create;
    var check1 := [Proceed] + check2;
    if !bindings || !DeploymentOpen(v, now) {
      DriveFirst(c, r, id, Tick(now, bindings), check1, c, Aborted);
      DriveStopped(c, r.(phase := Aborted), id, check1);
    } else {
      DriveFirst(c, r, id, Tick(now, bindings), check1, c, CheckingMarker(now));
      var marker, closing := MarkerFile(Deployment, v.terms.release), ClosingFile(Deployment, v.terms.release);
      if marker in c {
        DriveFirst(c, r.(phase := CheckingMarker(now)), id, Proceed, check2, c, Aborted);
        DriveStopped(c, r.(phase := Aborted), id, check2);
      } else {
        DriveFirst(c, r.(phase := CheckingMarker(now)), id, Proceed, check2, c, CheckingClosing(now));
        if closing in c {
          DriveFirst(c, r.(phase := CheckingClosing(now)), id, Proceed, create, c, Aborted);
          DriveStopped(c, r.(phase := Aborted), id, create);
        } else {
          DriveFirst(c, r.(phase := CheckingClosing(now)), id, Proceed, create, c, Consuming(now));
          DriveReceipt(c, v, id, now);
        }
      }
    }
  }

  lemma DriveReceipt(c: Custody, v: Verified, id: nat, now: Time)
    requires MarkerFile(Deployment, v.terms.release) !in c && ClosingFile(Deployment, v.terms.release) !in c
    ensures var m := Marker(Deployment, v, now);
      var receipt := Receipt(v, Sha(m), now);
      Drive(c, Deployer(v).(phase := Consuming(now)), id,
            [Proceed] + ([WriteCompletes] + ([Proceed] + ([WriteCompletes] + []))))
      == (c[MarkerFile(Deployment, v.terms.release) := MarkerEntry(id, m)]
           [ClosingFile(Deployment, v.terms.release) := ClosingEntry(id, receipt)], Finished(m, receipt))
  {
    hide DeploymentOpen;
    var r, m := Deployer(v), Marker(Deployment, v, now);
    var marker, closing := MarkerFile(Deployment, v.terms.release), ClosingFile(Deployment, v.terms.release);
    var receipt := Receipt(v, Sha(m), now);
    var c1, c2 := c[marker := Torn(id)], c[marker := MarkerEntry(id, m)];
    var c3, c4 := c2[closing := Torn(id)], c2[closing := ClosingEntry(id, receipt)];
    assert c1[marker := MarkerEntry(id, m)] == c2 && c3[closing := ClosingEntry(id, receipt)] == c4;
    DriveFirst(c, r.(phase := Consuming(now)), id, Proceed, [WriteCompletes] + ([Proceed] + ([WriteCompletes] + [])), c1, WritingMarker(m));
    DriveFirst(c1, r.(phase := WritingMarker(m)), id, WriteCompletes, [Proceed] + ([WriteCompletes] + []), c2, CreatingClosing(m, receipt));
    DriveFirst(c2, r.(phase := CreatingClosing(m, receipt)), id, Proceed, [WriteCompletes] + [], c3, WritingClosing(m, receipt));
    DriveFirst(c3, r.(phase := WritingClosing(m, receipt)), id, WriteCompletes, [], c4, Finished(m, receipt));
  }

  // ---------------------------------------------------------------- the admission runner's own code

  /**
   Runs one admission, whatever the environment answers: the files and the end are those of the runner's own schedule
   of the protocol. It raises exactly when it does not finish, and succeeds exactly when every check held in clock order.
   */
  method ExecuteOfflineAdmission(custody: CustodyDirectory, id: nat, v: Verified, a: Answers)
    returns (raised: bool, exitCode: int)
    modifies custody
    ensures raised <==> !(ReachesClosing(old(custody.files), v, a) && a.closingWrite.Completes?)
    ensures !MayConsume(old(custody.files), v, a) ==> custody.files == old(custody.files)
    ensures !raised ==> (exitCode == 0 <==> Confirmed(v, a))
    ensures !raised && exitCode == 0 <==> Punctual(old(custody.files), v, a)
    ensures custody.files == Outcome(old(custody.files), v, id, a).0
    ensures Drive(old(custody.files), Candidate(v), id, Schedule(a)) == Outcome(old(custody.files), v, id, a)
  {
    hide Drive, Schedule, Punctual;
    SuccessExactly(custody.files, v, id, a);
    var markerName, closingName := MarkerFile(Admission, v.terms.release), ClosingFile(Admission, v.terms.release);
    DriveSolo(custody.files, v, id, a);
    OutcomeExact(custody.files, v, id, a);
    raised, exitCode := true, 2;
    if markerName in custody.files || closingName in custody.files {
      return;
    }
    if a.preAgain != Some(v) || !a.preBindings || !AdmissionOpen(v, a.preClock) {
      return;
    }
    if a.consumeClock < a.preClock || !a.consumeBindings || !AdmissionOpen(v, a.consumeClock) {
      return;
    }
    var marker := Marker(Admission, v, a.consumeClock);
    var written := custody.WriteCreateOnly(markerName, id, MarkerEntry(id, marker), a.markerWrite);
    if !written || !a.reopens {
      return;
    }
    var success, error := false, FinalRevalidationFailed;
    if a.finalClock < a.consumeClock {
      error := NonMonotonicClock;
    } else if a.finalAgain == Some(v) && a.finalBindings && AdmissionOpen(v, a.finalClock) {
      success, error := true, NoError;
    }
    if a.endClock < Max(a.consumeClock, a.finalClock) {
      success, error := false, NonMonotonicClock;
    }
    var endedAt := Max(Max(a.consumeClock, a.finalClock), a.endClock);
    if !a.custodyHolds {
      return;
    }
    var terminal := Terminal(v, Sha(marker), a.consumeClock, if success then Some(a.finalClock) else None, endedAt, error);
    written := custody.WriteCreateOnly(closingName, id, ClosingEntry(id, terminal), a.closingWrite);
    if !written {
      return;
    }
    raised, exitCode := false, if success then 0 else 2;
  }
}
