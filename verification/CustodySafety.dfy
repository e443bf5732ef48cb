/** What every schedule of the custody protocol keeps: one consumer per attempt, honest closings, permanent files. */
module CustodySafety {
  import opened Clock
  import opened CustodyProtocol

  /** `c'` differs from `c` only where the file was absent or the runner's own torn one, and only in its own two files. */
  ghost predicate OwnTouch(c: Custody, c': Custody, r: Runner, id: nat) {
    && (forall n :: n in c && c[n] != Torn(id) ==> n in c' && c'[n] == c[n])
    && (forall n :: n in c' && (n !in c || c'[n] != c[n]) ==>
          c'[n].owner == id && (n == MarkerName(r) || n == ClosingName(r)))
  }

  lemma StepTouchesOwn(c: Custody, r: Runner, id: nat, e: Event)
    requires PhaseHolds(c, r, id)
    ensures OwnTouch(c, Step(c, r, id, e).0, r, id)
  {}

  lemma EarlyStepKeepsPhase(c: Custody, r: Runner, id: nat, e: Event)
    requires PhaseHolds(c, r, id) && !PastConsume(r.phase)
    ensures PhaseHolds(Step(c, r, id, e).0, r.(phase := Step(c, r, id, e).1), id)
  {}

  lemma LateStepKeepsPhase(c: Custody, r: Runner, id: nat, e: Event)
    requires PhaseHolds(c, r, id) && PastConsume(r.phase)
    ensures PhaseHolds(Step(c, r, id, e).0, r.(phase := Step(c, r, id, e).1), id)
  {}

  lemma OthersKeepPhase(c: Custody, c': Custody, r: Runner, id: nat, other: Runner, j: nat)
    requires OwnTouch(c, c', r, id) && j != id && PhaseHolds(c, other, j)
    ensures PhaseHolds(c', other, j)
  {}

  /** The entries a step changes are the runner's own and well formed. */
  lemma StepEntry(c: Custody, r: Runner, id: nat, e: Event, n: Name)
    requires PhaseHolds(c, r, id)
    requires var c' := Step(c, r, id, e).0; n in c' && (n !in c || c'[n] != c[n])
    ensures var c' := Step(c, r, id, e).0;
      && c'[n].owner == id
      && (n.MarkerFile? ==> n == MarkerName(r) && !c'[n].ClosingEntry? && (c'[n].MarkerEntry? ==> GoodMarker(r, c'[n].marker)))
      && (n.ClosingFile? ==>
            && n == ClosingName(r) && !c'[n].MarkerEntry?
            && MarkerName(r) in c' && c'[MarkerName(r)].MarkerEntry? && c'[MarkerName(r)].owner == id
            && (c'[n].ClosingEntry? ==> GoodClosing(r, c'[MarkerName(r)].marker, c'[n].closing)))
  {}

  lemma NextKeepsEntry(w: World, id: nat, e: Event, n: Name)
    requires Inv(w) && id < |w.runners| && n in Next(w, id, e).custody
    ensures EntryHolds(Next(w, id, e), n)
  {
    var r := w.runners[id];
    var c' := Step(w.custody, r, id, e).0;
    StepTouchesOwn(w.custody, r, id, e);
    if n in w.custody && c'[n] == w.custody[n] {
      assert EntryHolds(w, n);
    } else {
      StepEntry(w.custody, r, id, e, n);
    }
  }

  /** Every step of every runner, whatever the environment does, keeps the invariant and every complete file. */
  lemma NextSafe(w: World, id: nat, e: Event)
    requires Inv(w) && id < |w.runners|
    ensures Inv(Next(w, id, e)) && Preserves(w.custody, Next(w, id, e).custody)
  {
    var r := w.runners[id];
    var w' := Next(w, id, e);
    StepTouchesOwn(w.custody, r, id, e);
    forall i: nat | i < |w'.runners| ensures PhaseHolds(w'.custody, w'.runners[i], i) {
      if i == id {
        if PastConsume(r.phase) {
          LateStepKeepsPhase(w.custody, r, id, e);
        } else {
          EarlyStepKeepsPhase(w.custody, r, id, e);
        }
      } else {
        OthersKeepPhase(w.custody, w'.custody, r, id, w.runners[i], i);
      }
    }
    forall n | n in w'.custody ensures EntryHolds(w', n) {
      NextKeepsEntry(w, id, e, n);
    }
  }

  lemma {:induction false} RunSafe(w: World, schedule: seq<(nat, Event)>)
    requires Inv(w)
    ensures Inv(Run(w, schedule)) && Preserves(w.custody, Run(w, schedule).custody)
    ensures |Run(w, schedule).runners| == |w.runners|
    ensures forall i :: 0 <= i < |w.runners| ==>
      Run(w, schedule).runners[i].kind == w.runners[i].kind && Run(w, schedule).runners[i].initial == w.runners[i].initial
  {
    if schedule != [] {
      var n := |schedule| - 1;
      RunSafe(w, schedule[..n]);
      var before := Run(w, schedule[..n]);
      if schedule[n].0 < |before.runners| {
        NextSafe(before, schedule[n].0, schedule[n].1);
      }
    }
  }

  lemma StartHolds(w: World)
    requires Start(w)
    ensures Inv(w)
  {}

  lemma {:induction false} RunSplits(w: World, a: seq<(nat, Event)>, b: seq<(nat, Event)>)
    ensures Run(w, a + b) == Run(Run(w, a), b)
  {
    if b == [] {
      assert a + b == a;
    } else {
      var n := |b| - 1;
      RunSplits(w, a, b[..n]);
      assert (a + b)[..|a + b| - 1] == a + b[..n];
    }
  }

  /** A runner that has gone past its consume marker. */
  predicate PastConsume(p: Phase) {
    p.Reopening? || p.ReadingFinalClock? || p.FinalRevalidating? || p.ReadingEndClock?
    || p.CreatingClosing? || p.WritingClosing? || p.Finished?
  }

  /** Being past the consume means owning the attempt's complete marker. */
  lemma PastConsumeOwns(w: World, j: nat)
    requires Inv(w) && j < |w.runners| && PastConsume(w.runners[j].phase)
    ensures MarkerName(w.runners[j]) in w.custody
    ensures w.custody[MarkerName(w.runners[j])].MarkerEntry? && w.custody[MarkerName(w.runners[j])].owner == j
  {
    assert PhaseHolds(w.custody, w.runners[j], j);
  }

  // ---------------------------------------------------------------- main results

  /** Files once complete are the same in every later state. */
  lemma CompleteFilesArePermanent(w: World, now: seq<(nat, Event)>, later: seq<(nat, Event)>)
    requires Start(w)
    ensures Preserves(Run(w, now).custody, Run(w, now + later).custody)
  {
    StartHolds(w);
    RunSafe(w, now);
    RunSafe(Run(w, now), later);
    RunSplits(w, now, later);
  }

  /**
   One consumer per attempt over the whole history: if runner `i` completed the marker (even if it then crashed),
   or stopped with its marker still torn, then in no later state is any other runner of that attempt past its own
   consume.
   */
  lemma OneConsumerEver(w: World, now: seq<(nat, Event)>, later: seq<(nat, Event)>, i: nat, j: nat)
    requires Start(w) && j < |w.runners|
    requires MarkerName(w.runners[j]) in Run(w, now).custody
    requires var entry := Run(w, now).custody[MarkerName(w.runners[j])];
      && entry.owner == i && i != j
      && (entry.MarkerEntry? || (i < |Run(w, now).runners| && Stopped(Run(w, now).runners[i].phase)))
    ensures |Run(w, now + later).runners| == |w.runners|
    ensures !PastConsume(Run(w, now + later).runners[j].phase)
  {
    if !Run(w, now).custody[MarkerName(w.runners[j])].MarkerEntry? {
      StoppedAttemptNeverRuns(w, now, later, j);
    }
    CompleteFilesArePermanent(w, now, later);
    StartHolds(w);
    RunSafe(w, now);
    RunSafe(w, now + later);
    var end := Run(w, now + later);
    if PastConsume(end.runners[j].phase) {
      PastConsumeOwns(end, j);
    }
  }

  /** At any one moment, two runners past their consume of the same attempt are the same runner. */
  lemma OneConsumerAtATime(w: World, schedule: seq<(nat, Event)>, i: nat, j: nat)
    requires Start(w) && i < |w.runners| && j < |w.runners|
    requires |Run(w, schedule).runners| == |w.runners|
    requires PastConsume(Run(w, schedule).runners[i].phase) && PastConsume(Run(w, schedule).runners[j].phase)
    requires MarkerName(w.runners[i]) == MarkerName(w.runners[j])
    ensures i == j
  {
    StartHolds(w);
    RunSafe(w, schedule);
    PastConsumeOwns(Run(w, schedule), i);
    PastConsumeOwns(Run(w, schedule), j);
  }

  /** A closing exists only beside the complete marker it hashes, written by the same runner on its own verified release. */
  lemma ClosingNamesItsMarker(w: World, schedule: seq<(nat, Event)>, kind: Kind, release: string)
    requires Start(w)
    requires ClosingFile(kind, release) in Run(w, schedule).custody
    ensures var c := Run(w, schedule).custody;
      && MarkerFile(kind, release) in c
      && c[MarkerFile(kind, release)].MarkerEntry?
      && c[MarkerFile(kind, release)].owner == c[ClosingFile(kind, release)].owner
      && (c[ClosingFile(kind, release)].ClosingEntry? ==>
            && c[ClosingFile(kind, release)].closing.consume == Sha(c[MarkerFile(kind, release)].marker)
            && c[ClosingFile(kind, release)].closing.verified == c[MarkerFile(kind, release)].marker.verified)
  {
    StartHolds(w);
    RunSafe(w, schedule);
    assert EntryHolds(Run(w, schedule), ClosingFile(kind, release));
    assert EntryHolds(Run(w, schedule), MarkerFile(kind, release));
  }

  /**
   The admission timeline under any clock: a terminal always ends no earlier than it started, on a release issued no
   earlier than its acceptance; a success terminal was consumed and finally revalidated inside the signed window with the
   margin still left, less than ten minutes after the release was issued.
   */
  lemma TerminalTimeline(w: World, schedule: seq<(nat, Event)>, release: string)
    requires Start(w)
    requires var n := ClosingFile(Admission, release);
      n in Run(w, schedule).custody && Run(w, schedule).custody[n].ClosingEntry?
    ensures var t := Run(w, schedule).custody[ClosingFile(Admission, release)].closing;
      && t.Terminal?
      && t.startedAt <= t.endedAt
      && t.verified.acceptedAt <= t.verified.terms.issuedAt <= t.verified.terms.notBefore <= t.startedAt
      && t.startedAt + t.verified.terms.reserve * 1_000_000 < t.verified.terms.expiresAt
      && t.verified.terms.expiresAt - t.verified.terms.issuedAt <= 600 * 1_000_000
      && (t.error == NoError <==> t.finalAt.Some?)
      && (t.error == NoError ==>
            && t.startedAt <= t.finalAt.value <= t.endedAt
            && t.finalAt.value + t.verified.terms.reserve * 1_000_000 < t.verified.terms.expiresAt
            && t.finalAt.value - t.verified.terms.issuedAt < 600 * 1_000_000)
  {
    StartHolds(w);
    RunSafe(w, schedule);
    assert EntryHolds(Run(w, schedule), ClosingFile(Admission, release));
    assert EntryHolds(Run(w, schedule), MarkerFile(Admission, release));
  }

  /** A deployment receipt was consumed inside the window with room for the longest deployment before expiry. */
  lemma ReceiptLeavesRoom(w: World, schedule: seq<(nat, Event)>, release: string)
    requires Start(w)
    requires var n := ClosingFile(Deployment, release);
      n in Run(w, schedule).custody && Run(w, schedule).custody[n].ClosingEntry?
    ensures var t := Run(w, schedule).custody[ClosingFile(Deployment, release)].closing;
      && t.Receipt?
      && t.verified.terms.issuedAt <= t.verified.terms.notBefore <= t.verifiedAt < t.verified.terms.expiresAt
      && t.verified.terms.expiresAt - t.verified.terms.issuedAt <= 7200 * 1_000_000
      && t.verifiedAt + t.verified.terms.reserve * SECOND <= t.verified.terms.expiresAt
      && t.verifiedAt == t.consume.of.consumedAt
  {
    StartHolds(w);
    RunSafe(w, schedule);
    assert EntryHolds(Run(w, schedule), ClosingFile(Deployment, release));
    assert EntryHolds(Run(w, schedule), MarkerFile(Deployment, release));
  }

  /** Failed and crashed runners stay where they are. */
  lemma {:induction false} StoppedStaysStopped(w: World, schedule: seq<(nat, Event)>, i: nat)
    requires i < |w.runners|
    requires w.runners[i].phase.Crashed? || w.runners[i].phase.Aborted? || w.runners[i].phase.Finished?
    ensures |Run(w, schedule).runners| == |w.runners| && Run(w, schedule).runners[i] == w.runners[i]
  {
    if schedule != [] {
      StoppedStaysStopped(w, schedule[..|schedule| - 1], i);
    }
  }

  // ---------------------------------------------------------------- attempts given up

  predicate Stopped(p: Phase) { p.Crashed? || p.Aborted? || p.Finished? }

  /** The attempt of `r` has a marker, torn or complete, and the runner that owns it has stopped. */
  ghost predicate Abandoned(w: World, r: Runner) {
    && MarkerName(r) in w.custody
    && w.custody[MarkerName(r)].owner < |w.runners|
    && Stopped(w.runners[w.custody[MarkerName(r)].owner].phase)
  }

  predicate SameFile(c: Custody, c': Custody, n: Name) { (n in c <==> n in c') && (n in c ==> c'[n] == c[n]) }

  /** One step keeps an abandoned attempt abandoned and touches neither of its files. */
  lemma NextKeepsAbandoned(w: World, id: nat, e: Event, r: Runner)
    requires Inv(w) && id < |w.runners| && Abandoned(w, r)
    ensures var w' := Next(w, id, e);
      && Abandoned(w', r)
      && SameFile(w.custody, w'.custody, MarkerName(r)) && SameFile(w.custody, w'.custody, ClosingName(r))
  {
    var w' := Next(w, id, e);
    var owner := w.custody[MarkerName(r)].owner;
    var actor := w.runners[id];
    if Stopped(actor.phase) {
      assert w'.custody == w.custody;
    } else {
      assert owner != id && w.custody[MarkerName(r)] != Torn(id);
      StepTouchesOwn(w.custody, actor, id, e);
      ClosingUntouched(w, id, e, r);
    }
  }

  /** A runner that does not own an attempt's marker does not touch the attempt's closing file. */
  lemma ClosingUntouched(w: World, id: nat, e: Event, r: Runner)
    requires Inv(w) && id < |w.runners| && MarkerName(r) in w.custody && w.custody[MarkerName(r)].owner != id
    ensures SameFile(w.custody, Next(w, id, e).custody, ClosingName(r))
  {
    var c, c' := w.custody, Next(w, id, e).custody;
    var n := ClosingName(r);
    StepTouchesOwn(c, w.runners[id], id, e);
    if n in c {
      assert EntryHolds(w, n);
      assert c[n] != Torn(id);
    } else if n in c' {
      StepEntry(c, w.runners[id], id, e, n);
    }
  }

  lemma {:induction false} RunKeepsAbandoned(w: World, schedule: seq<(nat, Event)>, r: Runner)
    requires Inv(w) && Abandoned(w, r)
    ensures var w' := Run(w, schedule);
      && Abandoned(w', r)
      && SameFile(w.custody, w'.custody, MarkerName(r)) && SameFile(w.custody, w'.custody, ClosingName(r))
  {
    if schedule != [] {
      var n := |schedule| - 1;
      RunKeepsAbandoned(w, schedule[..n], r);
      RunSafe(w, schedule[..n]);
      var before := Run(w, schedule[..n]);
      if schedule[n].0 < |before.runners| {
        NextKeepsAbandoned(before, schedule[n].0, schedule[n].1, r);
      }
    }
  }

  /**
   An attempt whose marker owner has stopped never runs again: with the marker torn or complete, whatever happens
   later, both files of the attempt stay as they are, an absent closing stays absent, and no other runner of the
   attempt is ever past its consume.
   */
  lemma StoppedAttemptNeverRuns(w: World, now: seq<(nat, Event)>, later: seq<(nat, Event)>, j: nat)
    requires Start(w) && j < |w.runners| && Abandoned(Run(w, now), w.runners[j])
    ensures var c, end := Run(w, now).custody, Run(w, now + later);
      && SameFile(c, end.custody, MarkerName(w.runners[j])) && SameFile(c, end.custody, ClosingName(w.runners[j]))
      && j < |end.runners|
      && (end.custody[MarkerName(w.runners[j])].owner != j ==> !PastConsume(end.runners[j].phase))
      && (PastConsume(end.runners[j].phase) ==> end.runners[j].phase.Finished?)
  {
    StartHolds(w);
    RunSafe(w, now);
    RunSplits(w, now, later);
    RunSafe(w, now + later);
    RunKeepsAbandoned(Run(w, now), later, w.runners[j]);
    var end := Run(w, now + later);
    if PastConsume(end.runners[j].phase) {
      PastConsumeOwns(end, j);
    }
  }
}
