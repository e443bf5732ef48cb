/**
 The deployment outcome check: a signed outcome is read back against the consume marker and receipt of the one-shot
 protocol, the deployment's own times and the evidence captured after the restart.
 */
module DeploymentOutcome {
  import opened Optional
  import opened Clock
  import opened CustodyProtocol
  import opened CustodySafety

  const HEALTH_RECOVERY: Time := 120 * SECOND
  const SIGNING_LAG: Time := 24 * 3600 * SECOND
  const EVIDENCE_AGE: Time := 3600 * SECOND

  datatype Post = WriterPost | HealthPost | BacklogPost | PrincipalSecretPost | NetworkPost

  const POSTS: seq<Post> := [WriterPost, HealthPost, BacklogPost, PrincipalSecretPost, NetworkPost]

  datatype Execution = Execution(
    startedAt: Time, secretInstalledAt: Time, restartStartedAt: Time, restartCompletedAt: Time, endedAt: Time)

  /** The execution record and when each post evidence was captured. */
  datatype Evidence = Evidence(execution: Execution, captured: map<Post, Time>)

  /** A signed outcome; `signed` says that its own keyring, signer separation and signature verify. */
  datatype Outcome = Outcome(evidence: Evidence, issuedAt: Time, signed: bool)

  predicate Complete(e: Evidence) { forall p :: p in POSTS ==> p in e.captured }

  predicate InOrder(terms: Terms, consumedAt: Time, x: Execution) {
    && terms.notBefore <= consumedAt <= x.startedAt <= x.secretInstalledAt
    && x.secretInstalledAt <= x.restartStartedAt <= x.restartCompletedAt <= x.endedAt < terms.expiresAt
    && x.endedAt - x.startedAt <= terms.reserve * SECOND
  }

  /** Captured after the restart and before the end; the health evidence within two minutes of the restart. */
  predicate CapturedInTime(e: Evidence, p: Post)
    requires p in e.captured
  {
    && e.execution.restartCompletedAt <= e.captured[p] <= e.execution.endedAt
    && (p == HealthPost ==> e.captured[p] - e.execution.restartCompletedAt <= HEALTH_RECOVERY)
  }

  ghost predicate PostTimesHold(terms: Terms, consumedAt: Time, e: Evidence)
    requires Complete(e)
  {
    InOrder(terms, consumedAt, e.execution) && forall p :: p in POSTS ==> CapturedInTime(e, p)
  }

  /** The time checks on the post bundle, one evidence after another. */
  method VerifyPostTimes(terms: Terms, consumedAt: Time, e: Evidence) returns (ok: bool)
    requires Complete(e)
    ensures ok <==> PostTimesHold(terms, consumedAt, e)
  {
    if !InOrder(terms, consumedAt, e.execution) {
      return false;
    }
    for i := 0 to |POSTS|
      invariant forall k :: 0 <= k < i ==> CapturedInTime(e, POSTS[k])
    {
      assert POSTS[i] in POSTS && POSTS[i] in e.captured;
      if !(e.execution.restartCompletedAt <= e.captured[POSTS[i]] <= e.execution.endedAt) {
        return false;
      }
      if POSTS[i] == HealthPost && e.captured[POSTS[i]] - e.execution.restartCompletedAt > HEALTH_RECOVERY {
        return false;
      }
    }
    return true;
  }

  // ---------------------------------------------------------------- the custody chain

  /** Both custody files of the deployment are complete. */
  predicate HasReceipt(c: Custody, release: string) {
    && MarkerFile(Deployment, release) in c && c[MarkerFile(Deployment, release)].MarkerEntry?
    && ClosingFile(Deployment, release) in c && c[ClosingFile(Deployment, release)].ClosingEntry?
  }

  function MarkerOf(c: Custody, release: string): Marker
    requires HasReceipt(c, release)
  {
    c[MarkerFile(Deployment, release)].marker
  }

  /**
   The custody chain against the release files as they read now: `reread` is what the release, its evidence and its
   keyring verify to apart from the clock, or nothing when they do not. The release must be open at the instant it was
   consumed, and marker and receipt must bind exactly that release and each other.
   */
  predicate SourceChainHolds(c: Custody, release: string, reread: Option<Verified>) {
    && reread.Some? && reread.value.terms.release == release
    && HasReceipt(c, release)
    && var m := MarkerOf(c, release);
       var t := c[ClosingFile(Deployment, release)].closing;
       && DeploymentOpen(reread.value, m.consumedAt)
       && m.verified == reread.value
       && t.Receipt? && t.verified == reread.value && t.consume == Sha(m) && t.verifiedAt == m.consumedAt
  }

  ghost predicate OutcomeTimesHold(m: Marker, o: Outcome, now: Time)
    requires Complete(o.evidence)
  {
    && PostTimesHold(m.verified.terms, m.consumedAt, o.evidence)
    && o.evidence.execution.endedAt <= o.issuedAt <= now
    && o.issuedAt - o.evidence.execution.endedAt <= SIGNING_LAG
  }

  ghost predicate Ascends(s: seq<Time>) { forall i, j :: 0 <= i < j < |s| ==> s[i] <= s[j] }

  lemma AscendsByNeighbours(a: Time, b: Time, c: Time, d: Time, e: Time, f: Time, g: Time, h: Time, i: Time)
    ensures Ascends([a, b, c, d, e, f, g, h, i]) <==> a <= b <= c <= d <= e <= f <= g <= h <= i
  {
    var s := [a, b, c, d, e, f, g, h, i];
    if Ascends(s) {
      assert s[0] <= s[1] && s[1] <= s[2] && s[2] <= s[3] && s[3] <= s[4] && s[4] <= s[5] && s[5] <= s[6] && s[6] <= s[7]
        && s[7] <= s[8];
    }
  }

  /**
   The times of an outcome, as one line: not-before, consume, start, secret, restart begun, restart done, end, signature
   and now follow one another; the end comes before expiry and within the signed duration, the signature within a day
   of it; all five captures fall between restart and end, the health capture within two minutes of the restart.
   */
  lemma TimesOnOneLine(m: Marker, o: Outcome, now: Time)
    requires Complete(o.evidence)
    ensures var x, terms, captured := o.evidence.execution, m.verified.terms, o.evidence.captured;
      OutcomeTimesHold(m, o, now) <==>
        && Ascends([terms.notBefore, m.consumedAt, x.startedAt, x.secretInstalledAt, x.restartStartedAt, x.restartCompletedAt,
                    x.endedAt, o.issuedAt, now])
        && x.endedAt < terms.expiresAt
        && x.endedAt - x.startedAt <= terms.reserve * 1_000_000
        && o.issuedAt - x.endedAt <= 24 * 3600 * 1_000_000
        && (forall p: Post :: p in captured && x.restartCompletedAt <= captured[p] <= x.endedAt)
        && captured[HealthPost] - x.restartCompletedAt <= 120 * 1_000_000
  {
    hide Ascends;
    var x, terms := o.evidence.execution, m.verified.terms;
    AscendsByNeighbours(terms.notBefore, m.consumedAt, x.startedAt, x.secretInstalledAt, x.restartStartedAt, x.restartCompletedAt,
                        x.endedAt, o.issuedAt, now);
    forall p: Post ensures p in POSTS { EveryPost(p); }
    assert (forall p :: p in POSTS ==> CapturedInTime(o.evidence, p)) ==> CapturedInTime(o.evidence, HealthPost);
  }

  lemma EveryPost(p: Post)
    ensures p in POSTS
  {
    var k := if p == WriterPost then 0 else if p == HealthPost then 1 else if p == BacklogPost then 2
             else if p == PrincipalSecretPost then 3 else 4;
    assert POSTS[k] == p;
  }

  /** A signed outcome the verifier accepts at an instant. */
  ghost predicate Accepted(c: Custody, release: string, o: Outcome, reread: Option<Verified>, now: Time)
    requires Complete(o.evidence)
  {
    SourceChainHolds(c, release, reread) && OutcomeTimesHold(MarkerOf(c, release), o, now) && o.signed
  }

  method VerifySignedOutcome(c: Custody, release: string, o: Outcome, reread: Option<Verified>, now: Time) returns (ok: bool)
    requires Complete(o.evidence)
    ensures ok <==> Accepted(c, release, o, reread, now)
  {
    if !SourceChainHolds(c, release, reread) {
      return false;
    }
    var m := MarkerOf(c, release);
    var inTime := VerifyPostTimes(m.verified.terms, m.consumedAt, o.evidence);
    var endedAt := o.evidence.execution.endedAt;
    if !inTime || !(endedAt <= o.issuedAt <= now) || o.issuedAt - endedAt > SIGNING_LAG {
      return false;
    }
    return o.signed;
  }

  /**
   In every state the protocol can reach, the custody chain verifies exactly when a receipt is there and the release
   files still verify to the release that was consumed: the time rules at the consume instant, and the bindings
   between marker and receipt, can never be what refuses.
   */
  lemma ReachableChainHolds(w: World, schedule: seq<(nat, Event)>, release: string, reread: Option<Verified>)
    requires Start(w)
    ensures var c := Run(w, schedule).custody;
      SourceChainHolds(c, release, reread) <==>
        && ClosingFile(Deployment, release) in c && c[ClosingFile(Deployment, release)].ClosingEntry?
        && reread == Some(c[ClosingFile(Deployment, release)].closing.verified)
  {
    var c := Run(w, schedule).custody;
    if ClosingFile(Deployment, release) in c && c[ClosingFile(Deployment, release)].ClosingEntry? {
      StartHolds(w);
      RunSafe(w, schedule);
      assert EntryHolds(Run(w, schedule), ClosingFile(Deployment, release));
      assert EntryHolds(Run(w, schedule), MarkerFile(Deployment, release));
    }
  }

  /** So acceptance is a receipt, unchanged release files, right times of its own, and a valid signature. */
  lemma AcceptedExactly(w: World, schedule: seq<(nat, Event)>, release: string, o: Outcome, reread: Option<Verified>, now: Time)
    requires Start(w) && Complete(o.evidence)
    ensures var c := Run(w, schedule).custody;
      Accepted(c, release, o, reread, now) <==>
        && HasReceipt(c, release) && reread == Some(MarkerOf(c, release).verified)
        && OutcomeTimesHold(MarkerOf(c, release), o, now) && o.signed
  {
    hide OutcomeTimesHold;
    ReachableChainHolds(w, schedule, release, reread);
    if HasReceipt(Run(w, schedule).custody, release) {
      ClosingNamesItsMarker(w, schedule, Deployment, release);
    }
  }

  /** An accepted outcome stays accepted on the same files, whatever the runners do afterwards and however late it is read. */
  lemma AcceptanceLasts(w: World, now: seq<(nat, Event)>, later: seq<(nat, Event)>, release: string, o: Outcome,
                        reread: Option<Verified>, at: Time, after: Time)
    requires Start(w) && Complete(o.evidence) && at <= after
    requires Accepted(Run(w, now).custody, release, o, reread, at)
    ensures Accepted(Run(w, now + later).custody, release, o, reread, after)
  {
    CompleteFilesArePermanent(w, now, later);
  }

  // ---------------------------------------------------------------- the timeline

  /** Evidence for a release is captured at most an hour before it is issued. */
  predicate EvidenceFresh(terms: Terms, capturedAt: Time) { terms.issuedAt - EVIDENCE_AGE <= capturedAt <= terms.issuedAt }

  /** From the evidence the release was issued on to the signature of its accepted outcome takes less than 27 hours. */
  lemma OutcomeSpan(c: Custody, release: string, o: Outcome, reread: Option<Verified>, now: Time, before: Time)
    requires Complete(o.evidence) && Accepted(c, release, o, reread, now)
    requires EvidenceFresh(MarkerOf(c, release).verified.terms, before)
    ensures o.issuedAt - before < 27 * 3600 * 1_000_000
  {}

  /** A deployment that starts at the consume, goes step by step, and keeps the signed duration. */
  predicate Prompt(v: Verified, consumedAt: Time, x: Execution) {
    && x.startedAt == consumedAt
    && x.startedAt <= x.secretInstalledAt <= x.restartStartedAt <= x.restartCompletedAt <= x.endedAt
    && x.endedAt - x.startedAt <= v.terms.reserve * SECOND
  }

  /**
   What the room checked at consume is worth: every prompt deployment meets the time chain exactly when the signed
   duration ends strictly before expiry. The check at consume also lets through a release with not an instant to spare.
   */
  lemma PromptDeploymentsFit(v: Verified, consumedAt: Time)
    requires DeploymentOpen(v, consumedAt)
    ensures (forall x: Execution :: Prompt(v, consumedAt, x) ==> InOrder(v.terms, consumedAt, x)) <==>
      consumedAt + v.terms.reserve * SECOND < v.terms.expiresAt
  {
    var longest := Execution(consumedAt, consumedAt, consumedAt, consumedAt, consumedAt + v.terms.reserve * SECOND);
    assert Prompt(v, consumedAt, longest);
  }

  /** Such a release exists: one minute long, consumed at its start, for a deployment of exactly one minute. */
  lemma LastInstantReached() returns (v: Verified, x: Execution)
    ensures DeploymentOpen(v, v.terms.notBefore) && Prompt(v, v.terms.notBefore, x) && !InOrder(v.terms, v.terms.notBefore, x)
  {
    v := Verified(Terms("r", 0, 0, 60 * SECOND, 60), 0, "", "", "", "");
    x := Execution(0, 0, 0, 0, 60 * SECOND);
  }
}
