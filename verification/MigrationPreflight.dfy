/** The create-only preflight: when an explicitly completed legacy run may be reported eligible to migrate. */
module MigrationPreflight {
  import opened Optional
  import opened Identifiers
  import opened Sorting
  import opened ArchiveChain

  /** What a checksum is taken of: the plan fields, the execution record, or the five fields that close a session. */
  datatype Preimage =
    | PlanText(text: string)
    | ExecutionText(text: string)
    | TerminalCore(sessionId: string, planHash: string, status: string, completedAt: Option<string>, execution: Option<string>)

  type Hash = Preimage -> string

  ghost predicate Injective(h: Hash) { forall x, y :: h(x) == h(y) ==> x == y }

  type Positions = Option<map<string, int>>

  datatype Reconciliation = Reconciliation(
    matched: bool, activeOrders: nat, expected: Positions, observed: Positions)

  datatype Execution = Execution(stateChecksum: string, text: string, reconciliation: Option<Reconciliation>)

  /** A session document: an archived one, or the live terminal pointer. */
  datatype Document = Document(
    session: Session, status: string, completedAt: Option<string>, planText: string, execution: Option<Execution>)

  /** The signed terminal pointer, with the account it names. */
  datatype Pointer = Pointer(document: Document, account: string)

  datatype LiveFacts = LiveFacts(account: string, activeOrders: Option<nat>, positions: Positions)

  // ---------------------------------------------------------------- checksums

  predicate PlanChecksumValid(h: Hash, d: Document) { h(PlanText(d.planText)) == d.session.planHash }

  predicate ExecutionChecksumValid(h: Hash, d: Document) {
    d.execution.Some? && d.execution.value.stateChecksum == h(ExecutionText(d.execution.value.text))
  }

  function CoreOf(d: Document): Preimage {
    TerminalCore(d.session.sessionId, d.session.planHash, d.status, d.completedAt,
                 if d.execution.Some? then Some(d.execution.value.stateChecksum) else None)
  }

  predicate TerminalChecksumValid(h: Hash, d: Document) { d.session.checksum == h(CoreOf(d)) }

  predicate ChecksumsValid(h: Hash, d: Document) {
    PlanChecksumValid(h, d) && ExecutionChecksumValid(h, d) && TerminalChecksumValid(h, d)
  }

  /** What the three checksums vouch for: plan, execution, and the five closing fields are exactly what was hashed. */
  ghost predicate Sealed(h: Hash, d: Document) {
    && d.session.planHash == h(PlanText(d.planText))
    && d.execution.Some?
    && d.execution.value.stateChecksum == h(ExecutionText(d.execution.value.text))
    && d.session.checksum
       == h(TerminalCore(d.session.sessionId, d.session.planHash, d.status, d.completedAt, Some(d.execution.value.stateChecksum)))
  }

  lemma SealedExact(h: Hash, d: Document)
    ensures ChecksumsValid(h, d) <==> Sealed(h, d)
  {}

  // ---------------------------------------------------------------- the archive directory

  datatype Content = Unreadable | Readable(document: Document)

  /** One directory entry. */
  datatype Entry = Entry(name: string, content: Content)

  datatype Archive = NotADirectory | Listing(entries: seq<Entry>)

  const LOCK := ".terminal-archive.lock"
  const STEM_PREFIX := "cfast-shakedown-"
  const SUFFIX := ".json"

  /** `cfast-shakedown-`, 32 lower-case hexadecimal digits, `.json`. */
  predicate IsSessionName(name: string) {
    && |name| == 53 && name[..16] == STEM_PREFIX && name[48..] == SUFFIX
    && forall i :: 16 <= i < 48 ==> '0' <= name[i] <= '9' || 'a' <= name[i] <= 'f'
  }

  function Stem(name: string): string
    requires IsSessionName(name)
  {
    name[..48]
  }

  function NameOf(e: Entry): string { e.name }

  const DIR_INVALID := "ARCHIVE_DIR_INVALID"
  const UNKNOWN_ARTIFACT := "ARCHIVE_UNKNOWN_ARTIFACT"
  const READ_INVALID := "ARCHIVE_READ_INVALID"
  const CHECKSUM_INVALID := "ARCHIVE_CHECKSUM_INVALID"

  /** An entry that holds a session under its own name with valid checksums. */
  ghost predicate Archived(h: Hash, e: Entry) {
    && e.name != LOCK && IsSessionName(e.name) && e.content.Readable?
    && e.content.document.session.sessionId == Stem(e.name) && Sealed(h, e.content.document)
  }

  /** A session's file is named by its prefix, its number and its suffix, and in no other way. */
  lemma SessionNameExact(name: string)
    ensures IsSessionName(name) <==>
      exists digits: string :: IsHex(digits) && |digits| == 32 && name == "cfast-shakedown-" + digits + ".json"
  {
    if IsSessionName(name) {
      var digits := name[16..48];
      assert IsHex(digits);
      assert name == name[..16] + digits + name[48..];
    }
    if digits: string :| IsHex(digits) && |digits| == 32 && name == "cfast-shakedown-" + digits + ".json" {
      assert name[..16] == "cfast-shakedown-" && name[48..] == ".json";
      forall i | 16 <= i < 48 ensures '0' <= name[i] <= '9' || 'a' <= name[i] <= 'f' {
        assert name[i] == digits[i - 16];
      }
    }
  }

  ghost predicate IsHex(s: string) { forall i :: 0 <= i < |s| ==> '0' <= s[i] <= '9' || 'a' <= s[i] <= 'f' }

  ghost predicate Spoiled(h: Hash, e: Entry) { e.name != LOCK && !Archived(h, e) }

  ghost function EntryBlocker(h: Hash, e: Entry): string
    requires Spoiled(h, e)
  {
    if !IsSessionName(e.name) then UNKNOWN_ARTIFACT else if e.content.Unreadable? then READ_INVALID else CHECKSUM_INVALID
  }

  ghost function Sessions(h: Hash, entries: seq<Entry>): seq<Session> {
    if entries == [] then []
    else
      var n := |entries| - 1;
      Sessions(h, entries[..n]) + if Archived(h, entries[n]) then [entries[n].content.document.session] else []
  }

  lemma {:induction false} SessionEntry(h: Hash, entries: seq<Entry>, r: Session)
    requires r in Sessions(h, entries)
    ensures exists e :: e in entries && Archived(h, e) && e.content.document.session == r
  {
    var n := |entries| - 1;
    if r in Sessions(h, entries[..n]) {
      SessionEntry(h, entries[..n], r);
    } else {
      assert entries[n] in entries;
    }
  }

  /** An injective checksum tells apart what different files hold. */
  lemma SameChecksumSameName(h: Hash, a: Entry, b: Entry)
    requires Injective(h) && Archived(h, a) && Archived(h, b)
    requires a.content.document.session.checksum == b.content.document.session.checksum
    ensures a.name == b.name
  {
    assert CoreOf(a.content.document) == CoreOf(b.content.document);
    assert a.name == Stem(a.name) + SUFFIX && b.name == Stem(b.name) + SUFFIX;
  }

  /** A directory's sessions all have different checksums: their names differ, and the checksum covers the name. */
  lemma {:induction false} ArchivedChecksumsDistinct(h: Hash, entries: seq<Entry>)
    requires Injective(h) && DistinctBy(entries, NameOf)
    ensures DistinctChecksums(Sessions(h, entries))
  {
    if entries != [] {
      var n := |entries| - 1;
      var e := entries[n];
      ArchivedChecksumsDistinct(h, entries[..n]);
      if Archived(h, e) {
        forall r | r in Sessions(h, entries[..n]) ensures r.checksum != e.content.document.session.checksum {
          SessionEntry(h, entries[..n], r);
          var x :| x in entries[..n] && Archived(h, x) && x.content.document.session == r;
          var i :| 0 <= i < n && entries[i] == x;
          assert NameOf(entries[i]) != NameOf(entries[n]);
          if r.checksum == e.content.document.session.checksum {
            SameChecksumSameName(h, x, e);
          }
        }
      }
    }
  }

  /** So no directory listing can bring the walk to its cycle verdict. */
  lemma ArchiveNeverCycles(h: Hash, entries: seq<Entry>)
    requires Injective(h) && DistinctBy(entries, NameOf)
    ensures Reconstruct(Sessions(h, entries)) != Blocked(CYCLE)
  {
    ArchivedChecksumsDistinct(h, entries);
    NoCycleWhenDistinct(Sessions(h, entries));
  }

  /** The codes an archive is blocked with: one for each kind of spoiled entry, otherwise the chain's own. */
  ghost predicate ArchiveBlocked(h: Hash, archive: Archive, code: string) {
    if archive.NotADirectory? then code == DIR_INVALID
    else if exists e :: e in archive.entries && Spoiled(h, e) then
      exists e :: e in archive.entries && Spoiled(h, e) && code == EntryBlocker(h, e)
    else Reconstruct(Sessions(h, archive.entries)) == Blocked(code)
  }

  /** The rows the archive is read as: in chain order when there is nothing wrong with it. */
  ghost function ArchiveRows(h: Hash, archive: Archive): seq<Session> {
    if archive.NotADirectory? then []
    else
      var rows := Sessions(h, archive.entries);
      if (forall e :: e in archive.entries ==> !Spoiled(h, e)) && Reconstruct(rows).Chain? then Reconstruct(rows).ordered else rows
  }

  /** A sound archive: a directory without a spoiled entry whose sessions form a chain. */
  ghost predicate ArchiveSound(h: Hash, archive: Archive) {
    && archive.Listing?
    && (forall e :: e in archive.entries ==> !Spoiled(h, e))
    && Reconstruct(Sessions(h, archive.entries)).Chain?
  }

  lemma SoundIffNotBlocked(h: Hash, archive: Archive)
    ensures ArchiveSound(h, archive) <==> !exists code :: ArchiveBlocked(h, archive, code)
  {
    if archive.NotADirectory? {
      assert ArchiveBlocked(h, archive, DIR_INVALID);
    } else if e :| e in archive.entries && Spoiled(h, e) {
      assert ArchiveBlocked(h, archive, EntryBlocker(h, e));
    } else if Reconstruct(Sessions(h, archive.entries)).Blocked? {
      assert ArchiveBlocked(h, archive, Reconstruct(Sessions(h, archive.entries)).code);
    }
  }

  /** The codes collected so far are those of the spoiled entries read so far. */
  ghost predicate CodesExact(h: Hash, entries: seq<Entry>, codes: seq<string>) {
    forall code :: code in codes <==> exists e :: e in entries && Spoiled(h, e) && code == EntryBlocker(h, e)
  }

  lemma CodesStep(h: Hash, entries: seq<Entry>, codes: seq<string>, e: Entry)
    requires CodesExact(h, entries, codes)
    ensures CodesExact(h, entries + [e], if Spoiled(h, e) then codes + [EntryBlocker(h, e)] else codes)
  {
    hide Spoiled, EntryBlocker;
    assert forall x :: x in entries + [e] <==> x in entries || x == e;
    assert e in entries + [e];
  }

  /** There are codes exactly when an entry is spoiled, and none of them is the chain's. */
  lemma CodesMean(h: Hash, entries: seq<Entry>, codes: seq<string>)
    requires CodesExact(h, entries, codes)
    ensures codes != [] <==> exists e :: e in entries && Spoiled(h, e)
    ensures CYCLE !in codes
  {
    if codes != [] {
      assert codes[0] in codes;
    }
    if e :| e in entries && Spoiled(h, e) {
      assert EntryBlocker(h, e) in codes;
    }
  }

  /** Reads the directory entry by entry. */
  method ReadEntries(h: Hash, entries: seq<Entry>) returns (rows: seq<Session>, codes: seq<string>)
    ensures rows == Sessions(h, entries) && CodesExact(h, entries, codes)
  {
    hide CodesExact;
    rows, codes := [], [];
    NoCodes(h);
    assert entries[..0] == [];
    for i := 0 to |entries|
      invariant rows == Sessions(h, entries[..i]) && CodesExact(h, entries[..i], codes)
    {
      var e := entries[i];
      assert entries[..i + 1][..i] == entries[..i] && entries[..i + 1] == entries[..i] + [e];
      CodesStep(h, entries[..i], codes, e);
      if e.name == LOCK {
        continue;
      }
      if !IsSessionName(e.name) {
        codes := codes + [UNKNOWN_ARTIFACT];
        continue;
      }
      if e.content.Unreadable? {
        codes := codes + [READ_INVALID];
        continue;
      }
      var d := e.content.document;
      if d.session.sessionId != Stem(e.name)
         || !PlanChecksumValid(h, d) || !ExecutionChecksumValid(h, d) || !TerminalChecksumValid(h, d) {
        codes := codes + [CHECKSUM_INVALID];
        continue;
      }
      rows := rows + [d.session];
    }
    assert entries[..|entries|] == entries;
  }

  lemma NoCodes(h: Hash)
    ensures CodesExact(h, [], [])
  {}

  /** Reads the directory, then rebuilds the chain; the cycle code never comes up. */
  method LoadArchive(h: Hash, archive: Archive) returns (rows: seq<Session>, blockers: seq<string>)
    requires Injective(h) && (archive.Listing? ==> DistinctBy(archive.entries, NameOf))
    ensures forall code :: code in blockers <==> ArchiveBlocked(h, archive, code)
    ensures rows == ArchiveRows(h, archive)
    ensures CYCLE !in blockers
  {
    hide Spoiled, EntryBlocker, Sessions, Reconstruct, DistinctBy;
    if archive.NotADirectory? {
      return [], [DIR_INVALID];
    }
    ArchiveNeverCycles(h, archive.entries);
    rows, blockers := ReadEntries(h, archive.entries);
    CodesMean(h, archive.entries, blockers);
    if blockers != [] {
      return;
    }
    var chain := LoadChain(rows);
    match chain {
      case Blocked(code) => blockers := [code];
      case Chain(ordered) => rows := ordered;
    }
  }

  // ---------------------------------------------------------------- the report

  /** Positions with the flat ones left out. */
  function Normalized(p: Positions): Positions {
    if p.None? then None else Some(map k | k in p.value && p.value[k] != 0 :: p.value[k])
  }

  function Quantity(p: map<string, int>, key: string): int { if key in p then p[key] else 0 }

  /** Normalized positions agree exactly when every instrument's quantity agrees, a missing one counting as flat. */
  lemma NormalizedAgree(a: map<string, int>, b: map<string, int>)
    ensures Normalized(Some(a)) == Normalized(Some(b)) <==> forall k: string :: Quantity(a, k) == Quantity(b, k)
  {
    var na, nb := Normalized(Some(a)).value, Normalized(Some(b)).value;
    if na == nb {
      forall k: string ensures Quantity(a, k) == Quantity(b, k) {
        assert k in na <==> k in nb;
      }
    }
    if forall k: string :: Quantity(a, k) == Quantity(b, k) {
      forall k: string ensures (k in na <==> k in nb) && (k in na ==> na[k] == nb[k]) {
        assert Quantity(a, k) == Quantity(b, k);
      }
      assert na == nb;
    }
  }

  /** The four fields that tie the pointer to the chain's tip. */
  predicate SameTip(a: Session, b: Session) {
    a.sessionId == b.sessionId && a.planHash == b.planHash && a.checksum == b.checksum && a.snapshotHash == b.snapshotHash
  }

  function ReconciliationOf(d: Document): Option<Reconciliation> {
    if d.execution.Some? then d.execution.value.reconciliation else None
  }

  predicate Reconciled(pointer: Pointer, live: LiveFacts) {
    && ReconciliationOf(pointer.document).Some?
    && var r := ReconciliationOf(pointer.document).value;
    && r.matched
    && r.activeOrders == 0
    && Normalized(r.expected).Some?
    && Normalized(r.observed) == Normalized(r.expected)
    && Normalized(live.positions) == Normalized(r.expected)
  }

  /**
   The reconciliation says it matched with no active order, and the positions it expected, those it observed and those
   observed now are all there and agree on every instrument, an absent one counting as flat.
   */
  ghost predicate PositionsAgree(pointer: Pointer, live: LiveFacts) {
    && pointer.document.execution.Some? && pointer.document.execution.value.reconciliation.Some?
    && var r := pointer.document.execution.value.reconciliation.value;
    && r.matched && r.activeOrders == 0
    && r.expected.Some? && r.observed.Some? && live.positions.Some?
    && (forall k: string :: Quantity(r.expected.value, k) == Quantity(r.observed.value, k))
    && (forall k: string :: Quantity(r.expected.value, k) == Quantity(live.positions.value, k))
  }

  lemma ReconciledExact(pointer: Pointer, live: LiveFacts)
    ensures Reconciled(pointer, live) <==> PositionsAgree(pointer, live)
  {
    hide Quantity;
    if ReconciliationOf(pointer.document).Some? {
      var r := ReconciliationOf(pointer.document).value;
      if r.expected.Some? && r.observed.Some? && live.positions.Some? {
        AgreeBothWays(r.expected.value, r.observed.value);
        AgreeBothWays(r.expected.value, live.positions.value);
      }
    }
  }

  lemma AgreeBothWays(a: map<string, int>, b: map<string, int>)
    ensures Normalized(Some(b)) == Normalized(Some(a)) <==> forall k: string :: Quantity(a, k) == Quantity(b, k)
  {
    NormalizedAgree(a, b);
  }

  /** The sessions can be arranged as a chain whose last one has the four compared fields of `own`. */
  ghost predicate ChainEndsAt(rows: seq<Session>, own: Session) {
    exists o: seq<Session> ::
      && IsChain(o) && multiset(o) == multiset(rows)
      && var tip := o[|o| - 1];
      && own.sessionId == tip.sessionId && own.planHash == tip.planHash
      && own.checksum == tip.checksum && own.snapshotHash == tip.snapshotHash
  }

  /** Everything an eligible report vouches for. */
  ghost predicate Eligible(h: Hash, pointer: Pointer, archive: Archive, live: LiveFacts, account: string) {
    && archive.Listing?
    && (forall e :: e in archive.entries ==> !Spoiled(h, e))
    && PredecessorsValid(Sessions(h, archive.entries))
    && ChainEndsAt(Sessions(h, archive.entries), pointer.document.session)
    && pointer.document.status == "COMPLETE" && Sealed(h, pointer.document)
    && IsSha256(account) && pointer.account == account && live.account == account
    && live.activeOrders == Some(0)
    && PositionsAgree(pointer, live)
    && IsSha256(pointer.document.session.snapshotHash)
  }

  lemma TipOfReconstruction(rows: seq<Session>, pointer: Session)
    ensures Reconstruct(rows).Chain? ==> Reconstruct(rows).ordered != []
    ensures (Reconstruct(rows).Chain? && SameTip(pointer, Reconstruct(rows).ordered[|Reconstruct(rows).ordered| - 1]))
       <==> PredecessorsValid(rows) && ChainEndsAt(rows, pointer)
  {
    if Reconstruct(rows).Chain? {
      ReconstructSound(rows);
    }
    forall o | PredecessorsValid(rows) && IsChain(o) && multiset(o) == multiset(rows)
      ensures Reconstruct(rows) == Chain(o)
    {
      ReconstructExact(rows, o);
    }
  }

  const ACCOUNT_INVALID := "EXPECTED_ACCOUNT_INVALID"
  const POINTER_INVALID := "TERMINAL_POINTER_INVALID"
  const NOT_CHAIN_TIP := "TERMINAL_POINTER_NOT_CHAIN_TIP"
  const ACCOUNT_MISMATCH := "ACCOUNT_BINDING_MISMATCH"
  const ACTIVE_ORDERS := "ACTIVE_ORDERS_NOT_ZERO"
  const POSITION_MISMATCH := "POSITION_RECONCILIATION_MISMATCH"
  const OWNERSHIP_MISSING := "SIGNED_TARGET_OWNERSHIP_MISSING"

  /** The terminal pointer is the last row the archive is read as, in the four compared fields. */
  ghost predicate NamesTip(h: Hash, pointer: Pointer, archive: Archive) {
    var rows := ArchiveRows(h, archive);
    rows != [] && SameTip(pointer.document.session, rows[|rows| - 1])
  }

  /** What the terminal pointer and the live facts are reported for; `named` says whether that pointer is the tip. */
  ghost predicate FactsReported(h: Hash, pointer: Pointer, named: bool, live: LiveFacts, account: string, code: string) {
    || (code == ACCOUNT_INVALID && !IsSha256(account))
    || (code == POINTER_INVALID && !(pointer.document.status == "COMPLETE" && Sealed(h, pointer.document)))
    || (code == NOT_CHAIN_TIP && !named)
    || (code == ACCOUNT_MISMATCH && !(pointer.account == account && live.account == account))
    || (code == ACTIVE_ORDERS && live.activeOrders != Some(0))
    || (code == POSITION_MISMATCH && !PositionsAgree(pointer, live))
    || (code == OWNERSHIP_MISSING && !IsSha256(pointer.document.session.snapshotHash))
  }

  /** The code is reported, and why. */
  ghost predicate Reported(h: Hash, pointer: Pointer, archive: Archive, live: LiveFacts, account: string, code: string) {
    ArchiveBlocked(h, archive, code) || FactsReported(h, pointer, NamesTip(h, pointer, archive), live, account, code)
  }

  lemma EligibleIffUnreported(h: Hash, pointer: Pointer, archive: Archive, live: LiveFacts, account: string)
    ensures Eligible(h, pointer, archive, live, account) <==>
      forall code :: !Reported(h, pointer, archive, live, account, code)
  {
    hide Reconstruct, Sessions, Spoiled, Sealed, PositionsAgree, IsSha256, EntryBlocker, ChainEndsAt, PredecessorsValid, SameTip;
    SoundIffNotBlocked(h, archive);
    if archive.Listing? {
      TipOfReconstruction(Sessions(h, archive.entries), pointer.document.session);
    }
    if forall code :: !Reported(h, pointer, archive, live, account, code) {
      assert forall code :: ArchiveBlocked(h, archive, code) ==> Reported(h, pointer, archive, live, account, code);
      assert !Reported(h, pointer, archive, live, account, ACCOUNT_INVALID);
      assert !Reported(h, pointer, archive, live, account, POINTER_INVALID);
      assert !Reported(h, pointer, archive, live, account, NOT_CHAIN_TIP);
      assert !Reported(h, pointer, archive, live, account, ACCOUNT_MISMATCH);
      assert !Reported(h, pointer, archive, live, account, ACTIVE_ORDERS);
      assert !Reported(h, pointer, archive, live, account, POSITION_MISMATCH);
      assert !Reported(h, pointer, archive, live, account, OWNERSHIP_MISSING);
    }
  }

  function When(condition: bool, code: string): seq<string> { if condition then [code] else [] }

  /** The codes of the pointer and the live facts, in the order they are checked. */
  method CheckFacts(h: Hash, pointer: Pointer, named: bool, live: LiveFacts, account: string) returns (codes: seq<string>)
    ensures forall code :: code in codes <==> FactsReported(h, pointer, named, live, account, code)
  {
    hide ChecksumsValid, Reconciled, Sealed, PositionsAgree, IsSha256;
    SealedExact(h, pointer.document);
    ReconciledExact(pointer, live);
    var d := pointer.document;
    codes := When(!IsSha256(account), ACCOUNT_INVALID);
    codes := codes + When(d.status != "COMPLETE" || !ChecksumsValid(h, d), POINTER_INVALID);
    codes := codes + When(!named, NOT_CHAIN_TIP);
    codes := codes + When(pointer.account != account || live.account != account, ACCOUNT_MISMATCH);
    codes := codes + When(live.activeOrders != Some(0), ACTIVE_ORDERS);
    codes := codes + When(!Reconciled(pointer, live), POSITION_MISMATCH);
    codes := codes + When(!IsSha256(d.session.snapshotHash), OWNERSHIP_MISSING);
  }

  lemma PositionsReported(h: Hash, pointer: Pointer, archive: Archive, live: LiveFacts, account: string)
    ensures Eligible(h, pointer, archive, live, account) ==> PositionsAgree(pointer, live)
    ensures !PositionsAgree(pointer, live) ==> Reported(h, pointer, archive, live, account, POSITION_MISMATCH)
  {
    hide ChainEndsAt, PositionsAgree, Sealed, IsSha256, ArchiveBlocked, NamesTip, PredecessorsValid;
  }

  lemma FactsNeverCycle(h: Hash, pointer: Pointer, named: bool, live: LiveFacts, account: string)
    ensures !FactsReported(h, pointer, named, live, account, CYCLE)
  {
    assert CYCLE[0] == 'A' && CYCLE[1] == 'R';
  }

  /** The report: its blockers are exactly the reported codes, and it is eligible in exactly the states it vouches for. */
  method Preflight(h: Hash, pointer: Pointer, archive: Archive, live: LiveFacts, account: string)
    returns (eligible: bool, blockers: seq<string>)
    requires Injective(h) && (archive.Listing? ==> DistinctBy(archive.entries, NameOf))
    ensures forall code :: code in blockers <==> Reported(h, pointer, archive, live, account, code)
    ensures eligible <==> blockers == []
    ensures eligible <==> Eligible(h, pointer, archive, live, account)
    ensures eligible ==> PositionsAgree(pointer, live)
    ensures !PositionsAgree(pointer, live) ==> POSITION_MISMATCH in blockers
    ensures CYCLE !in blockers
  {
    hide ArchiveBlocked, ArchiveRows, Eligible, FactsReported, DistinctBy, Injective, SameTip;
    EligibleIffUnreported(h, pointer, archive, live, account);
    PositionsReported(h, pointer, archive, live, account);
    var chain, archived := LoadArchive(h, archive);
    var found := CheckFacts(h, pointer, chain != [] && SameTip(pointer.document.session, chain[|chain| - 1]), live, account);
    FactsNeverCycle(h, pointer, chain != [] && SameTip(pointer.document.session, chain[|chain| - 1]), live, account);
    blockers := archived + found;
    eligible := blockers == [];
    assert blockers != [] ==> blockers[0] in blockers;
  }
}
