/**
 Terminal archive reconstruction: an unordered set of archived sessions, each naming its predecessor's
 checksum, is rebuilt into one linear chain.
 */
module ArchiveChain {
  import opened Optional
  import opened Identifiers

  datatype Session = Session(
    sessionId: string, planHash: string, checksum: string, snapshotHash: string, previous: Option<string>)

  datatype Result = Chain(ordered: seq<Session>) | Blocked(code: string)

  const PREDECESSOR_INVALID := "ARCHIVE_PREDECESSOR_INVALID"
  const ROOT_INVALID := "ARCHIVE_CHAIN_ROOT_INVALID"
  const FORKED := "ARCHIVE_CHAIN_FORKED"
  const CYCLE := "ARCHIVE_CHAIN_CYCLE"
  const DISCONNECTED := "ARCHIVE_CHAIN_DISCONNECTED"

  predicate PredecessorValid(r: Session) { r.previous.Some? ==> IsSha256(r.previous.value) }

  ghost predicate PredecessorsValid(rows: seq<Session>) { forall r :: r in rows ==> PredecessorValid(r) }

  // ---------------------------------------------------------------- what a chain is

  ghost predicate DistinctChecksums(rows: seq<Session>) {
    forall i, j :: 0 <= i < j < |rows| ==> rows[i].checksum != rows[j].checksum
  }

  /** One root, every later session naming the one before it, no checksum twice. */
  ghost predicate IsChain(o: seq<Session>) {
    && o != []
    && o[0].previous == None
    && (forall i :: 0 < i < |o| ==> o[i].previous == Some(o[i - 1].checksum))
    && DistinctChecksums(o)
  }

  // ---------------------------------------------------------------- reconstruction

  /** The sessions that name `c`, in listing order. */
  function Children(rows: seq<Session>, c: Option<string>): seq<Session> {
    if rows == [] then []
    else
      var n := |rows| - 1;
      Children(rows[..n], c) + (if rows[n].previous == c then [rows[n]] else [])
  }

  function Checksums(rows: seq<Session>): set<string> { set r | r in rows :: r.checksum }

  /** Follows only children from the end of `ordered`. */
  function Walk(rows: seq<Session>, ordered: seq<Session>, seen: set<string>): Result
    requires ordered != []
    decreases |Checksums(rows) - seen|
  {
    var kids := Children(rows, Some(ordered[|ordered| - 1].checksum));
    if kids == [] then if |ordered| == |rows| then Chain(ordered) else Blocked(DISCONNECTED)
    else if |kids| != 1 then Blocked(FORKED)
    else if kids[0].checksum in seen then Blocked(CYCLE)
    else
      WalkProgress(rows, kids[0], Some(ordered[|ordered| - 1].checksum), seen);
      Walk(rows, ordered + [kids[0]], seen + {kids[0].checksum})
  }

  function Reconstruct(rows: seq<Session>): Result {
    if exists r :: r in rows && !PredecessorValid(r) then Blocked(PREDECESSOR_INVALID)
    else
      var roots := Children(rows, None);
      if |roots| != 1 then Blocked(ROOT_INVALID) else Walk(rows, [roots[0]], {roots[0].checksum})
  }

  lemma {:induction false} ChildrenExact(rows: seq<Session>, c: Option<string>, r: Session)
    ensures r in Children(rows, c) <==> r in rows && r.previous == c
  {
    if rows != [] {
      var n := |rows| - 1;
      ChildrenExact(rows[..n], c, r);
      assert rows == rows[..n] + [rows[n]];
    }
  }

  /** Each step sees a new checksum, so the walk ends. */
  lemma WalkProgress(rows: seq<Session>, kid: Session, c: Option<string>, seen: set<string>)
    requires Children(rows, c) == [kid] && kid.checksum !in seen
    ensures |Checksums(rows) - (seen + {kid.checksum})| < |Checksums(rows) - seen|
  {
    assert kid in Children(rows, c);
    ChildrenExact(rows, c, kid);
    assert kid.checksum in Checksums(rows);
    assert Checksums(rows) - (seen + {kid.checksum}) == (Checksums(rows) - seen) - {kid.checksum};
  }

  // ---------------------------------------------------------------- forced paths

  /** A path the walk is forced to take: the only root, then only children, no checksum twice. */
  ghost predicate ForcedPath(rows: seq<Session>, o: seq<Session>) {
    && o != []
    && Children(rows, None) == [o[0]]
    && (forall i :: 0 < i < |o| ==> Children(rows, Some(o[i - 1].checksum)) == [o[i]])
    && DistinctChecksums(o)
  }

  lemma {:induction false} ForcedPathWalk(rows: seq<Session>, o: seq<Session>)
    requires PredecessorsValid(rows) && ForcedPath(rows, o)
    ensures Reconstruct(rows) == Walk(rows, o, Checksums(o))
    decreases |o|
  {
    var n := |o| - 1;
    if n == 0 {
      assert o == [o[0]];
      assert Checksums(o) == {o[0].checksum};
    } else {
      ForcedPathWalk(rows, o[..n]);
      assert Children(rows, Some(o[n - 1].checksum)) == [o[n]];
      assert o == o[..n] + [o[n]];
      assert Checksums(o) == Checksums(o[..n]) + {o[n].checksum};
      assert o[n].checksum !in Checksums(o[..n]);
    }
  }

  lemma ForcedPathGrows(rows: seq<Session>, o: seq<Session>, kid: Session)
    requires ForcedPath(rows, o) && Children(rows, Some(o[|o| - 1].checksum)) == [kid]
    requires kid.checksum !in Checksums(o)
    ensures ForcedPath(rows, o + [kid]) && Checksums(o + [kid]) == Checksums(o) + {kid.checksum}
  {
    var o' := o + [kid];
    forall i, j | 0 <= i < j < |o'| ensures o'[i].checksum != o'[j].checksum {
      assert o'[i] in o;
    }
    forall i | 0 < i < |o'| ensures Children(rows, Some(o'[i - 1].checksum)) == [o'[i]] {
      assert o'[i - 1] == o[i - 1];
    }
  }

  /** The walk always ends on some forced path, and its verdict is read off that path's end. */
  lemma {:induction false} WalkEnds(rows: seq<Session>, o: seq<Session>) returns (last: seq<Session>)
    requires ForcedPath(rows, o)
    ensures ForcedPath(rows, last)
    ensures Walk(rows, o, Checksums(o)) == Verdict(rows, last)
    ensures Stuck(rows, last)
    decreases |Checksums(rows) - Checksums(o)|
  {
    if Stuck(rows, o) {
      last := o;
    } else {
      var kid := Children(rows, Some(o[|o| - 1].checksum))[0];
      assert Children(rows, Some(o[|o| - 1].checksum)) == [kid];
      WalkProgress(rows, kid, Some(o[|o| - 1].checksum), Checksums(o));
      ForcedPathGrows(rows, o, kid);
      last := WalkEnds(rows, o + [kid]);
    }
  }

  ghost predicate Stuck(rows: seq<Session>, o: seq<Session>)
    requires o != []
  {
    var kids := Children(rows, Some(o[|o| - 1].checksum));
    |kids| != 1 || kids[0].checksum in Checksums(o)
  }

  ghost function Verdict(rows: seq<Session>, o: seq<Session>): Result
    requires o != []
  {
    var kids := Children(rows, Some(o[|o| - 1].checksum));
    if |kids| >= 2 then Blocked(FORKED)
    else if |kids| == 1 then Blocked(CYCLE)
    else if |o| == |rows| then Chain(o) else Blocked(DISCONNECTED)
  }

  /** Every verdict past the root check, exactly: it is the verdict of the one forced path that is stuck. */
  lemma ChildIndex(rows: seq<Session>, c: Option<string>) returns (i: nat)
    requires Children(rows, c) != []
    ensures i < |rows| && rows[i].previous == c
  {
    var r := Children(rows, c)[0];
    ChildrenExact(rows, c, r);
    i :| 0 <= i < |rows| && rows[i] == r;
  }

  lemma {:induction false} TwoChildren(rows: seq<Session>, c: Option<string>, i: nat, j: nat)
    requires i < j < |rows| && rows[i].previous == rows[j].previous == c
    ensures |Children(rows, c)| >= 2
    decreases |rows|
  {
    var n := |rows| - 1;
    if j < n {
      TwoChildren(rows[..n], c, i, j);
    } else {
      ChildrenExact(rows[..n], c, rows[i]);
      assert rows[..n][i] == rows[i];
    }
  }

  lemma {:induction false} TwoIndices(rows: seq<Session>, c: Option<string>) returns (i: nat, j: nat)
    requires |Children(rows, c)| >= 2
    ensures i < j < |rows| && rows[i].previous == rows[j].previous == c
  {
    var n := |rows| - 1;
    if rows[n].previous == c {
      i := ChildIndex(rows[..n], c);
      j := n;
    } else {
      i, j := TwoIndices(rows[..n], c);
    }
  }

  /** Row `i`, and no other, names `c`. */
  ghost predicate OnlyChild(rows: seq<Session>, c: Option<string>, i: int) {
    0 <= i < |rows| && rows[i].previous == c && forall j :: 0 <= j < |rows| && rows[j].previous == c ==> j == i
  }

  lemma OneChildExactly(rows: seq<Session>, c: Option<string>)
    ensures |Children(rows, c)| == 1 <==> exists i :: OnlyChild(rows, c, i)
  {
    if |Children(rows, c)| == 1 {
      var i := ChildIndex(rows, c);
      forall j | 0 <= j < |rows| && rows[j].previous == c ensures j == i {
        if j < i {
          TwoChildren(rows, c, j, i);
        } else if i < j {
          TwoChildren(rows, c, i, j);
        }
      }
      assert OnlyChild(rows, c, i);
    }
    if i :| OnlyChild(rows, c, i) {
      ChildrenExact(rows, c, rows[i]);
      if |Children(rows, c)| >= 2 {
        var a, b := TwoIndices(rows, c);
      }
    }
  }

  /** Walking never gives the two verdicts that come before it. */
  lemma {:induction false} WalkVerdicts(rows: seq<Session>, ordered: seq<Session>, seen: set<string>)
    requires ordered != []
    ensures Walk(rows, ordered, seen) != Blocked(PREDECESSOR_INVALID) && Walk(rows, ordered, seen) != Blocked(ROOT_INVALID)
    decreases |Checksums(rows) - seen|
  {
    assert PREDECESSOR_INVALID[8] == 'P' && ROOT_INVALID[8] == CYCLE[8] == FORKED[8] == DISCONNECTED[8] == 'C';
    assert ROOT_INVALID[14] == 'R' && CYCLE[14] == 'C' && FORKED[14] == 'F' && DISCONNECTED[14] == 'D';
    var tip := Some(ordered[|ordered| - 1].checksum);
    var children := Children(rows, tip);
    if |children| == 1 && children[0].checksum !in seen {
      WalkProgress(rows, children[0], tip, seen);
      WalkVerdicts(rows, ordered + [children[0]], seen + {children[0].checksum});
    }
  }

  /** The verdicts before the walk: a predecessor that is no digest, or not exactly one session without a predecessor. */
  lemma EarlyVerdicts(rows: seq<Session>)
    ensures Reconstruct(rows) == Blocked(PREDECESSOR_INVALID) <==>
      exists r :: r in rows && r.previous.Some? && !IsSha256(r.previous.value)
    ensures Reconstruct(rows) == Blocked(ROOT_INVALID) <==>
      && (forall r :: r in rows && r.previous.Some? ==> IsSha256(r.previous.value))
      && !exists i :: OnlyChild(rows, None, i)
  {
    hide IsSha256, OnlyChild;
    OneChildExactly(rows, None);
    var roots := Children(rows, None);
    assert ROOT_INVALID[8] == 'C' && PREDECESSOR_INVALID[8] == 'P';
    if |roots| == 1 {
      WalkVerdicts(rows, [roots[0]], {roots[0].checksum});
    }
  }

  lemma VerdictExact(rows: seq<Session>, r: Result)
    requires PredecessorsValid(rows) && |Children(rows, None)| == 1
    ensures Reconstruct(rows) == r <==> exists o :: ForcedPath(rows, o) && Stuck(rows, o) && r == Verdict(rows, o)
  {
    var roots := Children(rows, None);
    assert roots == [roots[0]];
    assert Checksums(roots) == {roots[0].checksum};
    var last := WalkEnds(rows, roots);
    forall o | ForcedPath(rows, o) && Stuck(rows, o) ensures Reconstruct(rows) == Verdict(rows, o) {
      ForcedPathWalk(rows, o);
    }
  }

  // ---------------------------------------------------------------- soundness

  lemma ForcedPathIsChain(rows: seq<Session>, o: seq<Session>)
    requires ForcedPath(rows, o)
    ensures IsChain(o)
    ensures forall r :: r in o ==> r in rows
  {
    assert o[0] in Children(rows, None);
    ChildrenExact(rows, None, o[0]);
    forall i | 0 < i < |o| ensures o[i] in rows && o[i].previous == Some(o[i - 1].checksum) {
      assert o[i] in Children(rows, Some(o[i - 1].checksum));
      ChildrenExact(rows, Some(o[i - 1].checksum), o[i]);
    }
  }

  /** Pigeonhole: as many distinct members as there are rows is all of them, once each. */
  lemma DistinctMembersCover(o: seq<Session>, rows: seq<Session>)
    requires DistinctChecksums(o) && |o| == |rows| && forall r :: r in o ==> r in rows
    ensures multiset(o) == multiset(rows)
  {
    forall r ensures multiset(o)[r] <= multiset(rows)[r] {
      AtMostOnce(o, r);
      if r in o {
        assert r in multiset(rows);
      }
    }
    assert multiset(o) <= multiset(rows);
    assert |multiset(rows) - multiset(o)| == |multiset(rows)| - |multiset(o)|;
    assert multiset(rows) == multiset(o) + (multiset(rows) - multiset(o));
  }

  lemma {:induction false} AtMostOnce(o: seq<Session>, r: Session)
    requires DistinctChecksums(o)
    ensures multiset(o)[r] <= 1
  {
    if o != [] {
      var n := |o| - 1;
      AtMostOnce(o[..n], r);
      assert o == o[..n] + [o[n]];
      if r == o[n] {
        assert forall i :: 0 <= i < n ==> o[..n][i] != r;
      }
    }
  }

  /** What comes out is a chain of exactly the archived sessions. */
  lemma ReconstructSound(rows: seq<Session>)
    requires Reconstruct(rows).Chain?
    ensures PredecessorsValid(rows)
    ensures IsChain(Reconstruct(rows).ordered) && multiset(Reconstruct(rows).ordered) == multiset(rows)
  {
    VerdictExact(rows, Reconstruct(rows));
    var o: seq<Session> :| ForcedPath(rows, o) && Stuck(rows, o) && Reconstruct(rows) == Verdict(rows, o);
    ForcedPathIsChain(rows, o);
    DistinctMembersCover(o, rows);
  }

  // ---------------------------------------------------------------- completeness and uniqueness

  lemma {:induction false} NoChildren(rows: seq<Session>, c: Option<string>)
    requires forall i :: 0 <= i < |rows| ==> rows[i].previous != c
    ensures Children(rows, c) == []
  {
    if rows != [] {
      NoChildren(rows[..|rows| - 1], c);
    }
  }

  lemma {:induction false} OneChild(rows: seq<Session>, c: Option<string>, k: nat)
    requires k < |rows| && forall i :: 0 <= i < |rows| ==> (rows[i].previous == c <==> i == k)
    ensures Children(rows, c) == [rows[k]]
  {
    var n := |rows| - 1;
    if k < n {
      OneChild(rows[..n], c, k);
    } else {
      NoChildren(rows[..n], c);
    }
  }

  /** In a chain, the only session naming session `i` is the next one. */
  lemma NamedByNext(o: seq<Session>, i: nat)
    requires IsChain(o) && i < |o|
    ensures forall k :: 0 <= k < |o| ==> (o[k].previous == Some(o[i].checksum) <==> k == i + 1)
    ensures forall k :: 0 <= k < |o| ==> (o[k].previous == None <==> k == 0)
  {
    forall k | 0 < k < |o|
      ensures o[k].previous == Some(o[i].checksum) <==> k == i + 1
      ensures o[k].previous != None
    {
      assert o[k].previous == Some(o[k - 1].checksum);
      if k - 1 < i {
        assert o[k - 1].checksum != o[i].checksum;
      } else if i < k - 1 {
        assert o[i].checksum != o[k - 1].checksum;
      }
    }
  }

  /** A chain listed in its own order is a forced path of itself, stuck at its tip. */
  lemma ChainForcesItself(o: seq<Session>)
    requires IsChain(o)
    ensures ForcedPath(o, o) && Children(o, Some(o[|o| - 1].checksum)) == []
  {
    NamedByNext(o, 0);
    OneChild(o, None, 0);
    forall i | 0 < i < |o| ensures Children(o, Some(o[i - 1].checksum)) == [o[i]] {
      NamedByNext(o, i - 1);
      OneChild(o, Some(o[i - 1].checksum), i);
    }
    NamedByNext(o, |o| - 1);
    NoChildren(o, Some(o[|o| - 1].checksum));
  }

  lemma {:induction false} ChildrenCount(rows: seq<Session>, c: Option<string>, r: Session)
    ensures multiset(Children(rows, c))[r] == if r.previous == c then multiset(rows)[r] else 0
  {
    if rows != [] {
      var n := |rows| - 1;
      var kids, last := Children(rows[..n], c), rows[n];
      ChildrenCount(rows[..n], c, r);
      assert rows == rows[..n] + [last];
      assert multiset(rows) == multiset(rows[..n]) + multiset{last};
      if last.previous == c {
        assert multiset(kids + [last]) == multiset(kids) + multiset{last};
      }
    }
  }

  lemma SameChildren(a: seq<Session>, b: seq<Session>, c: Option<string>)
    requires multiset(a) == multiset(b)
    ensures multiset(Children(a, c)) == multiset(Children(b, c))
  {
    forall r ensures multiset(Children(a, c))[r] == multiset(Children(b, c))[r] {
      ChildrenCount(a, c, r);
      ChildrenCount(b, c, r);
    }
  }

  /** Which sessions name a checksum, and how many, does not depend on the listing. */
  lemma ChildrenPermute(a: seq<Session>, b: seq<Session>, c: Option<string>)
    requires multiset(a) == multiset(b)
    ensures |Children(a, c)| == |Children(b, c)|
    ensures |Children(a, c)| == 1 ==> Children(a, c) == Children(b, c)
  {
    hide Children;
    SameChildren(a, b, c);
    SameMembers(Children(a, c), Children(b, c));
    if |Children(a, c)| == 1 {
      SameSingle(Children(a, c), Children(b, c));
    }
  }

  lemma SameSingle(a: seq<Session>, b: seq<Session>)
    requires |a| == |b| == 1 && forall r :: r in a <==> r in b
    ensures a == b
  {
    assert a[0] in b;
  }

  lemma SameMembers(a: seq<Session>, b: seq<Session>)
    requires multiset(a) == multiset(b)
    ensures |a| == |b| && forall r :: r in a <==> r in b
  {
    assert |a| == |multiset(a)| && |b| == |multiset(b)|;
    assert forall r :: r in a <==> r in multiset(a);
    assert forall r :: r in b <==> r in multiset(b);
  }

  lemma ForcedPathPermutes(a: seq<Session>, b: seq<Session>, o: seq<Session>)
    requires multiset(a) == multiset(b) && ForcedPath(a, o)
    ensures ForcedPath(b, o)
    ensures Stuck(a, o) ==> Stuck(b, o) && Verdict(a, o) == Verdict(b, o)
  {
    ChildrenPermute(a, b, None);
    forall i | 0 < i < |o| ensures Children(b, Some(o[i - 1].checksum)) == [o[i]] {
      ChildrenPermute(a, b, Some(o[i - 1].checksum));
    }
    ChildrenPermute(a, b, Some(o[|o| - 1].checksum));
    SameMembers(a, b);
  }

  /** The verdict, chain included, is the same whatever order the directory lists its sessions in. */
  lemma ReconstructOrderIndependent(a: seq<Session>, b: seq<Session>)
    requires multiset(a) == multiset(b)
    ensures Reconstruct(a) == Reconstruct(b)
  {
    SameMembers(a, b);
    ChildrenPermute(a, b, None);
    if PredecessorsValid(a) && |Children(a, None)| == 1 {
      VerdictExact(a, Reconstruct(a));
      var o: seq<Session> :| ForcedPath(a, o) && Stuck(a, o) && Reconstruct(a) == Verdict(a, o);
      ForcedPathPermutes(a, b, o);
      VerdictExact(b, Reconstruct(a));
    }
  }

  /** Success exactly when the sessions can be arranged as a chain, and then the result is that arrangement. */
  lemma ReconstructExact(rows: seq<Session>, o: seq<Session>)
    ensures Reconstruct(rows) == Chain(o) <==>
      PredecessorsValid(rows) && IsChain(o) && multiset(o) == multiset(rows)
  {
    if Reconstruct(rows) == Chain(o) {
      ReconstructSound(rows);
    }
    if PredecessorsValid(rows) && IsChain(o) && multiset(o) == multiset(rows) {
      SameMembers(o, rows);
      ChainForcesItself(o);
      ForcedPathWalk(o, o);
      ReconstructOrderIndependent(o, rows);
    }
  }

  /** A set of sessions has at most one arrangement as a chain. */
  lemma ChainUnique(a: seq<Session>, b: seq<Session>)
    requires IsChain(a) && IsChain(b) && multiset(a) == multiset(b) && PredecessorsValid(a)
    ensures a == b
  {
    ReconstructExact(a, a);
    ReconstructExact(a, b);
  }

  // ---------------------------------------------------------------- cycles

  /** With distinct checksums the cycle branch is never reached. */
  lemma NoCycleWhenDistinct(rows: seq<Session>)
    requires DistinctChecksums(rows)
    ensures Reconstruct(rows) != Blocked(CYCLE)
  {
    if PredecessorsValid(rows) && |Children(rows, None)| == 1 {
      VerdictExact(rows, Reconstruct(rows));
      var o: seq<Session> :| ForcedPath(rows, o) && Stuck(rows, o) && Reconstruct(rows) == Verdict(rows, o);
      var kids := Children(rows, Some(o[|o| - 1].checksum));
      if kids != [] {
        TipChildIsNew(rows, o, kids[0]);
      }
    }
  }

  /** A child of the tip is new: it names the tip, and no session on the path does. */
  lemma TipChildIsNew(rows: seq<Session>, o: seq<Session>, kid: Session)
    requires DistinctChecksums(rows) && ForcedPath(rows, o)
    requires kid in Children(rows, Some(o[|o| - 1].checksum))
    ensures kid.checksum !in Checksums(o)
  {
    ChildrenExact(rows, Some(o[|o| - 1].checksum), kid);
    ForcedPathIsChain(rows, o);
    NamedByNext(o, |o| - 1);
    forall i | 0 <= i < |o| ensures o[i].checksum != kid.checksum {
      assert o[i] in rows && o[i].previous != kid.previous;
      DistinctSessions(rows, o[i], kid);
    }
  }

  lemma DistinctSessions(rows: seq<Session>, a: Session, b: Session)
    requires DistinctChecksums(rows) && a in rows && b in rows && a != b
    ensures a.checksum != b.checksum
  {
    var i :| 0 <= i < |rows| && rows[i] == a;
    var j :| 0 <= j < |rows| && rows[j] == b;
  }

  // ---------------------------------------------------------------- the loader

  ghost predicate IndexedBy(rows: seq<Session>, index: map<Option<string>, seq<Session>>) {
    && (forall c :: c in index ==> index[c] == Children(rows, c) && index[c] != [])
    && (forall c :: c !in index ==> Children(rows, c) == [])
  }

  function Lookup(index: map<Option<string>, seq<Session>>, c: Option<string>): seq<Session> {
    if c in index then index[c] else []
  }

  /** Groups the sessions by predecessor, then follows the chain from its root. */
  method LoadChain(rows: seq<Session>) returns (r: Result)
    ensures r == Reconstruct(rows)
  {
    hide PredecessorValid, Checksums;
    var byPrevious: map<Option<string>, seq<Session>> := map[];
    for i := 0 to |rows|
      invariant forall j :: 0 <= j < i ==> PredecessorValid(rows[j])
      invariant IndexedBy(rows[..i], byPrevious)
    {
      var row := rows[i];
      if !PredecessorValid(row) {
        return Blocked(PREDECESSOR_INVALID);
      }
      assert rows[..i + 1][..i] == rows[..i];
      byPrevious := byPrevious[row.previous := Lookup(byPrevious, row.previous) + [row]];
    }
    assert rows[..|rows|] == rows;
    var roots := Lookup(byPrevious, None);
    if |roots| != 1 {
      return Blocked(ROOT_INVALID);
    }
    var ordered := [roots[0]];
    var seen := {roots[0].checksum};
    while true
      invariant ordered != []
      invariant Reconstruct(rows) == Walk(rows, ordered, seen)
      decreases |Checksums(rows) - seen|
    {
      var tip := Some(ordered[|ordered| - 1].checksum);
      var children := Lookup(byPrevious, tip);
      if children == [] {
        break;
      }
      if |children| != 1 {
        return Blocked(FORKED);
      }
      var child := children[0];
      if child.checksum in seen {
        return Blocked(CYCLE);
      }
      WalkProgress(rows, child, tip, seen);
      seen := seen + {child.checksum};
      ordered := ordered + [child];
    }
    if |ordered| != |rows| {
      return Blocked(DISCONNECTED);
    }
    return Chain(ordered);
  }
}
