/**
 Key-domain separation: how a trusted keyring is read, and how the P0 and admission verifiers
 together keep eight signing authorities on disjoint key material.
 */
module KeyDomains {
  import opened Optional
  import opened Identifiers

  type Bytes = seq<bv8>

  const KEY_LENGTH := 32

  datatype Entry = Entry(keyId: string, purpose: string, encoded: string)

  /** A keyring file, with the signer it is asked for when there is one. */
  datatype RingFile = RingFile(version: string, entries: seq<Entry>, signer: Option<string>)

  datatype Demand = Demand(version: string, purpose: string)

  /** Base64 decoding and the test that bytes are an Ed25519 point. */
  datatype Codec = Codec(decode: string -> Option<Bytes>, isPoint: Bytes -> bool)

  function Material(codec: Codec, e: Entry): Option<Bytes> {
    var raw := codec.decode(e.encoded);
    if raw.Some? && |raw.value| == KEY_LENGTH && codec.isPoint(raw.value) then raw else None
  }

  datatype Ring = Ring(materials: set<Bytes>, signer: Option<Bytes>)

  datatype Result<T> = Ok(value: T) | Refused(reason: string)

  // ---------------------------------------------------------------- one keyring

  ghost predicate DistinctIds(entries: seq<Entry>) { forall i, j :: 0 <= i < j < |entries| ==> entries[i].keyId != entries[j].keyId }

  ghost predicate DistinctMaterials(codec: Codec, entries: seq<Entry>) {
    forall i, j :: 0 <= i < j < |entries| ==> Material(codec, entries[i]) != Material(codec, entries[j])
  }

  ghost predicate EntriesValid(codec: Codec, entries: seq<Entry>, purpose: string) {
    forall e :: e in entries ==> e.purpose == purpose && Material(codec, e).Some?
  }

  ghost predicate Trusts(entries: seq<Entry>, id: string) { exists e :: e in entries && e.keyId == id }

  /** A keyring the loader accepts. */
  ghost predicate RingValid(codec: Codec, f: RingFile, demand: Demand) {
    && f.version == demand.version && f.entries != []
    && Readable(codec, f.entries, demand.purpose)
    && (f.signer.Some? ==> Trusts(f.entries, f.signer.value))
  }

  ghost function Materials(codec: Codec, entries: seq<Entry>): set<Bytes> {
    set e | e in entries && Material(codec, e).Some? :: Material(codec, e).value
  }

  /** The selected material is that of an entry the signer names, if there is one. */
  ghost predicate SelectedExact(codec: Codec, entries: seq<Entry>, signer: Option<string>, selected: Option<Bytes>) {
    && (selected.Some? <==> signer.Some? && Trusts(entries, signer.value))
    && (selected.Some? ==> exists e :: e in entries && e.keyId == signer.value && Material(codec, e) == selected)
  }

  /** What the loader returns: one material per entry, and the signer's own. */
  ghost predicate RingExact(codec: Codec, f: RingFile, ring: Ring) {
    && ring.materials == Materials(codec, f.entries)
    && |ring.materials| == |f.entries|
    && SelectedExact(codec, f.entries, f.signer, ring.signer)
  }

  ghost predicate Readable(codec: Codec, entries: seq<Entry>, purpose: string) {
    DistinctIds(entries) && EntriesValid(codec, entries, purpose) && DistinctMaterials(codec, entries)
  }

  ghost function Ids(entries: seq<Entry>): set<string> { set e | e in entries :: e.keyId }

  lemma MembersAppend(entries: seq<Entry>, e: Entry)
    ensures forall x :: x in entries + [e] <==> x in entries || x == e
  {}

  lemma MaterialsAppend(codec: Codec, entries: seq<Entry>, e: Entry)
    requires Material(codec, e).Some?
    ensures Materials(codec, entries + [e]) == Materials(codec, entries) + {Material(codec, e).value}
  {
    MembersAppend(entries, e);
  }

  lemma IdsAppend(entries: seq<Entry>, e: Entry)
    ensures Ids(entries + [e]) == Ids(entries) + {e.keyId}
  {
    MembersAppend(entries, e);
  }

  /** One more entry keeps a keyring readable exactly when its id and its material are new and it is itself valid. */
  lemma ReadableAppend(codec: Codec, entries: seq<Entry>, e: Entry, purpose: string)
    requires Readable(codec, entries, purpose)
    ensures Readable(codec, entries + [e], purpose) <==>
      && e.keyId !in Ids(entries) && e.purpose == purpose
      && Material(codec, e).Some? && Material(codec, e).value !in Materials(codec, entries)
  {
    var more, n := entries + [e], |entries|;
    MembersAppend(entries, e);
    assert more[n] == e && forall i :: 0 <= i < n ==> more[i] == entries[i] && entries[i] in entries;
    assert Readable(codec, more, purpose) ==>
      forall i :: 0 <= i < n ==> more[i].keyId != more[n].keyId && Material(codec, more[i]) != Material(codec, more[n]);
  }

  /** A readable keyring has only readable beginnings. */
  lemma ReadablePrefix(codec: Codec, entries: seq<Entry>, n: nat, purpose: string)
    requires n <= |entries| && Readable(codec, entries, purpose)
    ensures Readable(codec, entries[..n], purpose)
  {}

  lemma SelectedAppend(codec: Codec, entries: seq<Entry>, e: Entry, signer: Option<string>, selected: Option<Bytes>)
    requires SelectedExact(codec, entries, signer, selected) && Material(codec, e).Some?
    ensures SelectedExact(codec, entries + [e], signer, if signer == Some(e.keyId) then Material(codec, e) else selected)
  {
    MembersAppend(entries, e);
    assert e in entries + [e];
  }

  /** Reads a keyring entry by entry. */
  method LoadKeyring(codec: Codec, f: RingFile, demand: Demand) returns (r: Result<Ring>)
    ensures r.Ok? <==> RingValid(codec, f, demand)
    ensures r.Ok? ==> RingExact(codec, f, r.value)
  {
    hide Readable, SelectedExact, Ids, Materials, Material;
    if f.version != demand.version {
      return Refused("schema version is invalid");
    }
    if f.entries == [] {
      return Refused("must contain keys");
    }
    var ids: set<string>, materials: set<Bytes>, selected := {}, {}, None;
    NothingRead(codec, demand.purpose, f.signer);
    assert f.entries[..0] == [];
    for n := 0 to |f.entries|
      invariant Readable(codec, f.entries[..n], demand.purpose)
      invariant ids == Ids(f.entries[..n]) && materials == Materials(codec, f.entries[..n]) && |materials| == n
      invariant SelectedExact(codec, f.entries[..n], f.signer, selected)
    {
      var e := f.entries[n];
      assert f.entries[..n + 1] == f.entries[..n] + [e];
      ReadableAppend(codec, f.entries[..n], e, demand.purpose);
      if Readable(codec, f.entries, demand.purpose) {
        ReadablePrefix(codec, f.entries, n + 1, demand.purpose);
      }
      if e.keyId in ids {
        return Refused("contains duplicate key_id");
      }
      if e.purpose != demand.purpose {
        return Refused("key purpose is invalid");
      }
      var raw := Material(codec, e);
      if raw.None? {
        return Refused("Ed25519 public key is invalid");
      }
      if raw.value in materials {
        return Refused("reuses public-key material across key IDs");
      }
      MaterialsAppend(codec, f.entries[..n], e);
      IdsAppend(f.entries[..n], e);
      SelectedAppend(codec, f.entries[..n], e, f.signer, selected);
      ids, materials := ids + {e.keyId}, materials + {raw.value};
      if f.signer == Some(e.keyId) {
        selected := raw;
      }
    }
    assert f.entries[..|f.entries|] == f.entries;
    SelectedMeans(codec, f.entries, f.signer, selected);
    if f.signer.Some? && selected.None? {
      return Refused("signer key is not trusted");
    }
    return Ok(Ring(materials, selected));
  }

  /** A ring of 32-byte points under distinct ids, every one for the demanded purpose and no key twice, that lists its signer. */
  lemma RingValidExactly(codec: Codec, f: RingFile, demand: Demand)
    ensures RingValid(codec, f, demand) <==>
      && f.version == demand.version && |f.entries| > 0
      && (forall i :: 0 <= i < |f.entries| ==>
            var key := codec.decode(f.entries[i].encoded);
            f.entries[i].purpose == demand.purpose && key.Some? && |key.value| == 32 && codec.isPoint(key.value))
      && (forall i, j :: 0 <= i < j < |f.entries| ==>
            f.entries[i].keyId != f.entries[j].keyId && codec.decode(f.entries[i].encoded) != codec.decode(f.entries[j].encoded))
      && (f.signer.Some? ==> exists i :: 0 <= i < |f.entries| && f.entries[i].keyId == f.signer.value)
  {
    assert forall i :: 0 <= i < |f.entries| ==> f.entries[i] in f.entries;
    if RingValid(codec, f, demand) {
      forall i, j | 0 <= i < j < |f.entries| ensures codec.decode(f.entries[i].encoded) != codec.decode(f.entries[j].encoded) {
        assert Material(codec, f.entries[i]) != Material(codec, f.entries[j]);
      }
    }
  }

  /** The keys of an accepted ring are exactly what its entries decode to. */
  lemma RingKeysExactly(codec: Codec, f: RingFile, demand: Demand, key: Bytes)
    requires RingValid(codec, f, demand)
    ensures key in Materials(codec, f.entries) <==>
      exists i :: 0 <= i < |f.entries| && codec.decode(f.entries[i].encoded) == Some(key)
  {
    assert forall i :: 0 <= i < |f.entries| ==> f.entries[i] in f.entries;
  }

  lemma NothingRead(codec: Codec, purpose: string, signer: Option<string>)
    ensures Readable(codec, [], purpose) && Ids([]) == {} && Materials(codec, []) == {} && SelectedExact(codec, [], signer, None)
  {}

  lemma SelectedMeans(codec: Codec, entries: seq<Entry>, signer: Option<string>, selected: Option<Bytes>)
    requires SelectedExact(codec, entries, signer, selected)
    ensures selected.Some? <==> signer.Some? && Trusts(entries, signer.value)
  {}

  // ---------------------------------------------------------------- separated domains

  ghost predicate Disjoint(domains: seq<set<Bytes>>) {
    forall i, j :: 0 <= i < j < |domains| ==> domains[i] !! domains[j]
  }

  function Union(domains: seq<set<Bytes>>): set<Bytes> {
    if domains == [] then {} else Union(domains[..|domains| - 1]) + domains[|domains| - 1]
  }

  function Sizes(domains: seq<set<Bytes>>): nat {
    if domains == [] then 0 else Sizes(domains[..|domains| - 1]) + |domains[|domains| - 1]|
  }

  lemma {:induction false} UnionMember(domains: seq<set<Bytes>>, x: Bytes)
    ensures x in Union(domains) <==> exists i :: 0 <= i < |domains| && x in domains[i]
  {
    if domains != [] {
      var n := |domains| - 1;
      UnionMember(domains[..n], x);
      assert forall i :: 0 <= i < n ==> domains[..n][i] == domains[i];
    }
  }

  /** A further domain is separated exactly when it avoids the union of those before. */
  lemma DisjointAppend(domains: seq<set<Bytes>>, more: set<Bytes>)
    ensures Disjoint(domains + [more]) <==> Disjoint(domains) && Union(domains) !! more
    ensures Union(domains + [more]) == Union(domains) + more
    ensures Sizes(domains + [more]) == Sizes(domains) + |more|
  {
    var all, n := domains + [more], |domains|;
    assert all[..n] == domains && all[n] == more;
    forall x ensures x in Union(domains) <==> exists i :: 0 <= i < n && x in domains[i] {
      UnionMember(domains, x);
    }
    if Disjoint(all) {
      assert forall i, j :: 0 <= i < j < n ==> all[i] !! all[j];
      assert forall i :: 0 <= i < n ==> all[i] !! all[n];
    }
    if Disjoint(domains) && Union(domains) !! more {
      forall i | 0 <= i < n ensures domains[i] !! more {
        assert forall x :: x in domains[i] ==> x in Union(domains);
      }
    }
  }

  lemma DisjointMeans(a: set<Bytes>, b: set<Bytes>)
    ensures a !! b <==> a * b == {}
  {
    if a * b == {} {
      forall x | x in a ensures x !in b {
        assert x !in a * b;
      }
    }
  }

  lemma Commutes(a: set<Bytes>, b: set<Bytes>)
    ensures a * b == b * a
  {}

  lemma UnionSize(a: set<Bytes>, b: set<Bytes>)
    ensures |a + b| <= |a| + |b|
    ensures a !! b <==> |a + b| == |a| + |b|
  {
    assert |a + b| == |a| + |b| - |a * b|;
    DisjointMeans(a, b);
  }

  /** Domains share no key exactly when counting keys over all of them loses none. */
  lemma {:induction false} DisjointIffCounted(domains: seq<set<Bytes>>)
    ensures |Union(domains)| <= Sizes(domains)
    ensures Disjoint(domains) <==> |Union(domains)| == Sizes(domains)
  {
    if domains != [] {
      var n := |domains| - 1;
      assert domains == domains[..n] + [domains[n]];
      DisjointAppend(domains[..n], domains[n]);
      DisjointIffCounted(domains[..n]);
      UnionSize(Union(domains[..n]), domains[n]);
    }
  }

  /** The verifier's double loop over pairs of domains. */
  method Separated(domains: seq<set<Bytes>>) returns (ok: bool)
    ensures ok <==> Disjoint(domains)
  {
    for i := 0 to |domains|
      invariant forall a, b :: 0 <= a < i && a < b < |domains| ==> domains[a] !! domains[b]
    {
      for j := i + 1 to |domains|
        invariant forall b :: i < b < j ==> domains[i] !! domains[b]
      {
        DisjointMeans(domains[i], domains[j]);
        if domains[i] * domains[j] != {} {
          return false;
        }
      }
    }
    return true;
  }

  // ---------------------------------------------------------------- the verifiers' chain

  ghost function DomainsOf(codec: Codec, files: seq<RingFile>): seq<set<Bytes>> {
    seq(|files|, i requires 0 <= i < |files| => Materials(codec, files[i].entries))
  }

  ghost predicate RingsValid(codec: Codec, files: seq<RingFile>, demands: seq<Demand>)
    requires |files| == |demands|
  {
    forall i :: 0 <= i < |files| ==> RingValid(codec, files[i], demands[i])
  }

  /** The upstream authorities: every ring valid, no material shared; returns all of it. */
  method VerifyKeyDomains(codec: Codec, files: seq<RingFile>, demands: seq<Demand>) returns (r: Result<set<Bytes>>)
    requires |files| == |demands|
    ensures r.Ok? <==> RingsValid(codec, files, demands) && Disjoint(DomainsOf(codec, files))
    ensures r.Ok? ==> r.value == Union(DomainsOf(codec, files))
  {
    hide RingValid, Readable, SelectedExact, Materials, Material, Disjoint;
    var domains: seq<set<Bytes>> := [];
    var union: set<Bytes> := {};
    for n := 0 to |files|
      invariant |domains| == n && forall i :: 0 <= i < n ==> domains[i] == Materials(codec, files[i].entries)
      invariant forall i :: 0 <= i < n ==> RingValid(codec, files[i], demands[i])
      invariant union == Union(domains)
    {
      var ring := LoadKeyring(codec, files[n], demands[n]);
      if ring.Refused? {
        return Refused(ring.reason);
      }
      DisjointAppend(domains, ring.value.materials);
      domains, union := domains + [ring.value.materials], union + ring.value.materials;
    }
    assert domains == DomainsOf(codec, files);
    var ok := Separated(domains);
    if !ok {
      return Refused("query/upstream authority key domains reuse public material");
    }
    return Ok(union);
  }

  predicate PolicyId(id: string) {
    && 1 <= |id| <= 128
    && forall i :: 0 <= i < |id| ==>
         var c := id[i]; 'A' <= c <= 'Z' || 'a' <= c <= 'z' || '0' <= c <= '9' || c == '.' || c == '_' || c == '-'
  }

  /** The stable ids are the policy ids of at least eight characters. */
  lemma StableIdsArePolicyIds(id: string)
    ensures IsStableId(id) <==> PolicyId(id) && |id| >= 8
  {}

  ghost predicate PolicyValid(codec: Codec, entries: seq<Entry>, purpose: string) {
    && entries != []
    && (forall e :: e in entries ==> PolicyId(e.keyId))
    && EntriesValid(codec, entries, purpose) && DistinctMaterials(codec, entries)
  }

  /** The policy keyring is an object keyed by id, so its ids are distinct to begin with. */
  method ReadPolicyKeyring(codec: Codec, entries: seq<Entry>, purpose: string) returns (r: Result<set<Bytes>>)
    requires DistinctIds(entries)
    ensures r.Ok? <==> PolicyValid(codec, entries, purpose)
    ensures r.Ok? ==> r.value == Materials(codec, entries) && |r.value| == |entries|
  {
    hide Readable, Materials, Material;
    if entries == [] {
      return Refused("policy keyring must contain keys");
    }
    NothingRead(codec, purpose, None);
    assert entries[..0] == [];
    var materials: set<Bytes> := {};
    for n := 0 to |entries|
      invariant Readable(codec, entries[..n], purpose) && forall i :: 0 <= i < n ==> PolicyId(entries[i].keyId)
      invariant materials == Materials(codec, entries[..n]) && |materials| == n
    {
      var e := entries[n];
      assert e in entries && entries[..n + 1] == entries[..n] + [e];
      FreshId(entries, n);
      ReadableAppend(codec, entries[..n], e, purpose);
      PolicyPrefix(codec, entries, n + 1, purpose);
      var raw := Material(codec, e);
      if !PolicyId(e.keyId) || e.purpose != purpose {
        return Refused("policy keyring entry is invalid");
      }
      if raw.None? {
        return Refused("policy keyring public key is invalid");
      }
      if raw.value in materials {
        return Refused("policy keyring reuses public-key material");
      }
      MaterialsAppend(codec, entries[..n], e);
      materials := materials + {raw.value};
    }
    assert entries[..|entries|] == entries;
    PolicyPrefix(codec, entries, |entries|, purpose);
    return Ok(materials);
  }

  lemma FreshId(entries: seq<Entry>, n: nat)
    requires DistinctIds(entries) && n < |entries|
    ensures entries[n].keyId !in Ids(entries[..n])
  {}

  lemma PolicyPrefix(codec: Codec, entries: seq<Entry>, n: nat, purpose: string)
    requires DistinctIds(entries) && n <= |entries| && entries != []
    ensures PolicyValid(codec, entries, purpose) ==> Readable(codec, entries[..n], purpose)
    ensures n == |entries| && Readable(codec, entries[..n], purpose) && (forall e :: e in entries ==> PolicyId(e.keyId))
      ==> PolicyValid(codec, entries, purpose)
  {
    assert entries[..|entries|] == entries;
  }

  /** The eight authorities: the upstream rings, then acceptance, policy and admission. */
  datatype Authorities = Authorities(upstream: seq<RingFile>, acceptance: RingFile, policy: seq<Entry>, admission: RingFile)

  datatype Demands = Demands(upstream: seq<Demand>, acceptance: Demand, policy: string, admission: Demand)

  const UPSTREAM := 5

  ghost predicate WellFormed(a: Authorities, d: Demands) {
    && |a.upstream| == |d.upstream| == UPSTREAM && DistinctIds(a.policy)
    && a.acceptance.signer.Some? && a.admission.signer.Some?
  }

  ghost function AcceptedDomains(codec: Codec, a: Authorities): seq<set<Bytes>> {
    DomainsOf(codec, a.upstream) + [Materials(codec, a.acceptance.entries)]
  }

  ghost function AllDomains(codec: Codec, a: Authorities): seq<set<Bytes>> {
    AcceptedDomains(codec, a) + [Materials(codec, a.policy)] + [Materials(codec, a.admission.entries)]
  }

  ghost predicate AllValid(codec: Codec, a: Authorities, d: Demands)
    requires WellFormed(a, d)
  {
    && RingsValid(codec, a.upstream, d.upstream) && RingValid(codec, a.acceptance, d.acceptance)
    && PolicyValid(codec, a.policy, d.policy) && RingValid(codec, a.admission, d.admission)
  }

  /** Signed acceptance: the upstream rings, the acceptance ring, and the acceptance signer apart from them. */
  method VerifyAcceptanceKeys(codec: Codec, a: Authorities, d: Demands) returns (r: Result<(set<Bytes>, set<Bytes>)>)
    requires WellFormed(a, d)
    ensures r.Ok? <==>
      && RingsValid(codec, a.upstream, d.upstream) && RingValid(codec, a.acceptance, d.acceptance)
      && Disjoint(AcceptedDomains(codec, a))
    ensures r.Ok? ==> r.value == (Union(DomainsOf(codec, a.upstream)), Materials(codec, a.acceptance.entries))
    ensures r != Refused("acceptance-v2 signer reuses an active or unused upstream key")
  {
    hide RingsValid, RingValid, Disjoint, Union, DomainsOf, Materials, Material, Readable;
    DisjointAppend(DomainsOf(codec, a.upstream), Materials(codec, a.acceptance.entries));
    var upstream := VerifyKeyDomains(codec, a.upstream, d.upstream);
    if upstream.Refused? {
      return Refused("upstream");
    }
    var ring := LoadKeyring(codec, a.acceptance, d.acceptance);
    if ring.Refused? {
      return Refused("acceptance keyring");
    }
    DisjointMeans(upstream.value, ring.value.materials);
    Commutes(upstream.value, ring.value.materials);
    if ring.value.materials * upstream.value != {} {
      return Refused("acceptance-v2 keyring reuses an active or unused upstream key");
    }
    SignerIsKey(codec, a.acceptance, d.acceptance, ring.value);
    if ring.value.signer.value in upstream.value {
      return Refused("acceptance-v2 signer reuses an active or unused upstream key");
    }
    return Ok((upstream.value, ring.value.materials));
  }

  lemma SignerIsKey(codec: Codec, f: RingFile, demand: Demand, ring: Ring)
    requires RingValid(codec, f, demand) && RingExact(codec, f, ring) && f.signer.Some?
    ensures ring.signer.Some? && ring.signer.value in ring.materials
  {}

  /** The three-way check after acceptance is separation of policy from all accepted domains. */
  lemma TripleCheck(upstream: set<Bytes>, acceptance: set<Bytes>, policy: set<Bytes>)
    requires upstream !! acceptance
    ensures Disjoint([policy, acceptance, upstream]) <==> upstream + acceptance !! policy
  {
    var three := [policy, acceptance, upstream];
    if Disjoint(three) {
      assert three[0] !! three[1] && three[0] !! three[2];
    }
  }

  lemma EightDomains(codec: Codec, a: Authorities)
    ensures var up, acc := Union(DomainsOf(codec, a.upstream)), Materials(codec, a.acceptance.entries);
      var pol, adm := Materials(codec, a.policy), Materials(codec, a.admission.entries);
      && (Disjoint(AllDomains(codec, a)) <==> Disjoint(AcceptedDomains(codec, a)) && up + acc !! pol && pol + acc + up !! adm)
      && (Disjoint(AcceptedDomains(codec, a)) ==> up !! acc)
      && Union(AllDomains(codec, a)) == pol + acc + up + adm
  {
    hide Disjoint, Materials, Union, DomainsOf;
    var up, acc := Union(DomainsOf(codec, a.upstream)), Materials(codec, a.acceptance.entries);
    var pol, adm := Materials(codec, a.policy), Materials(codec, a.admission.entries);
    DisjointAppend(DomainsOf(codec, a.upstream), acc);
    DisjointAppend(AcceptedDomains(codec, a), pol);
    DisjointAppend(AcceptedDomains(codec, a) + [pol], adm);
    assert up + acc + pol == pol + acc + up;
  }

  /** Admission: accepted exactly when all eight rings are valid and no two of them share a key. */
  method VerifyAdmissionKeys(codec: Codec, a: Authorities, d: Demands) returns (r: Result<set<Bytes>>)
    requires WellFormed(a, d)
    ensures r.Ok? <==> AllValid(codec, a, d) && Disjoint(AllDomains(codec, a))
    ensures r.Ok? ==> r.value == Union(AllDomains(codec, a))
  {
    hide RingsValid, RingValid, PolicyValid, Readable, Materials, Material, Disjoint, Union, DomainsOf, AcceptedDomains, AllDomains;
    EightDomains(codec, a);
    var policy := ReadPolicyKeyring(codec, a.policy, d.policy);
    if policy.Refused? {
      return Refused(policy.reason);
    }
    var keys := VerifyAcceptanceKeys(codec, a, d);
    if keys.Refused? {
      return Refused(keys.reason);
    }
    var upstream, acceptance := keys.value.0, keys.value.1;
    TripleCheck(upstream, acceptance, policy.value);
    var apart := Separated([policy.value, acceptance, upstream]);
    if !apart {
      return Refused("policy/P0 key domains reuse public-key material");
    }
    var admission := LoadKeyring(codec, a.admission, d.admission);
    if admission.Refused? {
      return Refused(admission.reason);
    }
    var sources := policy.value + acceptance + upstream;
    DisjointMeans(sources, admission.value.materials);
    Commutes(sources, admission.value.materials);
    if admission.value.materials * sources != {} {
      return Refused("collection-admission keyring reuses an upstream key");
    }
    return Ok(sources + admission.value.materials);
  }

  function EntryCount(files: seq<RingFile>): nat {
    if files == [] then 0 else EntryCount(files[..|files| - 1]) + |files[|files| - 1].entries|
  }

  lemma {:induction false} DomainSizes(codec: Codec, files: seq<RingFile>, demands: seq<Demand>)
    requires |files| == |demands| && RingsValid(codec, files, demands)
    ensures Sizes(DomainsOf(codec, files)) == EntryCount(files)
  {
    if files != [] {
      var n := |files| - 1;
      DomainSizes(codec, files[..n], demands[..n]);
      assert DomainsOf(codec, files)[..n] == DomainsOf(codec, files[..n]);
      NoKeyTwice(codec, files[n].entries);
    }
  }

  lemma {:induction false} NoKeyTwice(codec: Codec, entries: seq<Entry>)
    requires DistinctMaterials(codec, entries) && forall e :: e in entries ==> Material(codec, e).Some?
    ensures |Materials(codec, entries)| == |entries|
  {
    if entries == [] {
      assert Materials(codec, entries) == {};
    } else {
      var n := |entries| - 1;
      var e := entries[n];
      assert entries == entries[..n] + [e];
      NoKeyTwice(codec, entries[..n]);
      MaterialsAppend(codec, entries[..n], e);
      assert Material(codec, e).value !in Materials(codec, entries[..n]);
    }
  }

  /** Valid rings keep eight separate domains exactly when there are as many distinct keys as keyring entries. */
  lemma KeysEqualEntries(codec: Codec, a: Authorities, d: Demands)
    requires WellFormed(a, d) && AllValid(codec, a, d)
    ensures Disjoint(AllDomains(codec, a)) <==>
      |Union(AllDomains(codec, a))| == EntryCount(a.upstream) + |a.acceptance.entries| + |a.policy| + |a.admission.entries|
  {
    var up, acc := DomainsOf(codec, a.upstream), Materials(codec, a.acceptance.entries);
    var pol, adm := Materials(codec, a.policy), Materials(codec, a.admission.entries);
    DomainSizes(codec, a.upstream, d.upstream);
    NoKeyTwice(codec, a.acceptance.entries);
    NoKeyTwice(codec, a.policy);
    NoKeyTwice(codec, a.admission.entries);
    DisjointAppend(up, acc);
    DisjointAppend(up + [acc], pol);
    DisjointAppend(up + [acc] + [pol], adm);
    DisjointIffCounted(AllDomains(codec, a));
  }
}
