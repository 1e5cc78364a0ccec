/** The target fingerprint taken when an action is prepared and again when its
    execution begins, and its fail-closed markers.

    The hash of the canonical JSON is a parameter.  It prints 64 digits, so it cannot
    be injective; what is assumed is that the two documents compared do not collide. */
module TargetFingerprint {
  import opened ApprovalModel
  import opened Options

  /** The canonical JSON document that is hashed. */
  datatype Material = Material(
    version: int,
    functionId: string,
    employeeId: Option<string>,
    opaqueStateDigest: string,
    localCas: map<string, string>)

  type Hash = Material -> string

  /** What `get_state_digest` does. */
  datatype DigestRead =
    | Digest(text: string)
    | Refused                 // DicNotFoundError, DicValidationError
    | Broken                  // any other exception

  /** What the resource reads give: the part of the record that joins the fingerprint. */
  datatype LocalCas =
    | Nothing
    | NotificationState(notificationId: string, read: string)
    | CleanUpload(uploadId: string, sha256: string, size: string, detectedMime: string)

  datatype ResourceRead =
    | Current(cas: LocalCas)
    | Missing                 // DicNotFoundError, DicValidationError, UploadResolutionError
    | Failing                 // any other exception

  /** One snapshot: digest, resource, digest again. */
  datatype Reads = Reads(first: DigestRead, resource: ResourceRead, second: DigestRead)

  const UNAVAILABLE := "UNAVAILABLE"
  const UNSTABLE := "UNSTABLE"

  predicate HexDigest(s: string) {
    |s| == 64 && forall c <- s :: '0' <= c <= '9' || 'a' <= c <= 'f'
  }

  function CasDocument(cas: LocalCas): map<string, string> {
    match cas
    case Nothing => map[]
    case NotificationState(id, read) => map["notification_id" := id, "read" := read]
    case CleanUpload(id, sha, size, mime) =>
      map["upload_id" := id, "sha256" := sha, "size" := size, "detected_mime" := mime]
  }

  function UnavailableDocument(): map<string, string> {
    map["resource_state" := UNAVAILABLE]
  }

  /** `_opaque_state_digest`: None when it raises. */
  function OpaqueDigest(read: DigestRead, validate: bool): Option<string> {
    match read
    case Digest(text) => if HexDigest(text) then Some(text) else None
    case Refused => if validate then None else Some(UNAVAILABLE)
    case Broken => None
  }

  /** `_target_snapshot`, up to the hash: None when it raises. */
  function Snapshot(functionId: string, employeeId: Option<string>, r: Reads, validate: bool): Option<Material> {
    match (OpaqueDigest(r.first, validate), OpaqueDigest(r.second, validate))
    case (Some(first), Some(second)) =>
      if r.resource.Failing? || (r.resource.Missing? && validate) then None
      else if first != second && validate then None
      else
        Some(Material(2, functionId, employeeId, if first != second then UNSTABLE else second,
                      if r.resource.Current? then CasDocument(r.resource.cas) else UnavailableDocument()))
    case _ => None
  }

  /** These two documents do not collide. */
  predicate Apart(hash: Hash, m: Material, n: Material) {
    hash(m) == hash(n) ==> m == n
  }

  /** Both digests are there and agree, and so is the resource. */
  predicate Stable(r: Reads) {
    && r.resource.Current?
    && r.first.Digest? && HexDigest(r.first.text)
    && r.second == r.first
  }

  /** Some part of the snapshot fell back to a marker. */
  predicate Marked(m: Material) {
    m.opaqueStateDigest == UNAVAILABLE || m.opaqueStateDigest == UNSTABLE || m.localCas == UnavailableDocument()
  }

  lemma MarkersAreNotDigests(s: string)
    requires HexDigest(s)
    ensures s != UNAVAILABLE && s != UNSTABLE
  {
  }

  lemma CasIsNeverTheMarker(cas: LocalCas)
    ensures CasDocument(cas) != UnavailableDocument()
  {
    assert "resource_state" in UnavailableDocument();
    assert "resource_state" !in CasDocument(cas);
  }

  lemma CasIsFaithful(x: LocalCas, y: LocalCas)
    requires CasDocument(x) == CasDocument(y)
    ensures x == y
  {
    var d, e := CasDocument(x), CasDocument(y);
    assert x.NotificationState? <==> "notification_id" in d;
    assert x.CleanUpload? <==> "upload_id" in d;
    assert y.NotificationState? <==> "notification_id" in e;
    assert y.CleanUpload? <==> "upload_id" in e;
    if x.NotificationState? {
      assert d["notification_id"] == e["notification_id"] && d["read"] == e["read"];
    } else if x.CleanUpload? {
      assert d["upload_id"] == e["upload_id"] && d["sha256"] == e["sha256"];
      assert d["size"] == e["size"] && d["detected_mime"] == e["detected_mime"];
    }
  }

  /** Without validation a snapshot carries a marker exactly when it is not stable;
      with validation it succeeds exactly when it is. */
  lemma MarkedExactlyWhenUnstable(functionId: string, employeeId: Option<string>, r: Reads)
    ensures Snapshot(functionId, employeeId, r, true).Some? <==> Stable(r)
    ensures Stable(r) ==> Snapshot(functionId, employeeId, r, false) == Snapshot(functionId, employeeId, r, true)
    ensures Snapshot(functionId, employeeId, r, false).Some? ==>
              (Marked(Snapshot(functionId, employeeId, r, false).value) <==> !Stable(r))
  {
    if r.first.Digest? && HexDigest(r.first.text) {
      MarkersAreNotDigests(r.first.text);
    }
    if r.resource.Current? {
      CasIsNeverTheMarker(r.resource.cas);
    }
  }

  /** An answer that a snapshot without validation can work with. */
  predicate Usable(read: DigestRead) {
    read.Refused? || (read.Digest? && HexDigest(read.text))
  }

  /** Without validation only a broken read, or a digest that is none, raises: a target
      that is gone or refused still has a snapshot. */
  predicate Observable(r: Reads) {
    Usable(r.first) && Usable(r.second) && !r.resource.Failing?
  }

  /** What the snapshot then holds, field by field. */
  lemma SnapshotExactly(functionId: string, employeeId: Option<string>, r: Reads)
    ensures Snapshot(functionId, employeeId, r, false).Some? <==> Observable(r)
    ensures Observable(r) ==>
              var m := Snapshot(functionId, employeeId, r, false).value;
              && m.version == 2 && m.functionId == functionId && m.employeeId == employeeId
              && (r.first != r.second ==> m.opaqueStateDigest == "UNSTABLE")
              && (r.first.Refused? && r.second.Refused? ==> m.opaqueStateDigest == "UNAVAILABLE")
              && (r.first.Digest? && r.first == r.second ==> m.opaqueStateDigest == r.first.text)
    ensures Observable(r) ==>
              var cas := Snapshot(functionId, employeeId, r, false).value.localCas;
              match r.resource
              case Missing => cas == map["resource_state" := "UNAVAILABLE"]
              case Current(Nothing) => cas == map[]
              case Current(NotificationState(id, read)) => cas == map["notification_id" := id, "read" := read]
              case Current(CleanUpload(id, sha, size, mime)) =>
                cas == map["upload_id" := id, "sha256" := sha, "size" := size, "detected_mime" := mime]
              case Failing => false
  {
    if r.first.Digest? && HexDigest(r.first.text) {
      MarkersAreNotDigests(r.first.text);
    }
    if r.second.Digest? && HexDigest(r.second.text) {
      MarkersAreNotDigests(r.second.text);
    }
  }

  /** The fingerprint taken later equals the prepared one exactly when the later
      snapshot is stable, for the same function and employee, with the same digest
      and the same local state. */
  lemma FingerprintMatchesExactly(hash: Hash, functionId: string, employeeId: Option<string>, prepared: Reads,
                                  laterFunction: string, laterEmployee: Option<string>, later: Reads)
    requires Snapshot(functionId, employeeId, prepared, true).Some?
    requires Observable(later)
    requires Apart(hash, Snapshot(functionId, employeeId, prepared, true).value,
                   Snapshot(laterFunction, laterEmployee, later, false).value)
    ensures hash(Snapshot(functionId, employeeId, prepared, true).value)
            == hash(Snapshot(laterFunction, laterEmployee, later, false).value)
            <==> && functionId == laterFunction && employeeId == laterEmployee && Stable(later)
                 && later.first == prepared.first && later.resource == prepared.resource
  {
    MarkedExactlyWhenUnstable(functionId, employeeId, prepared);
    MarkedExactlyWhenUnstable(laterFunction, laterEmployee, later);
    var m := Snapshot(functionId, employeeId, prepared, true).value;
    var n := Snapshot(laterFunction, laterEmployee, later, false).value;
    if hash(m) == hash(n) {
      assert !Marked(m) && Stable(later);
      CasIsFaithful(prepared.resource.cas, later.resource.cas);
    }
  }

  /** An approved action whose target is gone, refused or no longer stable goes STALE: it
      is never claimed and never dispatched. */
  lemma UnreadableTargetGoesStale(hash: Hash, functionId: string, employeeId: Option<string>, prepared: Reads, later: Reads,
                                  a: PendingAction, now: Instant)
    requires Snapshot(functionId, employeeId, prepared, true).Some?
    requires a.stateFingerprint == hash(Snapshot(functionId, employeeId, prepared, true).value)
    requires a.status == Approved && now < a.expiresAt
    requires !Stable(later) && Observable(later)
    requires Apart(hash, Snapshot(functionId, employeeId, prepared, true).value,
                   Snapshot(functionId, employeeId, later, false).value)
    ensures Decide(Begin(hash(Snapshot(functionId, employeeId, later, false).value)), true, a, now)
            == Write(a.(status := Stale, version := a.version + 1), Some(StaleTarget))
  {
    FingerprintMatchesExactly(hash, functionId, employeeId, prepared, functionId, employeeId, later);
  }

  /** And it is claimed only on the same digest and local state. */
  lemma ClaimNeedsTheSameTarget(hash: Hash, functionId: string, employeeId: Option<string>, prepared: Reads, later: Reads,
                                a: PendingAction, now: Instant)
    requires Snapshot(functionId, employeeId, prepared, true).Some?
    requires a.stateFingerprint == hash(Snapshot(functionId, employeeId, prepared, true).value)
    requires Observable(later)
    requires Apart(hash, Snapshot(functionId, employeeId, prepared, true).value,
                   Snapshot(functionId, employeeId, later, false).value)
    requires Decide(Begin(hash(Snapshot(functionId, employeeId, later, false).value)), true, a, now).ClaimThenWrite?
    ensures Stable(later) && later.first == prepared.first && later.resource == prepared.resource
  {
    FingerprintMatchesExactly(hash, functionId, employeeId, prepared, functionId, employeeId, later);
  }

  function Repeat(c: char): string { seq(64, _ => c) }

  /** A hash of 64 digits that tells unstable documents from the others. */
  function SampleHash(): Hash {
    (m: Material) => if m.opaqueStateDigest == UNSTABLE then Repeat('1') else Repeat('0')
  }

  /** The digest the sample shows when prepared and, at begin, first and then. */
  function SampleReads(first: char, second: char): Reads {
    Reads(Digest(Repeat(first)), Current(Nothing), Digest(Repeat(second)))
  }

  /** What the theorems assume does occur with a hash of 64 digits. */
  lemma AssumptionIsMet()
    ensures forall m :: HexDigest(SampleHash()(m))
    ensures var prepared := Snapshot("f", None, SampleReads('a', 'a'), true);
            var later := Snapshot("f", None, SampleReads('a', 'b'), false);
            && prepared.Some? && later.Some? && !Stable(SampleReads('a', 'b'))
            && prepared != later && Apart(SampleHash(), prepared.value, later.value)
  {
    MarkersAreNotDigests(Repeat('a'));
    assert Repeat('a')[0] != Repeat('b')[0] && Repeat('0')[0] != Repeat('1')[0];
  }
}
