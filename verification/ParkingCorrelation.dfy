/**
 Correlation leases: which camera track belongs to which parking session, and how evidence
 is attached under a lease. A lease is only a proposal; attaching checks it again at commit time.
 */
module ParkingCorrelation {
  import opened Option
  import opened OccupancyTables
  import opened OccupancyInvariant

  datatype Lease = Lease(correlation: string, attempt: string, session: int, slot: string, camera: string,
                         token: string, rule: string, objectId: string, channel: string,
                         revision: nat, expiresAt: int)

  // ----- resolving -----

  datatype Match = Unmatched | PendingMatch | UniqueMatch(lease: Lease) | Ambiguous

  datatype Resolution = Resolution(found: Match, candidates: set<string>)

  predicate IsPendingCandidate(r: Row, camera: string, channel: string, objectId: string, now: int) {
    && r.command.kind.CameraObservation? && (r.status.PendingUnprepared? || r.status.PendingPrepared?)
    && r.correlation != "" && r.command.payload.Payload?
    && r.command.payload.action.Intrusion? && r.command.payload.cameraId == camera
    && r.command.payload.channelId == channel && r.command.payload.objectId == objectId
    && CandidateExpiry(r.command.payload) > now
  }

  /** A waiting row's expiry may stand under the older field's name. */
  function CandidateExpiry(p: Payload): int
    requires p.Payload?
  {
    if p.correlationExpiresAt.Some? then p.correlationExpiresAt.value else p.expiresAt.GetOr(0)
  }

  predicate IsCommittedCandidate(b: Binding, camera: string, channel: string, objectId: string, now: int) {
    b.state.Committed? && b.camera == camera && b.channel == channel && b.objectId == objectId && b.expiresAt > now
  }

  function LeaseOf(correlation: string, b: Binding): Lease {
    Lease(correlation, b.attempt, b.session, b.slot, b.camera, b.token, b.rule, b.objectId, b.channel,
          b.revision, b.expiresAt)
  }

  function PendingCorrelations(t: Tables, camera: string, channel: string, objectId: string, now: int): set<string> {
    set id | id in t.inbox && IsPendingCandidate(t.inbox[id], camera, channel, objectId, now) :: t.inbox[id].correlation
  }

  function CommittedCorrelations(t: Tables, camera: string, channel: string, objectId: string, now: int): set<string> {
    set k | k in t.bindings && IsCommittedCandidate(t.bindings[k], camera, channel, objectId, now)
  }

  /** A correlation on its way from the inbox to the bindings is one candidate, not two. */
  ghost function Resolve(t: Tables, camera: string, channel: string, objectId: string, now: int): Resolution {
    if camera == "" || channel == "" || objectId == "" then Resolution(Unmatched, {})
    else
      var committed := CommittedCorrelations(t, camera, channel, objectId, now);
      var all := PendingCorrelations(t, camera, channel, objectId, now) + committed;
      Resolution(if all == {} then Unmatched
                 else if |all| > 1 then Ambiguous
                 else if exists k :: k in committed
                 then var k :| k in committed; UniqueMatch(LeaseOf(k, t.bindings[k]))
                 else PendingMatch,
                 all)
  }

  // ----- attaching -----

  datatype AttachCode = Attached | AlreadyAttached | AttachUnmatched | Inactive | Expired | AttachConflict

  datatype AttachResult = AttachResult(code: AttachCode, image: Option<nat>)

  datatype Attachment = Attachment(t: Tables, result: AttachResult)

  datatype Evidence = Evidence(kind: EvidenceKind, ref: string, path: string, text: string)

  predicate LeaseComplete(l: Lease, e: Evidence) {
    && l.correlation != "" && l.attempt != "" && l.session >= 0 && l.slot != "" && l.camera != "" && l.token != ""
    && l.rule != "" && l.objectId != "" && l.channel != "" && 0 < l.revision <= MAX_INT64
    && e.ref != "" && e.path != ""
  }

  predicate HoldsLease(bindings: map<string, Binding>, l: Lease) {
    l.correlation in bindings && LeaseOf(l.correlation, bindings[l.correlation]) == l
  }

  predicate IsEvidenceImage(i: Image, l: Lease, e: Evidence) {
    i.correlation == l.correlation && i.kind == e.kind && i.ref == e.ref
  }

  predicate IsCanonical(i: Image, l: Lease, e: Evidence) {
    i.session as int == l.session && i.path == e.path && i.objectId == l.objectId && i.revision == l.revision &&
      i.text == e.text
  }

  ghost function FindImage(images: map<nat, Image>, l: Lease, e: Evidence): (r: Option<nat>)
    ensures r.Some? ==> r.value in images && IsEvidenceImage(images[r.value], l, e)
    ensures r.None? ==> forall i :: i in images ==> !IsEvidenceImage(images[i], l, e)
  {
    if exists i :: i in images && IsEvidenceImage(images[i], l, e)
    then var i :| i in images && IsEvidenceImage(images[i], l, e); Some(i)
    else None
  }

  function NewImage(l: Lease, e: Evidence): Image
    requires l.session >= 0
  {
    Image(l.session, e.path, e.kind, e.text, l.correlation, l.objectId, e.ref, l.revision)
  }

  ghost function Attach(t: Tables, l: Lease, e: Evidence, now: int): Attachment {
    if !LeaseComplete(l, e) then Attachment(t, AttachResult(AttachConflict, None))
    else if l.correlation !in t.bindings then Attachment(t, AttachResult(AttachUnmatched, None))
    else if !HoldsLease(t.bindings, l) then Attachment(t, AttachResult(AttachConflict, None))
    else
      var existing := FindImage(t.images, l, e);
      if existing.Some? then
        if IsCanonical(t.images[existing.value], l, e)
        then Attachment(t, AttachResult(AlreadyAttached, existing))
        else Attachment(t, AttachResult(AttachConflict, None))
      else AttachNew(t, l, e, now)
  }

  /** No image yet: the binding and its session decide, as they stand now. */
  function AttachNew(t: Tables, l: Lease, e: Evidence, now: int): Attachment
    requires LeaseComplete(l, e) && l.correlation in t.bindings
  {
    var state := t.bindings[l.correlation].state;
    if state.BindingExpired? || l.expiresAt <= now then Attachment(t, AttachResult(Expired, None))
    else if !state.Committed? then
      Attachment(t, AttachResult(if state.BindingEnded? then Inactive else AttachUnmatched, None))
    else if l.session !in t.sessions then Attachment(t, AttachResult(Inactive, None))
    else if t.sessions[l.session].slot != l.slot || t.sessions[l.session].attempt != l.attempt then
      Attachment(t, AttachResult(AttachConflict, None))
    else if !IsOpen(t.sessions[l.session]) then Attachment(t, AttachResult(Inactive, None))
    else
      Attachment(t.(images := t.images[t.nextImage := NewImage(l, e)], nextImage := t.nextImage + 1),
                 AttachResult(Attached, Some(t.nextImage)))
  }

  // ----- what attaching promises -----

  predicate SameEvidence(a: Image, b: Image) {
    a.correlation == b.correlation && a.kind == b.kind && a.ref == b.ref
  }

  ghost predicate ImagesOk(images: map<nat, Image>, next: nat) {
    && (forall i :: i in images ==> i < next)
    && (forall i, j | i in images && j in images :: SameEvidence(images[i], images[j]) ==> i == j)
  }

  /** At most one image per correlation, kind and reference, whatever is attached. */
  lemma AttachKeepsImages(t: Tables, l: Lease, e: Evidence, now: int)
    requires ImagesOk(t.images, t.nextImage)
    ensures var t' := Attach(t, l, e, now).t;
            && ImagesOk(t'.images, t'.nextImage)
            && t' == t.(images := t'.images, nextImage := t'.nextImage)
            && forall i :: i in t.images ==> i in t'.images && t'.images[i] == t.images[i]
  {
    hide HoldsLease, IsCanonical, LeaseComplete;
    if Attach(t, l, e, now).result.code.Attached? {
      InsertImageKeeps(t.images, t.nextImage, NewImage(l, e));
    }
  }

  lemma AttachInbox(t: Tables, l: Lease, e: Evidence, now: int)
    ensures Attach(t, l, e, now).t.inbox == t.inbox
  {
    hide LeaseComplete, HoldsLease, IsCanonical, FindImage, IsOpen;
  }

  lemma InsertImageKeeps(images: map<nat, Image>, next: nat, image: Image)
    requires ImagesOk(images, next) && forall i :: i in images ==> !SameEvidence(images[i], image)
    ensures ImagesOk(images[next := image], next + 1)
  {
  }

  /** Evidence is stored exactly when a current, unexpired lease on an open session brings a new image. */
  lemma AttachedExactlyWhen(t: Tables, l: Lease, e: Evidence, now: int)
    requires BindingsOk(t.bindings, t.sessions)
    ensures Attach(t, l, e, now).result.code.Attached? <==>
              && LeaseComplete(l, e) && HoldsLease(t.bindings, l) && t.bindings[l.correlation].state.Committed?
              && now < l.expiresAt && FindImage(t.images, l, e).None?
  {
  }

  /**
   What is attached: one image row with the session, object and revision of the lease and the evidence's own columns.
   */
  lemma AttachedStores(t: Tables, l: Lease, e: Evidence, now: int)
    requires Attach(t, l, e, now).result.code.Attached?
    ensures var a := Attach(t, l, e, now);
            && l.session >= 0 && a.result.image == Some(t.nextImage)
            && a.t == t.(nextImage := t.nextImage + 1,
                         images := t.images[t.nextImage :=
                           Image(l.session, e.path, e.kind, e.text, l.correlation, l.objectId, e.ref, l.revision)])
  {
  }

  /** The image is of that very evidence: same place, object, text, session and revision. */
  predicate IsOfEvidence(i: Image, l: Lease, e: Evidence) {
    && i.session as int == l.session && i.path == e.path && i.objectId == l.objectId && i.revision == l.revision
    && i.text == e.text
  }

  /** The lease and the evidence name everything that an image row needs. */
  predicate NamesAll(l: Lease, e: Evidence) {
    && l.correlation != "" && l.attempt != "" && 0 <= l.session && l.slot != "" && l.camera != "" && l.token != ""
    && l.rule != "" && l.objectId != "" && l.channel != "" && 0 < l.revision <= 0x7FFF_FFFF_FFFF_FFFF
    && e.ref != "" && e.path != ""
  }

  /**
   Why evidence is not attached: the lease is incomplete, unknown or not the stored one; the evidence has an image, of
   itself or of something else; the lease has expired; its session has ended, or its binding never was committed.
   */
  lemma NotAttachedBecause(t: Tables, l: Lease, e: Evidence, now: int)
    requires BindingsOk(t.bindings, t.sessions) && !Attach(t, l, e, now).result.code.Attached?
    ensures var a, existing := Attach(t, l, e, now), FindImage(t.images, l, e);
            && a.t == t
            && a.result ==
               if !NamesAll(l, e) then AttachResult(AttachConflict, None)
               else if l.correlation !in t.bindings then AttachResult(AttachUnmatched, None)
               else if LeaseOf(l.correlation, t.bindings[l.correlation]) != l then AttachResult(AttachConflict, None)
               else if existing.Some? then
                 if IsOfEvidence(t.images[existing.value], l, e) then AttachResult(AlreadyAttached, existing)
                 else AttachResult(AttachConflict, None)
               else if t.bindings[l.correlation].state == BindingExpired || l.expiresAt <= now then
                 AttachResult(Expired, None)
               else if t.bindings[l.correlation].state == BindingEnded then AttachResult(Inactive, None)
               else AttachResult(AttachUnmatched, None)
  {
  }

  /** A lease on a session that has ended attaches nothing. */
  lemma EndedSessionAttachesNothing(t: Tables, l: Lease, e: Evidence, now: int)
    requires l.session >= 0 && l.session in t.sessions && !IsOpen(t.sessions[l.session])
    ensures !Attach(t, l, e, now).result.code.Attached? && Attach(t, l, e, now).t == t
  {
  }

  /** A uniquely resolved lease is good at once: new evidence under it is stored. */
  lemma UniqueLeaseAttaches(t: Tables, camera: string, channel: string, objectId: string, now: int, e: Evidence)
    requires BindingsOk(t.bindings, t.sessions)
    requires Resolve(t, camera, channel, objectId, now).found.UniqueMatch?
    ensures var l := Resolve(t, camera, channel, objectId, now).found.lease;
            && HoldsLease(t.bindings, l)
            && (forall k :: k in CommittedCorrelations(t, camera, channel, objectId, now) ==> k == l.correlation)
            && (LeaseComplete(l, e) && FindImage(t.images, l, e).None? ==>
                  Attach(t, l, e, now).result.code.Attached?)
  {
    var committed := CommittedCorrelations(t, camera, channel, objectId, now);
    var all := PendingCorrelations(t, camera, channel, objectId, now) + committed;
    var l := Resolve(t, camera, channel, objectId, now).found.lease;
    assert l.correlation in committed && HoldsLease(t.bindings, l) && now < l.expiresAt;
    hide Attach, FindImage, BindingsOk, HoldsLease, CommittedCorrelations, PendingCorrelations;
    AttachedExactlyWhen(t, l, e, now);
    forall k | k in committed ensures k == l.correlation { AloneIsAll(all, l.correlation, k); }
  }

  lemma AloneIsAll(all: set<string>, a: string, b: string)
    requires a in all && b in all && |all| <= 1
    ensures a == b
  {
    SubsetSize({a, b}, all);
  }

  lemma {:induction false} SubsetSize(a: set<string>, b: set<string>)
    requires a <= b
    ensures |a| <= |b|
  {
    if a != {} {
      var x :| x in a;
      SubsetSize(a - {x}, b - {x});
    }
  }
}
