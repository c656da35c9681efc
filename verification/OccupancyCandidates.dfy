/**
 Which correlations a best shot may belong to: exactly those of waiting intrusions of its track and of the committed
 bindings of it, from the admission of the intrusion until the binding expires or its session ends.
 */
module OccupancyCandidates {
  import opened Option
  import opened OccupancyTables
  import opened OccupancyInvariant
  import opened OccupancyRun
  import opened OccupancyAdmission
  import opened OccupancyBindings
  import opened ParkingCorrelation

  /** A camera's track, as best shots name it. */
  datatype Track = Track(camera: string, channel: string, objectId: string)

  /** The row is an INTRUSION of the track that waits, and its correlation has not expired. */
  predicate Waits(r: Row, track: Track, now: int) {
    && r.command.kind == CameraObservation && (r.status == PendingUnprepared || r.status == PendingPrepared)
    && r.correlation != "" && r.command.payload.Payload? && r.command.payload.action == Intrusion
    && r.command.payload.cameraId == track.camera && r.command.payload.channelId == track.channel
    && r.command.payload.objectId == track.objectId && now < ExpiryOf(r.command.payload)
  }

  /** The expiry of the correlation; without one the event's own, and without that it is long past. */
  function ExpiryOf(p: Payload): int
    requires p.Payload?
  {
    if p.correlationExpiresAt.Some? then p.correlationExpiresAt.value
    else if p.expiresAt.Some? then p.expiresAt.value
    else 0
  }

  /** The binding is of the track, committed, and has not expired. */
  predicate Holds(b: Binding, track: Track, now: int) {
    && b.state == Committed && b.camera == track.camera && b.channel == track.channel && b.objectId == track.objectId
    && now < b.expiresAt
  }

  ghost predicate IsCandidate(t: Tables, track: Track, now: int, k: string) {
    && track.camera != "" && track.channel != "" && track.objectId != ""
    && ((exists id :: id in t.inbox && Waits(t.inbox[id], track, now) && t.inbox[id].correlation == k) ||
        (k in t.bindings && Holds(t.bindings[k], track, now)))
  }

  lemma WaitingIs(r: Row, track: Track, now: int)
    ensures IsPendingCandidate(r, track.camera, track.channel, track.objectId, now) <==> Waits(r, track, now)
  {
  }

  lemma HoldingIs(b: Binding, track: Track, now: int)
    ensures IsCommittedCandidate(b, track.camera, track.channel, track.objectId, now) <==> Holds(b, track, now)
  {
  }

  lemma CandidatesExactlyWhen(t: Tables, track: Track, now: int, k: string)
    ensures k in Resolve(t, track.camera, track.channel, track.objectId, now).candidates <==>
              IsCandidate(t, track, now, k)
  {
    hide IsPendingCandidate, Waits, IsCommittedCandidate, Holds;
    forall r { WaitingIs(r, track, now); }
    if k in t.bindings { HoldingIs(t.bindings[k], track, now); }
  }

  lemma Alone(s: set<string>, k: string)
    requires k in s
    ensures |s| > 1 <==> s != {k}
  {
    if s != {k} {
      assert |s - {k}| == |s| - 1;
      var j :| j in s && j != k;
      assert j in s - {k};
    }
  }

  /** The one correlation's lease carries its binding's own columns. */
  predicate LeaseIs(l: Lease, k: string, b: Binding) {
    && l.correlation == k && l.attempt == b.attempt && l.session == b.session && l.slot == b.slot &&
       l.camera == b.camera
    && l.token == b.token && l.rule == b.rule && l.objectId == b.objectId && l.channel == b.channel
    && l.revision == b.revision && l.expiresAt == b.expiresAt
  }

  /**
   No candidate: unmatched. Two: ambiguous. One: its lease if it is bound already, and otherwise to be tried again.
   */
  lemma ResolvedExactlyWhen(t: Tables, track: Track, now: int)
    ensures var found := Resolve(t, track.camera, track.channel, track.objectId, now).found;
            && (found == Unmatched <==> forall k :: !IsCandidate(t, track, now, k))
            && (found == Ambiguous <==>
                  exists j, k :: j != k && IsCandidate(t, track, now, j) && IsCandidate(t, track, now, k))
            && (found.UniqueMatch? || found == PendingMatch ==>
                  exists k :: IsCandidate(t, track, now, k) &&
                    if k in t.bindings && Holds(t.bindings[k], track, now)
                    then found.UniqueMatch? && LeaseIs(found.lease, k, t.bindings[k]) else found == PendingMatch)
  {
    hide IsCandidate, PendingCorrelations;
    var r := Resolve(t, track.camera, track.channel, track.objectId, now);
    forall k ensures k in r.candidates <==> IsCandidate(t, track, now, k) { CandidatesExactlyWhen(t, track, now, k); }
    if r.candidates != {} {
      var k :| k in r.candidates;
      Alone(r.candidates, k);
      assert IsCandidate(t, track, now, k);
      if r.candidates != {k} {
        var j :| j in r.candidates && j != k;
        assert IsCandidate(t, track, now, j);
      }
    }
  }

  function TrackOf(c: Command): Track
    requires c.payload.Payload?
  {
    Track(c.payload.cameraId, c.payload.channelId, c.payload.objectId)
  }

  predicate Named(track: Track) {
    track.camera != "" && track.channel != "" && track.objectId != ""
  }

  /** An intrusion's correlation is a candidate as soon as the intrusion is admitted. */
  lemma AdmittedIsCandidate(t: Tables, c: Command, capacity: nat, clock: int, now: int)
    requires Sound(t) && Admit(t, c, capacity, clock).code.AdmittedNow? && c.kind == CameraObservation
    requires c.payload.Payload? && c.payload.action == Intrusion && c.payload.correlationId != ""
    requires Named(TrackOf(c)) && now < ExpiryOf(c.payload)
    ensures c.payload.correlationId in
              Resolve(Admit(t, c, capacity, clock).t, c.payload.cameraId, c.payload.channelId, c.payload.objectId, now)
              .candidates
  {
    hide Sound, Admit, Admissible, Prepared;
    AdmittedExactlyWhen(t, c, capacity, clock);
    var t' := Admit(t, c, capacity, clock).t;
    assert c.id in t'.inbox && Waits(t'.inbox[c.id], TrackOf(c), now);
    CandidatesExactlyWhen(t', TrackOf(c), now, c.payload.correlationId);
  }

  /**
   Once it is applied, the correlation that it was answered with is one, for as long as the binding has not expired.
   */
  lemma BoundIsCandidate(t: Tables, t': Tables, c: Command, out: Outcome, now: int)
    requires c.payload.Payload? && BindsTrack(t, t', c, out) && NamesTrack(c.payload, out.attempt)
    requires now < c.payload.correlationExpiresAt.value
    ensures out.correlation in
              Resolve(t', c.payload.cameraId, c.payload.channelId, c.payload.objectId, now).candidates
  {
    CandidatesExactlyWhen(t', TrackOf(c), now, out.correlation);
  }
}
