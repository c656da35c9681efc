/** Evidence over whole runs: nothing is attached to a session that has ended, and repeats are recognised. */
module OccupancyEvidence {
  import opened Option
  import opened OccupancyTables
  import opened OccupancyInvariant
  import opened OccupancyRun
  import opened ParkingCorrelation

  /** Ended sessions and stored images are for ever. */
  lemma {:induction false} HistoryIsKept(base: Run, run: Run)
    requires Valid(run) && Continues(base, run)
    ensures forall i :: i in Final(base).sessions && !IsOpen(Final(base).sessions[i]) ==>
              i in Final(run).sessions && Final(run).sessions[i] == Final(base).sessions[i]
    ensures forall i :: i in Final(base).images ==>
              i in Final(run).images && Final(run).images[i] == Final(base).images[i]
  {
    hide Sound, Step, Listed, IsOpen;
    if run != base {
      HistoryIsKept(base, run.prior);
      ReachableIsSound(run.prior);
      StepKeeps(Final(run.prior), run.event);
      StayingPut(Final(run.prior), Final(run));
    }
  }

  lemma StayingPut(t: Tables, t': Tables)
    requires Progresses(t, t')
    ensures forall i :: i in t.sessions && !IsOpen(t.sessions[i]) ==>
              i in t'.sessions && t'.sessions[i] == t.sessions[i]
    ensures forall i :: i in t.images ==> i in t'.images && t'.images[i] == t.images[i]
  {
  }

  /** Once a session has ended, no lease on it ever attaches anything again. */
  lemma EndedSessionNeverAttaches(base: Run, run: Run, l: Lease, e: Evidence, now: int)
    requires Valid(run) && Continues(base, run)
    requires l.session >= 0 && l.session in Final(base).sessions && !IsOpen(Final(base).sessions[l.session])
    ensures !Attach(Final(run), l, e, now).result.code.Attached? && Attach(Final(run), l, e, now).t == Final(run)
  {
    HistoryIsKept(base, run);
    EndedSessionAttachesNothing(Final(run), l, e, now);
  }

  /** Repeating an attach under a lease that is still the stored one is recognised as the same image, at any later
      time, even after the session has ended. */
  lemma RepeatedAttachIsRecognised(base: Run, run: Run, l: Lease, e: Evidence, now: int, later: int)
    requires Valid(Then(base, AttachCall(l, e, now))) && Attach(Final(base), l, e, now).result.code.Attached?
    requires Valid(run) && Continues(Then(base, AttachCall(l, e, now)), run)
    requires HoldsLease(Final(run).bindings, l)
    ensures Attach(Final(run), l, e, later).result ==
              AttachResult(AlreadyAttached, Attach(Final(base), l, e, now).result.image)
  {
    hide Sound, Attach, HoldsLease, Valid, Continues, Admit, AdmitDue, Apply, Purge, MarkViolation, CompleteEffect,
         Defer, DeferEffect;
    HistoryIsKept(Then(base, AttachCall(l, e, now)), run);
    ReachableIsSound(run);
    ImagesOf(Final(run));
    RecognisedBy(Final(base), Final(run), l, e, now, later);
  }

  lemma RecognisedBy(t: Tables, t': Tables, l: Lease, e: Evidence, now: int, later: int)
    requires Attach(t, l, e, now).result.code.Attached? && ImagesOk(t'.images, t'.nextImage)
    requires forall i :: i in Attach(t, l, e, now).t.images ==>
               i in t'.images && t'.images[i] == Attach(t, l, e, now).t.images[i]
    requires HoldsLease(t'.bindings, l)
    ensures Attach(t', l, e, later).result == AttachResult(AlreadyAttached, Attach(t, l, e, now).result.image)
  {
    var i := t.nextImage;
    assert t'.images[i] == NewImage(l, e) && IsEvidenceImage(t'.images[i], l, e);
    var found := FindImage(t'.images, l, e);
    assert found.Some?;
    assert SameEvidence(t'.images[found.value], t'.images[i]);
  }
}
