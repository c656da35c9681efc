/**
 A camera EXIT whose deadline id was used before, or whose areas are not those stored for the slot. Its application
 throws, and it throws for ever: the slot's session neither ends nor is followed by another.
 */
module OccupancyRepeatedExit {
  import opened Option
  import opened OccupancyTables
  import opened OccupancyRun
  import opened OccupancyEffects
  import opened OccupancyQueue
  import opened OccupancySlots
  import opened OccupancyThrows
  import opened OccupancyBlocked

  /** The EXIT heads its slot and cannot be applied. */
  ghost predicate Stuck(t: Tables, id: string) {
    && id != "" && Reduces(t, id) && IsHead(t.inbox, id)
    && IsAuthoritativeExit(t.inbox[id].command) && ExitThrows(t, t.inbox[id])
  }

  lemma StuckExactlyWhenBlocked(t: Tables, id: string)
    requires id in t.inbox && IsAuthoritativeExit(t.inbox[id].command)
    ensures Stuck(t, id) <==> Blocked(t, id)
  {
    hide Collides, TopologyDiffers, IntrusionThrows, CorrelationThrows, IsHead;
  }

  lemma StuckIsThere(t: Tables, id: string)
    requires Stuck(t, id)
    ensures id in t.inbox && IsAuthoritativeExit(t.inbox[id].command)
  {
  }

  /**
   Once such an EXIT heads its slot, every continuation of the run leaves it pending at the head, every application of
   it changes nothing, and the slot's camera row and open session stay as they were but for the overstay mark: the slot
   never again starts or ends a session.
   */
  lemma StuckForEver(base: Run, run: Run, id: string)
    requires Valid(run) && Continues(base, run) && Stuck(Final(base), id)
    ensures Stuck(Final(run), id) && Final(run).inbox[id].command == Final(base).inbox[id].command
    ensures Apply(Final(run), id).t == Final(run) && Apply(Final(run), id).out.code == RetryableFailure
    ensures SlotStands(Final(base), Final(run), Final(base).inbox[id].command.slot)
    ensures Effects(run, Final(base).inbox[id].command.slot) == Effects(base, Final(base).inbox[id].command.slot)
  {
    hide Final, Valid, Continues, Stuck, Blocked, Apply, SlotStands, Effects;
    StuckIsThere(Final(base), id);
    StuckExactlyWhenBlocked(Final(base), id);
    BlockedForEver(base, run, id);
    BlockedIsThere(Final(run), id);
    StuckExactlyWhenBlocked(Final(run), id);
  }
}
