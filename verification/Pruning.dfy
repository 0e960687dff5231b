/** The segment catalog's bounded pruning (SegmentCatalog.prune and SegmentPruner,
    internal/cdc/maintenance.go:88-227): applied finalized segments go oldest first, at most so many
    at a time, and the newest applied one stays. */
module Pruning {
  import opened Wrappers
  import opened Model
  import opened Frames
  import opened SegmentRecovery

  /** How many ranges lie wholly below the applied position. */
  function Eligible(ranges: seq<SegmentRange>, applied: Lsn): (n: nat)
    ensures n <= |ranges|
    ensures forall i :: 0 <= i < n ==> ranges[i].last.end < applied
    ensures n < |ranges| ==> ranges[n].last.end >= applied
  {
    if ranges == [] || ranges[0].last.end >= applied then 0 else 1 + Eligible(ranges[1..], applied)
  }

  /** Removing a prefix of eligible ranges makes exactly the rest of them eligible. */
  lemma {:induction false} EligibleSuffix(ranges: seq<SegmentRange>, applied: Lsn, n: nat)
    requires n <= Eligible(ranges, applied)
    ensures Eligible(ranges[n..], applied) == Eligible(ranges, applied) - n
    decreases n
  {
    if n == 0 {
      assert ranges[n..] == ranges;
    } else {
      EligibleSuffix(ranges[1..], applied, n - 1);
      assert ranges[1..][n - 1..] == ranges[n..];
    }
  }

  class Catalog {
    var finalized: seq<SegmentRange>

    constructor (finalized: seq<SegmentRange>)
      ensures this.finalized == finalized
    {
      this.finalized := finalized;
    }

    /** One bounded batch. */
    method Prune(applied: Lsn, maxRemove: nat) returns (removed: nat, more: bool)
      modifies this
      ensures removed <= |old(finalized)| && finalized == old(finalized)[removed..]
      ensures
        var safe := if Eligible(old(finalized), applied) <= 1 then 0 else Eligible(old(finalized), applied) - 1;
        && removed == (if safe < maxRemove then safe else maxRemove)
        && more == (safe > maxRemove)
    {
      removed, more := 0, false;
      var eligible: nat := 0;
      while eligible < |finalized| && finalized[eligible].last.end < applied
        invariant eligible <= |finalized| && forall i :: 0 <= i < eligible ==> finalized[i].last.end < applied
      {
        eligible := eligible + 1;
      }
      assert eligible == Eligible(finalized, applied);
      if eligible <= 1 {
        return;
      }
      removed := eligible - 1;
      more := removed > maxRemove;
      if more {
        removed := maxRemove;
      }
      finalized := finalized[removed..];
    }

    /** SegmentPruner.Run: batches until nothing more is to be removed. All but the newest applied
        segment are gone, and no segment at or above the applied position is touched. */
    method PruneAll(applied: Lsn, maxRemove: nat)
      requires maxRemove > 0
      modifies this
      ensures
        var eligible := Eligible(old(finalized), applied);
        finalized == old(finalized)[if eligible <= 1 then 0 else eligible - 1..]
    {
      var total: nat := 0;
      var removed, more := Prune(applied, maxRemove);
      total := removed;
      ghost var eligible := Eligible(old(finalized), applied);
      ghost var safe := if eligible <= 1 then 0 else eligible - 1;
      while more
        invariant total <= safe <= |old(finalized)| && finalized == old(finalized)[total..]
        invariant more <==> total < safe
        decreases safe - total
      {
        EligibleSuffix(old(finalized), applied, total);
        removed, more := Prune(applied, maxRemove);
        assert old(finalized)[total..][removed..] == old(finalized)[total + removed..];
        total := total + removed;
      }
    }
  }
}
