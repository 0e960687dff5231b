/** The persister's event loop body over the segment writer: append, group-sync by bytes or by timer,
    publish what is durable (Persister.Run, internal/cdc/persister.go:43-108). */
module Persister {
  import opened Wrappers
  import opened Model
  import opened Frames
  import opened SegmentWriter

  /** The writer after a transaction that is no replay: appended, and perhaps synced or rotated; or, after
      an error, left anywhere on the way there. */
  predicate Received(before: WriterState, after: WriterState, payload: Payload, ok: bool) {
    var appended := Appended(Opened(before, payload), payload);
    || after == appended
    || after == Rotated(appended)
    || (if ok then after == Synced(appended) else after == before || after == Opened(before, payload))
  }

  function FramesSize(payloads: seq<Payload>): nat {
    if payloads == [] then 0 else FramesSize(payloads[..|payloads| - 1]) + HEADER_SIZE + |payloads[|payloads| - 1]|
  }

  /** The bytes of the frames that no fsync has covered. */
  function AtRisk(w: WriterState): nat {
    if w.synced <= |w.tail| then FramesSize(w.tail[w.synced..]) else 0
  }

  lemma AppendedAtRisk(w: WriterState, payload: Payload)
    requires w.synced <= |w.tail|
    ensures AtRisk(Appended(Opened(w, payload), payload)) == AtRisk(w) + HEADER_SIZE + |payload|
    ensures AtRisk(Rotated(Appended(Opened(w, payload), payload))) == 0
    ensures AtRisk(Synced(w)) == 0
  {
    hide StampOf;
    var more := (w.tail + [payload])[w.synced..];
    assert more == w.tail[w.synced..] + [payload];
    assert more[..|more| - 1] == w.tail[w.synced..];
  }

  lemma SyncedIsSafe(crc: Checksum, w: WriterState)
    requires StateOk(crc, w)
    ensures w.synced <= |w.tail| && AtRisk(Synced(w)) == 0
  {
    hide Appendable, StartsFit, StartFits, Log;
    assert w.tail[|w.tail|..] == [];
  }

  class TransactionPersister {
    const writer: Writer
    const syncBytes: nat
    ghost const backlog: nat
    var unsyncedBytes: nat
    var watermark: Lsn

    /** The published watermark never runs ahead of the disk, with no unsynced bytes counted everything appended
        is durable, and the bytes a crash may cost are counted, but for a backlog the writer came with. */
    ghost predicate Valid()
      reads this, writer
    {
      && writer.Valid()
      && watermark <= writer.durableEnd
      && (unsyncedBytes == 0 ==> Durable(writer.State()) == Everything(writer.State()))
      && AtRisk(writer.State()) <= backlog + unsyncedBytes
    }

    constructor (writer: Writer, syncBytes: nat)
      requires writer.Valid()
      ensures Valid() && this.writer == writer && this.syncBytes == syncBytes && watermark == writer.durableEnd
      ensures backlog == AtRisk(writer.State())
    {
      backlog := AtRisk(writer.State());
      this.writer, this.syncBytes := writer, syncBytes;
      watermark := writer.durableEnd;
      unsyncedBytes := if writer.last.end > writer.durableEnd then 1 else 0;
      new;
      CaughtUp(writer.crc, writer.State());
    }

    /** DurableWatermark.Publish: a lower value is ignored. */
    method Publish(lsn: Lsn)
      modifies this`watermark
      ensures watermark == if lsn <= old(watermark) then old(watermark) else lsn
    {
      if lsn > watermark {
        watermark := lsn;
      }
    }

    /** Group sync, by timer or byte threshold. */
    method SyncPending(fsynced: bool) returns (ok: bool)
      requires Valid()
      modifies this`unsyncedBytes, this`watermark, writer
      ensures Valid() && Everything(writer.State()) == old(Everything(writer.State()))
      ensures Durable(writer.State()) == (if ok then Everything(writer.State()) else old(Durable(writer.State())))
      ensures writer.State() == if ok && old(unsyncedBytes) > 0 then Synced(old(writer.State())) else old(writer.State())
      ensures watermark == if ok && old(unsyncedBytes) > 0 then writer.last.end else old(watermark)
      ensures old(watermark) <= watermark
      ensures unsyncedBytes == if ok then 0 else old(unsyncedBytes)
      ensures writer.closed == old(writer.closed)
      ensures ok <== old(unsyncedBytes) == 0 || (fsynced && !old(writer.closed))
    {
      hide StateOk;
      if unsyncedBytes == 0 {
        return true;
      }
      SyncKeeps(writer.crc, writer.State());
      SyncedIsSafe(writer.crc, writer.State());
      DurableBelowLast(writer.crc, writer.State());
      var synced, durable := writer.Sync(fsynced);
      if !synced {
        return false;
      }
      DurableBelowLast(writer.crc, writer.State());
      Publish(durable);
      unsyncedBytes := 0;
      ok := true;
    }

    /** One transaction from the channel. A replayed one, at or below the last appended EndLSN, is
        dropped; a new one is appended, and synced once enough bytes are pending. After an error the
        event loop ends; the writer stays valid for a new persister. */
    method Receive(payload: Payload, written: bool, fsynced: bool) returns (ok: bool)
      requires Valid()
      requires StampOf(payload).end > writer.last.end && writer.isOpen && writer.tail == [] ==>
        writer.start <= StampOf(payload).commit
      modifies this`unsyncedBytes, this`watermark, writer
      ensures writer.Valid() && (ok ==> Valid()) && old(watermark) <= watermark <= writer.durableEnd
      ensures StampOf(payload).end <= old(writer.last).end ==>
        ok && writer.State() == old(writer.State()) && watermark == writer.durableEnd && unsyncedBytes == old(unsyncedBytes)
      ensures StampOf(payload).end > old(writer.last).end && ok ==>
        var pending := old(unsyncedBytes) + HEADER_SIZE + |payload|;
        && Everything(writer.State()) == old(Everything(writer.State())) + [payload]
        && if pending < syncBytes then unsyncedBytes == pending && watermark == old(watermark)
           else unsyncedBytes == 0 && watermark == writer.last.end && Durable(writer.State()) == Everything(writer.State())
      ensures StampOf(payload).end > old(writer.last).end ==>
        && Received(old(writer.State()), writer.State(), payload, ok)
        && (watermark == old(watermark)
            || (ok && watermark == writer.last.end && Durable(writer.State()) == Everything(writer.State())))
      ensures !old(writer.closed) && Follows(old(writer.last), StampOf(payload)) && written && fsynced ==> ok
    {
      hide StateOk, Follows;
      if StampOf(payload).end <= writer.last.end {
        Publish(writer.durableEnd);
        return true;
      }
      Accepting(writer.crc, writer.State(), payload);
      SyncedIsSafe(writer.crc, writer.State());
      AppendedAtRisk(writer.State(), payload);
      var frameBytes := writer.AppendFrame(payload, written, fsynced);
      if frameBytes.None? {
        return false;
      }
      unsyncedBytes := unsyncedBytes + frameBytes.value;
      ok := true;
      if unsyncedBytes >= syncBytes {
        ok := SyncPending(fsynced);
      }
    }
  }
}
