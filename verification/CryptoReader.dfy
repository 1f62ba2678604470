/** The receiving half of a crypto stream: CRYPTO frames in, handshake bytes out. */
module CryptoReader {
  import opened Common
  import opened SorterModel
  import opened FrameSorter
  import opened CryptoFrames

  /** protocol.MaxCryptoStreamOffset */
  const MaxCryptoStreamOffset: int := 16 * 1024

  datatype HandleResult = Handled | CryptoBufferExceeded | ProtocolViolation | SorterFailed(r: PushResult)

  class CryptoReader {
    const queue: FrameSorter
    var highestOffset: int
    var finished: bool

    ghost predicate Valid()
      reads this, queue
    {
      && queue.Valid()
      && 0 <= highestOffset <= MaxCryptoStreamOffset
      && (forall p :: p in queue.received ==> p < highestOffset)
    }

    constructor ()
      ensures Valid() && fresh(queue)
      ensures queue.received == iset{} && queue.delivered == [] && !finished && highestOffset == 0
      ensures forall stream :: queue.ConsistentWith(stream)
    {
      queue := new FrameSorter();
      highestOffset, finished := 0, false;
    }

    /**
     Queues the frame unless it reaches beyond the offset limit, or arrives after Finish. The gap
     limit and the panic of the sorter are out of reach.
     */
    method HandleCryptoFrame(f: Frame) returns (r: HandleResult)
      requires Valid() && f.offset >= 0
      modifies this, queue
      ensures Valid() && finished == old(finished)
      ensures r == CryptoBufferExceeded <==> f.offset + |f.data| > MaxCryptoStreamOffset
      ensures r == ProtocolViolation <==>
              f.offset + |f.data| <= MaxCryptoStreamOffset && finished && f.offset + |f.data| > old(highestOffset)
      ensures !r.SorterFailed?
      ensures highestOffset == if r == Handled && !finished then Max(old(highestOffset), f.offset + |f.data|)
                               else old(highestOffset)
      ensures queue.delivered == old(queue.delivered)
      ensures queue.received == old(queue.received)
              + if r == Handled && !finished then Range(f.offset, f.offset + |f.data|) else iset{}
      ensures Provenance(old(queue.queue), queue.queue, f.data, f.offset)
    {
      var highest := f.offset + |f.data|;
      if highest > MaxCryptoStreamOffset {
        return CryptoBufferExceeded;
      }
      if finished {
        if highest > highestOffset {
          return ProtocolViolation;
        }
        return Handled;
      }
      FewGaps(queue.gaps, queue.received, MaxCryptoStreamOffset);
      GapCount(queue.gaps, queue.received);
      highestOffset := Max(highestOffset, highest);
      var pushed := queue.Push(f.data, f.offset, None);
      return Handled;
    }

    method GetCryptoData() returns (data: Option<seq<byte>>)
      requires Valid()
      modifies queue
      ensures Valid() && queue.received == old(queue.received)
      ensures data.None? <==> old(queue.readPos) !in queue.received
      ensures data.None? ==> queue.delivered == old(queue.delivered) && queue.queue == old(queue.queue)
      ensures data.Some? ==> data.value != [] && queue.delivered == old(queue.delivered) + data.value
      ensures forall stream :: old(queue.ConsistentWith(stream)) ==> queue.ConsistentWith(stream)
    {
      var at, cb;
      at, data, cb := queue.Pop();
    }

    /** Fails while bytes are queued that were not read. */
    method Finish() returns (ok: bool)
      requires Valid()
      modifies this
      ensures Valid()
      ensures ok <==> forall p :: queue.readPos <= p < MaxByteCount ==> p !in queue.received
      ensures finished == (ok || old(finished))
    {
      var more := queue.HasMoreData();
      if more {
        return false;
      }
      finished := true;
      return true;
    }
  }
}
