/**
 * The transport the device support writes through: a transaction builder
 * that collects (characteristic, payload) writes and is then queued, once,
 * on the device's queue.
 */
module Gatt {

  /** A characteristic UUID, written as its string. */
  type Uuid = string

  /** One characteristic write. */
  datatype GattWrite<P> = GattWrite(characteristic: Uuid, payload: P)

  /** The device's queue: every transaction queued on it, in order. */
  class BtleQueue<P> {
    var transactions: seq<seq<GattWrite<P>>>

    constructor ()
      ensures transactions == []
    {
      transactions := [];
    }
  }

  /** A transaction under construction (what performInitialized returns). */
  class TransactionBuilder<P> {
    var writes: seq<GattWrite<P>>
    var queued: bool

    constructor ()
      ensures writes == [] && !queued
    {
      writes := [];
      queued := false;
    }

    /** builder.write(characteristic, payload): appends one write. */
    method Write(characteristic: Uuid, payload: P)
      modifies this
      ensures writes == old(writes) + [GattWrite(characteristic, payload)]
      ensures queued == old(queued)
    {
      writes := writes + [GattWrite(characteristic, payload)];
    }

    /** builder.queue(queue): hands every write collected so far to the queue as one transaction. */
    method Queue(queue: BtleQueue<P>)
      modifies this, queue
      ensures queue.transactions == old(queue.transactions) + [old(writes)]
      ensures writes == old(writes) && queued
    {
      queue.transactions := queue.transactions + [writes];
      queued := true;
    }
  }
}
