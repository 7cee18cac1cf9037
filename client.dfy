/**
 * The stateful half of the BM2 client: the pending-request cells (asyncio
 * futures) and the `BM2Client` object whose fields the request methods, the
 * connection loop and the notification handler update. Each notification is
 * decrypted and then run through `Packets.Handle`, the handler's decision;
 * the object applies that decision to its own fields and to the cells.
 */
module Client {
  import opened Wrappers
  import opened Bytes
  import opened BitUtils
  import opened Encryption
  import opened Packets

  /** `NotConnectedError`, the one exception the client puts into a cell. */
  datatype ClientError = NotConnected

  /** The state of an asyncio future: not yet done, or done one of three ways. */
  datatype Outcome<T> = Pending | Resolved(value: T) | Rejected(error: ClientError) | Cancelled

  /**
   * What a `_fulfill_*` helper does to the outcome of the cell it took: a
   * cell already done keeps its outcome; otherwise a result settles it, else
   * an exception does, else it stays pending.
   */
  function Settle<T>(before: Outcome<T>, result: Option<T>, error: Option<ClientError>): (after: Outcome<T>)
    ensures before != Pending ==> after == before
    ensures before == Pending && result.Some? ==> after == Resolved(result.value)
    ensures before == Pending && result.None? && error.Some? ==> after == Rejected(error.value)
    ensures after == Pending <==> before == Pending && result.None? && error.None?
    ensures after.Resolved? ==> before.Resolved? || result == Some(after.value)
    ensures after.Rejected? ==> before.Rejected? || (result.None? && error == Some(after.error))
  {
    if before != Pending then before
    else if result.Some? then Resolved(result.value)
    else if error.Some? then Rejected(error.value)
    else Pending
  }

  /** Once a cell is done, no later fulfilment changes it: each request is answered at most once. */
  lemma SettleOnce<T>(before: Outcome<T>, r1: Option<T>, e1: Option<ClientError>, r2: Option<T>, e2: Option<ClientError>)
    requires r1.Some? || e1.Some?
    ensures Settle(before, r1, e1) != Pending
    ensures Settle(Settle(before, r1, e1), r2, e2) == Settle(before, r1, e1)
  {
  }

  /** An asyncio future: a cell that is filled once, with a result, an exception, or by cancellation. */
  class Future<T> {
    var outcome: Outcome<T>

    constructor ()
      ensures outcome == Pending
    {
      outcome := Pending;
    }

    /** `f.done()` */
    predicate Done()
      reads this
    {
      outcome != Pending
    }

    /** `f.set_result(v)`; asyncio raises on a future already done, so callers check first. */
    method SetResult(v: T)
      requires !Done()
      modifies this
      ensures outcome == Resolved(v)
    {
      outcome := Resolved(v);
    }

    /** `f.set_exception(e)`; asyncio raises on a future already done, so callers check first. */
    method SetException(e: ClientError)
      requires !Done()
      modifies this
      ensures outcome == Rejected(e)
    {
      outcome := Rejected(e);
    }

    /** What `asyncio.wait_for` does to the future when its timeout expires: a pending one is cancelled. */
    method Cancel()
      modifies this
      ensures old(outcome) == Pending ==> outcome == Cancelled
      ensures old(outcome) != Pending ==> outcome == old(outcome)
    {
      if outcome == Pending {
        outcome := Cancelled;
      }
    }
  }

  /** The failures that escape the notification handler: `decrypt`'s and the packet fields'. */
  datatype HandlerFault = CipherFault(c: CipherError) | PacketFault(p: Fault)

  /**
   * `BM2Client`. `connected` stands for `_client is not None`; the BLE
   * connection object itself, the condition variable, the request semaphore
   * and the main-loop task are not part of this model.
   */
  class Bm2Client {
    var stopped: bool
    var connected: bool
    var receivingHistory: bool
    var historyData: seq<byte>
    var voltageFuture: Future?<nat>
    var historyFuture: Future?<seq<HistoryReading>>

    /** The reassembly state the handler decides on. */
    function ReassemblyState(): Reassembly
      reads this
    {
      Reassembly(receivingHistory, historyData)
    }

    /** `__init__`: stopped, not connected, nothing received, no request pending. */
    constructor ()
      ensures stopped && !connected && !receivingHistory && historyData == []
      ensures voltageFuture == null && historyFuture == null
    {
      stopped := true;
      connected := false;
      receivingHistory := false;
      historyData := [];
      voltageFuture := null;
      historyFuture := null;
    }

    /** `start()`: nothing while a connection is up; otherwise the client is no longer stopped. */
    method Start()
      modifies this
      ensures old(connected) ==> stopped == old(stopped)
      ensures !old(connected) ==> !stopped
      ensures connected == old(connected) && ReassemblyState() == old(ReassemblyState())
      ensures voltageFuture == old(voltageFuture) && historyFuture == old(historyFuture)
    {
      if connected {
        return;
      }
      stopped := false;
    }

    /** `stop()`: the client is stopped and drops its connection. */
    method Stop()
      modifies this
      ensures stopped && !connected
      ensures ReassemblyState() == old(ReassemblyState())
      ensures voltageFuture == old(voltageFuture) && historyFuture == old(historyFuture)
    {
      stopped := true;
      connected := false;
    }

    /** The main loop's `self._client = client` once notifications are on. */
    method MarkConnected()
      modifies this
      ensures connected
      ensures stopped == old(stopped) && ReassemblyState() == old(ReassemblyState())
      ensures voltageFuture == old(voltageFuture) && historyFuture == old(historyFuture)
    {
      connected := true;
    }

    /**
     * `_fulfill_voltage_reading_future`: the cell is taken out of the client
     * whatever happens, and settled if it was still pending.
     */
    method FulfilVoltageReading(result: Option<nat>, error: Option<ClientError>)
      modifies this, voltageFuture
      ensures voltageFuture == null
      ensures old(voltageFuture) != null ==>
        old(voltageFuture).outcome == Settle(old(voltageFuture.outcome), result, error)
      ensures stopped == old(stopped) && connected == old(connected) && ReassemblyState() == old(ReassemblyState())
      ensures historyFuture == old(historyFuture)
      ensures historyFuture != null ==> historyFuture.outcome == old(historyFuture.outcome)
    {
      var f := voltageFuture;
      voltageFuture := null;
      if f != null && !f.Done() {
        if result.Some? {
          f.SetResult(result.value);
        } else if error.Some? {
          f.SetException(error.value);
        }
      }
    }

    /**
     * `_fulfill_history_reading_future`: the cell is taken out of the client
     * whatever happens, and settled if it was still pending. An empty list
     * is a result like any other.
     */
    method FulfilHistoryReadings(result: Option<seq<HistoryReading>>, error: Option<ClientError>)
      modifies this, historyFuture
      ensures historyFuture == null
      ensures old(historyFuture) != null ==>
        old(historyFuture).outcome == Settle(old(historyFuture.outcome), result, error)
      ensures stopped == old(stopped) && connected == old(connected) && ReassemblyState() == old(ReassemblyState())
      ensures voltageFuture == old(voltageFuture)
      ensures voltageFuture != null ==> voltageFuture.outcome == old(voltageFuture.outcome)
    {
      var f := historyFuture;
      historyFuture := null;
      if f != null && !f.Done() {
        if result.Some? {
          f.SetResult(result.value);
        } else if error.Some? {
          f.SetException(error.value);
        }
      }
    }

    /**
     * The main loop's `finally` after a connection ends: the client is
     * unset and the pending history request fails with `NotConnectedError`.
     * A pending voltage request and the reassembly state are left as they are.
     */
    method ConnectionLost()
      modifies this, historyFuture
      ensures !connected && historyFuture == null
      ensures old(historyFuture) != null ==>
        old(historyFuture).outcome == Settle(old(historyFuture.outcome), None, Some(NotConnected))
      ensures stopped == old(stopped) && ReassemblyState() == old(ReassemblyState())
      ensures voltageFuture == old(voltageFuture)
      ensures voltageFuture != null ==> voltageFuture.outcome == old(voltageFuture.outcome)
    {
      connected := false;
      FulfilHistoryReadings(None, Some(NotConnected));
    }

    /**
     * `get_voltage()` up to its wait: a stopped client raises
     * `NotConnectedError`; otherwise a fresh pending cell replaces whatever
     * cell was there. Nothing is sent: the device reports voltage by itself.
     */
    method GetVoltage() returns (r: Result<Future<nat>, ClientError>)
      modifies this
      ensures old(stopped) ==> r == Failure(NotConnected) && voltageFuture == old(voltageFuture)
      ensures !old(stopped) ==> r.Success? && fresh(r.value) && r.value.outcome == Pending && voltageFuture == r.value
      ensures stopped == old(stopped) && connected == old(connected) && ReassemblyState() == old(ReassemblyState())
      ensures historyFuture == old(historyFuture)
    {
      if stopped {
        return Failure(NotConnected);
      }
      var f := new Future<nat>();
      voltageFuture := f;
      return Success(f);
    }

    /**
     * `get_history()` up to its wait: a stopped client raises
     * `NotConnectedError` and sends nothing; otherwise a fresh pending cell
     * replaces whatever cell was there and the encrypted count request
     * `e7 01` is the packet written to the device.
     */
    method GetHistory(aes: BlockCipher) returns (r: Result<Future<seq<HistoryReading>>, ClientError>, sent: Option<seq<byte>>)
      requires IsAes(aes)
      modifies this
      ensures old(stopped) ==> r == Failure(NotConnected) && sent.None? && historyFuture == old(historyFuture)
      ensures !old(stopped) ==> r.Success? && fresh(r.value) && r.value.outcome == Pending && historyFuture == r.value
      ensures !old(stopped) ==> sent == Some(Encrypt(aes, HistoryCountRequest))
      ensures stopped == old(stopped) && connected == old(connected) && ReassemblyState() == old(ReassemblyState())
      ensures voltageFuture == old(voltageFuture)
    {
      if stopped {
        return Failure(NotConnected), None;
      }
      var f := new Future<seq<HistoryReading>>();
      historyFuture := f;
      return Success(f), Some(Encrypt(aes, HistoryCountRequest));
    }

    /**
     * The state after the handler's decision `e`, given the cells the client
     * held before (`voltageBefore`, `historyBefore`): the reassembly state is
     * `e.next`; a voltage or a record list went to its cell through the
     * matching `_fulfill_*` helper, which also took the cell out of the
     * client; a cell that received nothing is untouched.
     */
    twostate predicate Reacted(e: Reaction, voltageBefore: Future?<nat>, historyBefore: Future?<seq<HistoryReading>>)
      reads this, voltageBefore, historyBefore
    {
      && ReassemblyState() == e.next
      && (e.voltage.Some? ==>
            && voltageFuture == null
            && (voltageBefore != null ==>
                  voltageBefore.outcome == Settle(old(voltageBefore.outcome), e.voltage, None)))
      && (e.voltage.None? ==>
            && voltageFuture == voltageBefore
            && (voltageBefore != null ==> voltageBefore.outcome == old(voltageBefore.outcome)))
      && (e.history.Some? ==>
            && historyFuture == null
            && (historyBefore != null ==>
                  historyBefore.outcome == Settle(old(historyBefore.outcome), e.history, None)))
      && (e.history.None? ==>
            && historyFuture == historyBefore
            && (historyBefore != null ==> historyBefore.outcome == old(historyBefore.outcome)))
    }

    /**
     * `_notification_handler` after decryption: the client takes on the
     * decision `Handle` makes for its reassembly state and the packet, and
     * returns the command to send and the fault that escapes.
     */
    method Dispatch(d: seq<byte>) returns (command: Option<seq<byte>>, fault: Option<Fault>)
      modifies this, voltageFuture, historyFuture
      ensures var e := Handle(old(ReassemblyState()), d);
        Reacted(e, old(voltageFuture), old(historyFuture)) && command == e.command && fault == e.fault
      ensures stopped == old(stopped) && connected == old(connected)
    {
      var e := Handle(ReassemblyState(), d);
      receivingHistory, historyData := e.next.receiving, e.next.data;
      if e.voltage.Some? {
        FulfilVoltageReading(e.voltage, None);
      }
      if e.history.Some? {
        FulfilHistoryReadings(e.history, None);
      }
      command, fault := e.command, e.fault;
    }

    /**
     * `_notification_handler(_, encrypted_data)`: a notification that is not
     * a whole number of blocks makes `decrypt` raise before anything changes;
     * any other is decrypted and dispatched, and then no field read can fail.
     */
    method NotificationHandler(aes: BlockCipher, encrypted: seq<byte>) returns (command: Option<seq<byte>>, fault: Option<HandlerFault>)
      requires IsAes(aes)
      modifies this, voltageFuture, historyFuture
      ensures |encrypted| % AesBlockSize != 0 ==>
        Reacted(Quiet(old(ReassemblyState())), old(voltageFuture), old(historyFuture)) && command.None? && fault == Some(CipherFault(NotBlockAligned))
      ensures |encrypted| % AesBlockSize == 0 ==>
        var e := Handle(old(ReassemblyState()), Decrypt(aes, encrypted).value);
        Reacted(e, old(voltageFuture), old(historyFuture)) && command == e.command && fault.None?
      ensures stopped == old(stopped) && connected == old(connected)
    {
      match Decrypt(aes, encrypted)
      case Failure(c) =>
        return None, Some(CipherFault(c));
      case Success(d) =>
        HandleBlockPacket(ReassemblyState(), d);
        var packetFault;
        command, packetFault := Dispatch(d);
        fault := None;
    }
  }
}
