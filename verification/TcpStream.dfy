/** TcpStream.kt's fields and the atomic steps of its coroutines, in place. A method's precondition
    is the point in the coroutine at which its step is taken. */
module TcpStream {
  import opened Bytes
  import opened CreditSpec

  class Stream {
    var peerWindowRemaining: int
    var signalled: bool             // the token in winSignal
    var pump: Pump
    var receivedSinceCredit: nat
    ghost var updaters: nat
    ghost var active: bool
    ghost var initial: nat
    ghost var credited: nat
    ghost var clipped: nat
    ghost var consumed: nat
    ghost var taken: seq<byte>
    ghost var frames: seq<seq<byte>>
    ghost var closing: seq<Ending>
    ghost var windows: seq<nat>
    ghost var forwarded: nat

    ghost function Abs(): CreditSpec.Stream
      reads this
    {
      CreditSpec.Stream(peerWindowRemaining, signalled, updaters, active, pump,
                        initial, credited, clipped, consumed, taken, frames, closing)
    }

    ghost function Credits(): Returns
      reads this
    {
      Returns(receivedSinceCredit, windows, forwarded)
    }

    constructor (initialPeerWindowBytes: nat)
      ensures Abs() == Init(initialPeerWindowBytes) && Credits() == Returns(0, [], 0)
    {
      peerWindowRemaining, signalled, pump := initialPeerWindowBytes, false, Checking;
      receivedSinceCredit, windows, forwarded := 0, [], 0;
      updaters, active, initial := 0, true, initialPeerWindowBytes;
      credited, clipped, consumed, taken, frames, closing := 0, 0, 0, [], [], [];
    }

    /** onPeerWindowUpdate under winLock; the sum is taken in 64 bits and clipped to an Int. */
    method UpdatePeerWindow(credit: u32)
      modifies this`peerWindowRemaining, this`updaters, this`credited, this`clipped
      ensures Abs() == Do(old(Abs()), UpdateWindow(credit)) && Credits() == old(Credits())
      ensures old(peerWindowRemaining) + credit <= 0x7FFF_FFFF ==>
                peerWindowRemaining == old(peerWindowRemaining) + credit
    {
      var newWin := peerWindowRemaining + credit;
      if newWin > INT_MAX {
        clipped := clipped + (newWin - INT_MAX);
        newWin := INT_MAX;
      }
      peerWindowRemaining := newWin;
      updaters, credited := updaters + 1, credited + credit;
    }

    /** winSignal.trySend, which leaves a full channel full. */
    method TrySend()
      requires Enabled(Abs(), Signal)
      modifies this`signalled, this`updaters
      ensures Abs() == Do(old(Abs()), Signal)
    {
      if !signalled {
        signalled := true;
      }
      updaters := updaters - 1;
    }

    /** One pass of waitForCredit's loop up to the receive. */
    method CheckCredit()
      requires Enabled(Abs(), Check)
      modifies this`pump
      ensures Abs() == Do(old(Abs()), Check)
    {
      var w := peerWindowRemaining;
      if w > 0 {
        pump := Reading(w);
      } else {
        pump := Parked;
      }
    }

    /** winSignal.receive */
    method ReceiveSignal()
      requires Enabled(Abs(), Receive)
      modifies this`signalled, this`pump
      ensures Abs() == Do(old(Abs()), Receive)
    {
      signalled := false;
      pump := Checking;
    }

    /** input.read returned data, as many bytes as it liked up to toRead. */
    method ReadSocket(data: seq<byte>)
      requires Enabled(Abs(), GotData(data))
      modifies this`pump, this`taken
      ensures Abs() == Do(old(Abs()), GotData(data))
    {
      if |data| == 0 {
        pump := Checking;
        return;
      }
      taken := taken + data;
      pump := Consuming(data);
    }

    /** input.read returned -1: the pump sends TCP_CLOSE_WR and ends. */
    method EndOfInput()
      requires Enabled(Abs(), GotEnd)
      modifies this`pump, this`closing
      ensures Abs() == Do(old(Abs()), GotEnd)
    {
      closing := closing + [CloseWr];
      pump := Done;
    }

    /** input.read raised IOException: the pump sends TCP_RST and ends. */
    method ReadFailure()
      requires Enabled(Abs(), GotFailure)
      modifies this`pump, this`closing
      ensures Abs() == Do(old(Abs()), GotFailure)
    {
      closing := closing + [Reset(RST_REASON_PEER_RESET)];
      pump := Done;
    }

    /** consumeCredit */
    method ConsumeCredit()
      requires Enabled(Abs(), Consume)
      modifies this`peerWindowRemaining, this`pump, this`consumed
      ensures Abs() == Do(old(Abs()), Consume)
    {
      var n := |pump.data|;
      peerWindowRemaining := peerWindowRemaining - n;
      consumed := consumed + n;
      pump := Sending(pump.data);
    }

    /** writer.send of the TCP_DATA frame. */
    method SendData()
      requires Enabled(Abs(), Send)
      modifies this`pump, this`frames
      ensures Abs() == Do(old(Abs()), Send)
    {
      frames := frames + [pump.data];
      pump := Checking;
    }

    /** onPeerData, the socket's write succeeding or throwing. The count stays an Int. */
    method OnPeerData(data: seq<byte>, written: bool) returns (ok: bool)
      requires receivedSinceCredit < CREDIT_CHUNK && |data| <= 65535
      modifies this`receivedSinceCredit, this`windows, this`forwarded
      ensures ok == written && Abs() == old(Abs())
      ensures Credits() == if ok then Forwarded(old(Credits()), |data|) else old(Credits())
      ensures receivedSinceCredit < CREDIT_CHUNK
    {
      if !written {
        return false;
      }
      receivedSinceCredit := receivedSinceCredit + |data|;
      assert receivedSinceCredit <= INT_MAX;
      forwarded := forwarded + |data|;
      if receivedSinceCredit >= CREDIT_CHUNK {
        var credit := receivedSinceCredit;
        receivedSinceCredit := 0;
        windows := windows + [credit];
      }
      ok := true;
    }
  }
}
