/** The ring buffer of panctl/main.c in place, each operation refining its SendQueueSpec step. */
module SendQueue {
  import opened Bytes
  import opened SendQueueSpec

  // ----- the ring, on values -----

  function Next(i: nat): (j: nat)
    requires i < SEND_Q_DEPTH
    ensures j == if i == SEND_Q_DEPTH - 1 then 0 else i + 1
  {
    (i + 1) % SEND_Q_DEPTH
  }

  /** How many steps of Next lead from head to tail. */
  function Gap(head: nat, tail: nat): nat
    requires head < SEND_Q_DEPTH
  {
    if head <= tail then tail - head else SEND_Q_DEPTH - head + tail
  }

  /** The entries from head up to but not including tail, wrapping around. */
  function Ring<T>(s: seq<T>, head: nat, tail: nat): (r: seq<T>)
    requires |s| == SEND_Q_DEPTH && head < |s| && tail < |s|
    ensures |r| == Gap(head, tail)
    decreases Gap(head, tail)
  {
    if head == tail then [] else [s[head]] + Ring(s, Next(head), tail)
  }

  /** Storing at tail appends, as long as it does not catch up with head. */
  lemma {:induction false} RingPush<T>(s: seq<T>, head: nat, tail: nat, x: T)
    requires |s| == SEND_Q_DEPTH && head < |s| && tail < |s| && Next(tail) != head
    ensures Ring(s[tail := x], head, Next(tail)) == Ring(s, head, tail) + [x]
    decreases Gap(head, tail)
  {
    if head != tail {
      RingPush(s, Next(head), tail, x);
      assert [s[head]] + (Ring(s, Next(head), tail) + [x]) == Ring(s, head, tail) + [x];
    }
  }

  class RfcommQueue {
    const slots: array<seq<byte>>   // g_send_q: the used bytes of each entry
    var head: nat                   // oldest
    var tail: nat                   // next free
    var requested: bool             // g_can_send_requested
    var cid: u16                    // g_rfcomm_cid; 0 while closed
    ghost var accepted: seq<seq<byte>>
    ghost var fates: seq<Fate>
    ghost var wire: seq<seq<byte>>
    ghost var asked: u16

    ghost predicate Valid()
      reads this
    {
      slots.Length == SEND_Q_DEPTH && head < SEND_Q_DEPTH && tail < SEND_Q_DEPTH
    }

    /** The queued frames, oldest first. */
    ghost function Contents(): seq<seq<byte>>
      requires Valid()
      reads this, slots
    {
      Ring(slots[..], head, tail)
    }

    ghost function Abs(): Queue
      requires Valid()
      reads this, slots
    {
      Queue(cid, Contents(), requested, accepted, fates, wire, asked)
    }

    constructor ()
      ensures Valid() && fresh(slots) && Abs() == IDLE
    {
      slots := new seq<byte>[SEND_Q_DEPTH](_ => []);
      head, tail, requested, cid := 0, 0, false, 0;
      accepted, fates, wire, asked := [], [], [], 0;
    }

    predicate Empty()
      reads this
    {
      head == tail
    }

    predicate Full()
      reads this
    {
      tail < SEND_Q_DEPTH && Next(tail) == head
    }

    /** send_q_enqueue */
    method Enqueue(frame: seq<byte>) returns (ok: bool)
      requires Valid()
      modifies this`tail, this`accepted, slots
      ensures Valid()
      ensures ok == CanQueue(old(Abs()), frame)
      ensures Abs() == if ok then old(Abs()).(frames := old(Contents()) + [frame], accepted := old(accepted) + [frame])
                       else old(Abs())
    {
      if Full() || |frame| > SEND_Q_BYTES {
        return false;
      }
      RingPush(slots[..], head, tail, frame);
      slots[tail] := frame;
      tail := Next(tail);
      accepted := accepted + [frame];
      ok := true;
    }

    /** send_q_request_can_send */
    method RequestCanSend()
      requires Valid()
      modifies this`requested, this`asked
      ensures Valid() && Abs() == Request(old(Abs()))
    {
      if !requested && cid != 0 {
        asked := cid;
        requested := true;
      }
    }

    /** mux_write_rfcomm; rc is what rfcomm_send answers if it is called. */
    method Write(frame: seq<byte>, rc: Answer) returns (n: int)
      requires Valid()
      modifies this, slots
      ensures Valid()
      ensures (Abs(), n) == WriteStep(old(Abs()), frame, rc)
    {
      if cid == 0 {
        return -1;
      }
      if Empty() {
        if rc == Accepted {
          accepted, fates, wire := accepted + [frame], fates + [Sent], wire + [Cast16(frame)];
          return |frame|;
        }
        if rc != Backpressure {
          return -1;
        }
      }
      var ok := Enqueue(frame);
      if !ok {
        return -1;
      }
      RequestCanSend();
      n := |frame|;
    }

    /** Advances head past the oldest entry, whose fate is now known. */
    method Pop(ghost fate: Fate)
      requires Valid() && !Empty()
      modifies this`head, this`fates, this`wire
      ensures Valid()
      ensures Abs() == old(Abs()).(frames := old(Contents())[1..], fates := old(fates) + [fate],
                                   wire := if fate == Sent then old(wire) + [Cast16(old(Contents())[0])] else old(wire))
    {
      if fate == Sent {
        wire := wire + [Cast16(slots[head])];
      }
      fates := fates + [fate];
      head := Next(head);
    }

    /** send_q_drain against an environment that answers rfcomm_send from answers. */
    method Drain(answers: seq<Answer>)
      requires Valid()
      modifies this
      ensures Valid()
      ensures Abs() == DrainFrom(old(Abs()), answers, 0)
    {
      var k := 0;
      while !Empty()
        invariant Valid()
        invariant DrainFrom(Abs(), answers, k) == DrainFrom(old(Abs()), answers, 0)
        decreases |Contents()|
      {
        var rc := AnswerAt(answers, k);
        k := k + 1;
        if rc == Accepted {
          Pop(Sent);
        } else if rc == Backpressure {
          RequestCanSend();
          return;
        } else {
          Pop(Dropped);
        }
      }
    }

    /** RFCOMM_EVENT_CAN_SEND_NOW */
    method OnCanSendNow(answers: seq<Answer>)
      requires Valid()
      modifies this
      ensures Valid()
      ensures Abs() == Step(old(Abs()), CanSendNow(answers))
    {
      requested, asked := false, 0;
      Drain(answers);
    }

    /** The channel part of RFCOMM_EVENT_CHANNEL_OPENED. */
    method OnOpened(status: byte, newCid: u16)
      requires Valid()
      modifies this`cid
      ensures Valid()
      ensures Abs() == Step(old(Abs()), Opened(status, newCid))
    {
      if status != 0 {
        return;
      }
      cid := newCid;
    }

    /** RFCOMM_EVENT_CHANNEL_CLOSED */
    method OnClosed()
      requires Valid()
      modifies this
      ensures Valid()
      ensures Abs() == Step(old(Abs()), Closed)
    {
      fates := fates + seq(|Contents()|, _ => Flushed);
      cid, asked := 0, 0;
      head, tail := 0, 0;
      requested := false;
    }
  }
}
