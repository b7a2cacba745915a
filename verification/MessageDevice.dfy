/** The static buffers of firmware/messages.c: the output ring and the reassembly buffer. */
module MessageDevice {
  import opened Bytes
  import opened Messages

  /** A slot a few places further on in the ring. */
  function Ahead(start: nat, i: nat): (r: nat)
    requires start < SLOTS && i <= SLOTS
    ensures r < SLOTS && (i < SLOTS ==> r == (start + i) % SLOTS)
  {
    if start + i < SLOTS then start + i else start + i - SLOTS
  }

  /** Which slots are pending, the report at each of them, and the report being filled behind them. */
  ghost predicate Holds(ring: Bytes, start: nat, end: nat, cur: nat, out: Output)
    requires |ring| == 64 * SLOTS
  {
    && out.Valid() && start < SLOTS && end < SLOTS && cur < 64
    && end == Ahead(start, |out.queue|)
    && (forall i :: 0 <= i < |out.queue| ==> SlotIs(ring, Ahead(start, i), out.queue[i]))
    && cur == (if out.partial == [] then 0 else |out.partial| + 1)
    && (cur > 0 ==> ring[64 * end..64 * end + cur] == [MARK] + out.partial)
  }

  ghost predicate SlotIs(ring: Bytes, slot: nat, report: Bytes)
    requires |ring| == 64 * SLOTS && slot < SLOTS
  {
    ring[64 * slot..64 * slot + 64] == report
  }

  /** Writing inside one slot leaves the others. */
  lemma OtherSlots(ring: Bytes, changed: Bytes, end: nat, slot: nat, report: Bytes)
    requires |ring| == |changed| == 64 * SLOTS && end < SLOTS && slot < SLOTS && slot != end
    requires ring[..64 * end] == changed[..64 * end] && ring[64 * end + 64..] == changed[64 * end + 64..]
    requires SlotIs(ring, slot, report)
    ensures SlotIs(changed, slot, report)
  {
    if slot < end {
      TakeSlice(ring, 64 * end, 64 * slot);
      TakeSlice(changed, 64 * end, 64 * slot);
    } else {
      DropSlice(ring, 64 * end + 64, 64 * slot);
      DropSlice(changed, 64 * end + 64, 64 * slot);
    }
  }

  lemma TakeSlice(b: Bytes, n: nat, at: nat)
    requires at + 64 <= n <= |b|
    ensures b[..n][at..at + 64] == b[at..at + 64]
  {
  }

  lemma DropSlice(b: Bytes, n: nat, at: nat)
    requires n <= at <= at + 64 <= |b|
    ensures b[n..][at - n..at - n + 64] == b[at..at + 64]
  {
  }

  /** The ring after more bytes in the slot at its end. */
  lemma PartialHolds(ring: Bytes, changed: Bytes, start: nat, end: nat, cur: nat, out: Output, partial: Bytes)
    requires |ring| == |changed| == 64 * SLOTS && Holds(ring, start, end, cur, out)
    requires ring[..64 * end] == changed[..64 * end] && ring[64 * end + 64..] == changed[64 * end + 64..]
    requires 0 < |partial| < CARRIED && changed[64 * end..64 * end + |partial| + 1] == [MARK] + partial
    ensures Holds(changed, start, end, |partial| + 1, out.(partial := partial))
  {
    hide SlotIs;
    forall i | 0 <= i < |out.queue|
      ensures SlotIs(changed, Ahead(start, i), out.queue[i])
    {
      OtherSlots(ring, changed, end, Ahead(start, i), out.queue[i]);
    }
  }

  /** The ring after the slot at its end is complete. */
  lemma CompleteHolds(ring: Bytes, changed: Bytes, start: nat, end: nat, cur: nat, out: Output, report: Bytes)
    requires |ring| == |changed| == 64 * SLOTS && Holds(ring, start, end, cur, out)
    requires ring[..64 * end] == changed[..64 * end] && ring[64 * end + 64..] == changed[64 * end + 64..]
    requires SlotIs(changed, end, report)
    ensures Holds(changed, start, (end + 1) % SLOTS, 0, Output(Pushed(out.queue, report), []))
  {
    hide SlotIs;
    forall i | 0 <= i < |out.queue|
      ensures SlotIs(changed, Ahead(start, i), out.queue[i])
    {
      OtherSlots(ring, changed, end, Ahead(start, i), out.queue[i]);
    }
  }

  lemma HoldsNone(ring: Bytes, start: nat, end: nat, cur: nat, out: Output)
    requires |ring| == 64 * SLOTS && Holds(ring, start, end, cur, out)
    ensures start < SLOTS && (start == end <==> out.queue == [])
  {
    hide SlotIs;
  }

  lemma TakenHolds(ring: Bytes, start: nat, end: nat, cur: nat, out: Output)
    requires |ring| == 64 * SLOTS && Holds(ring, start, end, cur, out) && out.queue != []
    ensures Holds(ring, (start + 1) % SLOTS, end, cur, out.(queue := out.queue[1..]))
    ensures SlotIs(ring, start, out.queue[0])
  {
    hide SlotIs;
    assert Ahead(start, 0) == start;
    forall i | 0 <= i < |out.queue| - 1
      ensures SlotIs(ring, Ahead((start + 1) % SLOTS, i), out.queue[1..][i])
    {
      assert Ahead((start + 1) % SLOTS, i) == Ahead(start, i + 1);
    }
  }

  class OutputRing {
    const msgOut: array<byte>
    var start: nat
    var end: nat
    var cur: nat
    ghost var pending: Output

    ghost predicate Valid()
      reads this, msgOut
    {
      msgOut.Length == 64 * SLOTS && Holds(msgOut[..], start, end, cur, pending)
    }

    constructor ()
      ensures Valid() && fresh(msgOut) && pending == Output([], [])
    {
      msgOut := new byte[64 * SLOTS](_ => 0);
      start, end, cur := 0, 0, 0;
      pending := Output([], []);
    }

    /** `msg_out_append`. */
    method Append(c: byte)
      requires Valid()
      modifies this, msgOut
      ensures Valid() && start == old(start) && pending == old(pending).Append(c)
    {
      hide SlotIs, Pushed;
      ghost var ring, had := msgOut[..], cur;
      if cur == 0 {
        msgOut[end * 64] := 63;
        cur := 1;
      }
      msgOut[end * 64 + cur] := c;
      cur := cur + 1;
      ghost var partial := pending.partial + [c];
      assert msgOut[64 * end..64 * end + cur] == [MARK] + partial;
      if cur == 64 {
        assert partial == partial + Zeros(0);
        SlotHolds(msgOut[..], end, partial);
        CompleteHolds(ring, msgOut[..], start, end, had, pending, Report(partial));
        cur := 0;
        end := (end + 1) % SLOTS;
        pending := Output(Pushed(pending.queue, Report(partial)), []);
      } else {
        PartialHolds(ring, msgOut[..], start, end, had, pending, partial);
        pending := pending.(partial := partial);
      }
    }

    /** `msg_out_pad`. */
    method Pad()
      requires Valid()
      modifies this, msgOut
      ensures Valid() && start == old(start) && pending == old(pending).Pad()
    {
      if cur == 0 {
        return;
      }
      hide SlotIs, Pushed;
      ghost var ring, had := msgOut[..], cur;
      FillSlot();
      PaddedSlot(ring, msgOut[..], end, had, pending.partial);
      CompleteHolds(ring, msgOut[..], start, end, had, pending, Report(pending.partial));
      cur := 0;
      end := (end + 1) % SLOTS;
      pending := Output(Pushed(pending.queue, Report(pending.partial)), []);
    }

    method FillSlot()
      requires msgOut.Length == 64 * SLOTS && end < SLOTS && 0 < cur < 64
      modifies this`cur, msgOut
      ensures msgOut[..64 * end + old(cur)] == old(msgOut[..64 * end + cur])
      ensures msgOut[64 * end + 64..] == old(msgOut[64 * end + 64..])
      ensures msgOut[64 * end + old(cur)..64 * end + 64] == Zeros(64 - old(cur))
    {
      while cur < 64
        invariant old(cur) <= cur <= 64
        invariant msgOut[..64 * end + old(cur)] == old(msgOut[..64 * end + cur])
        invariant msgOut[64 * end + 64..] == old(msgOut[64 * end + 64..])
        invariant msgOut[64 * end + old(cur)..64 * end + cur] == Zeros(cur - old(cur))
      {
        msgOut[end * 64 + cur] := 0;
        cur := cur + 1;
      }
    }

    /**
     `msg_write_common`: false without a trace when the type of the message is not known or it
     does not encode, else its reports are appended to those pending.
     */
    method Write(known: bool, id: nat, encoded: Option<Bytes>) returns (ok: bool)
      requires Valid() && id < 0x1_0000 && pending.partial == [] && (encoded.Some? ==> |encoded.value| < TWO32)
      modifies this, msgOut
      ensures Valid() && start == old(start) && ok == (known && encoded.Some?)
      ensures !ok ==> pending == old(pending) && msgOut[..] == old(msgOut[..])
      ensures ok ==> pending == Output(PushAll(old(pending).queue, Reports(Stream(id, encoded.value))), [])
    {
      if !known || encoded.None? {
        return false;
      }
      WriteStream(id, encoded.value);
      return true;
    }

    method WriteStream(id: nat, payload: Bytes)
      requires Valid() && id < 0x1_0000 && |payload| < TWO32 && pending.partial == []
      modifies this, msgOut
      ensures Valid() && start == old(start)
      ensures pending == Output(PushAll(old(pending).queue, Reports(Stream(id, payload))), [])
    {
      assert pending.Valid();
      hide Holds, Output.Append, Output.Pad, Reports, PushAll;
      ghost var out, s := pending, Stream(id, payload);
      var size := |payload|;
      AppendBytes([35, 35, id / 256, id % 256, size / 16777216, size / 65536 % 256, size / 256 % 256, size % 256]);
      AppendBytes(payload);
      AppendedTwice(out, Header(id, size), payload);
      Pad();
      PaddedReports(out.queue, s);
    }

    method AppendBytes(bytes: Bytes)
      requires Valid()
      modifies this, msgOut
      ensures Valid() && start == old(start) && pending == old(pending).AppendAll(bytes)
    {
      assert pending.Valid();
      hide Holds, Output.Append;
      ghost var out := pending;
      var i := 0;
      while i < |bytes|
        invariant Valid() && start == old(start) && 0 <= i <= |bytes|
        invariant pending == out.AppendAll(bytes[..i])
      {
        assert bytes[..i + 1][..i] == bytes[..i];
        Append(bytes[i]);
        i := i + 1;
      }
      assert bytes[..i] == bytes;
    }

    /** `msg_out_data`: the oldest report, if any. */
    method Data() returns (report: Option<Bytes>)
      requires Valid()
      modifies this`start, this`pending
      ensures Valid()
      ensures report == if old(pending).queue == [] then None else Some(old(pending).queue[0])
      ensures pending == if old(pending).queue == [] then old(pending)
        else old(pending).(queue := old(pending).queue[1..])
    {
      hide Holds, Ahead, Reports;
      HoldsNone(msgOut[..], start, end, cur, pending);
      if start == end {
        return None;
      }
      TakenHolds(msgOut[..], start, end, cur, pending);
      report := Some(msgOut[64 * start..64 * start + 64]);
      start := (start + 1) % SLOTS;
      pending := pending.(queue := pending.queue[1..]);
    }
  }

  lemma SlotHolds(ring: Bytes, end: nat, partial: Bytes)
    requires |ring| == 64 * SLOTS && end < SLOTS && |partial| == CARRIED
    requires ring[64 * end..64 * end + 64] == [MARK] + partial
    ensures SlotIs(ring, end, Report(partial))
  {
    assert Report(partial) == [MARK] + partial + [] == [MARK] + partial;
  }

  lemma PaddedSlot(ring: Bytes, changed: Bytes, end: nat, had: nat, partial: Bytes)
    requires |ring| == |changed| == 64 * SLOTS && end < SLOTS && had == |partial| + 1 < 64
    requires ring[64 * end..64 * end + had] == [MARK] + partial
    requires changed[..64 * end + had] == ring[..64 * end + had]
    requires changed[64 * end + had..64 * end + 64] == Zeros(64 - had)
    ensures SlotIs(changed, end, Report(partial)) && changed[..64 * end] == ring[..64 * end]
  {
    assert changed[..64 * end] == changed[..64 * end + had][..64 * end];
    assert ring[..64 * end] == ring[..64 * end + had][..64 * end];
    assert changed[64 * end..64 * end + had] == changed[..64 * end + had][64 * end..];
    assert ring[64 * end..64 * end + had] == ring[..64 * end + had][64 * end..];
    assert changed[64 * end..64 * end + 64]
        == changed[64 * end..64 * end + had] + changed[64 * end + had..64 * end + 64];
  }

  lemma {:induction false} AppendedTwice(out: Output, a: Bytes, b: Bytes)
    requires out.Valid()
    ensures out.AppendAll(a).AppendAll(b) == out.AppendAll(a + b)
    decreases |b|
  {
    hide Output.Append;
    if |b| == 0 {
      assert a + b == a;
    } else {
      AppendedTwice(out, a, b[..|b| - 1]);
      assert (a + b)[..|a + b| - 1] == a + b[..|b| - 1];
    }
  }

  class InputBuffer {
    const known: nat -> bool
    const msgIn: array<byte>
    var reading: bool
    var msgId: nat
    var msgSize: nat
    var msgPos: nat

    ghost function State(): Input
      requires msgIn.Length == IN_SIZE && msgPos <= IN_SIZE
      reads this, msgIn
    {
      if reading then Reading(msgId, msgSize, msgIn[..msgPos]) else Idle
    }

    ghost predicate Valid()
      reads this, msgIn
    {
      msgIn.Length == IN_SIZE && msgPos <= IN_SIZE && State().Valid()
    }

    constructor (k: nat -> bool)
      ensures Valid() && State() == Idle && known == k && fresh(msgIn)
    {
      known := k;
      msgIn := new byte[IN_SIZE](_ => 0);
      reading, msgId, msgSize, msgPos := false, 0xffff, 0, 0;
    }

    /** `msg_read_common`; a copy that would end behind the buffer is reported instead of made. */
    method Read(buf: Bytes) returns (event: Event)
      requires Valid()
      modifies this, msgIn
      ensures Valid()
      ensures (State(), event) == Messages.Read(known, old(State()), buf)
    {
      event := Nothing;
      if |buf| != 64 {
        return;
      }
      if !reading {
        if buf[0] != 63 || buf[1] != 35 || buf[2] != 35 {
          return;
        }
        msgId := 256 * (buf[3] as int) + buf[4];
        msgSize := 16777216 * (buf[5] as int) + 65536 * (buf[6] as int) + 256 * (buf[7] as int) + buf[8];
        if !known(msgId) {
          return UnknownMessage;
        }
        if msgSize > IN_SIZE {
          return MessageTooBig;
        }
        reading := true;
        forall k | 0 <= k < 55 { msgIn[k] := buf[9 + k]; }
        msgPos := 55;
        assert msgIn[..msgPos] == buf[9..];
      } else {
        if buf[0] != 63 {
          reading := false;
          return;
        }
        if msgPos + 63 > IN_SIZE {
          return Overrun;
        }
        ghost var got := msgIn[..msgPos];
        forall k | 0 <= k < 63 { msgIn[msgPos + k] := buf[1 + k]; }
        msgPos := msgPos + 63;
        assert msgIn[..msgPos] == got + buf[1..];
      }
      if msgPos >= msgSize {
        assert msgIn[..msgPos][..msgSize] == msgIn[..msgSize];
        event := Received(msgId, msgIn[..msgSize]);
        msgPos := 0;
        reading := false;
      }
    }
  }
}
