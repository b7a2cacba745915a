/** The static ring, reader and session of firmware/u2f.c. */
module U2fDevice {
  import opened Bytes
  import opened U2fHid
  import opened U2fServer

  /** A place in the ring some frames further on. */
  function Ahead(start: nat, i: nat): (r: nat)
    requires start < RING && i < RING
    ensures r < RING
  {
    if start + i < RING then start + i else start + i - RING
  }

  class Channel {
    const version: (byte, byte, byte)
    const packets: array<Frame>
    const buf: array<byte>
    var outStart: nat
    var outEnd: nat
    var cid: uint32
    var open: bool
    var pos: nat
    var size: nat
    var seqno: byte
    var cmd: byte
    var dialog: nat               // `dialog_timeout`
    var stage: Stage
    var lastReg: Bytes
    var lastAuth: Bytes
    ghost var queue: seq<Frame>
    ghost var acts: seq<Act>
    ghost var taken: seq<(byte, Bytes)>

    ghost predicate Valid()
      reads this, packets, buf
    {
      RingValid() && ReaderValid()
    }

    ghost predicate RingValid()
      reads `outStart, `outEnd, `queue, packets
    {
      && packets.Length == RING && outStart < RING && outEnd < RING && |queue| < RING
      && outEnd == Ahead(outStart, |queue|)
      && forall i :: 0 <= i < |queue| ==> packets[Ahead(outStart, i)] == queue[i]
    }

    ghost predicate ReaderValid()
      reads `open, `pos, `size, `seqno, `cmd, buf
    {
      buf.Length == BUFFER && pos <= BUFFER && Reader().Valid()
    }

    ghost function Reader(): Reader
      requires buf.Length == BUFFER && pos <= BUFFER
      reads `open, `pos, `size, `seqno, `cmd, buf
    {
      if open then Open(cmd, size, seqno, buf[..pos]) else Closed
    }

    ghost function State(): Hid
      requires buf.Length == BUFFER && pos <= BUFFER
      reads this, buf
    {
      Hid(cid, Reader(), queue)
    }

    /** The state of the session loop. */
    ghost function Now(phase: Phase): Server
      requires buf.Length == BUFFER && pos <= BUFFER
      reads this, buf
    {
      Server(State(), buf[..], phase, dialog, stage, lastReg, lastAuth, acts, taken)
    }

    constructor (v: (byte, byte, byte))
      ensures Valid() && fresh(packets) && fresh(buf) && version == v
      ensures State() == Hid(0, Closed, []) && Now(Stopped) == FRESH
    {
      version := v;
      packets := new Frame[RING](_ => Frame(0, 0, seq(59, _ => 0)));
      buf := new byte[BUFFER](_ => 0);
      outStart, outEnd := 0, 0;
      cid, open, pos, size, seqno, cmd := 0, false, 0, 0, 0, 0;
      dialog, stage, lastReg, lastAuth := 0, Idle, [], [];
      queue, acts, taken := [], [], [];
      new;
      assert buf[..] == seq(7550, _ => 0);
    }

    /** `queue_u2f_pkt`. */
    method QueuePacket(f: Frame)
      requires RingValid()
      modifies this`outEnd, this`queue, packets
      ensures RingValid() && queue == Queued(old(queue), f)
    {
      var next := (outEnd + 1) % RING;
      if outStart == next {
        return;
      }
      packets[outEnd] := f;
      outEnd := next;
      queue := queue + [f];
    }

    /** `u2f_out_data`. */
    method OutData() returns (f: Option<Frame>)
      requires RingValid()
      modifies this`outStart, this`queue
      ensures RingValid()
      ensures f == if old(queue) == [] then None else Some(old(queue)[0])
      ensures queue == if old(queue) == [] then [] else old(queue)[1..]
    {
      if outStart == outEnd {
        return None;
      }
      f := Some(packets[outStart]);
      outStart := (outStart + 1) % RING;
      queue := queue[1..];
    }

    /** `send_u2fhid_msg`: the sequence number is a byte, the rest of the body is cleared for each frame. */
    method SendMessage(command: byte, data: Bytes)
      requires RingValid()
      modifies this`outEnd, this`queue, packets
      ensures RingValid() && queue == QueueAll(old(queue), Frames(cid, command, data))
    {
      assert |queue| < RING && |Frames(cid, command, data)| == 1 + ContCount(|data|);
      ghost var was, frames := queue, Frames(cid, command, data);
      assert frames[0] == InitFrame(cid, command, data);
      assert QueueAll(was, frames[..0]) == was;
      QueueOneMore(was, frames, 0);
      hide RingValid, Queued, QueueAll, Frames;
      var psz := if |data| <= FIRST then |data| else FIRST;
      QueuePacket(Frame(cid, command, [|data| / 256 % 256, |data| % 256] + Padded(data[..psz], FIRST)));
      assert |data| <= FIRST ==> data[..psz] == data;
      SendRest(command, data, psz, was);
    }

    /** The continuation frames from `psz` on. */
    method SendRest(command: byte, data: Bytes, psz: nat, ghost was: seq<Frame>)
      requires RingValid() && |was| < RING && psz == (if |data| <= FIRST then |data| else FIRST)
      requires queue == QueueAll(was, Frames(cid, command, data)[..1])
      modifies this`outEnd, this`queue, packets
      ensures RingValid() && queue == QueueAll(was, Frames(cid, command, data))
    {
      hide RingValid, Queued, QueueAll, Frames, Number, ContCount, Padded;
      FrameCount(cid, command, data);
      NextNumber(0);
      MoreFrames(|data|, 0);
      var p, left := psz, |data| - psz;
      var number: byte := 0;
      ghost var i := 0;
      while left > 0
        invariant RingValid() && p + left == |data| && number == Number(i)
        invariant if left > 0 then i < ContCount(|data|) && p == FIRST + NEXT * i else i == ContCount(|data|)
        invariant queue == QueueAll(was, Frames(cid, command, data)[..i + 1])
        decreases left
      {
        var step := if left <= NEXT then left else NEXT;
        number := SendNext(command, number, data, i, p, step, was);
        MoreFrames(|data|, i + 1);
        p, left := p + step, left - step;
        i := i + 1;
      }
      assert Frames(cid, command, data)[..i + 1] == Frames(cid, command, data);
    }

    /** One continuation frame. */
    method SendNext(ghost command: byte, number: byte, data: Bytes, ghost i: nat, p: nat, step: nat,
        ghost was: seq<Frame>)
      returns (following: byte)
      requires RingValid() && |was| < RING && i < ContCount(|data|) && number == Number(i)
      requires p == FIRST + NEXT * i < |data| && step == if |data| <= p + NEXT then |data| - p else NEXT
      requires queue == QueueAll(was, Frames(cid, command, data)[..i + 1])
      modifies this`outEnd, this`queue, packets
      ensures RingValid() && queue == QueueAll(was, Frames(cid, command, data)[..i + 2])
      ensures following == Number(i + 1)
    {
      hide RingValid, Queued, QueueAll, Frames, Number, ContCount, Padded;
      QueueOneMore(was, Frames(cid, command, data), i + 1);
      FrameAt(cid, command, data, i);
      assert |data| <= p + NEXT ==> data[p..p + step] == data[p..];
      QueuePacket(Frame(cid, number, Padded(data[p..p + step], NEXT)));
      NextNumber(i);
      following := (number + 1) % 256;
    }

    /** `send_u2fhid_error`. */
    method SendError(to: uint32, code: byte)
      requires Valid()
      modifies this`outEnd, this`queue, packets
      ensures Valid() && State() == old(State()).Error(to, code)
    {
      QueuePacket(Frame(to, CMD_ERROR, Padded([0, 1, code], 59)));
    }

    /** `u2fhid_init_cmd`. */
    method InitCommand(f: Frame)
      requires Valid() && open
      modifies this`pos, this`size, this`seqno, this`cmd, this`cid, buf
      ensures Valid() && State() == old(State()).Command(f) && buf[..] == Fill(old(buf[..]), State())
    {
      seqno := 0;
      pos := 0;
      size := 256 * (f.body[0] as int) + f.body[1];
      cmd := f.tag;
      forall k | 0 <= k < 57 { buf[k] := f.body[2 + k]; }
      pos := pos + 57;
      cid := f.cid;
      assert buf[..pos] == f.InitData();
      assert buf[..] == buf[..pos] + old(buf[..])[pos..];
    }

    /** `u2fhid_init`; `next` is the random channel it may allocate. */
    method Init(f: Frame, next: uint32)
      requires Valid()
      modifies this`outEnd, this`queue, this`cid, packets
      ensures Valid() && State() == old(State()).Init(f, next, version)
    {
      hide Hid.Error, Queued, InitResponse, Padded;
      if f.cid == 0 {
        SendError(f.cid, ERR_INVALID_CID);
        return;
      }
      var channel := f.cid;
      if f.cid == BROADCAST {
        cid := next;
        channel := next;
      }
      QueuePacket(Frame(f.cid, CMD_INIT, InitResponse(f, channel, version)));
    }

    /** `u2fhid_read_start` up to its wait for more frames. */
    method ReadStart(f: Frame)
      requires Valid()
      modifies this`cid, this`open, this`pos, this`size, this`seqno, this`cmd, this`outEnd, this`queue, buf, packets
      ensures Valid() && State() == old(State()).Begin(f)
      ensures old(!open) ==> buf[..] == Fill(old(buf[..]), State())
    {
      hide Hid.Error;
      if f.tag < 0x80 {
        return;
      }
      if f.cid == BROADCAST || f.cid == 0 {
        SendError(f.cid, ERR_INVALID_CID);
        return;
      }
      if f.Size() > BUFFER {
        SendError(f.cid, ERR_INVALID_LEN);
        return;
      }
      if !open {
        open, pos, seqno := true, 57, 0;
      }
      InitCommand(f);
    }

    method Abort()
      requires Valid() && open
      modifies this`cmd, this`size, this`seqno
      ensures Valid() && State() == old(State()).Aborted()
    {
      cmd, size, seqno := 0, 0, 255;
    }

    /** `u2fhid_read`. */
    method Read(tiny: bool, f: Frame, next: uint32)
      requires Valid()
      modifies this`cid, this`open, this`pos, this`size, this`seqno, this`cmd, this`outEnd, this`queue, buf, packets
      ensures Valid() && State() == old(State()).Read(tiny, f, next, version)
      ensures tiny || old(!open) ==> buf[..] == Fill(old(buf[..]), State())
    {
      hide Hid.Init, Hid.Error, Hid.Begin, Hid.Command, RingValid, Fill;
      Filled();
      if f.tag == CMD_INIT {
        Init(f, next);
        if tiny && open && f.cid == cid {
          Abort();
        }
        return;
      }
      if !tiny {
        ReadStart(f);
        return;
      }
      if !open || cid != f.cid {
        SendError(f.cid, ERR_CHANNEL_BUSY);
        return;
      }
      if f.tag >= 0x80 && seqno == 255 {
        InitCommand(f);
        return;
      }
      if seqno != f.tag {
        SendError(f.cid, ERR_INVALID_SEQ);
        Abort();
        return;
      }
      Continue(f);
    }

    /** The body of a continuation frame, unless the message is complete or the buffer full. */
    method Continue(f: Frame)
      requires Valid() && open && seqno == f.tag != 255
      modifies this`seqno, this`pos, buf
      ensures Valid()
      ensures State() == if old(pos) >= size || old(pos) + NEXT > BUFFER then old(State())
                         else old(State()).(reader := Open(cmd, size, f.tag + 1, old(buf[..pos]) + f.body))
      ensures buf[..] == Fill(old(buf[..]), State())
    {
      if pos >= size || pos + 59 > BUFFER {
        Filled();
        return;
      }
      seqno := seqno + 1;
      forall k | 0 <= k < 59 { buf[pos + k] := f.body[k]; }
      pos := pos + 59;
      assert buf[..pos] == old(buf[..pos]) + f.body;
      assert buf[..] == buf[..pos] + old(buf[..])[pos..];
    }

    /** The buffer as it is holds what the reader has. */
    lemma Filled()
      requires Valid()
      ensures forall h: Hid :: h.Valid() && h.reader.Open? == open && (open ==> h.reader.got == buf[..pos]) ==>
        Fill(buf[..], h) == buf[..]
    {
    }

    // ------------------------------------------------------------ commands

    /** `send_u2fhid_msg` on the current channel. */
    method Answer(command: byte, data: Bytes, ghost ph: Phase)
      requires Valid()
      modifies this`outEnd, this`queue, packets
      ensures Valid() && Now(ph) == old(Now(ph)).Reply(command, data)
    {
      hide RingValid, QueueAll, Frames;
      SendMessage(command, data);
    }

    /** `send_u2f_error`. */
    method SendStatus(code: nat, ghost ph: Phase)
      requires Valid() && code < 0x1_0000
      modifies this`outEnd, this`queue, packets
      ensures Valid() && Now(ph) == old(Now(ph)).Status(code)
    {
      hide RingValid, Server.Reply;
      Answer(CMD_MSG, [code / 256, code % 256], ph);
    }

    /** A request that differs from the last of its kind starts over; without a request the dialog is shown. */
    method AskFor(kind: Kind, req: Bytes, ghost ph: Phase)
      requires Valid()
      modifies this`lastReg, this`lastAuth, this`stage, this`acts
      ensures Valid() && Now(ph) == old(Now(ph)).Ask(kind, req)
    {
      hide RingValid, ReaderValid;
      if kind.Registration? && lastReg != req {
        lastReg, stage := req, Idle;
      }
      if kind.Authentication? && lastAuth != req {
        lastAuth, stage := req, Idle;
      }
      if stage.Idle? {
        stage := Asked(kind);
        acts := acts + [Shown(kind, req)];
      }
    }

    /** The end of `u2f_register` and `u2f_authenticate`; `response` is None when no key or signature can be made. */
    method Present(kind: Kind, req: Bytes, response: Option<Bytes>, ghost ph: Phase)
      requires Valid()
      modifies this`lastReg, this`lastAuth, this`stage, this`acts, this`dialog, this`outEnd, this`queue, packets
      ensures Valid() && Now(ph) == old(Now(ph)).Present(kind, req, response)
    {
      hide RingValid, Server.Reply, Server.Status, Server.Ask;
      AskFor(kind, req, ph);
      if stage == Asked(kind) {
        SendStatus(0x6985, ph);
        dialog := TIMEOUT;
      } else if stage == Pressed(kind) {
        if response.None? {
          SendStatus(0x6a80, ph);
          return;
        }
        Answer(CMD_MSG, response.value, ph);
        stage, dialog := Idle, 0;
        acts := acts + [Signed(kind, req)];
      } else if kind.Registration? {
        dialog := 0;
      }
    }

    /** `u2f_register`. */
    method Register(len: nat, keys: Keys, ghost ph: Phase)
      requires Valid()
      modifies this`lastReg, this`lastAuth, this`stage, this`acts, this`dialog, this`outEnd, this`queue, packets
      ensures Valid() && Now(ph) ==
        if !keys.initialized then old(Now(ph)).Status(0x6985)
        else if len != 64 then old(Now(ph)).Status(0x6700)
        else old(Now(ph)).Present(Registration, buf[7..71], keys.register(buf[7..71]))
    {
      hide RingValid, Server.Status, Server.Present;
      if !keys.initialized {
        SendStatus(0x6985, ph);
      } else if len != 64 {
        SendStatus(0x6700, ph);
      } else {
        Present(Registration, buf[7..71], keys.register(buf[7..71]), ph);
      }
    }

    /** `u2f_authenticate`. */
    method Authenticate(len: nat, keys: Keys, ghost ph: Phase)
      requires Valid()
      modifies this`lastReg, this`lastAuth, this`stage, this`acts, this`dialog, this`outEnd, this`queue, packets
      ensures Valid() && Now(ph) ==
        if !keys.initialized then old(Now(ph)).Status(0x6985)
        else if len < 64 then old(Now(ph)).Status(0x6700)
        else if buf[71] != 64 || !keys.known(buf[7..200]) then old(Now(ph)).Status(0x6a80)
        else if buf[2] == 7 then old(Now(ph)).Status(0x6985)
        else if buf[2] != 3 then old(Now(ph)).Status(0x6a80)
        else old(Now(ph)).Present(Authentication, buf[7..200], keys.authenticate(buf[7..200]))
    {
      hide RingValid, Server.Status, Server.Present;
      if !keys.initialized {
        SendStatus(0x6985, ph);
      } else if len < 64 {
        SendStatus(0x6700, ph);
      } else if buf[71] != 64 || !keys.known(buf[7..200]) {
        SendStatus(0x6a80, ph);
      } else if buf[2] == 7 {
        SendStatus(0x6985, ph);
      } else if buf[2] != 3 {
        SendStatus(0x6a80, ph);
      } else {
        Present(Authentication, buf[7..200], keys.authenticate(buf[7..200]), ph);
      }
    }

    /** `u2fhid_msg`. */
    method Message(length: nat, keys: Keys, ghost ph: Phase)
      requires Valid()
      modifies this`lastReg, this`lastAuth, this`stage, this`acts, this`dialog, this`outEnd, this`queue, packets
      ensures Valid() && Now(ph) == old(Now(ph)).Msg(length, keys)
    {
      hide RingValid, Server.Reply, Server.Status, Server.Present;
      var len := 65536 * (buf[4] as int) + 256 * (buf[5] as int) + buf[6];
      if len + 8 > length {
        return;
      }
      if buf[0] != 0 {
        SendStatus(0x6e00, ph);
        return;
      }
      assert buf[..][7..71] == buf[7..71] && buf[..][7..200] == buf[7..200];
      if buf[1] == 1 {
        Register(len, keys, ph);
      } else if buf[1] == 2 {
        Authenticate(len, keys, ph);
      } else if buf[1] == 3 {
        if len != 0 {
          SendStatus(0x6700, ph);
        } else {
          Answer(CMD_MSG, VERSION, ph);
        }
      } else {
        SendStatus(0x6d00, ph);
      }
    }

    /** `u2fhid_wink`. */
    method WinkOnce(length: nat, ghost ph: Phase)
      requires Valid()
      modifies this`dialog, this`outEnd, this`queue, packets
      ensures Valid() && Now(ph) == old(Now(ph)).Wink(length)
    {
      hide RingValid, Hid.Error, Queued;
      if length > 0 {
        SendError(cid, ERR_INVALID_LEN);
        return;
      }
      if dialog > 0 {
        dialog := TIMEOUT;
      }
      QueuePacket(Frame(cid, CMD_WINK, Padded([], 59)));
    }

    /** The command in the reader. */
    method CarryOut(keys: Keys, ghost ph: Phase)
      requires Valid() && open && pos >= size && !ph.Stopped?
      modifies this`lastReg, this`lastAuth, this`stage, this`acts, this`dialog, this`outEnd, this`queue, packets
      ensures Valid() && Now(ph) == old(Now(ph)).CarryOut(keys)
    {
      hide RingValid, Server.Reply, Server.Msg, Server.Wink, Hid.Error;
      assert buf[..pos][..size] == buf[..size];
      if cmd == CMD_PING {
        Answer(CMD_PING, buf[..size], ph);
      } else if cmd == CMD_MSG {
        Message(size, keys, ph);
      } else if cmd == CMD_WINK {
        WinkOnce(size, ph);
      } else if cmd != 0 {
        SendError(cid, ERR_INVALID_CMD);
      }
    }

    /** It is carried out; then the reader waits for another. */
    method Dispatch(keys: Keys, ghost ph: Phase)
      requires Valid() && open && pos >= size && !ph.Stopped?
      modifies this`lastReg, this`lastAuth, this`stage, this`acts, this`taken, this`dialog, this`cmd, this`seqno,
               this`outEnd, this`queue, packets
      ensures Valid() && Now(ph) == old(Now(ph)).Dispatch(keys)
    {
      hide RingValid, Server.CarryOut;
      assert buf[..pos][..size] == buf[..size];
      CarryOut(keys, ph);
      taken := if cmd == 0 then taken else taken + [(cmd, buf[..size])];
      cmd, seqno := 0, 255;
    }

    // ------------------------------------------------------------- sessions

    /** The frames that one `usbPoll` brings. */
    method ReadFrames(frames: seq<(Frame, uint32)>)
      requires Valid()
      modifies this`cid, this`open, this`pos, this`size, this`seqno, this`cmd, this`outEnd, this`queue, buf, packets
      ensures Valid() && (State(), buf[..]) == ReadTiny(old(State()), old(buf[..]), frames, version)
    {
      ghost var h, b := State(), buf[..];
      for i := 0 to |frames|
        invariant Valid() && (State(), buf[..]) == ReadTiny(h, b, frames[..i], version)
      {
        hide Hid.Read, Fill, RingValid, ReaderValid;
        assert frames[..i + 1][..i] == frames[..i];
        Read(true, frames[i].0, frames[i].1);
      }
      assert frames[..|frames|] == frames;
    }

    /** The timeout of a message that does not become complete. */
    method TimedOut(ghost ph: Phase)
      requires Valid() && open
      modifies this`cid, this`open, this`outEnd, this`queue, packets
      ensures Valid() && !open
      ensures Now(Stopped) == old(Now(ph)).(phase := Stopped,
                                            hid := Hid(0, Closed, old(State()).Error(old(cid), ERR_MSG_TIMEOUT).queue))
    {
      hide RingValid, Hid.Error;
      SendError(cid, ERR_MSG_TIMEOUT);
      cid, open := 0, false;
    }

    /** One poll of a session that collects. */
    method PollCollecting(p: Poll, counter: nat, lastSeq: byte, lastCmd: byte)
      requires Valid() && open && counter > 0
      modifies this`cid, this`open, this`pos, this`size, this`seqno, this`cmd, this`outEnd, this`queue, buf, packets
      ensures Valid() && open
      ensures old(Now(Collect(counter, lastSeq, lastCmd))).Step(p, version)
           == Now(Collect(counter - 1, lastSeq, lastCmd)).Settle(p.keys)
    {
      hide RingValid, ReaderValid, Server.Settle, ReadTiny;
      ReadFrames(p.frames);
    }

    /**
     The inner wait for a frame: `more` when one has come, else the session has timed out or the
     polls are over.
     */
    method AwaitFrame(polls: seq<Poll>, from: nat, keys: Keys, ghost start: Server)
      returns (i: nat, more: bool, last: Keys, ghost ph: Phase)
      requires Valid() && open && from <= |polls| && start.Valid()
      requires Serve(start, polls[..from], version) == Now(Collect(TIMEOUT, seqno, cmd))
      modifies this`cid, this`open, this`pos, this`size, this`seqno, this`cmd, this`outEnd, this`queue, buf, packets
      ensures Valid() && from <= i <= |polls|
      ensures more ==> open && from < i && Serve(start, polls[..i], version) == Now(Offer).Proceed(last)
      ensures !more ==> (i == |polls| || !open) && Serve(start, polls[..i], version) == Now(ph)
    {
      hide Serve, Server.Settle, Server.Step, Server.Proceed, Hid.Error;
      var lastSeq, lastCmd, counter := seqno, cmd, TIMEOUT;
      i, last := from, keys;
      CollectSettles(Now(Collect(counter, lastSeq, lastCmd)), last);
      while seqno == lastSeq && cmd == lastCmd
        invariant Valid() && open && from <= i <= |polls|
        invariant i == from ==> counter == TIMEOUT && seqno == lastSeq && cmd == lastCmd
        invariant Serve(start, polls[..i], version) == Now(Collect(counter, lastSeq, lastCmd)).Settle(last)
        decreases |polls| - i
      {
        CollectSettles(Now(Collect(counter, lastSeq, lastCmd)), last);
        if counter == 0 {
          TimedOut(Collect(counter, lastSeq, lastCmd));
          return i, false, last, Stopped;
        }
        if i == |polls| {
          return i, false, last, Collect(counter, lastSeq, lastCmd);
        }
        ServeNext(start, polls, i, version);
        PollCollecting(polls[i], counter, lastSeq, lastCmd);
        counter, last := counter - 1, polls[i].keys;
        i := i + 1;
      }
      CollectSettles(Now(Collect(counter, lastSeq, lastCmd)), last);
      more, ph := true, Offer;
    }

    /** The wait for a whole message. */
    method CollectAll(polls: seq<Poll>, from: nat, keys: Keys, ghost start: Server)
      returns (i: nat, more: bool, last: Keys, ghost ph: Phase)
      requires Valid() && open && from <= |polls| && start.Valid()
      requires Serve(start, polls[..from], version) == Now(Offer).Proceed(keys)
      modifies this`cid, this`open, this`pos, this`size, this`seqno, this`cmd, this`outEnd, this`queue, buf, packets
      ensures Valid() && from <= i <= |polls|
      ensures more ==> open && pos >= size && Serve(start, polls[..i], version) == Now(Offer).Proceed(last)
      ensures !more ==> (i == |polls| || !open) && Serve(start, polls[..i], version) == Now(ph)
    {
      hide Serve, Server.Proceed;
      i, last, more, ph := from, keys, true, Offer;
      while pos < size
        invariant Valid() && open && from <= i <= |polls| && more
        invariant Serve(start, polls[..i], version) == Now(Offer).Proceed(last)
        decreases |polls| - i
      {
        ProceedIncomplete(Now(Offer), last);
        i, more, last, ph := AwaitFrame(polls, i, last, start);
        if !more {
          return;
        }
      }
    }

    /** One poll of a session that waits for the button or another command. */
    method PollOffering(p: Poll)
      requires Valid() && open && dialog > 0 && cmd == 0
      modifies this`cid, this`open, this`pos, this`size, this`seqno, this`cmd, this`lastReg, this`lastAuth,
               this`stage, this`acts, this`taken, this`dialog, this`outEnd, this`queue, buf, packets
      ensures Valid() && open && old(Now(Offer)).Step(p, version) == Now(Offer).Settle(p.keys)
    {
      hide Server.Settle, ReadTiny;
      dialog := dialog - 1;
      ReadFrames(p.frames);
      if p.yes && stage.Asked? {
        stage, dialog := Pressed(stage.kind), 10 * TIMEOUT;
        acts := acts + [Yes];
      }
    }

    /** The wait for the button or another command; without one the session ends. */
    method OfferAll(polls: seq<Poll>, from: nat, keys: Keys, ghost start: Server)
      returns (i: nat, more: bool, last: Keys, ghost ph: Phase)
      requires Valid() && open && from <= |polls| && start.Valid() && cmd == 0
      requires Serve(start, polls[..from], version) == Now(Offer).Rest()
      modifies this`cid, this`open, this`pos, this`size, this`seqno, this`cmd, this`lastReg, this`lastAuth,
               this`stage, this`acts, this`taken, this`dialog, this`outEnd, this`queue, buf, packets
      ensures Valid() && from <= i <= |polls|
      ensures more ==> open && from < i && Serve(start, polls[..i], version) == Now(Offer).Proceed(last)
      ensures !more ==> (i == |polls| || !open) && Serve(start, polls[..i], version) == Now(ph)
    {
      hide Serve, Server.Step, Server.Proceed;
      i, last := from, keys;
      while dialog > 0 && cmd == 0
        invariant Valid() && open && from <= i <= |polls| && (i == from ==> cmd == 0)
        invariant Serve(start, polls[..i], version) == Now(Offer).Settle(last)
        decreases |polls| - i
      {
        if i == |polls| {
          return i, false, last, Offer;
        }
        ServeNext(start, polls, i, version);
        PollOffering(polls[i]);
        last := polls[i].keys;
        i := i + 1;
      }
      more, ph := true, Offer;
      if cmd == 0 {
        stage, cid, open := Idle, 0, false;
        more, ph := false, Stopped;
      }
    }

    /** The loop of `u2fhid_read_start` behind its first frame, for as long as there are polls. */
    method Session(polls: seq<Poll>, keys: Keys, ghost start: Server) returns (ghost ph: Phase)
      requires Valid() && open && start.Valid() && start == Now(Offer).Proceed(keys)
      modifies this`cid, this`open, this`pos, this`size, this`seqno, this`cmd, this`lastReg, this`lastAuth,
               this`stage, this`acts, this`taken, this`dialog, this`outEnd, this`queue, buf, packets
      ensures Valid() && Serve(start, polls, version) == Now(ph)
    {
      hide Serve, Server.Step, Server.Proceed, Server.Dispatch, Server.Rest;
      var i, more, last := 0, true, keys;
      ph := Offer;
      ServeNone(start, polls, version);
      while more
        invariant Valid() && i <= |polls|
        invariant more ==> open && Serve(start, polls[..i], version) == Now(Offer).Proceed(last)
        invariant !more ==> (i == |polls| || !open) && Serve(start, polls[..i], version) == Now(ph)
        decreases |polls| - i, more
      {
        i, more, last, ph := CollectAll(polls, i, last, start);
        if more {
          ProceedComplete(Now(Offer), last);
          Dispatch(last, Offer);
          i, more, last, ph := OfferAll(polls, i, last, start);
        }
      }
      if i < |polls| {
        StoppedStays(start, polls, i, version);
      }
      assert polls[..|polls|] == polls;
    }

    /** `u2fhid_read` outside a session, with the whole session that the frame may begin. */
    method Receive(f: Frame, next: uint32, polls: seq<Poll>, keys: Keys) returns (ghost ph: Phase)
      requires Valid() && !open
      modifies this`cid, this`open, this`pos, this`size, this`seqno, this`cmd, this`lastReg, this`lastAuth,
               this`stage, this`acts, this`taken, this`dialog, this`outEnd, this`queue, buf, packets
      ensures Valid()
      ensures Now(ph) == Serve(Begin(old(Now(Stopped)), f, next, old(buf[..]), keys, version), polls, version)
      ensures old(Remembers(Now(Stopped))) ==> Remembers(Now(ph))
    {
      hide Serve, Server.Proceed, Hid.Read, Remembers;
      Read(false, f, next);
      ghost var start := Begin(old(Now(Stopped)), f, next, old(buf[..]), keys, version);
      if old(Remembers(Now(Stopped))) {
        BeginRemembers(old(Now(Stopped)), f, next, old(buf[..]), keys, version);
        ServeRemembers(start, polls, version);
      }
      if open {
        ProceedAnyPhase(Now(Stopped), Offer, keys);
        ph := Session(polls, keys, start);
      } else {
        ServeNone(start, polls, version);
        StoppedStays(start, polls, 0, version);
        ph := Stopped;
      }
    }
  }

  lemma QueueOneMore(queue: seq<Frame>, frames: seq<Frame>, k: nat)
    requires |queue| < RING && k < |frames|
    ensures QueueAll(queue, frames[..k + 1]) == Queued(QueueAll(queue, frames[..k]), frames[k])
  {
    hide Queued;
    var some := frames[..k + 1];
    assert some[..|some| - 1] == frames[..k] && some[|some| - 1] == frames[k];
    hide QueueAll;
    QueueLast(queue, some);
  }

  lemma FrameCount(cid: uint32, command: byte, data: Bytes)
    ensures |Frames(cid, command, data)| == 1 + ContCount(|data|)
  {
  }

  lemma NextNumber(i: nat)
    ensures Number(0) == 0
    ensures (Number(i) + 1) % 256 == Number(i + 1)
  {
  }

  lemma MoreFrames(size: nat, i: nat)
    ensures i < ContCount(size) <==> FIRST + NEXT * i < size
    ensures i == ContCount(size) <==> (if i == 0 then size <= FIRST
      else FIRST + NEXT * (i - 1) < size <= FIRST + NEXT * i)
  {
  }

  lemma QueueLast(queue: seq<Frame>, frames: seq<Frame>)
    requires |queue| < RING && |frames| > 0
    ensures QueueAll(queue, frames) == Queued(QueueAll(queue, frames[..|frames| - 1]), frames[|frames| - 1])
  {
  }

  lemma FrameAt(cid: uint32, command: byte, data: Bytes, i: nat)
    requires i < ContCount(|data|)
    ensures Frames(cid, command, data)[i + 1] == ContFrame(cid, data, i)
  {
    hide InitFrame, ContFrame, ContCount;
  }
}
