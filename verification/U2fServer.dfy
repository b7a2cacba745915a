/**
 The session loop of firmware/u2f.c: frames are collected under a timeout, a complete command
 is carried out, and then the device waits a while for a button or a new command. Signatures
 are made for the request that was shown when the button was pressed.
 */
module U2fServer {
  import opened Bytes
  import opened U2fHid

  const TIMEOUT: nat := 400000
  const CMD_PING: byte := 0x81
  const CMD_MSG: byte := 0x83
  const CMD_WINK: byte := 0x88
  const ERR_INVALID_CMD: byte := 0x01
  const ERR_MSG_TIMEOUT: byte := 0x05

  type Buffer = b: Bytes | |b| == 7550 witness seq(7550, _ => 0)

  datatype Kind = Registration | Authentication

  /** `last_req_state`. */
  datatype Stage = Idle | Asked(kind: Kind) | Pressed(kind: Kind)

  /** A dialog for a request, the button pressed for it, and a signature. */
  datatype Act = Shown(kind: Kind, req: Bytes) | Yes | Signed(kind: Kind, req: Bytes)

  /** What the keys in storage say at the time: None when no response can be made. */
  datatype Keys = Keys(initialized: bool, known: Bytes -> bool, register: Bytes -> Option<Bytes>,
                       authenticate: Bytes -> Option<Bytes>)

  /** What one `usbPoll` brings: frames, each with the channel an INIT may get, and the button. */
  datatype Poll = Poll(frames: seq<(Frame, uint32)>, yes: bool, keys: Keys)

  datatype Phase = Collect(counter: nat, seqno: byte, cmd: byte) | Offer | Stopped

  datatype Server = Server(hid: Hid, buffer: Buffer, phase: Phase, dialog: nat, stage: Stage,
                           lastReg: Bytes, lastAuth: Bytes,
                           acts: seq<Act>, taken: seq<(byte, Bytes)>)
  {
    predicate Valid()
    {
      hid.Valid() && (phase.Stopped? <==> hid.reader.Closed?)
    }

    function Last(kind: Kind): Bytes
    {
      if kind.Registration? then lastReg else lastAuth
    }

    /** `send_u2fhid_msg`. */
    function Reply(cmd: byte, data: Bytes): (r: Server)
      requires hid.Valid()
      ensures r.hid.Valid() && r == this.(hid := hid.(queue := r.hid.queue))
    {
      this.(hid := hid.(queue := QueueAll(hid.queue, Frames(hid.cid, cmd, data))))
    }

    /** `send_u2f_error`. */
    function Status(code: nat): (r: Server)
      requires hid.Valid() && code < 0x1_0000
      ensures r.hid.Valid() && r == this.(hid := hid.(queue := r.hid.queue))
    {
      Reply(CMD_MSG, [code / 256, code % 256])
    }

    /** A request that differs from the last of its kind starts over; without a request the dialog is shown. */
    function Ask(kind: Kind, req: Bytes): Server
    {
      var s := if Last(kind) == req then this
               else if kind.Registration? then this.(lastReg := req, stage := Idle)
               else this.(lastAuth := req, stage := Idle);
      if s.stage.Idle? then s.(stage := Asked(kind), acts := s.acts + [Shown(kind, req)]) else s
    }

    /** The end of `u2f_register` and `u2f_authenticate`. */
    function Present(kind: Kind, req: Bytes, response: Option<Bytes>): (r: Server)
      requires hid.Valid()
      ensures r.hid.Valid() && r.phase == phase && r.taken == taken && r.hid == hid.(queue := r.hid.queue)
    {
      var s := Ask(kind, req);
      if s.stage == Asked(kind) then s.Status(0x6985).(dialog := TIMEOUT)
      else if s.stage == Pressed(kind) then
        match response
        case None => s.Status(0x6a80)
        case Some(answer) =>
          s.Reply(CMD_MSG, answer).(stage := Idle, dialog := 0, acts := s.acts + [Signed(kind, req)])
      else if kind.Registration? then s.(dialog := 0)
      else s
    }

    /** `u2fhid_msg` on a message of `size` bytes; what it reads behind the message was in the buffer before. */
    function Msg(size: nat, keys: Keys): (r: Server)
      requires hid.Valid()
      ensures r.hid.Valid() && r.phase == phase && r.taken == taken && r.hid == hid.(queue := r.hid.queue)
    {
      var buf := buffer;
      var len := 65536 * (buf[4] as int) + 256 * (buf[5] as int) + buf[6];
      if len + 8 > size then this
      else if buf[0] != 0 then Status(0x6e00)
      else if buf[1] == 1 then
        if !keys.initialized then Status(0x6985)
        else if len != 64 then Status(0x6700)
        else Present(Registration, buf[7..71], keys.register(buf[7..71]))
      else if buf[1] == 2 then
        if !keys.initialized then Status(0x6985)
        else if len < 64 then Status(0x6700)
        else if buf[71] != 64 || !keys.known(buf[7..200]) then Status(0x6a80)
        else if buf[2] == 7 then Status(0x6985)
        else if buf[2] != 3 then Status(0x6a80)
        else Present(Authentication, buf[7..200], keys.authenticate(buf[7..200]))
      else if buf[1] == 3 then
        if len != 0 then Status(0x6700) else Reply(CMD_MSG, VERSION)
      else Status(0x6d00)
    }

    /** `u2fhid_wink`. */
    function Wink(size: nat): (r: Server)
      requires hid.Valid()
      ensures r.hid.Valid() && r == this.(dialog := r.dialog, hid := hid.(queue := r.hid.queue))
    {
      if size > 0 then this.(hid := hid.Error(hid.cid, ERR_INVALID_LEN))
      else this.(dialog := if dialog > 0 then TIMEOUT else 0, hid := hid.Send(Frame(hid.cid, CMD_WINK, Padded([], 59))))
    }

    /** The command in the reader. */
    function CarryOut(keys: Keys): (r: Server)
      requires Valid() && hid.reader.Open? && |hid.reader.got| >= hid.reader.size
      ensures r.hid.Valid() && r.phase == phase && r.taken == taken && r.hid == hid.(queue := r.hid.queue)
    {
      var o := hid.reader;
      if o.cmd == 0 then this
      else if o.cmd == CMD_PING then Reply(CMD_PING, o.got[..o.size])
      else if o.cmd == CMD_MSG then Msg(o.size, keys)
      else if o.cmd == CMD_WINK then Wink(o.size)
      else this.(hid := hid.Error(hid.cid, ERR_INVALID_CMD))
    }

    /** It is carried out; then the reader waits for another. */
    function Dispatch(keys: Keys): (r: Server)
      requires Valid() && hid.reader.Open? && |hid.reader.got| >= hid.reader.size
      ensures r.Valid() && r.phase == phase && r.hid.reader == hid.reader.(cmd := 0, seqno := 255)
      ensures r.taken == if hid.reader.cmd == 0 then taken
        else taken + [(hid.reader.cmd, hid.reader.got[..hid.reader.size])]
    {
      var o, s := hid.reader, CarryOut(keys);
      s.(taken := if o.cmd == 0 then taken else taken + [(o.cmd, o.got[..o.size])],
         hid := s.hid.(reader := o.(cmd := 0, seqno := 255)))
    }

    /** The loop up to its next poll, when a command may be complete. */
    function Proceed(keys: Keys): (r: Server)
      requires hid.Valid() && hid.reader.Open?
      ensures r.Valid()
    {
      if |hid.reader.got| < hid.reader.size then this.(phase := Collect(TIMEOUT, hid.reader.seqno, hid.reader.cmd))
      else this.(phase := Offer).Dispatch(keys).Rest()
    }

    /** Nothing to wait for ends the session. */
    function Rest(): (r: Server)
      requires Valid() && phase.Offer? && hid.reader.cmd == 0
      ensures r.Valid()
    {
      if dialog > 0 then this else this.(stage := Idle, phase := Stopped, hid := Hid(0, Closed, hid.queue))
    }

    /** After a poll: a timeout, more polls, or on with the loop. */
    function Settle(keys: Keys): (r: Server)
      requires Valid() && !phase.Stopped?
      ensures r.Valid()
    {
      match phase
      case Collect(counter, seqno, cmd) =>
        if hid.reader.seqno != seqno || hid.reader.cmd != cmd then Proceed(keys)
        else if counter > 0 then this
        else this.(phase := Stopped, hid := Hid(0, Closed, hid.Error(hid.cid, ERR_MSG_TIMEOUT).queue))
      case Offer =>
        if hid.reader.cmd != 0 then Proceed(keys) else Rest()
    }

    function Tick(): Server
    {
      match phase
      case Collect(counter, seqno, cmd) => this.(phase := Collect(if counter > 0 then counter - 1 else 0, seqno, cmd))
      case Offer => this.(dialog := if dialog > 0 then dialog - 1 else 0)
      case Stopped => this
    }

    /** The button counts while the device waits after a command. */
    function Button(yes: bool): Server
    {
      if phase.Offer? && yes && stage.Asked? then
        this.(stage := Pressed(stage.kind), dialog := 10 * TIMEOUT, acts := acts + [Yes])
      else this
    }

    function Step(p: Poll, version: (byte, byte, byte)): (r: Server)
      requires Valid()
      ensures r.Valid()
    {
      if phase.Stopped? then this
      else
        var s := Tick();
        var (h, b) := ReadTiny(hid, buffer, p.frames, version);
        s.(hid := h, buffer := b).Button(p.yes).Settle(p.keys)
    }
  }

  /** "U2F_V2" and the status 0x9000. */
  const VERSION: Bytes := [0x55, 0x32, 0x46, 0x5f, 0x56, 0x32, 0x90, 0x00]

  /** The static buffer behind an open reader. */
  function Fill(buffer: Buffer, h: Hid): Buffer
    requires h.Valid()
  {
    if h.reader.Open? then h.reader.got + buffer[|h.reader.got|..] else buffer
  }

  /** The frames of one poll, while a reader is open. */
  function ReadTiny(h: Hid, buffer: Buffer, frames: seq<(Frame, uint32)>,
      version: (byte, byte, byte)): (r: (Hid, Buffer))
    requires h.Valid()
    ensures r.0.Valid() && (h.reader.Open? ==> r.0.reader.Open?)
  {
    if |frames| == 0 then (h, buffer)
    else
      var (front, b) := ReadTiny(h, buffer, frames[..|frames| - 1], version);
      var g := front.Read(true, frames[|frames| - 1].0, frames[|frames| - 1].1, version);
      (g, Fill(b, g))
  }

  /** `u2fhid_read` outside a session; a command goes into the loop, up to its first poll. */
  function Begin(s: Server, f: Frame, next: uint32, stale: Buffer, keys: Keys, version: (byte, byte, byte)): (r: Server)
    requires s.Valid() && s.phase.Stopped?
    ensures r.Valid()
  {
    var h := s.hid.Read(false, f, next, version);
    if h.reader.Open? then s.(hid := h, buffer := Fill(stale, h)).Proceed(keys) else s.(hid := h, buffer := stale)
  }

  function Serve(s: Server, polls: seq<Poll>, version: (byte, byte, byte)): (r: Server)
    requires s.Valid()
    ensures r.Valid()
  {
    if |polls| == 0 then s else Serve(s, polls[..|polls| - 1], version).Step(polls[|polls| - 1], version)
  }

  // ------------------------------------------------------------ user presence

  /** Every signature follows the button, and the button the dialog, of this very request. */
  predicate Confirmed(acts: seq<Act>)
  {
    forall i :: 0 <= i < |acts| && acts[i].Signed? ==>
      i >= 2 && acts[i - 1] == Yes && acts[i - 2] == Shown(acts[i].kind, acts[i].req)
  }

  /** The state remembers the dialog and the button. */
  predicate Remembers(s: Server)
  {
    && Confirmed(s.acts)
    && (s.stage.Asked? ==> |s.acts| >= 1 && s.acts[|s.acts| - 1] == Shown(s.stage.kind, s.Last(s.stage.kind)))
    && (s.stage.Pressed? ==>
          && |s.acts| >= 2 && s.acts[|s.acts| - 1] == Yes
          && s.acts[|s.acts| - 2] == Shown(s.stage.kind, s.Last(s.stage.kind)))
  }

  lemma AskRemembers(s: Server, kind: Kind, req: Bytes)
    requires Remembers(s)
    ensures Remembers(s.Ask(kind, req)) && s.Ask(kind, req).Last(kind) == req
  {
  }

  lemma SignedRemembers(s: Server, kind: Kind, req: Bytes)
    requires Remembers(s) && s.stage == Pressed(kind) && s.Last(kind) == req
    ensures Remembers(s.(stage := Idle, dialog := 0, acts := s.acts + [Signed(kind, req)]))
  {
  }

  /** Neither the ring nor the timeout nor the commands taken are part of the memory. */
  lemma SameRemembers(s: Server, t: Server)
    requires Remembers(s) && t == s.(hid := t.hid, dialog := t.dialog, taken := t.taken)
    ensures Remembers(t)
  {
  }

  lemma PresentRemembers(s: Server, kind: Kind, req: Bytes, response: Option<Bytes>)
    requires s.hid.Valid() && Remembers(s)
    ensures Remembers(s.Present(kind, req, response))
  {
    hide Remembers, Server.Reply, Server.Status, Server.Ask;
    var a, t := s.Ask(kind, req), s.Present(kind, req, response);
    AskRemembers(s, kind, req);
    if a.stage == Pressed(kind) && response.Some? {
      SignedRemembers(a, kind, req);
      var signed := a.(stage := Idle, dialog := 0, acts := a.acts + [Signed(kind, req)]);
      SameRemembers(signed, t);
    } else {
      SameRemembers(a, t);
    }
  }

  lemma MsgRemembers(s: Server, size: nat, keys: Keys)
    requires s.hid.Valid() && Remembers(s)
    ensures Remembers(s.Msg(size, keys))
  {
    hide Server.Present, Server.Status, Server.Reply;
    var buf := s.buffer;
    PresentRemembers(s, Registration, buf[7..71], keys.register(buf[7..71]));
    PresentRemembers(s, Authentication, buf[7..200], keys.authenticate(buf[7..200]));
  }

  lemma CarryOutRemembers(s: Server, keys: Keys)
    requires s.Valid() && s.hid.reader.Open? && |s.hid.reader.got| >= s.hid.reader.size && Remembers(s)
    ensures Remembers(s.CarryOut(keys))
  {
    hide Remembers, Server.Msg, Server.Reply, Server.Wink, Hid.Error;
    if s.hid.reader.cmd == CMD_MSG {
      MsgRemembers(s, s.hid.reader.size, keys);
    } else {
      SameRemembers(s, s.CarryOut(keys));
    }
  }

  lemma DispatchRemembers(s: Server, keys: Keys)
    requires s.Valid() && s.hid.reader.Open? && |s.hid.reader.got| >= s.hid.reader.size && Remembers(s)
    ensures Remembers(s.Dispatch(keys))
  {
    hide Remembers, Server.CarryOut;
    CarryOutRemembers(s, keys);
    SameRemembers(s.CarryOut(keys), s.Dispatch(keys));
  }

  lemma ProceedRemembers(s: Server, keys: Keys)
    requires s.hid.Valid() && s.hid.reader.Open? && Remembers(s)
    ensures Remembers(s.Proceed(keys))
  {
    hide Server.Dispatch;
    if |s.hid.reader.got| >= s.hid.reader.size {
      DispatchRemembers(s.(phase := Offer), keys);
    }
  }

  lemma StepRemembers(s: Server, p: Poll, version: (byte, byte, byte))
    requires s.Valid() && Remembers(s)
    ensures Remembers(s.Step(p, version))
  {
    hide Server.Proceed, ReadTiny, Hid.Error;
    if !s.phase.Stopped? {
      var (h, b) := ReadTiny(s.hid, s.buffer, p.frames, version);
      var t := s.Tick().(hid := h, buffer := b).Button(p.yes);
      assert Remembers(t);
      ProceedRemembers(t, p.keys);
    }
  }

  /** What a device does between power-up and power-down: sessions that a frame begins, and their polls. */
  datatype Happening = Opens(f: Frame, next: uint32, stale: Buffer, keys: Keys) | Polls(p: Poll) | Sends

  function Life(happenings: seq<Happening>, start: Server, version: (byte, byte, byte)): (s: Server)
    requires start.Valid()
    ensures s.Valid()
  {
    if |happenings| == 0 then start
    else
      var s := Life(happenings[..|happenings| - 1], start, version);
      match happenings[|happenings| - 1]
      case Opens(f, next, stale, keys) =>
        if s.phase.Stopped? then Begin(s, f, next, stale, keys, version) else s
      case Polls(p) => s.Step(p, version)
      case Sends => s.(hid := s.hid.(queue := if s.hid.queue == [] then [] else s.hid.queue[1..]))
  }

  const FRESH: Server := Server(Hid(0, Closed, []), seq(7550, _ => 0), Stopped, 0, Idle, [], [], [], [])

  /**
   Whatever the host sends: every registration and every authentication is signed directly after
   the button was pressed, once, for the dialog of exactly that request.
   */
  lemma {:induction false} SignedWithPresence(happenings: seq<Happening>, version: (byte, byte, byte))
    ensures Remembers(Life(happenings, FRESH, version))
  {
    hide Server.Proceed, Server.Step, Hid.Read;
    if |happenings| == 0 {
      FreshRemembers();
    } else {
      SignedWithPresence(happenings[..|happenings| - 1], version);
      var s := Life(happenings[..|happenings| - 1], FRESH, version);
      match happenings[|happenings| - 1]
      case Opens(f, next, stale, keys) =>
        if s.phase.Stopped? {
          BeginRemembers(s, f, next, stale, keys, version);
        }
      case Polls(p) =>
        StepRemembers(s, p, version);
      case Sends =>
    }
  }

  lemma FreshRemembers()
    ensures Remembers(FRESH)
  {
  }

  lemma BeginRemembers(s: Server, f: Frame, next: uint32, stale: Buffer, keys: Keys, version: (byte, byte, byte))
    requires s.Valid() && s.phase.Stopped? && Remembers(s)
    ensures Remembers(Begin(s, f, next, stale, keys, version))
  {
    hide Server.Proceed, Hid.Read;
    var h := s.hid.Read(false, f, next, version);
    if h.reader.Open? {
      ProceedRemembers(s.(hid := h, buffer := Fill(stale, h)), keys);
    }
  }

  lemma {:induction false} ServeRemembers(s: Server, polls: seq<Poll>, version: (byte, byte, byte))
    requires s.Valid() && Remembers(s)
    ensures Remembers(Serve(s, polls, version))
  {
    hide Remembers, Server.Step;
    if |polls| > 0 {
      ServeRemembers(s, polls[..|polls| - 1], version);
      StepRemembers(Serve(s, polls[..|polls| - 1], version), polls[|polls| - 1], version);
    }
  }

  // ------------------------------------------------------------ in time or not

  lemma {:induction false} ServeAppend(s: Server, a: seq<Poll>, b: seq<Poll>, version: (byte, byte, byte))
    requires s.Valid()
    ensures Serve(s, a + b, version) == Serve(Serve(s, a, version), b, version)
  {
    hide Server.Step;
    if |b| == 0 {
      assert a + b == a;
    } else {
      assert (a + b)[..|a + b| - 1] == a + b[..|b| - 1];
      ServeAppend(s, a, b[..|b| - 1], version);
    }
  }

  lemma ProceedAnyPhase(s: Server, ph: Phase, keys: Keys)
    requires s.hid.Valid() && s.hid.reader.Open?
    ensures s.(phase := ph).Proceed(keys) == s.Proceed(keys)
  {
    hide Server.Dispatch;
  }

  /** What becomes of a collecting session after a poll. */
  lemma CollectSettles(s: Server, keys: Keys)
    requires s.Valid() && s.phase.Collect?
    ensures s.Settle(keys)
         == if s.hid.reader.seqno != s.phase.seqno || s.hid.reader.cmd != s.phase.cmd
            then s.(phase := Offer).Proceed(keys)
            else if s.phase.counter > 0 then s
            else s.(phase := Stopped, hid := Hid(0, Closed, s.hid.Error(s.hid.cid, ERR_MSG_TIMEOUT).queue))
  {
    hide Server.Proceed, Hid.Error;
    ProceedAnyPhase(s, Offer, keys);
  }

  lemma ProceedIncomplete(s: Server, keys: Keys)
    requires s.hid.Valid() && s.hid.reader.Open? && |s.hid.reader.got| < s.hid.reader.size
    ensures s.Proceed(keys) == s.(phase := Collect(TIMEOUT, s.hid.reader.seqno, s.hid.reader.cmd))
  {
  }

  lemma ProceedComplete(s: Server, keys: Keys)
    requires s.hid.Valid() && s.hid.reader.Open? && |s.hid.reader.got| >= s.hid.reader.size && s.phase.Offer?
    ensures s.Valid() && s.Proceed(keys) == s.Dispatch(keys).Rest()
  {
    hide Server.Dispatch, Server.Rest;
  }

  /** What one more poll does. */
  lemma ServeNext(s: Server, polls: seq<Poll>, i: nat, version: (byte, byte, byte))
    requires s.Valid() && i < |polls|
    ensures Serve(s, polls[..i + 1], version) == Serve(s, polls[..i], version).Step(polls[i], version)
  {
    hide Server.Step;
    assert polls[..i + 1][..i] == polls[..i];
  }

  lemma ServeNone(s: Server, polls: seq<Poll>, version: (byte, byte, byte))
    requires s.Valid()
    ensures Serve(s, polls[..0], version) == s
  {
  }

  lemma {:induction false} StoppedStays(s: Server, polls: seq<Poll>, i: nat, version: (byte, byte, byte))
    requires s.Valid() && i <= |polls| && Serve(s, polls[..i], version).phase.Stopped?
    ensures Serve(s, polls, version) == Serve(s, polls[..i], version)
    decreases |polls| - i
  {
    if i < |polls| {
      ServeNext(s, polls, i, version);
      StoppedStays(s, polls, i + 1, version);
    } else {
      assert polls[..i] == polls;
    }
  }

  predicate Silent(polls: seq<Poll>)
  {
    forall i :: 0 <= i < |polls| ==> polls[i].frames == []
  }

  /** A collecting session that has just polled, with `counter` polls to go. */
  predicate Collects(s: Server, counter: nat)
  {
    && s.hid.reader.Open? && counter > 0
    && s.phase == Collect(counter, s.hid.reader.seqno, s.hid.reader.cmd)
  }

  /** Without frames the session ends with the timeout error after exactly that many polls. */
  lemma {:induction false} Silence(s: Server, counter: nat, polls: seq<Poll>, version: (byte, byte, byte))
    requires s.Valid() && Collects(s, counter) && Silent(polls)
    ensures Serve(s, polls, version)
         == if |polls| < counter then s.(phase := Collect(counter - |polls|, s.hid.reader.seqno, s.hid.reader.cmd))
            else s.(phase := Stopped, hid := Hid(0, Closed, s.hid.Error(s.hid.cid, ERR_MSG_TIMEOUT).queue))
  {
    hide Hid.Error, Server.Proceed;
    if |polls| > 0 {
      Silence(s, counter, polls[..|polls| - 1], version);
    }
  }

  /** Gaps and, behind each of them, a poll that brings a frame. */
  function Timed(gaps: seq<seq<Poll>>, ends: seq<Poll>): seq<Poll>
    requires |gaps| == |ends|
  {
    if |gaps| == 0 then []
    else Timed(gaps[..|gaps| - 1], ends[..|ends| - 1]) + gaps[|gaps| - 1] + [ends[|ends| - 1]]
  }

  /** The continuation frames of a message arrive in order, with fewer polls than the timeout before each. */
  predicate InTime(gaps: seq<seq<Poll>>, ends: seq<Poll>, cid: uint32, data: Bytes)
  {
    && |gaps| == |ends| <= ContCount(|data|)
    && forall i :: 0 <= i < |gaps| ==>
         |gaps[i]| < TIMEOUT && Silent(gaps[i]) && |ends[i].frames| == 1
             && ends[i].frames[0].0 == ContFrame(cid, data, i)
  }

  function FillAll(buffer: Buffer, data: Bytes, k: nat): Buffer
    requires |data| <= BUFFER && k <= ContCount(|data|)
  {
    Prefix(data, k + 1) + buffer[FIRST + NEXT * k..]
  }

  /** The session once the frames up to continuation frame `k` are there. */
  function Collected(s: Server, cid: uint32, cmd: byte, data: Bytes, k: nat): Server
    requires |data| <= BUFFER && k <= ContCount(|data|)
  {
    var h := Hid(cid, Open(cmd, |data|, k, Prefix(data, k + 1)), s.hid.queue);
    s.(hid := h, buffer := FillAll(s.buffer, data, k))
  }

  lemma CollectedIsValid(s: Server, cid: uint32, cmd: byte, data: Bytes, k: nat)
    requires s.hid.Valid() && |data| <= BUFFER && k <= ContCount(|data|)
    ensures Collected(s, cid, cmd, data, k).hid.Valid()
    ensures k < ContCount(|data|) <==> |Prefix(data, k + 1)| < |data|
    ensures k == ContCount(|data|) ==> Prefix(data, k + 1)[..|data|] == data
  {
  }

  lemma ReadTinyOne(h: Hid, buffer: Buffer, frames: seq<(Frame, uint32)>, version: (byte, byte, byte))
    requires h.Valid() && |frames| == 1
    ensures var g := h.Read(true, frames[0].0, frames[0].1, version);
      ReadTiny(h, buffer, frames, version) == (g, Fill(buffer, g))
  {
    hide Hid.Read, Fill;
    assert frames[..0] == [];
    assert ReadTiny(h, buffer, [], version) == (h, buffer);
  }

  lemma FillNext(buffer: Buffer, cid: uint32, cmd: byte, data: Bytes, k: nat, queue: seq<Frame>)
    requires |data| <= BUFFER && k < ContCount(|data|) && |queue| < RING
    ensures var h := Hid(cid, Open(cmd, |data|, k + 1, Prefix(data, k + 2)), queue);
      h.Valid() && Fill(FillAll(buffer, data, k), h) == FillAll(buffer, data, k + 1)
  {
    hide Prefix;
    PrefixLength(data, k);
    PrefixLength(data, k + 1);
    var at := FIRST + NEXT * k;
    assert (Prefix(data, k + 1) + buffer[at..])[at + NEXT..] == buffer[at + NEXT..];
  }

  lemma PrefixLength(data: Bytes, k: nat)
    ensures |Prefix(data, k + 1)| == FIRST + NEXT * k
  {
  }

  /** One frame in time: the collection goes on, or the command is carried out. */
  lemma OneInTime(s: Server, cid: uint32, cmd: byte, data: Bytes, k: nat, counter: nat, p: Poll,
      version: (byte, byte, byte))
    requires s.hid.Valid() && Sendable(cid, cmd) && |data| <= BUFFER && k < ContCount(|data|) && counter > 0
    requires |p.frames| == 1 && p.frames[0].0 == ContFrame(cid, data, k)
    ensures var c := Collected(s, cid, cmd, data, k).(phase := Collect(counter, k, cmd));
      c.Valid() && c.Step(p, version) == Collected(s, cid, cmd, data, k + 1).(phase := c.Tick().phase).Proceed(p.keys)
  {
    hide Server.Proceed, Prefix, ContFrame, Hid.Read;
    CollectedIsValid(s, cid, cmd, data, k);
    var h := Collected(s, cid, cmd, data, k).hid;
    NextFrame(h, cid, cmd, data, k, p.frames[0].1, version);
    ReadTinyOne(h, FillAll(s.buffer, data, k), p.frames, version);
    FillNext(s.buffer, cid, cmd, data, k, h.queue);
  }

  /** The frames but the last leave the session collecting. */
  lemma {:induction false} StillCollecting(s: Server, cid: uint32, cmd: byte, data: Bytes, gaps: seq<seq<Poll>>,
                                           ends: seq<Poll>, version: (byte, byte, byte))
    requires s.Valid() && s.phase.Stopped? && Sendable(cid, cmd) && FIRST < |data| <= BUFFER
    requires InTime(gaps, ends, cid, data) && |gaps| < ContCount(|data|)
    ensures var start := Collected(s, cid, cmd, data, 0).(phase := Collect(TIMEOUT, 0, cmd));
      start.Valid()
      && Serve(start, Timed(gaps, ends), version)
         == Collected(s, cid, cmd, data, |gaps|).(phase := Collect(TIMEOUT, |gaps|, cmd))
  {
    hide Server.Step, Server.Proceed, Prefix, ContFrame;
    CollectedIsValid(s, cid, cmd, data, 0);
    if |gaps| > 0 {
      var n := |gaps| - 1;
      StillCollecting(s, cid, cmd, data, gaps[..n], ends[..n], version);
      SegmentInTime(s, cid, cmd, data, gaps, ends, version);
      CollectedIsValid(s, cid, cmd, data, n + 1);
      OnWithCollecting(Collected(s, cid, cmd, data, n + 1), ends[n].keys);
    }
  }

  /** A session whose message is not complete goes on collecting. */
  lemma OnWithCollecting(s: Server, keys: Keys)
    requires s.hid.Valid() && s.hid.reader.Open? && |s.hid.reader.got| < s.hid.reader.size
    ensures forall phase: Phase ::
      (s.(phase := phase).Proceed(keys) == s.(phase := Collect(TIMEOUT, s.hid.reader.seqno, s.hid.reader.cmd)))
  {
  }

  /** The last gap and the frame behind it. */
  lemma SegmentInTime(s: Server, cid: uint32, cmd: byte, data: Bytes, gaps: seq<seq<Poll>>, ends: seq<Poll>,
                      version: (byte, byte, byte))
    requires s.Valid() && s.phase.Stopped? && Sendable(cid, cmd) && FIRST < |data| <= BUFFER
    requires InTime(gaps, ends, cid, data) && 0 < |gaps|
    requires var start := Collected(s, cid, cmd, data, 0).(phase := Collect(TIMEOUT, 0, cmd));
      start.Valid()
      && Serve(start, Timed(gaps[..|gaps| - 1], ends[..|ends| - 1]), version)
         == Collected(s, cid, cmd, data, |gaps| - 1).(phase := Collect(TIMEOUT, |gaps| - 1, cmd))
    ensures var start := Collected(s, cid, cmd, data, 0).(phase := Collect(TIMEOUT, 0, cmd));
      exists phase: Phase ::
        Collected(s, cid, cmd, data, |gaps|).hid.Valid()
        && Serve(start, Timed(gaps, ends), version)
           == Collected(s, cid, cmd, data, |gaps|).(phase := phase).Proceed(ends[|ends| - 1].keys)
  {
    hide Server.Step, Server.Proceed, Prefix, ContFrame, ContCount, Serve;
    var n := |gaps| - 1;
    var start := Collected(s, cid, cmd, data, 0).(phase := Collect(TIMEOUT, 0, cmd));
    var before := Timed(gaps[..n], ends[..n]);
    var c := Collected(s, cid, cmd, data, n).(phase := Collect(TIMEOUT, n, cmd));
    CollectedIsValid(s, cid, cmd, data, n);
    CollectedIsValid(s, cid, cmd, data, n + 1);
    ServeAppend(start, before + gaps[n], [ends[n]], version);
    ServeAppend(start, before, gaps[n], version);
    Silence(c, TIMEOUT, gaps[n], version);
    var quiet := c.(phase := Collect(TIMEOUT - |gaps[n]|, n, cmd));
    ServeOne(quiet, ends[n], version);
    OneInTime(s, cid, cmd, data, n, TIMEOUT - |gaps[n]|, ends[n], version);
  }

  lemma ServeOne(s: Server, p: Poll, version: (byte, byte, byte))
    requires s.Valid()
    ensures Serve(s, [p], version) == s.Step(p, version)
  {
    assert [p][..0] == [];
    assert Serve(s, [], version) == s;
  }

  /**
   A message whose frames come in time is carried out as soon as the last of them is there,
   exactly once and exactly as it was sent.
   */
  lemma MessageIsTaken(s: Server, cid: uint32, cmd: byte, data: Bytes, next: uint32, stale: Buffer, keys: Keys,
                       gaps: seq<seq<Poll>>, ends: seq<Poll>, version: (byte, byte, byte))
    requires s.Valid() && s.phase.Stopped? && Sendable(cid, cmd) && |data| <= BUFFER
    requires InTime(gaps, ends, cid, data) && |gaps| == ContCount(|data|)
    ensures Serve(Begin(s, InitFrame(cid, cmd, data), next, stale, keys, version), Timed(gaps, ends), version).taken
         == s.taken + [(cmd, data)]
  {
    hide Prefix, InitFrame, ContFrame, Begin, Server.Step, Server.Proceed, InTime, ContCount;
    var t := s.(buffer := stale);
    BeginCollects(s, cid, cmd, data, next, stale, keys, version);
    CollectedIsValid(t, cid, cmd, data, 0);
    ShortOrLong(|data|);
    if |gaps| == 0 {
      ProceedTakes(Collected(t, cid, cmd, data, 0), keys);
    } else {
      var n := |gaps| - 1;
      OnWithCollecting(Collected(t, cid, cmd, data, 0), keys);
      InTimeFront(gaps, ends, cid, data);
      StillCollecting(t, cid, cmd, data, gaps[..n], ends[..n], version);
      SegmentInTime(t, cid, cmd, data, gaps, ends, version);
      CollectedIsValid(t, cid, cmd, data, n + 1);
      ProceedTakes(Collected(t, cid, cmd, data, n + 1), ends[n].keys);
    }
  }

  lemma ShortOrLong(size: nat)
    ensures ContCount(size) == 0 <==> size <= FIRST
  {
  }

  lemma InTimeFront(gaps: seq<seq<Poll>>, ends: seq<Poll>, cid: uint32, data: Bytes)
    requires InTime(gaps, ends, cid, data) && |gaps| > 0
    ensures |ends| == |gaps| <= ContCount(|data|)
    ensures InTime(gaps[..|gaps| - 1], ends[..|gaps| - 1], cid, data)
  {
    hide ContFrame;
  }

  /** The initial frame of a message that fits opens a session with its bytes. */
  lemma BeginCollects(s: Server, cid: uint32, cmd: byte, data: Bytes, next: uint32, stale: Buffer, keys: Keys,
                      version: (byte, byte, byte))
    requires s.Valid() && s.phase.Stopped? && Sendable(cid, cmd) && |data| <= BUFFER
    ensures var c := Collected(s.(buffer := stale), cid, cmd, data, 0);
      c.hid.Valid() && Begin(s, InitFrame(cid, cmd, data), next, stale, keys, version) == c.Proceed(keys)
  {
    hide Prefix, InitFrame, Hid.Read, Server.Proceed;
    FirstFrame(s.hid, cid, cmd, data, next, version);
    CollectedIsValid(s, cid, cmd, data, 0);
    PrefixLength(data, 0);
  }

  lemma ProceedTakes(s: Server, keys: Keys)
    requires s.hid.Valid() && s.hid.reader.Open? && |s.hid.reader.got| >= s.hid.reader.size && s.hid.reader.cmd != 0
    ensures forall phase: Phase ::
      (s.(phase := phase).Proceed(keys).taken == s.taken + [(s.hid.reader.cmd, s.hid.reader.got[..s.hid.reader.size])])
  {
  }
}
