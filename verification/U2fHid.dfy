/**
 The frames of firmware/u2f.c: a message becomes one initial and several continuation
 frames in an output ring, and frames are put together to a message on the way in.
 */
module U2fHid {
  import opened Bytes

  const BROADCAST: uint32 := 0xffff_ffff
  const RING: nat := 128
  const FIRST: nat := 57
  const NEXT: nat := 59
  const BUFFER: nat := 7550 // 57 + 127 * 59
  const CMD_INIT: byte := 0x86
  const CMD_ERROR: byte := 0xbf
  const ERR_INVALID_LEN: byte := 0x03
  const ERR_INVALID_SEQ: byte := 0x04
  const ERR_CHANNEL_BUSY: byte := 0x06
  const ERR_INVALID_CID: byte := 0x0b

  /** One byte is the command of an initial frame and the sequence number of a continuation frame. */
  type Body = s: Bytes | |s| == 59 witness seq(59, _ => 0)
  datatype Frame = Frame(cid: uint32, tag: byte, body: Body)
  {
    function Size(): nat
    {
      256 * (body[0] as int) + body[1]
    }

    function InitData(): (r: Bytes)
      ensures |r| == FIRST
    {
      body[2..]
    }
  }

  function Padded(b: Bytes, n: nat): (r: Bytes)
    requires |b| <= n
    ensures |r| == n
  {
    b + seq(n - |b|, _ => 0)
  }

  // ------------------------------------------------------------------ sending

  function InitFrame(cid: uint32, cmd: byte, data: Bytes): Frame
  {
    Frame(cid, cmd, [|data| / 256 % 256, |data| % 256] + Padded(if |data| <= FIRST then data else data[..FIRST], FIRST))
  }

  /** The sequence number is a byte that counts from zero. */
  function Number(i: nat): byte
  {
    i % 256
  }

  function ContFrame(cid: uint32, data: Bytes, i: nat): Frame
    requires FIRST + NEXT * i <= |data|
  {
    var at := FIRST + NEXT * i;
    Frame(cid, Number(i), Padded(if |data| <= at + NEXT then data[at..] else data[at..at + NEXT], NEXT))
  }

  function ContCount(size: nat): (n: nat)
    ensures size > FIRST ==> FIRST + NEXT * (n - 1) < size <= FIRST + NEXT * n
    ensures size <= FIRST ==> n == 0
  {
    if size <= FIRST then 0 else (size - FIRST + NEXT - 1) / NEXT
  }

  /** The frames of a message, in order. */
  function Frames(cid: uint32, cmd: byte, data: Bytes): (r: seq<Frame>)
    ensures |r| == 1 + ContCount(|data|)
  {
    [InitFrame(cid, cmd, data)]
    + seq(ContCount(|data|), i requires 0 <= i < ContCount(|data|) => ContFrame(cid, data, i))
  }

  /** A full ring drops the frame. */
  function Queued(queue: seq<Frame>, f: Frame): (r: seq<Frame>)
    requires |queue| < RING
    ensures |r| < RING
  {
    if |queue| == RING - 1 then queue else queue + [f]
  }

  function QueueAll(queue: seq<Frame>, frames: seq<Frame>): (r: seq<Frame>)
    requires |queue| < RING
    ensures |r| < RING
  {
    if |frames| == 0 then queue else Queued(QueueAll(queue, frames[..|frames| - 1]), frames[|frames| - 1])
  }

  /** What fits is queued in order, the rest is lost. */
  lemma {:induction false} QueuedFrames(queue: seq<Frame>, frames: seq<Frame>)
    requires |queue| < RING
    ensures var room := RING - 1 - |queue|;
      QueueAll(queue, frames) == queue + if |frames| <= room then frames else frames[..room]
  {
    var room := RING - 1 - |queue|;
    if |frames| == 0 {
      assert queue + frames == queue;
    } else {
      var front, last := frames[..|frames| - 1], frames[|frames| - 1];
      QueuedFrames(queue, front);
      if |frames| <= room {
        assert queue + front + [last] == queue + frames;
      } else if |front| > room {
        assert front[..room] == frames[..room];
      }
    }
  }

  // ---------------------------------------------------------------- receiving

  /** `got` is the filled part of the buffer; a sequence number of 255 waits for a new command. */
  datatype Reader = Closed | Open(cmd: byte, size: nat, seqno: byte, got: Bytes)
  {
    predicate Valid()
    {
      Open? ==> FIRST <= |got| <= BUFFER && (seqno != 255 ==> |got| == FIRST + NEXT * seqno)
    }
  }

  datatype Hid = Hid(cid: uint32, reader: Reader, queue: seq<Frame>)
  {
    predicate Valid()
    {
      reader.Valid() && |queue| < RING
    }

    function Send(f: Frame): (r: Hid)
      requires Valid()
      ensures r.Valid()
    {
      this.(queue := Queued(queue, f))
    }

    /** `send_u2fhid_error`. */
    function Error(to: uint32, code: byte): (r: Hid)
      requires Valid()
      ensures r.Valid()
    {
      Send(Frame(to, CMD_ERROR, Padded([0, 1, code], 59)))
    }

    function Aborted(): (r: Hid)
      requires Valid() && reader.Open?
      ensures r.Valid()
    {
      this.(reader := Open(0, 0, 255, reader.got))
    }

    /** `u2fhid_init_cmd`. */
    function Command(f: Frame): (r: Hid)
      requires Valid()
      ensures r.Valid()
    {
      this.(cid := f.cid, reader := Open(f.tag, f.Size(), 0, f.InitData()))
    }

    /** `u2fhid_init`; a broadcast gets the next free channel. */
    function Init(f: Frame, next: uint32, version: (byte, byte, byte)): (r: Hid)
      requires Valid()
      ensures r.Valid()
    {
      if f.cid == 0 then Error(0, ERR_INVALID_CID)
      else
        var channel := if f.cid == BROADCAST then next else f.cid;
        this.(cid := if f.cid == BROADCAST then next else cid)
          .Send(Frame(f.cid, CMD_INIT, InitResponse(f, channel, version)))
    }

    /** `u2fhid_read_start` up to its wait for more frames. */
    function Begin(f: Frame): (r: Hid)
      requires Valid()
      ensures r.Valid()
    {
      if f.tag < 0x80 then this
      else if f.cid == BROADCAST || f.cid == 0 then Error(f.cid, ERR_INVALID_CID)
      else if f.Size() > BUFFER then Error(f.cid, ERR_INVALID_LEN)
      else Command(f)
    }

    /** `u2fhid_read`; `tiny` while a reader is open or another dialog waits. */
    function Read(tiny: bool, f: Frame, next: uint32, version: (byte, byte, byte)): (r: Hid)
      requires Valid()
      ensures r.Valid()
    {
      if f.tag == CMD_INIT then
        var h := Init(f, next, version);
        if tiny && h.reader.Open? && f.cid == h.cid then h.Aborted() else h
      else if !tiny then Begin(f)
      else if reader.Closed? || cid != f.cid then Error(f.cid, ERR_CHANNEL_BUSY)
      else if f.tag >= 0x80 && reader.seqno == 255 then Command(f)
      else if reader.seqno != f.tag then Error(f.cid, ERR_INVALID_SEQ).Aborted()
      else if |reader.got| >= reader.size || |reader.got| + NEXT > BUFFER then this
      else this.(reader := reader.(seqno := reader.seqno + 1, got := reader.got + f.body))
    }

    /** The command and the message once all of it is there. */
    function Complete(): Option<(byte, Bytes)>
    {
      if reader.Open? && |reader.got| >= reader.size then Some((reader.cmd, reader.got[..reader.size])) else None
    }
  }

  function InitResponse(f: Frame, channel: uint32, version: (byte, byte, byte)): Body
  {
    Padded([0, 17] + f.InitData()[..8] + Le32(channel) + [2, version.0, version.1, version.2, 1], 59)
  }

  /** Frames that arrive while no other dialog waits. */
  function ReadAll(h: Hid, frames: seq<Frame>, next: uint32, version: (byte, byte, byte)): (r: Hid)
    requires h.Valid()
    ensures r.Valid()
  {
    if |frames| == 0 then h
    else
      var g := ReadAll(h, frames[..|frames| - 1], next, version);
      g.Read(g.reader.Open?, frames[|frames| - 1], next, version)
  }

  /** What the buffer holds after the first k frames. */
  function Prefix(data: Bytes, k: nat): Bytes
    requires k > 0
  {
    var n := FIRST + NEXT * (k - 1);
    if n <= |data| then data[..n] else Padded(data, n)
  }

  predicate Sendable(cid: uint32, cmd: byte)
  {
    cid != 0 && cid != BROADCAST && cmd >= 0x80 && cmd != CMD_INIT
  }

  lemma FirstFrame(h: Hid, cid: uint32, cmd: byte, data: Bytes, next: uint32, version: (byte, byte, byte))
    requires h.Valid() && h.reader.Closed? && Sendable(cid, cmd) && |data| < 0x1_0000
    ensures h.Read(false, InitFrame(cid, cmd, data), next, version)
         == if |data| > BUFFER then h.Error(cid, ERR_INVALID_LEN)
            else Hid(cid, Open(cmd, |data|, 0, Prefix(data, 1)), h.queue)
  {
    var f := InitFrame(cid, cmd, data);
    assert f.Size() == |data|;
    assert f.InitData() == Prefix(data, 1);
  }

  lemma NextFrame(h: Hid, cid: uint32, cmd: byte, data: Bytes, i: nat, next: uint32, version: (byte, byte, byte))
    requires h.Valid() && |data| <= BUFFER && i < ContCount(|data|)
    requires h == Hid(cid, Open(cmd, |data|, i % 256, Prefix(data, i + 1)), h.queue)
    ensures i < 127 && h.Read(true, ContFrame(cid, data, i), next, version)
         == Hid(cid, Open(cmd, |data|, i + 1, Prefix(data, i + 2)), h.queue)
  {
    var at := FIRST + NEXT * i;
    var f := ContFrame(cid, data, i);
    assert Prefix(data, i + 1) == data[..at];
    if |data| <= at + NEXT {
      assert data == data[..at] + data[at..];
    } else {
      assert data[..at] + data[at..at + NEXT] == data[..at + NEXT];
    }
    assert data[..at] + f.body == Prefix(data, i + 2);
  }

  /** After k frames the reader holds what they carried, and no frame was sent in reply. */
  lemma {:induction false} PrefixIsRead(h: Hid, cid: uint32, cmd: byte, data: Bytes, k: nat, next: uint32,
      version: (byte, byte, byte))
    requires h.Valid() && h.reader.Closed? && Sendable(cid, cmd) && |data| <= BUFFER
    requires 0 < k <= |Frames(cid, cmd, data)|
    ensures k <= 128
    ensures ReadAll(h, Frames(cid, cmd, data)[..k], next, version)
         == Hid(cid, Open(cmd, |data|, k - 1, Prefix(data, k)), h.queue)
  {
    hide Hid.Read, Prefix, InitFrame, ContFrame;
    var frames := Frames(cid, cmd, data);
    assert frames[..k][..k - 1] == frames[..k - 1];
    if k == 1 {
      FirstFrame(h, cid, cmd, data, next, version);
      assert ReadAll(h, frames[..0], next, version) == h;
    } else {
      PrefixIsRead(h, cid, cmd, data, k - 1, next, version);
      var g := ReadAll(h, frames[..k - 1], next, version);
      NextFrame(g, cid, cmd, data, k - 2, next, version);
    }
  }

  /** All frames of a message are read back as the message; any proper part of them is not complete. */
  lemma FramesRoundTrip(h: Hid, cid: uint32, cmd: byte, data: Bytes, k: nat, next: uint32, version: (byte, byte, byte))
    requires h.Valid() && h.reader.Closed? && Sendable(cid, cmd) && |data| <= BUFFER
    requires k <= |Frames(cid, cmd, data)|
    ensures ReadAll(h, Frames(cid, cmd, data)[..k], next, version).queue == h.queue
    ensures ReadAll(h, Frames(cid, cmd, data)[..k], next, version).Complete()
         == if k == |Frames(cid, cmd, data)| then Some((cmd, data)) else None
  {
    hide Hid.Read;
    if k > 0 {
      PrefixIsRead(h, cid, cmd, data, k, next, version);
      hide Frames, ReadAll;
      assert k == |Frames(cid, cmd, data)| ==> Prefix(data, k)[..|data|] == data;
    }
  }

  /** The longest message whose sequence numbers are all below 0x80: 57 + 128 * 59 bytes. */
  const LONGEST_NUMBERED: nat := 7609

  lemma LongFrames(cid: uint32, cmd: byte, data: Bytes)
    ensures |Frames(cid, cmd, data)| <= 129 <==> |data| <= LONGEST_NUMBERED
  {
  }

  /** A message too long for the buffer is refused, and its first 128 continuation frames are ignored. */
  lemma {:induction false} RefusedSoFar(h: Hid, cid: uint32, cmd: byte, data: Bytes, k: nat, next: uint32,
      version: (byte, byte, byte))
    requires h.Valid() && h.reader.Closed? && Sendable(cid, cmd) && BUFFER < |data| < 0x1_0000
    requires 0 < k <= |Frames(cid, cmd, data)| && k <= 129
    ensures ReadAll(h, Frames(cid, cmd, data)[..k], next, version) == h.Error(cid, ERR_INVALID_LEN)
  {
    hide Hid.Error, InitFrame, Hid.Init, Hid.Command, Padded;
    var frames := Frames(cid, cmd, data);
    assert frames[..k][..k - 1] == frames[..k - 1];
    if k == 1 {
      FirstFrame(h, cid, cmd, data, next, version);
      assert ReadAll(h, frames[..0], next, version) == h;
    } else {
      RefusedSoFar(h, cid, cmd, data, k - 1, next, version);
      ErrorKeepsReader(h, cid, ERR_INVALID_LEN);
    }
  }

  /**
   The frame after these has the sequence number 0x80 and is taken for a new command, whose
   length is what its first two bytes say: it opens the reader, or is refused in its turn.
   */
  lemma NumberIsCommand(h: Hid, cid: uint32, cmd: byte, data: Bytes, next: uint32, version: (byte, byte, byte))
    requires h.Valid() && h.reader.Closed? && Sendable(cid, cmd) && LONGEST_NUMBERED < |data| < 0x1_0000
    ensures |Frames(cid, cmd, data)| >= 130
    ensures var f, refused := ContFrame(cid, data, 128), h.Error(cid, ERR_INVALID_LEN);
      f.tag == 0x80
      && ReadAll(h, Frames(cid, cmd, data)[..130], next, version)
         == if f.Size() > BUFFER then refused.Error(cid, ERR_INVALID_LEN) else refused.Command(f)
  {
    hide Hid.Error, InitFrame, Hid.Init, Hid.Command, Padded;
    var frames := Frames(cid, cmd, data);
    LongFrames(cid, cmd, data);
    assert frames[..130][..129] == frames[..129] && frames[129] == ContFrame(cid, data, 128);
    RefusedSoFar(h, cid, cmd, data, 129, next, version);
    ErrorKeepsReader(h, cid, ERR_INVALID_LEN);
  }

  /** Every later frame is ignored, whatever the message says, if and only if it has at most 7609 bytes. */
  lemma TooLongIsRefused(h: Hid, cid: uint32, cmd: byte, size: nat, next: uint32, version: (byte, byte, byte))
    requires h.Valid() && h.reader.Closed? && Sendable(cid, cmd) && BUFFER < size < 0x1_0000
    ensures (forall data: Bytes, k: nat :: |data| == size && 0 < k <= |Frames(cid, cmd, data)| ==>
               ReadAll(h, Frames(cid, cmd, data)[..k], next, version) == h.Error(cid, ERR_INVALID_LEN))
       <==> size <= LONGEST_NUMBERED
  {
    hide Hid.Error, ReadAll, Frames, ContFrame, Hid.Command;
    if size <= LONGEST_NUMBERED {
      forall data: Bytes, k: nat | |data| == size && 0 < k <= |Frames(cid, cmd, data)|
        ensures ReadAll(h, Frames(cid, cmd, data)[..k], next, version) == h.Error(cid, ERR_INVALID_LEN)
      {
        LongFrames(cid, cmd, data);
        RefusedSoFar(h, cid, cmd, data, k, next, version);
      }
    } else {
      var zeros: Bytes := seq(size, _ => 0);
      NumberIsCommand(h, cid, cmd, zeros, next, version);
      ErrorKeepsReader(h, cid, ERR_INVALID_LEN);
      ZeroFrame(cid, zeros);
      CommandOpens(h.Error(cid, ERR_INVALID_LEN), ContFrame(cid, zeros, 128));
    }
  }

  lemma ZeroFrame(cid: uint32, data: Bytes)
    requires |data| > LONGEST_NUMBERED && forall i :: 0 <= i < |data| ==> data[i] == 0
    ensures ContFrame(cid, data, 128).Size() == 0
  {
  }

  lemma CommandOpens(h: Hid, f: Frame)
    requires h.Valid()
    ensures h.Command(f).reader.Open?
  {
  }

  lemma ErrorKeepsReader(h: Hid, cid: uint32, code: byte)
    requires h.Valid()
    ensures h.Error(cid, code).reader == h.reader
  {
  }

  /** Sent through an empty ring, a message arrives if and only if it has at most 7491 bytes. */
  lemma SentIsReceived(h: Hid, cid: uint32, cmd: byte, data: Bytes, next: uint32, version: (byte, byte, byte))
    requires h.Valid() && h.reader.Closed? && Sendable(cid, cmd) && |data| < 0x1_0000
    ensures ReadAll(h, QueueAll([], Frames(cid, cmd, data)), next, version).Complete() == Some((cmd, data))
       <==> |data| <= 7491
  {
    hide Hid.Read, Hid.Error, QueueAll, ReadAll;
    var frames := Frames(cid, cmd, data);
    QueuedFrames([], frames);
    var k := if |frames| <= RING - 1 then |frames| else RING - 1;
    assert QueueAll([], frames) == frames[..k];
    hide Frames;
    if |data| <= BUFFER {
      FramesRoundTrip(h, cid, cmd, data, k, next, version);
    } else {
      RefusedSoFar(h, cid, cmd, data, k, next, version);
      ErrorKeepsReader(h, cid, ERR_INVALID_LEN);
    }
  }
}
