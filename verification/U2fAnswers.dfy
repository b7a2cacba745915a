/**
 What goes back over U2F, byte by byte: the status words and the response of every message, the
 answer to INIT and the error frames (firmware/u2f.c, firmware/u2f/u2f.h, firmware/u2f/u2f_hid.h).
 */
module U2fAnswers {
  import opened Bytes
  import opened U2fHid
  import opened U2fServer

  /** What a message that asks for the user's presence is answered with, by the state that it finds. */
  lemma PresenceAnswers(s: Server, kind: Kind, req: Bytes, response: Option<Bytes>) returns (answer: Option<Bytes>)
    requires s.hid.Valid()
    ensures var t := s.Present(kind, req, response);
      var same := (if kind.Registration? then s.lastReg else s.lastAuth) == req;
      && t.hid == s.hid.(queue := if answer.None? then s.hid.queue
                                  else QueueAll(s.hid.queue, Frames(s.hid.cid, 0x83, answer.value)))
      && if !same || s.stage.Idle? then
           t.acts == s.acts + [Shown(kind, req)] && answer == Some([0x69, 0x85]) && t.stage == Asked(kind)
               && t.dialog == 400000
         else if s.stage == Pressed(kind) then
           if response.Some? then t.acts == s.acts + [Signed(kind, req)] && answer == response && t.stage.Idle?
               && t.dialog == 0
           else t.acts == s.acts && answer == Some([0x6a, 0x80]) && t.stage == s.stage
         else t.acts == s.acts && t.stage == s.stage && answer == if s.stage == Asked(kind) then Some([0x69, 0x85])
             else None
  {
    hide QueueAll, Frames;
    var a := s.Ask(kind, req);
    answer := if a.stage == Asked(kind) then Some([0x69, 0x85])
              else if a.stage == Pressed(kind) then if response.Some? then response else Some([0x6a, 0x80])
              else None;
  }

  /**
   Every message, by its bytes: only instruction 1 with 64 bytes and instruction 2 with P1 3 and a
   known key handle of 64 bytes go on to the user; everything else has its fixed answer.
   */
  lemma MessageAnswers(s: Server, size: nat, keys: Keys) returns (answer: Option<Bytes>)
    requires s.hid.Valid()
    ensures var t, b := s.Msg(size, keys), s.buffer;
      var len := 65536 * (b[4] as int) + 256 * (b[5] as int) + b[6];
      var whole := len + 8 <= size && b[0] == 0;
      var registers := whole && b[1] == 1 && keys.initialized && len == 64;
      var named := whole && b[1] == 2 && keys.initialized && len >= 64;
      var known := named && b[71] == 64 && keys.known(b[7..200]);
      if registers then t == s.Present(Registration, b[7..71], keys.register(b[7..71]))
      else if known && b[2] == 3 then t == s.Present(Authentication, b[7..200], keys.authenticate(b[7..200]))
      else
        && t == s.(hid := s.hid.(queue := if answer.None? then s.hid.queue
                                          else QueueAll(s.hid.queue, Frames(s.hid.cid, 0x83, answer.value))))
        && answer == (
             if len + 8 > size then None
             else if b[0] != 0 then Some([0x6e, 0x00])
             else if b[1] !in {1, 2, 3} then Some([0x6d, 0x00])
             else if b[1] == 3 then Some(if len == 0 then [0x55, 0x32, 0x46, 0x5f, 0x56, 0x32, 0x90, 0x00]
                 else [0x67, 0x00])
             else if !keys.initialized then Some([0x69, 0x85])
             else if known && b[2] == 7 then Some([0x69, 0x85])
             else if named then Some([0x6a, 0x80])
             else Some([0x67, 0x00]))
  {
    hide QueueAll, Frames, Server.Present;
    var b := s.buffer;
    var len := 65536 * (b[4] as int) + 256 * (b[5] as int) + b[6];
    answer := if len + 8 > size then None
              else if b[0] != 0 then Some([0x6e, 0x00])
              else if b[1] == 3 then Some(if len == 0 then VERSION else [0x67, 0x00])
              else if b[1] != 1 && b[1] != 2 then Some([0x6d, 0x00])
              else if !keys.initialized then Some([0x69, 0x85])
              else if if b[1] == 1 then len != 64 else len < 64 then Some([0x67, 0x00])
              else if b[71] == 64 && keys.known(b[7..200]) && b[2] == 7 then Some([0x69, 0x85])
              else Some([0x6a, 0x80]);
  }

  /** The other commands: a ping comes back as it is, an unknown one is an error of code 1. */
  lemma CommandAnswers(s: Server, keys: Keys)
    requires s.Valid() && s.hid.reader.Open? && |s.hid.reader.got| >= s.hid.reader.size
    ensures var cmd, message := s.hid.reader.cmd, s.hid.reader.got[..s.hid.reader.size];
      var queue := s.CarryOut(keys).hid.queue;
      && (cmd == 0x81 ==> queue == QueueAll(s.hid.queue, Frames(s.hid.cid, 0x81, message)))
      && (cmd == 0x83 ==> s.CarryOut(keys) == s.Msg(|message|, keys))
      && (cmd == 0x88 ==> queue == Queued(s.hid.queue,
            if |message| == 0 then Frame(s.hid.cid, 0x88, seq(59, _ => 0)) else Refusal(s.hid.cid, 3)))
      && (cmd !in {0, 0x81, 0x83, 0x88} ==> queue == Queued(s.hid.queue, Refusal(s.hid.cid, 1)))
      && (cmd !in {0x83, 0x88} ==> s.CarryOut(keys) == s.(hid := s.hid.(queue := queue)))
  {
    hide QueueAll, Frames, Server.Msg;
    assert Padded([], 59) == seq(59, _ => 0);
  }

  /** An error: one byte behind its length. */
  function Refusal(cid: uint32, code: byte): (f: Frame)
    ensures f.cid == cid && f.tag == 0xbf && f.Size() == 1 && f.body[2] == code
    ensures forall i :: 3 <= i < 59 ==> f.body[i] == 0
  {
    Frame(cid, 0xbf, [0, 1, code] + seq(56, _ => 0))
  }

  /**
   INIT is answered on the channel it came from with the nonce it brought, the channel, the least
   byte first, the protocol version 2, the version of the firmware and the flag for WINK.
   */
  lemma InitAnswers(h: Hid, tiny: bool, f: Frame, next: uint32, version: (byte, byte, byte)) returns (r: Frame)
    requires h.Valid() && f.tag == 0x86 && f.cid != 0
    ensures h.Read(tiny, f, next, version).queue == Queued(h.queue, r)
    ensures h.Read(tiny, f, next, version).cid == if f.cid == 0xffff_ffff then next else h.cid
    ensures r.cid == f.cid && r.tag == 0x86 && r.Size() == 17 && r.body[2..10] == f.body[2..10]
    ensures r.body[10] as int + 0x100 * r.body[11] as int + 0x1_0000 * r.body[12] as int
            + 0x100_0000 * r.body[13] as int == if f.cid == 0xffff_ffff then next else f.cid
    ensures r.body[14..19] == [2, version.0, version.1, version.2, 1]
    ensures forall i :: 19 <= i < 59 ==> r.body[i] == 0
  {
    hide Queued, Le32;
    var channel := if f.cid == 0xffff_ffff then next else f.cid;
    r := Frame(f.cid, 0x86, InitResponse(f, channel, version));
    Le32Digits(channel);
    assert f.InitData()[..8] == f.body[2..10];
    var front, back := [0, 17] + f.body[2..10], [2, version.0, version.1, version.2, 1];
    assert r.body == front + Le32(channel) + back + seq(40, _ => 0);
    assert r.body[2..10] == f.body[2..10] && r.body[10..14] == Le32(channel) && r.body[14..19] == back;
  }

  lemma Le32Digits(x: uint32)
    ensures var d := Le32(x);
      d[0] as int + 0x100 * d[1] as int + 0x1_0000 * d[2] as int + 0x100_0000 * d[3] as int == x
  {
    Le32RoundTrip(x);
    var d := Le32(x);
    Pow256Values();
    var d1, d2, d3 := d[1..], d[2..], d[3..];
    assert d1[1..] == d2 && d2[1..] == d3 && d3[1..] == [];
    assert FromLittleEndian(d3) == d[3] as int;
    assert FromLittleEndian(d2) == d[2] as int + 0x100 * d[3] as int;
    assert FromLittleEndian(d1) == d[1] as int + 0x100 * d[2] as int + 0x1_0000 * d[3] as int;
  }

  /**
   Any other frame: 11 for a bad channel, 3 for a message that does not fit, 6 for a busy channel,
   4 for a wrong sequence number, and no answer to the others.
   */
  lemma FrameAnswers(h: Hid, tiny: bool, f: Frame, next: uint32, version: (byte, byte, byte))
      returns (code: Option<byte>)
    requires h.Valid() && (f.tag != 0x86 || f.cid == 0)
    ensures h.Read(tiny, f, next, version).queue
         == if code.None? then h.queue else Queued(h.queue, Refusal(f.cid, code.value))
    ensures code == (
      if f.tag == 0x86 then Some(11)
      else if !tiny then
        if f.tag < 0x80 then None
        else if f.cid == 0 || f.cid == 0xffff_ffff then Some(11)
        else if f.Size() > 7550 then Some(3) else None
      else if h.reader.Closed? || h.cid != f.cid then Some(6)
      else if f.tag >= 0x80 && h.reader.seqno == 255 then None
      else if h.reader.seqno != f.tag then Some(4) else None)
  {
    hide Queued;
    code := if f.tag == 0x86 then Some(11)
            else if !tiny then
              if f.tag < 0x80 then None
              else if f.cid == 0 || f.cid == BROADCAST then Some(11)
              else if f.Size() > 7550 then Some(3) else None
            else if h.reader.Closed? || h.cid != f.cid then Some(6)
            else if f.tag >= 0x80 && h.reader.seqno == 255 then None
            else if h.reader.seqno != f.tag then Some(4) else None;
    forall c: byte ensures Padded([0, 1, c], 59) == [0, 1, c] + seq(56, _ => 0) {
    }
    assert code.Some? ==> Frame(f.cid, CMD_ERROR, Padded([0, 1, code.value], 59)) == Refusal(f.cid, code.value);
  }
}
