/**
 The packets of firmware/messages.c: a message becomes 64-byte HID reports in an output
 ring, and reports are put together to a message again on the way in.
 */
module Messages {
  import opened Bytes

  const MARK: byte := 63 // '?'
  const HASH: byte := 35 // '#'
  const SLOTS: nat := 192
  const CARRIED: nat := 63
  const IN_SIZE: nat := 12288

  function Zeros(n: nat): (r: Bytes)
    ensures |r| == n
  {
    seq(n, _ => 0)
  }

  // ------------------------------------------------------ what is to be sent

  /** The framed message: two hashes, the id and the length in big endian, the encoded message. */
  function Stream(id: nat, payload: Bytes): Bytes
    requires id < 0x1_0000 && |payload| < TWO32
  {
    Header(id, |payload|) + payload
  }

  function Header(id: nat, size: nat): (r: Bytes)
    requires id < 0x1_0000 && size < TWO32
    ensures |r| == 8
  {
    [HASH, HASH, id / 256, id % 256, size / 16777216, size / 65536 % 256, size / 256 % 256, size % 256]
  }

  /** One report: the mark, up to 63 bytes and padding. */
  function Report(bytes: Bytes): (r: Bytes)
    requires |bytes| <= CARRIED
    ensures |r| == 64
  {
    [MARK] + bytes + Zeros(CARRIED - |bytes|)
  }

  function Slice(s: Bytes, i: nat): Bytes
    requires CARRIED * i <= |s|
  {
    if CARRIED * (i + 1) <= |s| then s[CARRIED * i..CARRIED * (i + 1)] else s[CARRIED * i..]
  }

  function FullReports(s: Bytes): (r: seq<Bytes>)
    ensures |r| == |s| / CARRIED
  {
    seq(|s| / CARRIED, i requires 0 <= i < |s| / CARRIED => Report(Slice(s, i)))
  }

  /** All reports of a stream, the last one padded. */
  function Reports(s: Bytes): (r: seq<Bytes>)
    ensures |r| == (|s| + CARRIED - 1) / CARRIED
  {
    seq((|s| + CARRIED - 1) / CARRIED, i requires 0 <= i < (|s| + CARRIED - 1) / CARRIED => Report(Slice(s, i)))
  }

  /**
   Where each byte goes: every report begins with 0x3F, and behind the marks the header's eight bytes
   and then those of the payload follow each other, filled up with zeros.
   */
  lemma WireByte(id: nat, payload: Bytes, k: nat, i: nat)
    requires id < 0x1_0000 && |payload| < TWO32 && 63 * k < 8 + |payload| && i < 63
    ensures var reports := Reports(Stream(id, payload));
      && |reports| == (8 + |payload| + 62) / 63 && k < |reports| && |reports[k]| == 64 && reports[k][0] == 0x3f
      && (63 * k + i >= 8 ==>
        reports[k][1 + i] == if 63 * k + i < 8 + |payload| then payload[63 * k + i - 8] else 0)
  {
    hide Header;
    var s := Stream(id, payload);
    var slice, at := Slice(s, k), 63 * k + i;
    assert Reports(s)[k] == Report(slice);
    if at < |s| {
      assert slice[i] == s[at];
    }
  }

  /** The header: "##", the id and the size, the most significant byte first. */
  lemma FirstBytes(id: nat, payload: Bytes)
    requires id < 0x1_0000 && |payload| < TWO32
    ensures var first := Reports(Stream(id, payload))[0];
      && first[1] == 0x23 && first[2] == 0x23
      && 0x100 * (first[3] as int) + first[4] as int == id
      && 0x100_0000 * (first[5] as int) + 0x1_0000 * (first[6] as int) + 0x100 * (first[7] as int) + first[8] as int
         == |payload|
  {
    var s, h := Stream(id, payload), Header(id, |payload|);
    var first := Reports(s)[0];
    assert first == Report(Slice(s, 0));
    assert forall i :: 0 <= i < 8 ==> first[1 + i] == Slice(s, 0)[i] == s[i] == h[i];
    hide Stream, Slice, Report, Reports;
    SizeDigits(|payload|);
  }

  // -------------------------------------------------------- the output ring

  /** Completing a report; the ring looks empty when all its slots are filled. */
  function Pushed(queue: seq<Bytes>, report: Bytes): (r: seq<Bytes>)
    requires |queue| < SLOTS
    ensures |r| == (|queue| + 1) % SLOTS
  {
    if |queue| == SLOTS - 1 then [] else queue + [report]
  }

  function PushAll(queue: seq<Bytes>, reports: seq<Bytes>): (r: seq<Bytes>)
    requires |queue| < SLOTS
    ensures |r| == (|queue| + |reports|) % SLOTS
  {
    if |reports| == 0 then queue
    else Pushed(PushAll(queue, reports[..|reports| - 1]), reports[|reports| - 1])
  }

  /** Nothing is lost exactly when the reports fit beside what is pending. */
  lemma {:induction false} PushedFits(queue: seq<Bytes>, reports: seq<Bytes>)
    requires |queue| < SLOTS
    ensures PushAll(queue, reports) == queue + reports <==> |queue| + |reports| < SLOTS
  {
    if |queue| + |reports| < SLOTS && |reports| > 0 {
      var front := reports[..|reports| - 1];
      PushedFits(queue, front);
      assert queue + reports == queue + front + [reports[|reports| - 1]];
    } else if |reports| == 0 {
      assert queue + reports == queue;
    } else {
      assert |PushAll(queue, reports)| != |queue + reports|;
    }
  }

  /** A message of up to 12025 bytes fits an empty ring, a longer one does not. */
  lemma MessageFits(id: nat, payload: Bytes)
    requires id < 0x1_0000 && |payload| < TWO32
    ensures PushAll([], Reports(Stream(id, payload))) == Reports(Stream(id, payload)) <==> |payload| <= 12025
  {
    var reports := Reports(Stream(id, payload));
    PushedFits([], reports);
    assert [] + reports == reports;
  }

  /** Pending reports and the bytes of the one being filled. */
  datatype Output = Output(queue: seq<Bytes>, partial: Bytes)
  {
    predicate Valid()
    {
      |queue| < SLOTS && |partial| < CARRIED
    }

    function Append(c: byte): (r: Output)
      requires Valid()
      ensures r.Valid()
    {
      if |partial| == CARRIED - 1 then Output(Pushed(queue, Report(partial + [c])), [])
          else Output(queue, partial + [c])
    }

    function Pad(): (r: Output)
      requires Valid()
      ensures r.Valid()
    {
      if partial == [] then this else Output(Pushed(queue, Report(partial)), [])
    }

    function AppendAll(s: Bytes): (r: Output)
      requires Valid()
      ensures r.Valid()
      decreases |s|
    {
      if |s| == 0 then this else AppendAll(s[..|s| - 1]).Append(s[|s| - 1])
    }
  }

  /** Appending byte by byte fills reports of 63 bytes each. */
  lemma {:induction false} AppendedReports(queue: seq<Bytes>, s: Bytes)
    requires |queue| < SLOTS
    ensures Output(queue, []).AppendAll(s)
         == Output(PushAll(queue, FullReports(s)), s[CARRIED * (|s| / CARRIED)..])
    decreases |s|
  {
    if |s| == 0 {
    } else {
      var front, c := s[..|s| - 1], s[|s| - 1];
      AppendedReports(queue, front);
      hide PushAll, Pushed, Report;
      FullReportsGrow(s);
    }
  }

  lemma SliceKept(s: Bytes, t: Bytes, i: nat)
    requires CARRIED * (i + 1) <= |s|
    ensures Slice(s + t, i) == Slice(s, i) == s[CARRIED * i..CARRIED * (i + 1)]
  {
  }

  /** One more byte either stays in the rest or completes a report. */
  lemma FullReportsGrow(s: Bytes)
    requires |s| > 0
    ensures var front, n := s[..|s| - 1], |s| / CARRIED;
      if |s| % CARRIED == 0 then
        front[CARRIED * (|front| / CARRIED)..] + [s[|s| - 1]] == Slice(s, n - 1)
        && FullReports(s) == FullReports(front) + [Report(Slice(s, n - 1))]
      else
        front[CARRIED * (|front| / CARRIED)..] + [s[|s| - 1]] == s[CARRIED * n..]
        && FullReports(s) == FullReports(front)
  {
    hide Report, Slice;
    var front, c := s[..|s| - 1], s[|s| - 1];
    var m := |front| / CARRIED;
    assert s == front + [c];
    forall i | 0 <= i < m
      ensures FullReports(s)[i] == FullReports(front)[i]
    {
      SliceKept(front, [c], i);
    }
    if |s| % CARRIED == 0 {
      SliceKept(s, [], m);
      assert s + [] == s;
    }
  }

  /** Appending and padding a whole stream queues its reports. */
  lemma PaddedReports(queue: seq<Bytes>, s: Bytes)
    requires |queue| < SLOTS
    ensures Output(queue, []).AppendAll(s).Pad() == Output(PushAll(queue, Reports(s)), [])
  {
    AppendedReports(queue, s);
    hide Pushed, Report, Output.AppendAll, Slice;
    var n := |s| / CARRIED;
    if |s| % CARRIED == 0 {
      assert FullReports(s) == Reports(s);
    } else {
      assert |Reports(s)| == n + 1;
      assert Reports(s)[..n] == FullReports(s);
      LastSlice(s);
      assert Reports(s)[n] == Report(s[CARRIED * n..]);
    }
  }

  lemma LastSlice(s: Bytes)
    requires |s| % CARRIED > 0
    ensures Slice(s, |s| / CARRIED) == s[CARRIED * (|s| / CARRIED)..]
  {
  }

  // ------------------------------------------------------------ what arrives

  /** The largest announced size for which the copies stay inside the buffer. */
  const MAX_IN: nat := 12277

  /** `got` is what has been copied for a message of `size` bytes. */
  datatype Input = Idle | Reading(id: nat, size: nat, got: Bytes)
  {
    predicate Valid()
    {
      Reading? ==> id < 0x1_0000 && |got| % CARRIED == 55 && |got| < size <= IN_SIZE
    }
  }

  /** `Overrun`: the copy of this report would end behind the buffer, where C gives no meaning to it. */
  datatype Event = Nothing | UnknownMessage | MessageTooBig | Overrun | Received(id: nat, message: Bytes)

  function Collected(id: nat, size: nat, got: Bytes): (Input, Event)
  {
    if |got| >= size then (Idle, Received(id, got[..size])) else (Reading(id, size, got), Nothing)
  }

  function AnnouncedId(buf: Bytes): nat
    requires |buf| == 64
  {
    256 * (buf[3] as int) + buf[4]
  }

  function AnnouncedSize(buf: Bytes): nat
    requires |buf| == 64
  {
    16777216 * (buf[5] as int) + 65536 * (buf[6] as int) + 256 * (buf[7] as int) + buf[8]
  }

  /** `msg_read_common` as a step. */
  function Read(known: nat -> bool, s: Input, buf: Bytes): (r: (Input, Event))
    requires s.Valid()
    ensures r.0.Valid()
  {
    if |buf| != 64 then (s, Nothing)
    else if s.Idle? then
      if buf[0] != MARK || buf[1] != HASH || buf[2] != HASH then (s, Nothing)
      else if !known(AnnouncedId(buf)) then (s, UnknownMessage)
      else if AnnouncedSize(buf) > IN_SIZE then (s, MessageTooBig)
      else Collected(AnnouncedId(buf), AnnouncedSize(buf), buf[9..])
    else if buf[0] != MARK then (Idle, Nothing)
    else if |s.got| + CARRIED > IN_SIZE then (s, Overrun)
    else Collected(s.id, s.size, s.got + buf[1..])
  }

  function ReadAll(known: nat -> bool, s: Input, reports: seq<Bytes>): (r: (Input, seq<Event>))
    requires s.Valid()
    ensures r.0.Valid() && |r.1| == |reports|
  {
    if |reports| == 0 then (s, [])
    else
      var (before, events) := ReadAll(known, s, reports[..|reports| - 1]);
      var (after, event) := Read(known, before, reports[|reports| - 1]);
      (after, events + [event])
  }

  /** The first report announces the message and carries 55 of its bytes. */
  lemma FirstReport(known: nat -> bool, id: nat, payload: Bytes)
    requires id < 0x1_0000 && known(id) && |payload| <= IN_SIZE
    ensures var s := Stream(id, payload);
      |Reports(s)| > 0 && Read(known, Idle, Reports(s)[0])
      == if |payload| <= 55 then (Idle, Received(id, payload)) else (Reading(id, |payload|, payload[..55]), Nothing)
  {
    var s := Stream(id, payload);
    var buf := Report(Slice(s, 0));
    assert Reports(s)[0] == buf;
    hide Reports;
    HeaderReads(id, payload, buf);
    if |payload| <= 55 {
      assert buf[9..][..|payload|] == payload;
    } else {
      assert buf[9..] == payload[..55];
    }
  }

  lemma HeaderReads(id: nat, payload: Bytes, buf: Bytes)
    requires id < 0x1_0000 && |payload| < TWO32 && buf == Report(Slice(Stream(id, payload), 0))
    ensures buf[..3] == [MARK, HASH, HASH] && AnnouncedId(buf) == id && AnnouncedSize(buf) == |payload|
    ensures buf[9..] == if |payload| <= 55 then payload + Zeros(55 - |payload|) else payload[..55]
  {
    hide Report, Header, Slice;
    var part := if |payload| <= 55 then payload else payload[..55];
    FirstSlice(id, payload);
    ReportParts(Header(id, |payload|), part);
    assert buf == Report(Header(id, |payload|) + part);
    HeaderIs(id, |payload|, buf);
    SizeDigits(|payload|);
  }

  lemma FirstSlice(id: nat, payload: Bytes)
    requires id < 0x1_0000 && |payload| < TWO32
    ensures Slice(Stream(id, payload), 0)
         == Header(id, |payload|) + if |payload| <= 55 then payload else payload[..55]
  {
  }

  lemma ReportParts(header: Bytes, part: Bytes)
    requires |header| == 8 && |part| <= 55
    ensures Report(header + part)[0] == MARK && Report(header + part)[1..9] == header
    ensures Report(header + part)[9..] == part + Zeros(55 - |part|)
  {
  }

  lemma HeaderIs(id: nat, size: nat, buf: Bytes)
    requires id < 0x1_0000 && size < TWO32 && |buf| == 64 && buf[1..9] == Header(id, size) && buf[0] == MARK
    ensures buf[..3] == [MARK, HASH, HASH]
    ensures buf[3] == id / 256 && buf[4] == id % 256
    ensures buf[5] == size / 16777216 && buf[6] == size / 65536 % 256 && buf[7] == size / 256 % 256
      && buf[8] == size % 256
  {
    assert forall k :: 0 <= k < 8 ==> buf[k + 1] == buf[1..9][k];
    assert buf[1] == HASH && buf[2] == HASH;
  }

  lemma SizeDigits(n: nat)
    requires n < TWO32
    ensures 16777216 * (n / 16777216) + 65536 * (n / 65536 % 256) + 256 * (n / 256 % 256) + n % 256 == n
  {
    var a, b, c := n / 256, n / 65536, n / 16777216;
    assert b == a / 256 && c == b / 256;
  }

  /**
   Every later report carries the next 63 bytes, the last one what is left; it fits behind what is
   there, or overruns.
   */
  lemma LaterReport(known: nat -> bool, id: nat, payload: Bytes, i: nat)
    requires id < 0x1_0000 && |payload| <= IN_SIZE && 0 < i < |Reports(Stream(id, payload))|
    ensures CARRIED * i - 8 < |payload|
    ensures var s := Reading(id, |payload|, payload[..CARRIED * i - 8]);
      s.Valid() && Read(known, s, Reports(Stream(id, payload))[i])
      == if i > LAST_INSIDE then (s, Overrun)
         else if i == |Reports(Stream(id, payload))| - 1 then (Idle, Received(id, payload))
         else (Reading(id, |payload|, payload[..CARRIED * (i + 1) - 8]), Nothing)
  {
    var s := Stream(id, payload);
    var buf := Report(Slice(s, i));
    assert Reports(s)[i] == buf;
    var got := payload[..CARRIED * i - 8];
    if i == |Reports(s)| - 1 {
      assert Slice(s, i) == payload[CARRIED * i - 8..];
      assert (got + buf[1..])[..|payload|] == payload;
    } else {
      assert Slice(s, i) == payload[CARRIED * i - 8..CARRIED * (i + 1) - 8];
      assert got + buf[1..] == payload[..CARRIED * (i + 1) - 8];
    }
  }

  /** The last report, counted from zero, whose copy ends inside the buffer. */
  const LAST_INSIDE: nat := 194

  /** Before the last report nothing is delivered and the reader holds the prefix sent so far. */
  lemma {:induction false} PrefixIsRead(known: nat -> bool, id: nat, payload: Bytes, k: nat)
    requires id < 0x1_0000 && known(id) && |payload| <= IN_SIZE
    requires 0 < k < |Reports(Stream(id, payload))|
    ensures CARRIED * k - 8 < |payload| && k <= LAST_INSIDE + 1
    ensures ReadAll(known, Idle, Reports(Stream(id, payload))[..k])
         == (Reading(id, |payload|, payload[..CARRIED * k - 8]), seq(k, _ => Nothing))
  {
    hide Reports, Stream, Read;
    var reports := Reports(Stream(id, payload));
    assert reports[..k][..k - 1] == reports[..k - 1];
    ReportCount(id, payload);
    if k == 1 {
      FirstReport(known, id, payload);
      assert ReadAll(known, Idle, reports[..0]) == (Idle, []);
      assert [] + [Nothing] == seq(1, _ => Nothing);
    } else {
      PrefixIsRead(known, id, payload, k - 1);
      LaterReport(known, id, payload, k - 1);
      assert seq(k - 1, _ => Nothing) + [Nothing] == seq(k, _ => Nothing);
    }
  }

  lemma ReportCount(id: nat, payload: Bytes)
    requires id < 0x1_0000 && |payload| < TWO32
    ensures |Reports(Stream(id, payload))| == (|payload| + 70) / CARRIED
  {
  }

  /** The reports of a message and what the last of them brings about. */
  lemma LastReport(known: nat -> bool, id: nat, payload: Bytes)
    requires id < 0x1_0000 && known(id) && |payload| <= IN_SIZE
    ensures var reports := Reports(Stream(id, payload));
      |reports| > 0
      && ReadAll(known, Idle, reports).1 == seq(|reports| - 1, _ => Nothing)
           + [if |payload| <= MAX_IN then Received(id, payload) else Overrun]
      && (|payload| <= MAX_IN ==> ReadAll(known, Idle, reports).0 == Idle)
  {
    hide Reports, Stream, Read;
    var reports := Reports(Stream(id, payload));
    ReportCount(id, payload);
    FirstReport(known, id, payload);
    if |reports| > 1 {
      PrefixIsRead(known, id, payload, |reports| - 1);
      LaterReport(known, id, payload, |reports| - 1);
    } else {
      assert ReadAll(known, Idle, reports[..0]) == (Idle, []);
      assert [] + [Received(id, payload)] == seq(0, _ => Nothing) + [Received(id, payload)];
    }
    var (before, events) := ReadAll(known, Idle, reports[..|reports| - 1]);
    var (after, event) := Read(known, before, reports[|reports| - 1]);
    assert ReadAll(known, Idle, reports) == (after, events + [event]);
  }

  /**
   The reports of a message are read back as the same message, delivered with the last report
   and without a copy behind the buffer, if and only if it has at most 12277 bytes.
   */
  lemma MessageRoundTrip(known: nat -> bool, id: nat, payload: Bytes)
    requires id < 0x1_0000 && known(id) && |payload| <= IN_SIZE
    ensures var reports := Reports(Stream(id, payload));
      |reports| > 0
      && (ReadAll(known, Idle, reports) == (Idle, seq(|reports| - 1, _ => Nothing) + [Received(id, payload)])
          <==> |payload| <= MAX_IN)
  {
    hide Reports, Stream, ReadAll;
    var reports := Reports(Stream(id, payload));
    LastReport(known, id, payload);
    assert |payload| > MAX_IN ==> ReadAll(known, Idle, reports).1[|reports| - 1] == Overrun;
  }

  /**
   A message announced with more than 12277 bytes leads the reader to a copy that would end at byte
   12340 of 12288.
   */
  lemma OverrunIsReached(known: nat -> bool, id: nat, payload: Bytes)
    requires id < 0x1_0000 && known(id) && MAX_IN < |payload| <= IN_SIZE
    ensures |Reports(Stream(id, payload))| == LAST_INSIDE + 2
    ensures ReadAll(known, Idle, Reports(Stream(id, payload))[..LAST_INSIDE + 1]).0
         == Reading(id, |payload|, payload[..MAX_IN])
    ensures MAX_IN + CARRIED == 12340 > IN_SIZE
  {
    hide Reports, Stream, Read, ReadAll;
    ReportCount(id, payload);
    PrefixIsRead(known, id, payload, LAST_INSIDE + 1);
  }

  /** No reports at all, from any host, lead behind the buffer while the announced size is at most 12277. */
  lemma NeverOverrun(known: nat -> bool, s: Input, buf: Bytes)
    requires s.Valid() && (s.Reading? ==> s.size <= MAX_IN)
    ensures Read(known, s, buf).1 != Overrun
  {
  }

  /** What an empty ring sends of a message is read back as that message if and only if it has at most 12025 bytes. */
  lemma SentIsReceived(known: nat -> bool, id: nat, payload: Bytes)
    requires id < 0x1_0000 && known(id) && |payload| <= IN_SIZE
    ensures var sent := Output([], []).AppendAll(Stream(id, payload)).Pad();
      Received(id, payload) in ReadAll(known, Idle, sent.queue).1 <==> |payload| <= 12025
  {
    hide Reports, Stream, Read, ReadAll, PushAll, Output.AppendAll, Output.Pad;
    var reports := Reports(Stream(id, payload));
    PaddedReports([], Stream(id, payload));
    MessageFits(id, payload);
    var sent := Output([], []).AppendAll(Stream(id, payload)).Pad();
    assert sent.queue == PushAll([], reports);
    if |payload| <= 12025 {
      LastReport(known, id, payload);
      var events := ReadAll(known, Idle, reports).1;
      assert events[|reports| - 1] == Received(id, payload);
    } else {
      ReportCount(id, payload);
      if Received(id, payload) in ReadAll(known, Idle, sent.queue).1 {
        var k :| 0 <= k < |sent.queue| && ReadAll(known, Idle, sent.queue).1[k] == Received(id, payload);
        CarriedBytes(known, sent.queue, k);
      }
    }
  }

  /** A message is never longer than what its reports carry. */
  lemma {:induction false} CarriedBytes(known: nat -> bool, reports: seq<Bytes>, k: nat)
    requires k < |reports|
    ensures ReadAll(known, Idle, reports).0.Reading? ==> |ReadAll(known, Idle, reports).0.got| <= CARRIED * |reports|
    ensures ReadAll(known, Idle, reports).1[k].Received? ==>
      |ReadAll(known, Idle, reports).1[k].message| <= CARRIED * |reports|
  {
    var n := |reports| - 1;
    if n > 0 {
      CarriedBytes(known, reports[..n], if k < n then k else 0);
    }
  }
}
