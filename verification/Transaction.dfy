/**
 Transaction streams (firmware/transaction.c): what the chunk-by-chunk
 serializers write or absorb, the whole-transaction printer they add up to,
 and the parser that inverts it.
 */
module Transaction {
  import opened Bytes
  import Varint

  type Script = s: Bytes | |s| < TWO32

  /** The part of an input that reaches the stream. */
  datatype TxIn = TxIn(prevHash: Hash32, prevIndex: uint32, scriptSig: Script, sequence: uint32)

  /** A compiled output: `TxOutputBinType`. */
  datatype TxOut = TxOut(amount: uint64, script: Script)

  const PREBLOCK_VERSION: uint32 := 12

  /** What `tx_init` fixes for a transaction; only version 12 has a preblock hash. */
  datatype Header = Header(version: uint32, preblock: Bytes, segwit: bool,
                           inputsLen: uint32, outputsLen: uint32, lockTime: uint32)
  {
    predicate WellFormed()
    {
      |preblock| == if version == PREBLOCK_VERSION then 32 else 0
    }
  }

  function PreblockFor(version: uint32, preblock: Hash32): Bytes
  {
    if version == PREBLOCK_VERSION then preblock else []
  }

  // ---------------------------------------------------------------- chunks

  /** `tx_prevout_hash`: the previous hash backwards, then the index. */
  function PrintOutpoint(prevHash: Hash32, prevIndex: uint32): (r: Bytes)
    ensures |r| == 36
  {
    Reverse(prevHash) + Le32(prevIndex)
  }

  /** `tx_script_hash` and `tx_serialize_script`. */
  function PrintScript(s: Script): Bytes
  {
    Varint.Encode(|s|) + s
  }

  function PrintIn(i: TxIn): Bytes
  {
    PrintOutpoint(i.prevHash, i.prevIndex) + PrintScript(i.scriptSig) + Le32(i.sequence)
  }

  /** `tx_output_hash`. */
  function PrintOut(o: TxOut): Bytes
  {
    Le64(o.amount) + PrintScript(o.script)
  }

  /** The header of either serializer; they differ in how a version 12 preblock hash is written. */
  function PrintHeader(h: Header, preblock: Bytes): Bytes
  {
    Le32(h.version) + (if h.segwit then [0, 1] else []) + preblock + Varint.Encode(h.inputsLen)
  }

  function HashHeader(h: Header): Bytes
  {
    PrintHeader(h, Reverse(h.preblock))
  }

  function WireHeader(h: Header): Bytes
  {
    PrintHeader(h, h.preblock)
  }

  function PrintIns(ins: seq<TxIn>): Bytes
  {
    if |ins| == 0 then [] else PrintIns(ins[..|ins| - 1]) + PrintIn(ins[|ins| - 1])
  }

  function PrintOuts(outs: seq<TxOut>): Bytes
  {
    if |outs| == 0 then [] else PrintOuts(outs[..|outs| - 1]) + PrintOut(outs[|outs| - 1])
  }

  /** The outputs seen so far, with the count in front of the first one. */
  function PrintOutputs(h: Header, outs: seq<TxOut>): Bytes
  {
    if outs == [] then [] else Varint.Encode(h.outputsLen) + PrintOuts(outs)
  }

  predicate Complete(h: Header, outs: seq<TxOut>)
  {
    outs != [] && |outs| == h.outputsLen
  }

  /** The outputs, closed by the footer after the last one unless a witness follows. */
  function OutputSection(h: Header, outs: seq<TxOut>, footer: Bytes): Bytes
  {
    PrintOutputs(h, outs) + (if Complete(h, outs) && !h.segwit then footer else [])
  }

  /** Everything the hashing serializer has absorbed for a (partial) transaction, before extra data. */
  function HashBody(h: Header, ins: seq<TxIn>, outs: seq<TxOut>): Bytes
  {
    (if ins == [] && h.inputsLen > 0 then [] else HashHeader(h))
    + PrintIns(ins)
    + OutputSection(h, outs, Le32(h.lockTime))
  }

  function HashStream(h: Header, ins: seq<TxIn>, outs: seq<TxOut>, extra: Bytes): Bytes
  {
    HashBody(h, ins, outs) + extra
  }

  /** `tx_serialize_footer`: the lock time followed by the hash type 1. */
  function WireFooter(h: Header): Bytes
  {
    Le32(h.lockTime) + Le32(1)
  }

  /** Everything the writing serializer has produced for a (partial) transaction with inputs. */
  function WireStream(h: Header, ins: seq<TxIn>, outs: seq<TxOut>): Bytes
  {
    (if ins == [] then [] else WireHeader(h))
    + PrintIns(ins)
    + OutputSection(h, outs, WireFooter(h))
  }

  // ------------------------------------------------- streams grow by chunks

  lemma SnocIn(ins: seq<TxIn>, i: TxIn)
    ensures PrintIns(ins + [i]) == PrintIns(ins) + PrintIn(i)
  {
    assert (ins + [i])[..|ins|] == ins;
  }

  lemma SnocOut(outs: seq<TxOut>, o: TxOut)
    ensures PrintOuts(outs + [o]) == PrintOuts(outs) + PrintOut(o)
  {
    assert (outs + [o])[..|outs|] == outs;
  }

  /** The bytes one input adds: the header comes with the first. */
  function InputChunk(header: Bytes, sent: nat, i: TxIn): Bytes
  {
    (if sent == 0 then header else []) + PrintIn(i)
  }

  lemma HashBodyInput(h: Header, ins: seq<TxIn>, i: TxIn)
    requires |ins| < h.inputsLen
    ensures HashBody(h, ins + [i], [])
         == HashBody(h, ins, []) + InputChunk(HashHeader(h), |ins|, i)
  {
    SnocIn(ins, i);
  }

  /** The bytes one output adds: the count with the first, the lock time after the last. */
  function OutputChunk(h: Header, sent: nat, o: TxOut, footer: Bytes): Bytes
  {
    (if sent == 0 then Varint.Encode(h.outputsLen) else [])
    + PrintOut(o)
    + (if sent + 1 == h.outputsLen && !h.segwit then footer else [])
  }

  lemma OutputSectionGrows(h: Header, outs: seq<TxOut>, o: TxOut, footer: Bytes)
    requires |outs| < h.outputsLen
    ensures OutputSection(h, outs + [o], footer) == OutputSection(h, outs, footer) + OutputChunk(h, |outs|, o, footer)
  {
    SnocOut(outs, o);
    GroupOutput(Varint.Encode(h.outputsLen), PrintOuts(outs), PrintOut(o),
                if |outs| + 1 == h.outputsLen && !h.segwit then footer else []);
  }

  /** Regrouping for the first and for a later output, on arbitrary byte strings. */
  lemma GroupOutput(count: Bytes, outs: Bytes, o: Bytes, footer: Bytes)
    ensures count + (outs + o) + footer == (count + outs) + [] + ([] + o + footer)
    ensures outs == [] ==> count + (outs + o) + footer == [] + [] + (count + o + footer)
  {
  }

  lemma HashBodyOutput(h: Header, ins: seq<TxIn>, outs: seq<TxOut>, o: TxOut)
    requires |outs| < h.outputsLen
    ensures HashBody(h, ins, outs + [o])
         == HashBody(h, ins, outs) + OutputChunk(h, |outs|, o, Le32(h.lockTime))
  {
    OutputSectionGrows(h, outs, o, Le32(h.lockTime));
    AppendAssoc((if ins == [] && h.inputsLen > 0 then [] else HashHeader(h)) + PrintIns(ins),
                OutputSection(h, outs, Le32(h.lockTime)), OutputChunk(h, |outs|, o, Le32(h.lockTime)));
  }

  lemma WireStreamInput(h: Header, ins: seq<TxIn>, i: TxIn)
    requires |ins| < h.inputsLen
    ensures WireStream(h, ins + [i], [])
         == WireStream(h, ins, []) + InputChunk(WireHeader(h), |ins|, i)
  {
    SnocIn(ins, i);
  }

  lemma WireStreamOutput(h: Header, ins: seq<TxIn>, outs: seq<TxOut>, o: TxOut)
    requires |outs| < h.outputsLen
    ensures WireStream(h, ins, outs + [o])
         == WireStream(h, ins, outs) + OutputChunk(h, |outs|, o, WireFooter(h))
  {
    OutputSectionGrows(h, outs, o, WireFooter(h));
    AppendAssoc((if ins == [] then [] else WireHeader(h)) + PrintIns(ins),
                OutputSection(h, outs, WireFooter(h)), OutputChunk(h, |outs|, o, WireFooter(h)));
  }

  // ------------------------------------------------------------------ parser

  function ParseScript(b: Bytes): Option<(Script, Bytes)>
  {
    match Varint.Decode(b)
    case None => None
    case Some((n, k)) =>
      if k <= |b| && n <= |b| - k then Some((b[k..k + n], b[k + n..])) else None
  }

  function ParseIn(b: Bytes): Option<(TxIn, Bytes)>
  {
    if |b| < 36 then None else
    match ParseScript(b[36..])
    case None => None
    case Some((script, rest)) =>
      if |rest| < 4 then None
      else Some((TxIn(Reverse(b[..32]), FromLe32(b[32..36]), script, FromLe32(rest[..4])), rest[4..]))
  }

  function ParseOut(b: Bytes): Option<(TxOut, Bytes)>
  {
    if |b| < 8 then None else
    match ParseScript(b[8..])
    case None => None
    case Some((script, rest)) => Some((TxOut(FromLe64(b[..8]), script), rest))
  }

  function ParseIns(n: nat, b: Bytes): Option<(seq<TxIn>, Bytes)>
  {
    if n == 0 then Some(([], b)) else
    match ParseIn(b)
    case None => None
    case Some((i, rest)) =>
      match ParseIns(n - 1, rest)
      case None => None
      case Some((ins, tail)) => Some(([i] + ins, tail))
  }

  function ParseOuts(n: nat, b: Bytes): Option<(seq<TxOut>, Bytes)>
  {
    if n == 0 then Some(([], b)) else
    match ParseOut(b)
    case None => None
    case Some((o, rest)) =>
      match ParseOuts(n - 1, rest)
      case None => None
      case Some((outs, tail)) => Some(([o] + outs, tail))
  }

  datatype Parsed = Parsed(version: uint32, preblock: Bytes, ins: seq<TxIn>, outs: seq<TxOut>, rest: Bytes)

  /** Version, preblock hash (empty outside version 12), input count and what follows. */
  function ParseHeader(segwit: bool, b: Bytes): Option<(uint32, Bytes, uint32, Bytes)>
  {
    if |b| < 4 then None else
    var version := FromLe32(b[..4]);
    var markerEnd := if segwit then 6 else 4;
    var headerEnd := if version == PREBLOCK_VERSION then markerEnd + 32 else markerEnd;
    if |b| < headerEnd || (segwit && b[4..6] != [0, 1]) then None else
    match Varint.Decode(b[headerEnd..])
    case None => None
    case Some((n, k)) =>
      if |b| - headerEnd < k then None
      else Some((version, b[markerEnd..headerEnd], n, b[headerEnd + k..]))
  }

  function ParseOutputs(b: Bytes): Option<(seq<TxOut>, Bytes)>
  {
    match Varint.Decode(b)
    case None => None
    case Some((m, j)) => if |b| < j then None else ParseOuts(m, b[j..])
  }

  /** Reads a transaction up to and including its outputs, given whether it carries the segwit marker. */
  function Parse(segwit: bool, b: Bytes): Option<Parsed>
  {
    match ParseHeader(segwit, b)
    case None => None
    case Some((version, preblock, n, r0)) =>
      match ParseIns(n, r0)
      case None => None
      case Some((ins, r1)) =>
        match ParseOutputs(r1)
        case None => None
        case Some((outs, r2)) => Some(Parsed(version, preblock, ins, outs, r2))
  }

  lemma ParsePrintScript(s: Script, rest: Bytes)
    ensures ParseScript(PrintScript(s) + rest) == Some((s, rest))
  {
    Varint.RoundTrip(|s|, s + rest);
    AppendAssoc(Varint.Encode(|s|), s, rest);
    var k := |Varint.Encode(|s|)|;
    var b := PrintScript(s) + rest;
    assert b[k..k + |s|] == s;
    assert b[k + |s|..] == rest;
  }

  lemma ParsePrintIn(i: TxIn, rest: Bytes)
    ensures ParseIn(PrintIn(i) + rest) == Some((i, rest))
  {
    var b := PrintIn(i) + rest;
    var tail := Le32(i.sequence) + rest;
    assert b[..32] == Reverse(i.prevHash);
    ReverseInvolutive(i.prevHash);
    assert b[32..36] == Le32(i.prevIndex);
    Le32RoundTrip(i.prevIndex);
    assert b[36..] == PrintScript(i.scriptSig) + tail;
    ParsePrintScript(i.scriptSig, tail);
    assert tail[..4] == Le32(i.sequence);
    assert tail[4..] == rest;
    Le32RoundTrip(i.sequence);
  }

  lemma ParsePrintOut(o: TxOut, rest: Bytes)
    ensures ParseOut(PrintOut(o) + rest) == Some((o, rest))
  {
    var b := PrintOut(o) + rest;
    assert b[..8] == Le64(o.amount);
    Le64RoundTrip(o.amount);
    assert b[8..] == PrintScript(o.script) + rest;
    ParsePrintScript(o.script, rest);
  }

  lemma {:induction false} ConsIns(i: TxIn, ins: seq<TxIn>)
    ensures PrintIns([i] + ins) == PrintIn(i) + PrintIns(ins)
  {
    if |ins| == 0 {
      assert [i] + ins == [i];
      assert PrintIns([i]) == PrintIns([]) + PrintIn(i);
    } else {
      var front := ins[..|ins| - 1];
      var last := ins[|ins| - 1];
      assert ins == front + [last];
      assert [i] + ins == ([i] + front) + [last];
      SnocIn([i] + front, last);
      ConsIns(i, front);
      SnocIn(front, last);
      AppendAssoc(PrintIn(i), PrintIns(front), PrintIn(last));
    }
  }

  lemma {:induction false} ConsOuts(o: TxOut, outs: seq<TxOut>)
    ensures PrintOuts([o] + outs) == PrintOut(o) + PrintOuts(outs)
  {
    if |outs| == 0 {
      assert [o] + outs == [o];
      assert PrintOuts([o]) == PrintOuts([]) + PrintOut(o);
    } else {
      var front := outs[..|outs| - 1];
      var last := outs[|outs| - 1];
      assert outs == front + [last];
      assert [o] + outs == ([o] + front) + [last];
      SnocOut([o] + front, last);
      ConsOuts(o, front);
      SnocOut(front, last);
      AppendAssoc(PrintOut(o), PrintOuts(front), PrintOut(last));
    }
  }

  lemma {:induction false} ParsePrintIns(ins: seq<TxIn>, rest: Bytes)
    ensures ParseIns(|ins|, PrintIns(ins) + rest) == Some((ins, rest))
  {
    if |ins| == 0 {
      assert PrintIns(ins) + rest == rest;
    } else {
      var i, tail := ins[0], ins[1..];
      assert ins == [i] + tail;
      ConsIns(i, tail);
      AppendAssoc(PrintIn(i), PrintIns(tail), rest);
      ParsePrintIn(i, PrintIns(tail) + rest);
      ParsePrintIns(tail, rest);
    }
  }

  lemma {:induction false} ParsePrintOuts(outs: seq<TxOut>, rest: Bytes)
    ensures ParseOuts(|outs|, PrintOuts(outs) + rest) == Some((outs, rest))
  {
    if |outs| == 0 {
      assert PrintOuts(outs) + rest == rest;
    } else {
      var o, tail := outs[0], outs[1..];
      assert outs == [o] + tail;
      ConsOuts(o, tail);
      AppendAssoc(PrintOut(o), PrintOuts(tail), rest);
      ParsePrintOut(o, PrintOuts(tail) + rest);
      ParsePrintOuts(tail, rest);
    }
  }

  predicate WholeTx(h: Header, ins: seq<TxIn>, outs: seq<TxOut>)
  {
    h.WellFormed() && |ins| == h.inputsLen && Complete(h, outs)
  }

  lemma ParsePrintHeader(h: Header, preblock: Bytes, rest: Bytes)
    requires h.WellFormed() && |preblock| == |h.preblock|
    ensures ParseHeader(h.segwit, PrintHeader(h, preblock) + rest)
         == Some((h.version, preblock, h.inputsLen, rest))
  {
    var v := Le32(h.version);
    var marker: Bytes := if h.segwit then [0, 1] else [];
    var pre := preblock;
    var tail := Varint.Encode(h.inputsLen) + rest;
    var b := PrintHeader(h, preblock) + rest;
    HeaderPieces(v, marker, pre, Varint.Encode(h.inputsLen), rest);
    Le32RoundTrip(h.version);
    Varint.RoundTrip(h.inputsLen, rest);
    DropPrefix(Varint.Encode(h.inputsLen), rest);
    assert b[4 + |marker| + |pre|..] == tail;
    var k := |Varint.Encode(h.inputsLen)|;
    assert b[4 + |marker| + |pre| + k..] == tail[k..];
  }

  /** Cutting a header into its fields, on arbitrary byte strings. */
  lemma HeaderPieces(v: Bytes, marker: Bytes, pre: Bytes, count: Bytes, rest: Bytes)
    requires |v| == 4
    ensures var b := v + marker + pre + count + rest;
      && b[..4] == v
      && b[4..4 + |marker|] == marker
      && b[4 + |marker|..4 + |marker| + |pre|] == pre
      && b[4 + |marker| + |pre|..] == count + rest
  {
  }

  lemma ParsePrintOutputs(h: Header, outs: seq<TxOut>, rest: Bytes)
    requires Complete(h, outs)
    ensures ParseOutputs(PrintOutputs(h, outs) + rest) == Some((outs, rest))
  {
    var tail := PrintOuts(outs) + rest;
    AppendAssoc(Varint.Encode(h.outputsLen), PrintOuts(outs), rest);
    Varint.RoundTrip(h.outputsLen, tail);
    DropPrefix(Varint.Encode(h.outputsLen), tail);
    ParsePrintOuts(outs, rest);
  }

  /** The parser inverts the common body of both serializers, whatever follows the outputs. */
  lemma ParsePrintBody(h: Header, preblock: Bytes, ins: seq<TxIn>, outs: seq<TxOut>, rest: Bytes)
    requires WholeTx(h, ins, outs) && |preblock| == |h.preblock|
    ensures Parse(h.segwit, PrintHeader(h, preblock) + (PrintIns(ins) + (PrintOutputs(h, outs) + rest)))
         == Some(Parsed(h.version, preblock, ins, outs, rest))
  {
    ParsePrintHeader(h, preblock, PrintIns(ins) + (PrintOutputs(h, outs) + rest));
    ParsePrintIns(ins, PrintOutputs(h, outs) + rest);
    ParsePrintOutputs(h, outs, rest);
  }

  lemma Regroup(a: Bytes, b: Bytes, c: Bytes, d: Bytes, e: Bytes)
    ensures a + b + (c + d) + e == a + (b + (c + (d + e)))
  {
  }

  /** What a previous transaction's hash preimage says: the parser recovers it from the absorbed bytes. */
  lemma ParseHashStream(h: Header, ins: seq<TxIn>, outs: seq<TxOut>, extra: Bytes)
    requires WholeTx(h, ins, outs) && !h.segwit
    ensures Parse(false, HashStream(h, ins, outs, extra))
         == Some(Parsed(h.version, Reverse(h.preblock), ins, outs, Le32(h.lockTime) + extra))
  {
    ParsePrintBody(h, Reverse(h.preblock), ins, outs, Le32(h.lockTime) + extra);
    Regroup(HashHeader(h), PrintIns(ins), PrintOutputs(h, outs), Le32(h.lockTime), extra);
  }

  /** Two complete streams with equal bytes are the same transaction with the same trailing data. */
  lemma HashStreamInjective(h: Header, ins: seq<TxIn>, outs: seq<TxOut>, extra: Bytes,
                            h': Header, ins': seq<TxIn>, outs': seq<TxOut>, extra': Bytes)
    requires WholeTx(h, ins, outs) && !h.segwit
    requires WholeTx(h', ins', outs') && !h'.segwit
    requires HashStream(h, ins, outs, extra) == HashStream(h', ins', outs', extra')
    ensures h.version == h'.version && ins == ins' && outs == outs'
    ensures h.lockTime == h'.lockTime && extra == extra'
    ensures h.preblock == h'.preblock
  {
    ParseHashStream(h, ins, outs, extra);
    ParseHashStream(h', ins', outs', extra');
    DropPrefix(Le32(h.lockTime), extra);
    DropPrefix(Le32(h'.lockTime), extra');
    Le32RoundTrip(h.lockTime);
    Le32RoundTrip(h'.lockTime);
    ReverseInvolutive(h.preblock);
    ReverseInvolutive(h'.preblock);
  }

  /** The written transaction, read back. */
  lemma ParseWireStream(h: Header, ins: seq<TxIn>, outs: seq<TxOut>, rest: Bytes)
    requires WholeTx(h, ins, outs) && ins != []
    ensures Parse(h.segwit, WireStream(h, ins, outs) + rest)
         == Some(Parsed(h.version, h.preblock, ins, outs,
                        (if h.segwit then [] else WireFooter(h)) + rest))
  {
    var footer := if h.segwit then [] else WireFooter(h);
    ParsePrintBody(h, h.preblock, ins, outs, footer + rest);
    Regroup(WireHeader(h), PrintIns(ins), PrintOutputs(h, outs), footer, rest);
  }

  /** Outside version 12 a reader can tell the segwit marker from an input count. */
  lemma MarkerIsVisible(h: Header, ins: seq<TxIn>, outs: seq<TxOut>)
    requires WholeTx(h, ins, outs) && ins != [] && h.version != PREBLOCK_VERSION
    ensures |WireStream(h, ins, outs)| >= 5
    ensures WireStream(h, ins, outs)[4] == 0 <==> h.segwit
  {
    var marker: Bytes := if h.segwit then [0, 1] else [];
    var footer := if h.segwit then [] else WireFooter(h);
    var count := Varint.Encode(h.inputsLen);
    var tail := PrintIns(ins) + (PrintOutputs(h, outs) + (footer + []));
    Regroup(WireHeader(h), PrintIns(ins), PrintOutputs(h, outs), footer, []);
    HeaderPieces(Le32(h.version), marker, [], count, tail);
    FifthByte(Le32(h.version), marker, [], count, tail);
  }

  lemma FifthByte(v: Bytes, marker: Bytes, pre: Bytes, count: Bytes, rest: Bytes)
    requires |v| == 4 && pre == [] && count != []
    ensures (v + marker + pre + count + rest)[4] == if marker == [] then count[0] else marker[0]
  {
  }

  /**
   For a complete transaction without the marker, the written bytes are the hashed bytes
   followed by 01 00 00 00 exactly when no preblock hash is written in two byte orders.
   */
  lemma FastAndHashedAgree(h: Header, ins: seq<TxIn>, outs: seq<TxOut>)
    requires WholeTx(h, ins, outs) && ins != [] && !h.segwit
    ensures WireStream(h, ins, outs) == HashStream(h, ins, outs, []) + Le32(1)
       <==> h.version != PREBLOCK_VERSION || h.preblock == Reverse(h.preblock)
  {
    var lock := Le32(h.lockTime);
    var body := PrintIns(ins) + (PrintOutputs(h, outs) + (lock + Le32(1)));
    Regroup(WireHeader(h), PrintIns(ins), PrintOutputs(h, outs), WireFooter(h), []);
    Regroup(HashHeader(h), PrintIns(ins), PrintOutputs(h, outs), lock, Le32(1));
    assert WireStream(h, ins, outs) + [] == WireHeader(h) + body;
    assert HashStream(h, ins, outs, []) == HashBody(h, ins, outs);
    assert HashStream(h, ins, outs, []) + Le32(1) == HashHeader(h) + body;
    var count := Varint.Encode(h.inputsLen);
    HeaderPieces(Le32(h.version), [], h.preblock, count, body);
    HeaderPieces(Le32(h.version), [], Reverse(h.preblock), count, body);
  }

  // ------------------------------------------------------------- TxStruct

  /** The byte-by-byte loops of `tx_prevout_hash` and of the serializers. */
  method AppendReversed(bytes: Bytes, h: Hash32) returns (r: Bytes)
    ensures r == bytes + Reverse(h)
  {
    r := bytes;
    for i := 0 to 32
      invariant r == bytes + Reverse(h)[..i]
    {
      r := r + [h[31 - i]];
    }
    assert Reverse(h)[..32] == Reverse(h);
  }

  lemma AppendHeader(before: Bytes, v: Bytes, marker: Bytes, pre: Bytes, count: Bytes)
    ensures before + v + marker + pre + count == before + (v + marker + pre + count)
  {
  }

  lemma AppendChunk(before: Bytes, a: Bytes, b: Bytes, c: Bytes)
    ensures before + a + b + c == before + (a + b + c)
    ensures before + a + b == before + (a + b)
  {
  }

  lemma AppendIn(before: Bytes, h: Bytes, index: Bytes, len: Bytes, script: Bytes, sequence: Bytes)
    ensures before + h + index + len + script + sequence == before + ((h + index) + (len + script) + sequence)
  {
  }

  /** The streaming state of one transaction; the hasher is the byte string it has absorbed. */
  class TxStruct {
    var inputsLen: uint32
    var outputsLen: uint32
    var version: uint32
    var lockTime: uint32
    var isSegwit: bool
    var haveInputs: uint32
    var haveOutputs: uint32
    var extraDataLen: uint32
    var extraDataReceived: uint32
    var hasher: Bytes
    var preblockHash: Hash32

    constructor ()
    {
    }

    /** The header; outside version 12 the preblock hash is not part of it. */
    function Head(): Header
      reads this
    {
      Header(version, PreblockFor(version, preblockHash), isSegwit, inputsLen, outputsLen, lockTime)
    }

    /** `tx_init`: the preblock hash is copied only for version 12. */
    method Init(preblock: Hash32, inputsLen: uint32, outputsLen: uint32,
                version: uint32, lockTime: uint32, extraDataLen: uint32)
      modifies this
      ensures Head() == Header(version, PreblockFor(version, preblock), false, inputsLen, outputsLen, lockTime)
      ensures this.extraDataLen == extraDataLen && extraDataReceived == 0
      ensures haveInputs == 0 && haveOutputs == 0 && hasher == []
    {
      if version == PREBLOCK_VERSION {
        preblockHash := preblock;
      }
      this.inputsLen := inputsLen;
      this.outputsLen := outputsLen;
      this.version := version;
      this.lockTime := lockTime;
      haveInputs := 0;
      haveOutputs := 0;
      this.extraDataLen := extraDataLen;
      extraDataReceived := 0;
      isSegwit := false;
      hasher := [];
    }

    /** `tx_serialize_header_hash`: byte by byte, the preblock hash backwards. */
    method SerializeHeaderHash()
      modifies this`hasher
      ensures hasher == old(hasher) + HashHeader(Head())
    {
      hasher := hasher + Le32(version);
      if isSegwit {
        hasher := hasher + [0, 1];
      }
      if version == PREBLOCK_VERSION {
        hasher := AppendReversed(hasher, preblockHash);
      }
      hasher := hasher + Varint.Encode(inputsLen);
      AppendHeader(old(hasher), Le32(version), if isSegwit then [0, 1] else [],
                   Reverse(Head().preblock), Varint.Encode(inputsLen));
    }

    /** `tx_serialize_input_hash`: refuses an excess input. */
    method SerializeInputHash(input: TxIn) returns (ok: bool)
      modifies this`hasher, this`haveInputs
      ensures ok == (old(haveInputs) < inputsLen)
      ensures !ok ==> hasher == old(hasher) && haveInputs == old(haveInputs)
      ensures ok ==> haveInputs == old(haveInputs) + 1
      ensures ok ==> hasher == old(hasher) + InputChunk(HashHeader(Head()), old(haveInputs), input)
    {
      if haveInputs >= inputsLen {
        return false;
      }
      ghost var start := hasher;
      if haveInputs == 0 {
        SerializeHeaderHash();
      }
      ghost var before := hasher;
      hasher := AppendReversed(hasher, input.prevHash);
      hasher := hasher + Le32(input.prevIndex);
      hasher := hasher + Varint.Encode(|input.scriptSig|);
      hasher := hasher + input.scriptSig;
      hasher := hasher + Le32(input.sequence);
      AppendIn(before, Reverse(input.prevHash), Le32(input.prevIndex), Varint.Encode(|input.scriptSig|),
               input.scriptSig, Le32(input.sequence));
      AppendChunk(old(hasher), if haveInputs == 0 then HashHeader(Head()) else [], PrintIn(input), []);
      haveInputs := haveInputs + 1;
      return true;
    }

    /** `tx_serialize_output_hash`: refuses outputs before the last input and excess outputs. */
    method SerializeOutputHash(output: TxOut) returns (ok: bool)
      modifies this`hasher, this`haveOutputs
      ensures ok == (inputsLen <= haveInputs && old(haveOutputs) < outputsLen)
      ensures !ok ==> hasher == old(hasher) && haveOutputs == old(haveOutputs)
      ensures ok ==> haveOutputs == old(haveOutputs) + 1
      ensures ok ==> hasher == old(hasher) + OutputChunk(Head(), old(haveOutputs), output, Le32(lockTime))
    {
      if haveInputs < inputsLen {
        return false;
      }
      if haveOutputs >= outputsLen {
        return false;
      }
      if haveOutputs == 0 {
        hasher := hasher + Varint.Encode(outputsLen);
      }
      hasher := hasher + PrintOut(output);
      haveOutputs := haveOutputs + 1;
      if haveOutputs == outputsLen && !isSegwit {
        hasher := hasher + Le32(lockTime);
      }
      AppendChunk(old(hasher), if old(haveOutputs) == 0 then Varint.Encode(outputsLen) else [], PrintOut(output),
                  if haveOutputs == outputsLen && !isSegwit then Le32(lockTime) else []);
      return true;
    }

    /** `tx_serialize_extra_data_hash`: returns the length absorbed, 0 when refused; the bound is a 32-bit sum. */
    method SerializeExtraDataHash(data: Bytes) returns (r: nat)
      requires |data| < TWO32
      modifies this`hasher, this`extraDataReceived
      ensures var refused := haveInputs < inputsLen || haveOutputs < outputsLen
                             || (old(extraDataReceived) + |data|) % TWO32 > extraDataLen;
        && r == (if refused then 0 else |data|)
        && hasher == (if refused then old(hasher) else old(hasher) + data)
        && extraDataReceived == (if refused then old(extraDataReceived) else (old(extraDataReceived) + |data|) % TWO32)
    {
      if haveInputs < inputsLen {
        return 0;
      }
      if haveOutputs < outputsLen {
        return 0;
      }
      if (extraDataReceived + |data|) % TWO32 > extraDataLen {
        return 0;
      }
      hasher := hasher + data;
      extraDataReceived := (extraDataReceived + |data|) % TWO32;
      return |data|;
    }

    /** `tx_serialize_header`: the preblock hash as it came. */
    method SerializeHeader() returns (chunk: Bytes)
      ensures chunk == WireHeader(Head())
    {
      chunk := Le32(version);
      if isSegwit {
        chunk := chunk + [0, 1];
      }
      if version == PREBLOCK_VERSION {
        chunk := chunk + preblockHash;
      }
      chunk := chunk + Varint.Encode(inputsLen);
    }

    /** `tx_serialize_input`: the chunk for one input; the empty chunk when all inputs are out. */
    method SerializeInput(input: TxIn) returns (chunk: Bytes)
      modifies this`haveInputs
      ensures old(haveInputs) >= inputsLen ==> chunk == [] && haveInputs == old(haveInputs)
      ensures old(haveInputs) < inputsLen ==>
                && haveInputs == old(haveInputs) + 1
                && chunk == InputChunk(WireHeader(Head()), old(haveInputs), input)
    {
      if haveInputs >= inputsLen {
        return [];
      }
      chunk := [];
      if haveInputs == 0 {
        chunk := SerializeHeader();
      }
      ghost var before := chunk;
      chunk := AppendReversed(chunk, input.prevHash);
      chunk := chunk + Le32(input.prevIndex);
      chunk := chunk + Varint.Encode(|input.scriptSig|);
      chunk := chunk + input.scriptSig;
      chunk := chunk + Le32(input.sequence);
      AppendIn(before, Reverse(input.prevHash), Le32(input.prevIndex), Varint.Encode(|input.scriptSig|),
               input.scriptSig, Le32(input.sequence));
      haveInputs := haveInputs + 1;
    }

    /** `tx_serialize_output`: the chunk for one output, with the footer after the last unless segwit. */
    method SerializeOutput(output: TxOut) returns (chunk: Bytes)
      modifies this`haveOutputs
      ensures (haveInputs < inputsLen || old(haveOutputs) >= outputsLen)
          ==> chunk == [] && haveOutputs == old(haveOutputs)
      ensures inputsLen <= haveInputs && old(haveOutputs) < outputsLen ==>
                && haveOutputs == old(haveOutputs) + 1
                && chunk == OutputChunk(Head(), old(haveOutputs), output, WireFooter(Head()))
    {
      if haveInputs < inputsLen {
        return [];
      }
      if haveOutputs >= outputsLen {
        return [];
      }
      chunk := [];
      if haveOutputs == 0 {
        chunk := Varint.Encode(outputsLen);
      }
      ghost var before := chunk;
      chunk := chunk + Le64(output.amount);
      chunk := chunk + PrintScript(output.script);
      AppendAssoc(before, Le64(output.amount), PrintScript(output.script));
      haveOutputs := haveOutputs + 1;
      if haveOutputs == outputsLen && !isSegwit {
        chunk := chunk + WireFooter(Head());
      }
    }
  }
}
