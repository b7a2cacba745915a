/**
 The Ethereum signing session of firmware/ethereum.c: one EthereumSignTx message, then
 EthereumTxAck messages with the rest of the data, all hashed as they arrive.
 */
module EthereumDevice {
  import opened Bytes
  import opened EthereumRlp

  const CHUNK: nat := 1024

  /** Keccak and ECDSA stay abstract; canonic signatures have recovery bit 0 or 1. */
  datatype Signature = Signature(odd: bool, r: Bytes, s: Bytes)
  datatype Crypto = Crypto(keccak: Bytes -> Hash32, ecdsa: (Hash32, Hash32) -> Option<Signature>)

  datatype Problem = DataError | UnexpectedMessage | ActionCancelled | ProcessError
  datatype Reply = Failure(problem: Problem) | RequestChunk(length: nat) | Signed(v: nat, r: Bytes, s: Bytes)

  /** The user's answers, in the order of the dialogs. */
  datatype Answers = Answers(tx: bool, data: bool, fee: bool)

  const TRANSFER: Bytes := [0xa9, 0x05, 0x9c, 0xbb, 0, 0, 0, 0, 0, 0, 0, 0, 0, 0, 0, 0]

  datatype SignTx = SignTx(
    nonce: Option<Bytes>, gasPrice: Option<Bytes>, gasLimit: Option<Bytes>, to: Option<Bytes>, value: Option<Bytes>,
    dataLength: Option<uint32>, initialChunk: Option<Bytes>, chainId: Option<uint32>)
  {
    /** The limits that the message decoder enforces (messages.options). */
    predicate Decoded()
    {
      && |OrEmpty(nonce)| <= 32 && |OrEmpty(gasPrice)| <= 32 && |OrEmpty(gasLimit)| <= 32
      && |OrEmpty(to)| <= 20 && |OrEmpty(value)| <= 32 && |OrEmpty(initialChunk)| <= CHUNK
    }

    function Total(): nat
    {
      if dataLength.Some? then dataLength.value else 0
    }

    function Chunk(): Bytes
    {
      OrEmpty(initialChunk)
    }

    /** The transaction with the data still missing. */
    function Header(): Tx
    {
      Tx(OrEmpty(nonce), OrEmpty(gasPrice), OrEmpty(gasLimit), OrEmpty(to), OrEmpty(value), [],
         if chainId.Some? then chainId.value else 0)
    }

    /** What may be shown for confirmation at all. */
    predicate Acceptable()
    {
      && (chainId.Some? ==> 1 <= chainId.value <= MAX_CHAIN_ID)
      && (if Total() > 0 then 0 < |Chunk()| <= Total() <= MAX_DATA else Chunk() == [])
      && SafetyCheck()
    }

    /** `ethereum_signing_check`. */
    predicate SafetyCheck()
    {
      && gasPrice.Some? && gasLimit.Some?
      && (|OrEmpty(to)| == 20 || (|OrEmpty(to)| == 0 && Total() > 0))
      && |gasPrice.value| + |gasLimit.value| <= 30
    }

    /** An ERC-20 transfer call, which is shown as a token amount if the token is known. */
    predicate LooksLikeTransfer()
    {
      && |OrEmpty(to)| == 20 && |OrEmpty(value)| == 0 && Total() == 68 && |Chunk()| == 68
      && Chunk()[..16] == TRANSFER
    }

    /** The data dialog is skipped without data and for a transfer of a known token. */
    predicate Confirmed(answers: Answers, known: bool)
    {
      answers.tx && ((LooksLikeTransfer() && known) || Total() == 0 || answers.data) && answers.fee
    }
  }

  function OrEmpty(o: Option<Bytes>): Bytes
  {
    if o.Some? then o.value else []
  }

  function Min(a: nat, b: nat): nat
  {
    if a <= b then a else b
  }

  // ----------------------------------------------------- the session as steps

  /** `received` is the data so far, out of `total` bytes. */
  datatype Session = Idle | Streaming(header: Tx, total: nat, received: Bytes, key: Hash32)
  {
    predicate Valid()
    {
      Streaming? ==> header.Valid() && header.data == [] && 0 < |received| < total <= MAX_DATA
    }
  }

  /** The reply to a transaction that is complete. */
  function SignatureReply(c: Crypto, key: Hash32, t: Tx): Reply
    requires t.Valid()
  {
    match c.ecdsa(key, c.keccak(Preimage(t)))
    case None => Failure(ProcessError)
    case Some(sig) => Signed(SignatureV(if sig.odd then 1 else 0, t.chainId), sig.r, sig.s)
  }

  /** Signs if the data is complete, asks for more otherwise. */
  function Proceed(c: Crypto, header: Tx, total: nat, received: Bytes, key: Hash32): (r: (Session, Reply))
    requires header.Valid() && header.data == [] && |received| <= total <= MAX_DATA
    requires total > 0 ==> |received| > 0
    ensures r.0.Valid()
  {
    if |received| == total then (Idle, SignatureReply(c, key, header.(data := received)))
    else (Streaming(header, total, received, key), RequestChunk(Min(CHUNK, total - |received|)))
  }

  /** `ethereum_signing_init`. */
  function Start(c: Crypto, msg: SignTx, key: Hash32, answers: Answers, known: bool): (r: (Session, Reply))
    requires msg.Decoded()
    ensures r.0.Valid()
  {
    if !msg.Acceptable() then (Idle, Failure(DataError))
    else if !msg.Confirmed(answers, known) then (Idle, Failure(ActionCancelled))
    else Proceed(c, msg.Header(), msg.Total(), msg.Chunk(), key)
  }

  /** `ethereum_signing_txack`. */
  function Ack(c: Crypto, s: Session, chunk: Option<Bytes>): (r: (Session, Reply))
    requires s.Valid()
    ensures r.0.Valid()
  {
    if s.Idle? then (Idle, Failure(UnexpectedMessage))
    else if |s.received| + |OrEmpty(chunk)| > s.total || OrEmpty(chunk) == [] then (Idle, Failure(DataError))
    else Proceed(c, s.header, s.total, s.received + OrEmpty(chunk), s.key)
  }

  /** The session after some chunks and the replies on the way. */
  function Acks(c: Crypto, s: Session, chunks: seq<Option<Bytes>>): (r: (Session, seq<Reply>))
    requires s.Valid()
    ensures r.0.Valid() && |r.1| == |chunks|
  {
    if |chunks| == 0 then (s, [])
    else
      var (before, replies) := Acks(c, s, chunks[..|chunks| - 1]);
      var (after, reply) := Ack(c, before, chunks[|chunks| - 1]);
      (after, replies + [reply])
  }

  function Concat(chunks: seq<Option<Bytes>>): Bytes
  {
    if |chunks| == 0 then [] else Concat(chunks[..|chunks| - 1]) + OrEmpty(chunks[|chunks| - 1])
  }

  /** While the data is incomplete and no chunk is empty, the session holds exactly what was sent. */
  lemma {:induction false} IncompleteStreams(c: Crypto, s: Session, chunks: seq<Option<Bytes>>)
    requires s.Valid() && s.Streaming?
    requires forall i :: 0 <= i < |chunks| ==> OrEmpty(chunks[i]) != []
    requires |s.received + Concat(chunks)| < s.total
    ensures Acks(c, s, chunks).0 == s.(received := s.received + Concat(chunks))
    ensures forall i :: 0 <= i < |chunks| ==> Acks(c, s, chunks).1[i].RequestChunk?
  {
    hide SignatureReply, Tx.Valid;
    if |chunks| == 0 {
      assert s.received + [] == s.received;
    } else {
      var front, last := chunks[..|chunks| - 1], OrEmpty(chunks[|chunks| - 1]);
      IncompleteStreams(c, s, front);
      AppendAssoc(s.received, Concat(front), last);
    }
  }

  /** However the data is cut into chunks, only the last chunk is answered by the signature, and it is the same one. */
  lemma ChunksDoNotMatter(c: Crypto, s: Session, chunks: seq<Option<Bytes>>)
    requires s.Valid() && s.Streaming?
    requires forall i :: 0 <= i < |chunks| ==> OrEmpty(chunks[i]) != []
    requires |s.received + Concat(chunks)| == s.total
    ensures |chunks| > 0 && Acks(c, s, chunks).0 == Idle
    ensures forall i :: 0 <= i < |chunks| - 1 ==> Acks(c, s, chunks).1[i].RequestChunk?
    ensures s.header.(data := s.received + Concat(chunks)).Valid()
    ensures Acks(c, s, chunks).1[|chunks| - 1]
         == SignatureReply(c, s.key, s.header.(data := s.received + Concat(chunks)))
  {
    hide SignatureReply;
    var front, last := chunks[..|chunks| - 1], OrEmpty(chunks[|chunks| - 1]);
    AppendAssoc(s.received, Concat(front), last);
    IncompleteStreams(c, s, front);
  }

  predicate Outcome(r: Reply)
  {
    r.Signed? || r == Failure(ProcessError)
  }

  /**
   Whatever the host sends, nothing is ever signed but the header with exactly the announced amount
   of data, as sent.
   */
  lemma {:induction false} OnlyCompleteIsSigned(c: Crypto, s: Session, chunks: seq<Option<Bytes>>, i: nat)
    requires s.Valid() && i < |chunks| && Outcome(Acks(c, s, chunks).1[i])
    ensures s.Streaming? && |s.received + Concat(chunks[..i + 1])| == s.total
    ensures s.header.(data := s.received + Concat(chunks[..i + 1])).Valid()
    ensures Acks(c, s, chunks).1[i] == SignatureReply(c, s.key, s.header.(data := s.received + Concat(chunks[..i + 1])))
  {
    hide SignatureReply;
    var front, last := chunks[..|chunks| - 1], OrEmpty(chunks[|chunks| - 1]);
    if i < |front| {
      OnlyCompleteIsSigned(c, s, front, i);
      assert front[..i + 1] == chunks[..i + 1];
    } else {
      assert chunks[..i + 1] == chunks;
      StreamingKeeps(c, s, front);
      AppendAssoc(s.received, Concat(front), last);
    }
  }

  /** And whenever more is asked for, it is all that is missing, in pieces of at most 1024 bytes. */
  lemma {:induction false} AsksForTheRest(c: Crypto, s: Session, chunks: seq<Option<Bytes>>, i: nat)
    requires s.Valid() && i < |chunks| && Acks(c, s, chunks).1[i].RequestChunk?
    ensures s.Streaming? && |s.received + Concat(chunks[..i + 1])| < s.total
    ensures var left := s.total - |s.received + Concat(chunks[..i + 1])|;
      Acks(c, s, chunks).1[i].length == if left <= 1024 then left else 1024
  {
    hide Preimage, Tx.Valid;
    var front, last := chunks[..|chunks| - 1], OrEmpty(chunks[|chunks| - 1]);
    if i < |front| {
      AsksForTheRest(c, s, front, i);
      assert front[..i + 1] == chunks[..i + 1];
    } else {
      assert chunks[..i + 1] == chunks;
      StreamingKeeps(c, s, front);
      AppendAssoc(s.received, Concat(front), last);
    }
  }

  /** A session that still streams has accepted everything it was sent. */
  lemma {:induction false} StreamingKeeps(c: Crypto, s: Session, chunks: seq<Option<Bytes>>)
    requires s.Valid()
    ensures var t := Acks(c, s, chunks).0;
      t.Streaming? ==> s.Streaming? && t == s.(received := s.received + Concat(chunks))
  {
    hide SignatureReply, Tx.Valid;
    if |chunks| == 0 {
      if s.Streaming? {
        assert s.received + [] == s.received;
      }
    } else {
      var front, last := chunks[..|chunks| - 1], OrEmpty(chunks[|chunks| - 1]);
      StreamingKeeps(c, s, front);
      if s.Streaming? {
        AppendAssoc(s.received, Concat(front), last);
      }
    }
  }

  /** All replies of a session: to the first message and to each chunk. */
  function Replies(c: Crypto, msg: SignTx, key: Hash32, answers: Answers, known: bool,
      chunks: seq<Option<Bytes>>): seq<Reply>
    requires msg.Decoded()
  {
    var (s, reply) := Start(c, msg, key, answers, known);
    [reply] + Acks(c, s, chunks).1
  }

  /** The transaction of a session after some chunks. */
  function Received(msg: SignTx, chunks: seq<Option<Bytes>>): Tx
  {
    msg.Header().(data := msg.Chunk() + Concat(chunks))
  }

  /**
   A signature in any session, for any host: the message was acceptable and confirmed, the data has
   exactly the announced length, and the signed bytes decode to the transaction if its chain id fits one byte.
   */
  lemma SignedIsConfirmedAndComplete(c: Crypto, msg: SignTx, key: Hash32, answers: Answers, known: bool,
      chunks: seq<Option<Bytes>>, i: nat)
    requires msg.Decoded() && i <= |chunks|
    requires Outcome(Replies(c, msg, key, answers, known, chunks)[i])
    ensures msg.Acceptable() && msg.Confirmed(answers, known)
    ensures Received(msg, chunks[..i]).Valid() && |Received(msg, chunks[..i]).data| == msg.Total()
    ensures Replies(c, msg, key, answers, known, chunks)[i] == SignatureReply(c, key, Received(msg, chunks[..i]))
    ensures DecodeList(Preimage(Received(msg, chunks[..i])))
         == (if Received(msg, chunks[..i]).chainId <= 255 then Some(Received(msg, chunks[..i]).Items()) else None)
  {
    hide SignatureReply, Preimage, DecodeList, Tx.Items;
    var (s, reply) := Start(c, msg, key, answers, known);
    if i == 0 {
      assert msg.Chunk() + [] == msg.Chunk();
    } else {
      OnlyCompleteIsSigned(c, s, chunks, i - 1);
    }
    SignedBytesDecode(Received(msg, chunks[..i]));
  }

  /**
   What the signature in a reply is of, from the message and the chunks alone: `signed` is the
   bytes hashed, a list whose fields are those of the message, in this order, with the data as sent.
   */
  lemma SignsTheMessage(c: Crypto, msg: SignTx, key: Hash32, answers: Answers, known: bool,
      chunks: seq<Option<Bytes>>, i: nat) returns (signed: Bytes, skip: nat, id: Bytes)
    requires msg.Decoded() && i <= |chunks|
    requires Outcome(Replies(c, msg, key, answers, known, chunks)[i])
    ensures Replies(c, msg, key, answers, known, chunks)[i] ==
      match c.ecdsa(key, c.keccak(signed))
      case None => Failure(ProcessError)
      case Some(sig) =>
        Signed(((if sig.odd then 1 else 0) + match msg.chainId case None => 27 case Some(n) => 2 * n + 35) % TWO32,
               sig.r, sig.s)
    ensures BigEndian(id) == (if msg.chainId.Some? then msg.chainId.value else 0) && (id != [] ==> id[0] != 0)
    ensures 1 <= skip <= 4 && skip <= |signed|
    ensures var data := OrEmpty(msg.initialChunk) + Concat(chunks[..i]);
      var fields := [OrEmpty(msg.nonce), OrEmpty(msg.gasPrice), OrEmpty(msg.gasLimit), OrEmpty(msg.to),
                     OrEmpty(msg.value), data] + if msg.chainId.Some? then [id, [], []] else [];
      && |data| == (if msg.dataLength.Some? then msg.dataLength.value else 0)
      && DecodeItems(signed[skip..]) == Some(fields)
      && DecodeList(signed) == if msg.chainId.Some? && msg.chainId.value > 255 then None else Some(fields)
  {
    hide SignatureReply, Preimage, DecodeList, Tx.Items, BigEndian, NumberBytes, DecodeItems, SignTx.Confirmed, Replies;
    var t := Received(msg, chunks[..i]);
    SignedIsConfirmedAndComplete(c, msg, key, answers, known, chunks, i);
    signed, id := Preimage(t), NumberBytes(t.chainId);
    skip := PayloadDecodes(t);
    NumberBytesValue(t.chainId);
    ItemsAre(msg, t, id);
    SignatureReplyIs(c, key, t);
  }

  lemma ItemsAre(msg: SignTx, t: Tx, id: Bytes)
    requires t == msg.Header().(data := t.data) && (msg.chainId.Some? ==> msg.chainId.value >= 1)
    requires id == NumberBytes(t.chainId)
    ensures t.chainId == if msg.chainId.Some? then msg.chainId.value else 0
    ensures t.Items() == [OrEmpty(msg.nonce), OrEmpty(msg.gasPrice), OrEmpty(msg.gasLimit), OrEmpty(msg.to),
                          OrEmpty(msg.value), t.data] + if msg.chainId.Some? then [id, [], []] else []
  {
  }

  lemma SignatureReplyIs(c: Crypto, key: Hash32, t: Tx)
    requires t.Valid()
    ensures SignatureReply(c, key, t) ==
      match c.ecdsa(key, c.keccak(Preimage(t)))
      case None => Failure(ProcessError)
      case Some(sig) => Signed(((if sig.odd then 1 else 0) + if t.chainId == 0 then 27 else 2 * t.chainId + 35) % TWO32,
                               sig.r, sig.s)
  {
    hide Preimage;
  }

  /**
   Exactly what is signed at once or after more data: the fee fields are there and fit 30 bytes, there is a
   recipient or data, the data and the chain id are in bounds, and the user has agreed to the transaction and
   the fee, and to the data unless there is none or it is a transfer of a known token.
   */
  lemma NotRefusedExactly(c: Crypto, msg: SignTx, key: Hash32, answers: Answers, known: bool)
    requires msg.Decoded()
    ensures var total := if msg.dataLength.Some? then msg.dataLength.value else 0;
      var chunk, to := OrEmpty(msg.initialChunk), OrEmpty(msg.to);
      var token := && known && |to| == 20 && OrEmpty(msg.value) == [] && total == 68 && |chunk| == 68
                   && chunk[..16] == [0xa9, 0x05, 0x9c, 0xbb, 0, 0, 0, 0, 0, 0, 0, 0, 0, 0, 0, 0];
      var sound := && (msg.chainId.Some? ==> 1 <= msg.chainId.value <= 2147483630)
                   && total <= 16000000 && |chunk| <= total && (total > 0 ==> |chunk| > 0)
                   && msg.gasPrice.Some? && msg.gasLimit.Some? && |msg.gasPrice.value| + |msg.gasLimit.value| <= 30
                   && (|to| == 20 || (|to| == 0 && total > 0));
      var agreed := answers.tx && answers.fee && (answers.data || total == 0 || token);
      && (Start(c, msg, key, answers, known).1 == Failure(DataError) <==> !sound)
      && (Start(c, msg, key, answers, known).1 == Failure(ActionCancelled) <==> sound && !agreed)
      && (Start(c, msg, key, answers, known).1.RequestChunk? <==> sound && agreed && |chunk| < total)
      && (Outcome(Start(c, msg, key, answers, known).1) <==> sound && agreed && |chunk| == total)
  {
  }

  // -------------------------------------------------------------- the device

  /** Everything hashed before the last `total - |received|` bytes of data. */
  ghost function Stream(header: Tx, total: nat, received: Bytes): Bytes
    requires header.Valid() && header.data == [] && total <= MAX_DATA
  {
    AnnouncedBound(header, total, FirstByte(received));
    ListHeader(header.AnnouncedFor(total, FirstByte(received))) + FiveFields(header)
      + StringHeader(total, FirstByte(received)) + received
  }

  lemma AnnouncedBound(header: Tx, total: nat, first: byte)
    requires header.Valid() && total <= MAX_DATA
    ensures header.AnnouncedFor(total, first) < TWO24
  {
  }

  lemma StreamGrows(header: Tx, total: nat, received: Bytes, chunk: Bytes)
    requires header.Valid() && header.data == [] && total <= MAX_DATA && received != []
    ensures Stream(header, total, received + chunk) == Stream(header, total, received) + chunk
  {
    hide FiveFields, ListHeader, StringHeader, Tx.AnnouncedFor;
    AnnouncedBound(header, total, FirstByte(received));
    AppendAssoc(ListHeader(header.AnnouncedFor(total, FirstByte(received))) + FiveFields(header)
      + StringHeader(total, FirstByte(received)), received, chunk);
  }

  lemma StreamComplete(header: Tx, received: Bytes)
    requires header.Valid() && header.data == [] && |received| <= MAX_DATA
    ensures Stream(header, |received|, received) + ReplayFields(header.chainId) == Preimage(header.(data := received))
  {
    hide LengthHeader, ListHeader, StringHeader, ReplayFields;
    var t := header.(data := received);
    AnnouncedIsWritten(t);
    var h, f, d := ListHeader(t.Announced()), FiveFields(t), StringHeader(|received|, FirstByte(received));
    assert FiveFields(t) == FiveFields(header);
    AppendAssoc(h + f, d, received);
    AppendAssoc(h, f, d + received);
  }

  class Signer {
    const crypto: Crypto
    var keccak: Bytes
    var signing: bool
    var dataTotal: nat
    var dataLeft: nat
    var chainId: nat
    var privkey: Hash32
    ghost var header: Tx
    ghost var received: Bytes

    ghost function Session(): Session
      reads this
    {
      if signing then Streaming(header, dataTotal, received, privkey) else Idle
    }

    /** The registers of an open session, and no key outside one. */
    ghost predicate Valid()
      reads this
    {
      && Session().Valid()
      && (signing ==> Registers())
      && (!signing ==> privkey == Zeros())
    }

    ghost predicate Registers()
      reads this
    {
      && header.Valid() && header.data == [] && header.chainId == chainId
      && |received| + dataLeft == dataTotal <= MAX_DATA
      && keccak == Stream(header, dataTotal, received)
    }

    constructor (c: Crypto)
      ensures Valid() && crypto == c && Session() == Idle
    {
      crypto := c;
      keccak := [];
      signing := false;
      dataTotal := 0;
      dataLeft := 0;
      chainId := 0;
      privkey := Zeros();
    }

    static function Zeros(): Hash32
    {
      seq(32, _ => 0)
    }

    method HashData(data: Bytes)
      modifies this`keccak
      ensures keccak == old(keccak) + data
    {
      keccak := keccak + data;
    }

    method HashRlpLength(length: nat, firstByte: byte)
      requires length < TWO24
      modifies this`keccak
      ensures keccak == old(keccak) + StringHeader(length, firstByte)
    {
      if length == 1 && firstByte <= 0x7f {
      } else if length <= 55 {
        HashData([0x80 + length]);
      } else if length <= 0xff {
        HashData([0xb7 + 1, length]);
      } else if length <= 0xffff {
        HashData([0xb7 + 2, length / 256, length % 256]);
      } else {
        HashData([0xb7 + 3, length / 65536, length / 256 % 256, length % 256]);
      }
    }

    method HashRlpListLength(length: nat)
      requires length < TWO24
      modifies this`keccak
      ensures keccak == old(keccak) + ListHeader(length)
    {
      if length <= 55 {
        HashData([0xc0 + length]);
      } else if length <= 0xff {
        HashData([0xf7 + 1, length]);
      } else if length <= 0xffff {
        HashData([0xf7 + 2, length / 256, length % 256]);
      } else {
        HashData([0xf7 + 3, length / 65536, length / 256 % 256, length % 256]);
      }
    }

    method HashRlpField(field: Bytes)
      requires |field| < TWO24
      modifies this`keccak
      ensures keccak == old(keccak) + Field(field)
    {
      HashRlpLength(|field|, FirstByte(field));
      HashData(field);
      AppendAssoc(old(keccak), StringHeader(|field|, FirstByte(field)), field);
    }

    /** Strips the leading zeros of the four bytes; a zero is not hashed at all. */
    method HashRlpNumber(number: uint32)
      modifies this`keccak
      ensures |NumberBytes(number)| <= 4
      ensures keccak == old(keccak) + if number == 0 then [] else Field(NumberBytes(number))
    {
      NumberBytesLength(number);
      if number == 0 {
        return;
      }
      FourDigits(number);
      var data := new byte[4];
      data[0], data[1], data[2], data[3] := number / 16777216, number / 65536 % 256, number / 256 % 256, number % 256;
      hide NumberBytes, Field;
      var offset := 0;
      while data[offset] == 0
        invariant 0 <= offset < 4
        invariant forall k :: 0 <= k < offset ==> data[k] == 0
        decreases 4 - offset
      {
        offset := offset + 1;
      }
      assert data[..] == [data[0], data[1], data[2], data[3]];
      StrippedIsNumber(data[0], data[1], data[2], data[3], offset);
      HashRlpField(data[offset..]);
    }

    method SendRequestChunk() returns (reply: Reply)
      ensures reply == RequestChunk(Min(CHUNK, dataLeft))
    {
      return RequestChunk(if dataLeft <= 1024 then dataLeft else 1024);
    }

    method Abort()
      requires !signing ==> privkey == Zeros()
      modifies this`signing, this`privkey
      ensures !signing && privkey == Zeros()
    {
      if signing {
        privkey := Zeros();
        signing := false;
      }
    }

    method SendSignature() returns (reply: Reply)
      requires signing && Registers() && dataLeft == 0
      modifies this`keccak, this`signing, this`privkey
      ensures Valid() && !signing
      ensures header.(data := received).Valid()
      ensures reply == SignatureReply(crypto, old(privkey), header.(data := received))
    {
      if chainId != 0 {
        HashRlpNumber(chainId);
        HashRlpLength(0, 0);
        HashRlpLength(0, 0);
      }
      Replayed(old(keccak), chainId);
      hide Stream, StringHeader, Field, NumberBytes, ReplayFields;
      StreamComplete(header, received);
      assert keccak == Preimage(header.(data := received));
      match crypto.ecdsa(privkey, crypto.keccak(keccak)) {
        case None =>
          reply := Failure(ProcessError);
        case Some(sig) =>
          var v := if sig.odd then 1 else 0;
          reply := Signed(if chainId != 0 then (v + 2 * chainId + 35) % TWO32 else (v + 27) % TWO32, sig.r, sig.s);
      }
      Abort();
    }

    /** How both messages end. */
    method ChunkOrSignature() returns (reply: Reply)
      requires signing && Registers() && (dataTotal > 0 ==> received != [])
      modifies this`keccak, this`signing, this`privkey
      ensures Valid()
      ensures (Session(), reply) == Proceed(crypto, header, dataTotal, received, old(privkey))
    {
      hide Stream, SignatureReply;
      if dataLeft > 0 {
        reply := SendRequestChunk();
      } else {
        reply := SendSignature();
      }
    }

    /** The checks and the dialogs, up to the first one that fails. */
    method Check(msg: SignTx, answers: Answers, known: bool) returns (problem: Option<Problem>)
      requires msg.Decoded()
      modifies this`chainId, this`dataTotal
      ensures problem == if !msg.Acceptable() then Some(DataError)
                         else if !msg.Confirmed(answers, known) then Some(ActionCancelled) else None
      ensures problem.None? ==> dataTotal == msg.Total() && chainId == msg.Header().chainId
    {
      if msg.chainId.Some? {
        if msg.chainId.value < 1 || msg.chainId.value > MAX_CHAIN_ID {
          return Some(DataError);
        }
        chainId := msg.chainId.value;
      } else {
        chainId := 0;
      }
      if msg.dataLength.Some? && msg.dataLength.value > 0 {
        if msg.Chunk() == [] || msg.dataLength.value > 16000000 {
          return Some(DataError);
        }
        dataTotal := msg.dataLength.value;
      } else {
        dataTotal := 0;
      }
      if |msg.Chunk()| > dataTotal || !msg.SafetyCheck() {
        return Some(DataError);
      }
      hide SignTx.LooksLikeTransfer, SignTx.SafetyCheck;
      var token := msg.LooksLikeTransfer() && known;
      if !answers.tx || (!token && dataTotal > 0 && !answers.data) || !answers.fee {
        return Some(ActionCancelled);
      }
      return None;
    }

    /** `ethereum_signing_init`; a session in progress is dropped. */
    method SigningInit(msg: SignTx, key: Hash32, answers: Answers, known: bool) returns (reply: Reply)
      requires Valid() && msg.Decoded()
      modifies this
      ensures Valid()
      ensures (Session(), reply) == Start(crypto, msg, key, answers, known)
    {
      signing := true;
      keccak := [];
      var problem := Check(msg, answers, known);
      if problem.Some? {
        Abort();
        return Failure(problem.value);
      }
      hide Proceed, SignTx.Confirmed;
      reply := Open(msg, key);
    }

    method Open(msg: SignTx, key: Hash32) returns (reply: Reply)
      requires signing && keccak == [] && msg.Decoded() && msg.Acceptable()
      requires dataTotal == msg.Total() && chainId == msg.Header().chainId
      modifies this
      ensures Valid()
      ensures (Session(), reply) == Proceed(crypto, msg.Header(), msg.Total(), msg.Chunk(), key)
    {
      hide Stream, Proceed;
      header, received := msg.Header(), msg.Chunk();
      HashHeader(msg);
      HashData(msg.Chunk());
      dataLeft := dataTotal - |msg.Chunk()|;
      privkey := key;
      reply := ChunkOrSignature();
    }

    /** Stage 1 and stage 2 up to the data itself. */
    method HashHeader(msg: SignTx)
      requires msg.Decoded() && msg.Acceptable() && dataTotal == msg.Total()
      requires header == msg.Header() && header.Valid() && chainId == header.chainId && keccak == []
      modifies this`keccak
      ensures keccak + msg.Chunk() == Stream(header, dataTotal, msg.Chunk())
    {
      hide ListHeader, Field, StringHeader, CalculatedLength, NumberBytes;
      var first := FirstByte(msg.Chunk());
      AnnouncedBound(header, dataTotal, first);
      var tx := msg.Header();
      var rlpLength := 0;
      rlpLength := rlpLength + CalculatedLength(|tx.nonce|, FirstByte(tx.nonce));
      rlpLength := rlpLength + CalculatedLength(|tx.gasPrice|, FirstByte(tx.gasPrice));
      rlpLength := rlpLength + CalculatedLength(|tx.gasLimit|, FirstByte(tx.gasLimit));
      rlpLength := rlpLength + CalculatedLength(|tx.to|, FirstByte(tx.to));
      rlpLength := rlpLength + CalculatedLength(|tx.value|, FirstByte(tx.value));
      rlpLength := rlpLength + CalculatedLength(dataTotal, first);
      if chainId != 0 {
        rlpLength := rlpLength + CalculatedLength(1, chainId % 256);
        rlpLength := rlpLength + CalculatedLength(0, 0);
        rlpLength := rlpLength + CalculatedLength(0, 0);
      }
      HashRlpListLength(rlpLength);
      HashRlpField(tx.nonce);
      HashRlpField(tx.gasPrice);
      HashRlpField(tx.gasLimit);
      HashRlpField(tx.to);
      HashRlpField(tx.value);
      Regroup5(ListHeader(rlpLength), Field(tx.nonce), Field(tx.gasPrice), Field(tx.gasLimit),
        Field(tx.to), Field(tx.value));
      HashRlpLength(dataTotal, first);
    }

    /** `ethereum_signing_txack`. */
    method TxAck(chunk: Option<Bytes>) returns (reply: Reply)
      requires Valid() && |OrEmpty(chunk)| <= CHUNK
      modifies this
      ensures Valid()
      ensures (Session(), reply) == Ack(crypto, old(Session()), chunk)
    {
      if !signing {
        return Failure(UnexpectedMessage);
      }
      if |OrEmpty(chunk)| > dataLeft {
        Abort();
        return Failure(DataError);
      }
      if dataLeft > 0 && OrEmpty(chunk) == [] {
        Abort();
        return Failure(DataError);
      }
      HashData(OrEmpty(chunk));
      hide Stream, Proceed, Tx.Valid;
      StreamGrows(header, dataTotal, received, OrEmpty(chunk));
      received := received + OrEmpty(chunk);
      dataLeft := dataLeft - |OrEmpty(chunk)|;
      reply := ChunkOrSignature();
    }
  }

  /** The four digits of a number from its first nonzero digit on. */
  lemma StrippedIsNumber(a: byte, b: byte, c: byte, d: byte, offset: nat)
    requires offset < 4 && [a, b, c, d][offset] != 0 && forall k :: 0 <= k < offset ==> [a, b, c, d][k] == 0
    ensures [a, b, c, d][offset..] == NumberBytes(256 * (256 * (256 * (a as int) + b) + c) + d)
  {
    hide NumberBytes;
    NumberBytesStep(256 * (256 * (a as int) + b) + c, d);
    NumberBytesStep(256 * (a as int) + b, c);
    NumberBytesStep(a, b);
    NumberBytesStep(0, a);
    assert offset > 0 ==> a == [a, b, c, d][0] == 0;
    assert offset > 1 ==> b == [a, b, c, d][1] == 0;
    assert offset > 2 ==> c == [a, b, c, d][2] == 0;
  }

  lemma NumberBytesStep(high: nat, low: byte)
    ensures NumberBytes(0) == []
    ensures high + low > 0 ==> NumberBytes(256 * high + low as int) == NumberBytes(high) + [low]
  {
    var n: nat := 256 * high + low as int;
    assert n / 256 == high && n % 256 == low;
    if n > 0 {
      assert NumberBytes(n) == NumberBytes(n / 256) + [n % 256];
      assert NumberBytes(n) == NumberBytes(high) + [low];
    }
  }

  lemma FourDigits(n: uint32)
    ensures n / 16777216 < 256
    ensures n == 256 * (256 * (256 * (n / 16777216) + n / 65536 % 256) + n / 256 % 256) + n % 256
  {
    var a, b, c := n / 256, n / 65536, n / 16777216;
    assert b == a / 256 && c == b / 256;
  }

  lemma Replayed(b: Bytes, chainId: nat)
    requires chainId <= MAX_CHAIN_ID
    ensures |NumberBytes(chainId)| <= 4
    ensures b + ReplayFields(chainId)
         == if chainId == 0 then b else b + Field(NumberBytes(chainId)) + StringHeader(0, 0) + StringHeader(0, 0)
  {
    NumberBytesLength(chainId);
    assert Field([]) == StringHeader(0, 0) + [] == StringHeader(0, 0);
    if chainId != 0 {
      AppendAssoc(b, Field(NumberBytes(chainId)), Field([]));
      AppendAssoc(b, Field(NumberBytes(chainId)) + Field([]), Field([]));
    }
  }

  lemma Regroup5(h: Bytes, a: Bytes, b: Bytes, c: Bytes, d: Bytes, e: Bytes)
    ensures [] + h + a + b + c + d + e == h + (a + b + c + d + e)
  {
    AppendAssoc(h, a, b);
    AppendAssoc(h, a + b, c);
    AppendAssoc(h, a + b + c, d);
    AppendAssoc(h, a + b + c + d, e);
  }
}
