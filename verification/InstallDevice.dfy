/**
 The bootloader's packet handler from FirmwareErase to the end (bootloader/usb.c): packets
 are reassembled into words, placed in two regions, and the metadata is restored last.
 */
module InstallDevice {
  import opened Bytes
  import opened FlashMemory
  import opened InstallModel

  datatype State = Ready | Open | FlashStart | Flashing | Check | End

  datatype Answer = Nothing | Features | Success | Failure | ButtonRequest

  type Packet = s: Bytes | |s| == 64 witness seq(64, _ => 0)

  const MSG_INITIALIZE: nat := 0x0000
  const MSG_PING: nat := 0x0001
  const MSG_WIPE_DEVICE: nat := 0x0005
  const MSG_FIRMWARE_ERASE: nat := 0x0006
  const MSG_FIRMWARE_UPLOAD: nat := 0x0007
  const MSG_BUTTON_ACK: nat := 0x001B
  const MSG_SELF_TEST: nat := 0x0020
  const MSG_GET_FEATURES: nat := 0x0037

  const FLASH_LEN_MAX: nat := 983296

  /** The hash that the self test expects, and the word it programs. */
  const PATTERN_HASH: Bytes := [
    0xa6, 0xc2, 0x25, 0xa4, 0x76, 0xa1, 0xde, 0x76, 0x09, 0xe0, 0xb0, 0x07, 0xf8, 0xe2, 0x5a, 0xec,
    0x1d, 0x75, 0x8d, 0x5c, 0x36, 0xc8, 0x4a, 0x6b, 0x75, 0x4e, 0xd5, 0x3d, 0xe6, 0x99, 0x97, 0x64]
  const PATTERN: uint32 := 0x3C69_5A0F

  function Patterns(n: nat): seq<uint32>
  {
    seq(n, _ => PATTERN)
  }

  /** `readprotobufint`: the value modulo 2^32, and the position behind it. */
  function ReadProtobufInt(buf: Packet, at: nat): (r: (uint32, nat))
    requires at <= 59
    ensures at < r.1 <= at + 5
  {
    var b0, b1, b2, b3, b4 := buf[at] as int, buf[at + 1] as int, buf[at + 2] as int, buf[at + 3] as int,
        buf[at + 4] as int;
    if b0 < 128 then (b0, at + 1)
    else if b1 < 128 then (b0 % 128 + b1 * 128, at + 2)
    else if b2 < 128 then (b0 % 128 + b1 % 128 * 128 + b2 * 16384, at + 3)
    else if b3 < 128 then (b0 % 128 + b1 % 128 * 128 + b2 % 128 * 16384 + b3 * 2097152, at + 4)
    else ((b0 % 128 + b1 % 128 * 128 + b2 % 128 * 16384 + b3 % 128 * 2097152 + b4 % 128 * 268435456) % TWO32, at + 5)
  }

  /** A number in the wire format of Protocol Buffers: seven bits a byte, the lowest first. */
  function ProtobufInt(x: nat): (r: Bytes)
    ensures |r| > 0
  {
    if x < 128 then [x as byte] else [(x % 128 + 128) as byte] + ProtobufInt(x / 128)
  }

  /** Any number of 32 bits in that format is read back, and exactly its bytes. */
  lemma LengthRoundTrip(buf: Packet, at: nat, x: uint32)
    requires at <= 59 && ProtobufInt(x) <= buf[at..]
    ensures ReadProtobufInt(buf, at) == (x, at + |ProtobufInt(x)|)
  {
    hide ProtobufInt, ReadProtobufInt;
    var x1 := Digit(buf, at, x);
    if x < 128 {
      ReadsUpToFour(buf, at, 1, x, 0, 0, 0);
      return;
    }
    var x2 := Digit(buf, at + 1, x1);
    if x1 < 128 {
      ReadsUpToFour(buf, at, 2, x, x1, 0, 0);
      return;
    }
    var x3 := Digit(buf, at + 2, x2);
    if x2 < 128 {
      ReadsUpToFour(buf, at, 3, x, x1, x2, 0);
      return;
    }
    var x4 := Digit(buf, at + 3, x3);
    if x3 < 128 {
      ReadsUpToFour(buf, at, 4, x, x1, x2, x3);
    } else {
      var x5 := Digit(buf, at + 4, x4);
      ReadsFive(buf, at, x, x1, x2, x3, x4);
    }
  }

  lemma ReadsUpToFour(buf: Packet, at: nat, n: nat, x: nat, x1: nat, x2: nat, x3: nat)
    requires at <= 59 && 1 <= n <= 4
    requires n == 1 ==> x < 128 && buf[at] as int == x
    requires n > 1 ==> buf[at] as int >= 128 && x == 128 * x1 + buf[at] as int - 128
    requires n == 2 ==> x1 < 128 && buf[at + 1] as int == x1
    requires n > 2 ==> buf[at + 1] as int >= 128 && x1 == 128 * x2 + buf[at + 1] as int - 128
    requires n == 3 ==> x2 < 128 && buf[at + 2] as int == x2
    requires n > 3 ==> buf[at + 2] as int >= 128 && x2 == 128 * x3 + buf[at + 2] as int - 128
    requires n == 4 ==> x3 < 128 && buf[at + 3] as int == x3
    ensures ReadProtobufInt(buf, at) == (x, at + n)
  {
  }

  lemma ReadsFive(buf: Packet, at: nat, x: uint32, x1: nat, x2: nat, x3: nat, x4: nat)
    requires at <= 59
    requires buf[at] as int >= 128 && x == 128 * x1 + buf[at] as int - 128
    requires buf[at + 1] as int >= 128 && x1 == 128 * x2 + buf[at + 1] as int - 128
    requires buf[at + 2] as int >= 128 && x2 == 128 * x3 + buf[at + 2] as int - 128
    requires buf[at + 3] as int >= 128 && x3 == 128 * x4 + buf[at + 3] as int - 128
    requires x4 < 128 ==> buf[at + 4] as int == x4
    ensures x4 < 128 && ReadProtobufInt(buf, at) == (x, at + 5)
  {
    assert x4 < 16;
    LowSeven(buf[at]);
    LowSeven(buf[at + 1]);
    LowSeven(buf[at + 2]);
    LowSeven(buf[at + 3]);
    assert buf[at + 4] as int % 128 == x4;
    var sum := buf[at] as int - 128 + (buf[at + 1] as int - 128) * 128 + (buf[at + 2] as int - 128) * 16384
               + (buf[at + 3] as int - 128) * 2097152 + x4 * 268435456;
    assert sum == x && x % TWO32 == x;
  }

  lemma LowSeven(b: byte)
    requires b as int >= 128
    ensures b as int % 128 == b as int - 128
  {
  }

  /** One byte of it, and what is left of the number. */
  lemma Digit(buf: Packet, at: nat, x: nat) returns (rest: nat)
    requires at < 64 && ProtobufInt(x) <= buf[at..]
    ensures if x < 128 then buf[at] as int == x && |ProtobufInt(x)| == 1
            else && buf[at] as int >= 128 && x == 128 * rest + (buf[at] as int - 128)
                 && |ProtobufInt(x)| == 1 + |ProtobufInt(rest)|
                 && at + 1 < 64 && ProtobufInt(rest) <= buf[at + 1..]
  {
    rest := x / 128;
    assert buf[at..][0] == buf[at] && buf[at..][1..] == buf[at + 1..];
    assert ProtobufInt(x)[0] == buf[at];
    if x >= 128 {
      assert ProtobufInt(x)[1..] == ProtobufInt(rest);
      assert ProtobufInt(x)[1..] <= buf[at..][1..];
      assert |ProtobufInt(rest)| <= |buf[at + 1..]|;
    }
  }

  /** Storage survives an installation only between signed firmwares, when the new one asks for it. */
  predicate KeepsStorage(brandNew: bool, oldWasUnsigned: bool, header: uint32, newSigned: bool)
  {
    !brandNew && !oldWasUnsigned && header / 0x100_0000 % 2 == 1 && newSigned
  }

  /** The metadata prepared at the end: magic or zero, the new header, and storage kept or zeroed. */
  function PreparedMeta(base: Image, s: Image, keep: bool, confirmed: bool): (r: seq<uint32>)
    ensures |r| == META_WORDS
  {
    [if confirmed then MAGIC else 0] + s[1..DESC_WORDS]
    + (if keep then base[DESC_WORDS..META_WORDS] else seq(META_WORDS - DESC_WORDS, _ => 0))
  }

  lemma PreparedFits(base: Image, s: Image, image: Bytes, n: nat, keep: bool, confirmed: bool)
    requires 1 <= n && 4 * n <= |image| && HoldsPlaced(s, image, n)
    ensures Prepared(s, PreparedMeta(base, s, keep, confirmed)) && s[0] == ERASED
  {
  }

  /** The flag asking for storage to be kept is the lowest bit of byte 11 of the image. */
  lemma FlagBit(b: Bytes)
    requires |b| == 4
    ensures FromLe32(b) / 0x100_0000 % 2 == b[3] % 2
  {
    Pow256Values();
    var b1, b2, b3 := b[1..], b[2..], b[3..];
    assert b1[1..] == b2 && b2[1..] == b3 && b3[1..] == [];
    assert FromLittleEndian(b3) == b[3] as int;
    assert FromLittleEndian(b2) == b[2] as int + 0x100 * b[3] as int;
    assert FromLittleEndian(b1) == b[1] as int + 0x100 * b[2] as int + 0x1_0000 * b[3] as int;
  }

  /** What the metadata comes to, word by word. */
  lemma PreparedWords(base: Image, s: Image, image: Bytes, n: nat, brandNew: bool, wasSigned: bool, newSigned: bool,
                      confirmed: bool, t: Image)
    requires 1 <= n <= IMAGE_WORDS && 4 * n <= |image| && HoldsPlaced(s, image, n)
    requires t[..META_WORDS]
          == PreparedMeta(base, s, KeepsStorage(brandNew, brandNew || !wasSigned, s[2], newSigned), confirmed)
    ensures t[0] == if confirmed then 0x5446_4153 else 0
    ensures forall i :: 1 <= i < 64 ==> t[i] == if i < n then FromLe32(image[4 * i..4 * i + 4]) else 0xffff_ffff
    ensures if !brandNew && wasSigned && (n <= 2 || image[11] % 2 == 1) && newSigned then t[64..8192] == base[64..8192]
            else forall i :: 64 <= i < 8192 ==> t[i] == 0
  {
    hide FromLe32;
    var meta := PreparedMeta(base, s, KeepsStorage(brandNew, brandNew || !wasSigned, s[2], newSigned), confirmed);
    assert forall i :: 0 <= i < META_WORDS ==> t[i] == t[..META_WORDS][i] == meta[i];
    assert s[2] == Placed(image, n, 2);
    if n > 2 {
      FlagBit(image[8..12]);
    }
  }

  lemma FirstIsMagic(base: Image, s: Image, keep: bool, confirmed: bool)
    ensures PreparedMeta(base, s, keep, confirmed)[0] == MAGIC <==> confirmed
  {
  }

  lemma AppendOne<T>(a: seq<T>, buf: seq<T>, from: nat, i: nat)
    requires from <= i < |buf|
    ensures a + buf[from..i] + [buf[i]] == a + buf[from..i + 1]
  {
  }

  lemma Append3<T>(a: seq<T>, b: seq<T>, c: seq<T>)
    ensures a + b + c == a + (b + c)
  {
  }

  lemma EraseInOrder(s: Image)
    ensures DoAll(s, EraseOps()) == DoAll(Do(Do(s, Erase(First)), Erase(Last)), EraseCode(8))
  {
    hide Do, DoAll;
    DoOne(s, Erase(First));
    DoAllAppend(s, [Erase(First)], EraseRest());
    DoOne(Do(s, Erase(First)), Erase(Last));
    DoAllAppend(Do(s, Erase(First)), [Erase(Last)], EraseCode(8));
  }

  class Bootloader {
    const chip: Chip
    const signaturesOk: Image -> bool   // `signatures_ok`, of the firmware in flash
    const towrite: array<byte>
    const metaBackup: array<uint32>
    var state: State
    var flashPos: nat
    var flashLen: nat
    var wi: nat
    var msgId: nat
    var brandNew: bool
    var oldWasUnsigned: bool
    ghost var base: Image        // flash when the erasing began
    ghost var wasSigned: bool    // and whether its signatures were good
    ghost var image: Bytes       // the firmware bytes received since
    ghost var install: seq<Op>   // the flash operations since

    ghost predicate Separate()
    {
      && towrite.Length == 4 && metaBackup.Length == META_WORDS
      && chip.words != metaBackup
    }

    ghost predicate Placing()
      reads `flashPos, `wi, `image, `install, chip, chip.words, towrite
    {
      && chip.words.Length == WORDS && towrite.Length == 4
      && 4 <= flashPos && flashPos % 4 == 0 && flashPos <= 4 * IMAGE_WORDS && wi < 4
      && |image| == flashPos + wi && image[..4] == MAGIC_BYTES
      && towrite[..wi] == image[flashPos..]
      && install == EraseOps() + PlaceOps(image, flashPos / 4)
      && HoldsPlaced(chip.Contents(), image, flashPos / 4)
    }

    /** Every code word of the announced length is the received image's. */
    ghost predicate CodeInPlace()
      reads `flashLen, `image, chip, chip.words
    {
      && chip.words.Length == WORDS && flashLen <= |image| && flashLen <= 4 * IMAGE_WORDS
      && HoldsCode(chip.Contents(), image, flashLen / 4)
    }

    /** Wherever the power may have gone so far, the magic stands over unchanged code. */
    ghost predicate CutsKeepCode()
      reads `base, `install
    {
      forall t: Image :: Cut(base, install, t) && t[0] == MAGIC ==> SameCode(base, t)
    }

    /** Or, once that is confirmed, over the complete image. */
    ghost predicate CutsAreSafe(confirmed: bool)
      reads `base, `install, `flashLen, `image
    {
      forall t: Image :: Cut(base, install, t) && t[0] == MAGIC ==>
        || SameCode(base, t)
        || (confirmed && flashLen <= |image| && flashLen <= 4 * IMAGE_WORDS && HoldsCode(t, image, flashLen / 4))
    }

    /** The flash is what the installation has made of it so far. */
    ghost predicate Tracking()
      reads `flashPos, `wi, `image, `install, `base, chip, chip.words, towrite
    {
      chip.Valid() && Separate() && Placing() && chip.Contents() == DoAll(base, install)
    }

    ghost predicate Valid()
      reads this, chip, chip.words, towrite, metaBackup
    {
      && chip.Valid() && Separate()
      && (state.FlashStart? || state.Flashing? || state.Check? ==>
            && chip.Contents() == DoAll(base, install)
            && oldWasUnsigned == (brandNew || !wasSigned) && (oldWasUnsigned || metaBackup[..] == base[..META_WORDS]))
      && (state.FlashStart? ==> install == EraseOps() && Blank(chip.Contents()))
      && (state.Flashing? || state.Check? ==> Placing() && flashLen <= FLASH_LEN_MAX)
      && (state.Check? ==> flashPos == flashLen)
    }

    /**
     The end of an installation, word by word: the magic exactly when confirmed, the header and the
     code of the image, and the old storage or none of it.
     */
    ghost predicate InstalledAs(confirmed: bool, newSigned: bool)
      reads `brandNew, `wasSigned, `flashLen, `image, `base, chip, chip.words
    {
      && chip.words.Length == WORDS && 4 <= flashLen <= FLASH_LEN_MAX && flashLen % 4 == 0 && flashLen <= |image|
      && chip.words[0] == (if confirmed then 0x5446_4153 else 0)
      && (forall i :: 1 <= i < 64 ==>
            chip.words[i] == if 4 * i < flashLen then FromLe32(image[4 * i..4 * i + 4]) else 0xffff_ffff)
      && (forall i :: 8192 <= i < 8128 + flashLen / 4 ==>
            chip.words[i] == FromLe32(image[4 * (i - 8128)..4 * (i - 8128) + 4]))
      && if !brandNew && wasSigned && (flashLen < 12 || image[11] % 2 == 1) && newSigned
         then chip.words[64..8192] == base[64..8192]
         else forall i :: 64 <= i < 8192 ==> chip.words[i] == 0
    }

    constructor (chip: Chip, brandNew: bool, signaturesOk: Image -> bool)
      requires chip.Valid()
      ensures Valid() && this.chip == chip && state == Ready && this.brandNew == brandNew
      ensures this.signaturesOk == signaturesOk
      ensures fresh(towrite) && fresh(metaBackup)
    {
      this.chip, this.brandNew, this.signaturesOk := chip, brandNew, signaturesOk;
      state, flashPos, flashLen, wi, msgId, oldWasUnsigned := Ready, 0, 0, 0, 0xFFFF, true;
      towrite := new byte[4];
      metaBackup := new uint32[META_WORDS];
    }

    // ---------------------------------------------------------------- erasing

    method EraseAll()
      requires chip.Valid()
      modifies chip`ops, chip.words
      ensures chip.Valid() && chip.Contents() == DoAll(old(chip.Contents()), EraseOps()) && Blank(chip.Contents())
    {
      hide Do, DoAll, EraseOps, Blank;
      ghost var before := chip.Contents();
      chip.EraseSector(First);
      chip.EraseSector(Last);
      EraseCodeSectors();
      EraseInOrder(before);
      EraseIsComplete(before);
    }

    method EraseCodeSectors()
      requires chip.Valid()
      modifies chip`ops, chip.words
      ensures chip.Valid() && chip.Contents() == DoAll(old(chip.Contents()), EraseCode(8))
    {
      hide Do, DoAll;
      ghost var before := chip.Contents();
      DoNone(before);
      assert EraseCode(0) == [];
      for i := 0 to 8
        invariant chip.Valid() && chip.Contents() == DoAll(before, EraseCode(i))
      {
        ghost var s := chip.Contents();
        chip.EraseSector(Code(i));
        DoAllAppend(before, EraseCode(i), [Erase(Code(i))]);
        DoOne(s, Erase(Code(i)));
        assert EraseCode(i + 1) == EraseCode(i) + [Erase(Code(i))];
      }
    }

    /** `backup_metadata`. */
    method BackupMetadata()
      requires chip.Valid() && Separate()
      modifies metaBackup
      ensures metaBackup[..] == chip.Contents()[..META_WORDS]
    {
      for i := 0 to META_WORDS
        invariant forall j :: 0 <= j < i ==> metaBackup[j] == chip.words[j]
      {
        metaBackup[i] := chip.words[i];
      }
    }

    /** FirmwareErase: metadata of signed firmware is kept aside, then everything is erased. */
    method FirmwareErase(yes: bool) returns (r: Answer)
      requires Valid() && state == Open
      modifies this`state, this`oldWasUnsigned, this`base, this`wasSigned, this`install, chip`ops, chip.words,
               metaBackup
      ensures Valid()
      ensures if brandNew || yes
        then && state == FlashStart && r == Success && base == old(chip.Contents())
             && wasSigned == signaturesOk(base) && oldWasUnsigned == (brandNew || !wasSigned)
        else && state == End && r == Failure && chip.Contents() == old(chip.Contents())
             && base == old(base) && wasSigned == old(wasSigned)
    {
      if brandNew || yes {
        base := chip.Contents();
        wasSigned := signaturesOk(base);
        if !brandNew && signaturesOk(chip.Contents()) {
          oldWasUnsigned := false;
          BackupMetadata();
        } else {
          oldWasUnsigned := true;
        }
        EraseAll();
        install := EraseOps();
        state := FlashStart;
        r := Success;
      } else {
        state := End;
        r := Failure;
      }
    }

    /** WipeDevice. */
    method WipeDevice(yes: bool) returns (r: Answer)
      requires Valid() && (state == Ready || state == Open)
      modifies this`state, chip`ops, chip.words
      ensures Valid() && state == End && r == if yes then Success else Failure
      ensures if yes then Blank(chip.Contents()) else chip.Contents() == old(chip.Contents())
    {
      if yes {
        EraseAll();
      }
      state := End;
      r := if yes then Success else Failure;
    }

    // ------------------------------------------------------------ self test

    /** `erase_metadata_sectors`. */
    method EraseMetadata()
      requires chip.Valid()
      modifies chip`ops, chip.words
      ensures chip.Valid()
      ensures forall i :: 0 <= i < WORDS ==>
        chip.Contents()[i] == if i < META_WORDS then ERASED else old(chip.Contents())[i]
    {
      chip.EraseSector(First);
      chip.EraseSector(Last);
    }

    method ProgramPattern()
      requires chip.Valid() && forall i :: 0 <= i < META_WORDS ==> chip.Contents()[i] == ERASED
      modifies chip`ops, chip.words
      ensures chip.Valid()
      ensures forall i :: 0 <= i < WORDS ==>
        chip.Contents()[i] == if i < META_WORDS then PATTERN else old(chip.Contents())[i]
    {
      hide DoAll, Do;
      ghost var before := chip.Contents();
      DoNone(before);
      for i := 0 to META_WORDS
        invariant chip.Valid() && chip.Contents() == DoAll(before, WriteWords(0, Patterns(i)))
      {
        ghost var s := chip.Contents();
        chip.Write32(i, PATTERN);
        assert Patterns(i + 1) == Patterns(i) + [PATTERN];
        WriteWordsSnoc(0, Patterns(i), PATTERN);
        DoAllAppend(before, WriteWords(0, Patterns(i)), [Write(i, PATTERN)]);
        DoOne(s, Write(i, PATTERN));
      }
      WrittenWords(before, 0, Patterns(META_WORDS));
    }

    /**
     The flash part of SelfTest: the metadata is kept aside, the pattern is in place where its
     hash is taken, and in the end flash is as it was. `others` is the outcome of the other tests.
     */
    method SelfTest(others: bool, hash: seq<uint32> -> Bytes) returns (r: Answer)
      requires Valid() && (state == Ready || state == Open)
      modifies metaBackup, chip`ops, chip.words
      ensures Valid() && chip.Contents() == old(chip.Contents())
      ensures r == if others && hash(Patterns(META_WORDS)) == PATTERN_HASH then Success else Failure
    {
      ghost var before := chip.Contents();
      BackupMetadata();
      ghost var backup := metaBackup[..];
      EraseMetadata();
      ProgramPattern();
      var digest := hash(chip.words[..META_WORDS]);
      assert chip.Contents()[..META_WORDS] == Patterns(META_WORDS);
      EraseMetadata();
      ghost var erased := chip.Contents();
      RestoreMetadata();
      WrittenWords(erased, 0, backup);
      assert chip.Contents() == before;
      ClearBackup();
      r := if others && digest == PATTERN_HASH then Success else Failure;
    }

    // ---------------------------------------------------------------- placing

    /** A full word buffer is programmed at its place. */
    method ProgramWord()
      requires chip.Valid() && Separate() && chip.Contents() == DoAll(base, install)
      requires 4 <= flashPos && flashPos % 4 == 0 && flashPos / 4 < IMAGE_WORDS && |image| == flashPos + 4
      requires towrite[..] == image[flashPos..] && install == EraseOps() + PlaceOps(image, flashPos / 4)
      requires HoldsPlaced(chip.Contents(), image, flashPos / 4)
      modifies this`flashPos, this`wi, this`install, chip`ops, chip.words
      ensures chip.Valid() && chip.Contents() == DoAll(base, install)
      ensures flashPos == old(flashPos) + 4 && wi == 0 && install == EraseOps() + PlaceOps(image, flashPos / 4)
      ensures HoldsPlaced(chip.Contents(), image, flashPos / 4)
    {
      hide HoldsPlaced, PlaceOps, DoAll, Do, EraseOps, FromLe32;
      ghost var n, before := flashPos / 4, chip.Contents();
      assert image[flashPos..] == image[4 * n..4 * n + 4];
      var w := FromLe32(towrite[..]);
      ghost var op := Write(Location(n), ImageWord(image, n));
      PlaceOne(before, image, n);
      PlaceSnoc(image, n);
      Append3(EraseOps(), PlaceOps(image, n), [op]);
      DoAllAppend(base, install, [op]);
      DoOne(before, op);
      if flashPos < 256 {
        chip.Write32(flashPos / 4, w);
      } else {
        chip.Write32(APP + (flashPos - 256) / 4, w);
      }
      install := install + [op];
      flashPos := flashPos + 4;
      wi := 0;
    }

    /** One byte into the word buffer. */
    method TakeByte(b: byte)
      requires Tracking() && flashPos < 4 * IMAGE_WORDS
      modifies this`flashPos, this`wi, this`image, this`install, towrite, chip`ops, chip.words
      ensures Tracking() && image == old(image) + [b]
      ensures flashPos + wi == old(flashPos + wi) + 1
      ensures flashPos == old(flashPos) || (flashPos == old(flashPos) + 4 && wi == 0)
    {
      hide PlaceOps, DoAll, EraseOps, Placed;
      PlacedPrefix(image, [b], flashPos / 4);
      towrite[wi] := b;
      wi := wi + 1;
      image := image + [b];
      if wi == 4 {
        assert towrite[..4] == towrite[..];
        ProgramWord();
      }
    }

    method Fail() returns (r: Answer)
      modifies this`state
      ensures state == End && r == Failure
    {
      state := End;
      r := Failure;
    }

    lemma PlacingBound()
      requires Tracking()
      ensures flashPos + wi == |image|
    {
    }

    lemma PlacingAligned()
      requires Tracking()
      ensures flashPos % 4 == 0 && wi < 4
    {
    }

    /** The bytes of the first packet, whatever the announced length. */
    method TakeRest(buf: Packet, q: nat)
      requires Tracking() && q <= 64 && |image| < 128
      modifies this`flashPos, this`wi, this`image, this`install, towrite, chip`ops, chip.words
      ensures Tracking() && image == old(image) + buf[q..]
    {
      hide Tracking;
      for i := q to 64
        invariant Tracking() && image == old(image) + buf[q..i]
      {
        PlacingBound();
        AppendOne(old(image), buf, q, i);
        TakeByte(buf[i]);
      }
    }

    /**
     FirmwareUpload: length, magic, and the bytes of the image in the first packet; the magic itself
     is not placed.
     */
    method FirmwareUpload(buf: Packet) returns (r: Answer)
      requires Valid() && state == FlashStart
      modifies this`state, this`flashPos, this`flashLen, this`wi, this`image, this`install, towrite, chip`ops,
               chip.words
      ensures Valid()
      ensures var (len, q) := ReadProtobufInt(buf, 10);
        if buf[9] == 0x0a && len <= FLASH_LEN_MAX && buf[q..q + 4] == MAGIC_BYTES
        then state == Flashing && r == Nothing && flashLen == len && image == buf[q..]
        else state == End && r == Failure && chip.Contents() == old(chip.Contents()) && install == old(install)
    {
      hide ReadProtobufInt, Blank, HoldsPlaced, EraseOps, PlaceOps, DoAll;
      var (len, q) := ReadProtobufInt(buf, 10);
      if buf[9] != 0x0a || len > FLASH_LEN_MAX || buf[q..q + 4] != MAGIC_BYTES {
        state := End;
        r := Failure;
      } else {
        flashLen := len;
        BeginPlacing();
        assert buf[q..] == buf[q..q + 4] + buf[q + 4..];
        hide Placing;
        TakeRest(buf, q + 4);
        r := Nothing;
      }
    }

    method BeginPlacing()
      requires Valid() && state == FlashStart
      modifies this`state, this`flashPos, this`wi, this`image
      ensures state == Flashing && image == MAGIC_BYTES && flashPos == 4 && wi == 0
      ensures Tracking()
    {
      state, flashPos, wi, image := Flashing, 4, 0, MAGIC_BYTES;
      assert EraseOps() + PlaceOps(image, 1) == EraseOps();
    }

    /** Bytes of a later packet, until the announced length is placed. */
    method TakeUpTo(buf: Packet) returns (i: nat)
      requires Tracking() && flashLen <= FLASH_LEN_MAX
      modifies this`flashPos, this`wi, this`image, this`install, towrite, chip`ops, chip.words
      ensures Tracking() && 1 <= i <= 64 && image == old(image) + buf[1..i] && old(flashPos) <= flashPos
      ensures flashPos >= flashLen ==> i == 1 || (wi == 0 && flashPos - 4 < flashLen)
      ensures flashPos < flashLen ==> i == 64
    {
      i := 1;
      hide Tracking;
      while i < 64 && flashPos < flashLen
        invariant 1 <= i <= 64 && Tracking()
        invariant image == old(image) + buf[1..i] && old(flashPos) <= flashPos
        invariant flashPos >= flashLen ==> i == 1 || (wi == 0 && flashPos - 4 < flashLen)
        decreases 64 - i
      {
        AppendOne(old(image), buf, 1, i);
        TakeByte(buf[i]);
        i := i + 1;
      }
    }

    /**
     The bytes of one more packet; exactly when they complete a length that is a multiple of four,
     the check follows.
     */
    method FlashPacket(buf: Packet)
      requires Valid() && state == Flashing
      modifies this`state, this`flashPos, this`wi, this`image, this`install, towrite, chip`ops, chip.words
      ensures Valid() && (state == Check || state == Flashing)
      ensures old(image) <= image <= old(image) + buf[1..]
      ensures state == Check <==> flashLen % 4 == 0 && old(flashPos) <= flashLen <= old(flashPos + wi) + 63
      ensures flashPos < flashLen ==> image == old(image) + buf[1..]
    {
      hide Placing, DoAll, HoldsPlaced, PlaceOps;
      PlacingBound();
      PlacingAligned();
      var i := TakeUpTo(buf);
      PlacingBound();
      PlacingAligned();
      assert buf[1..] == buf[1..i] + buf[i..];
      Append3(old(image), buf[1..i], buf[i..]);
      if flashPos == flashLen {
        state := Check;
      }
    }

    // ---------------------------------------------------------------- the end

    /** Storage is dropped, the new header copied, and the magic set or withheld. */
    method PrepareMetadata(keep: bool, confirmed: bool)
      requires Valid() && state == Check && (keep ==> !oldWasUnsigned)
      modifies metaBackup
      ensures metaBackup[..] == PreparedMeta(base, chip.Contents(), keep, confirmed)
    {
      hide Placing, HoldsPlaced, DoAll;
      if !keep {
        ClearBackup();
      }
      CopyHeader();
      metaBackup[0] := if confirmed then MAGIC else 0;
    }

    method ClearBackup()
      requires metaBackup.Length == META_WORDS
      modifies metaBackup
      ensures metaBackup[..] == seq(META_WORDS, _ => 0)
    {
      for i := 0 to META_WORDS
        invariant forall j :: 0 <= j < i ==> metaBackup[j] == 0
      {
        metaBackup[i] := 0;
      }
    }

    /** The descriptor is taken from flash. */
    method CopyHeader()
      requires chip.Valid() && metaBackup.Length == META_WORDS && metaBackup != chip.words
      modifies metaBackup
      ensures metaBackup[..] == chip.words[..DESC_WORDS] + old(metaBackup[DESC_WORDS..])
    {
      for i := 0 to DESC_WORDS
        invariant metaBackup[..i] == chip.words[..i] && metaBackup[DESC_WORDS..] == old(metaBackup[DESC_WORDS..])
      {
        metaBackup[i] := chip.words[i];
      }
    }

    /** `restore_metadata`. */
    method RestoreMetadata()
      requires chip.Valid() && Separate()
      modifies chip`ops, chip.words
      ensures chip.Valid() && chip.Contents() == DoAll(old(chip.Contents()), RestoreOps(metaBackup[..]))
    {
      hide DoAll, Do;
      ghost var before, backup := chip.Contents(), metaBackup[..];
      DoNone(before);
      for i := 0 to META_WORDS
        invariant chip.Valid() && metaBackup[..] == backup
        invariant chip.Contents() == DoAll(before, WriteWords(0, backup[..i]))
      {
        ghost var s := chip.Contents();
        chip.Write32(i, metaBackup[i]);
        assert backup[..i + 1] == backup[..i] + [backup[i]];
        WriteWordsSnoc(0, backup[..i], backup[i]);
        DoAllAppend(before, WriteWords(0, backup[..i]), [Write(i, backup[i])]);
        DoOne(s, Write(i, backup[i]));
      }
      assert backup[..META_WORDS] == backup;
    }

    /**
     The end of an installation: the metadata ends up exactly as prepared, the code words
     are the image's, and the magic is there just when the hash was confirmed.
     */
    method Finish(yes: bool, ghost prepared: seq<uint32>) returns (r: Answer)
      requires Valid() && state == Check
      requires prepared == PreparedMeta(base, chip.Contents(),
        KeepsStorage(brandNew, oldWasUnsigned, chip.words[2], signaturesOk(chip.Contents())), brandNew || yes)
      modifies this`state, this`install, metaBackup, chip`ops, chip.words
      ensures Valid() && state == End && r == (if brandNew || yes then Success else Failure)
      ensures install == old(install) + RestoreOps(prepared) && chip.Contents() == DoAll(base, install)
      ensures chip.Contents()[..META_WORDS] == prepared && (chip.words[0] == MAGIC <==> brandNew || yes)
      ensures CodeInPlace() && CutsAreSafe(brandNew || yes)
      ensures InstalledAs(brandNew || yes, signaturesOk(old(chip.Contents())))
    {
      hide PreparedMeta, DoAll, Prepared, HoldsCode, CutsAreSafe, InstalledAs, KeepsStorage, HoldsPlaced, PlaceOps,
           EraseOps, RestoreOps, CodeInPlace;
      var confirmed := brandNew || yes;
      ghost var before := chip.Contents();
      Prepare(confirmed, prepared);
      assert HoldsPlaced(before, image, flashLen / 4) && 4 <= flashLen && flashLen % 4 == 0;
      hide Placing;
      RestoreAndTrack(prepared);
      assert chip.words[0] == chip.Contents()[..META_WORDS][0];
      AsInstalled(before, confirmed, signaturesOk(before));
      state := End;
      r := if confirmed then Success else Failure;
    }

    /** The backup becomes the metadata to be written. */
    method Prepare(confirmed: bool, ghost prepared: seq<uint32>)
      requires Valid() && state == Check
      requires prepared == PreparedMeta(base, chip.Contents(),
        KeepsStorage(brandNew, oldWasUnsigned, chip.words[2], signaturesOk(chip.Contents())), confirmed)
      modifies metaBackup
      ensures metaBackup[..] == prepared && Prepared(chip.Contents(), prepared) && (prepared[0] == MAGIC <==> confirmed)
    {
      hide DoAll, HoldsPlaced, Prepared;
      var keep := KeepsStorage(brandNew, oldWasUnsigned, chip.words[2], signaturesOk(chip.Contents()));
      PreparedFits(base, chip.Contents(), image, flashPos / 4, keep, confirmed);
      FirstIsMagic(base, chip.Contents(), keep, confirmed);
      PrepareMetadata(keep, confirmed);
    }

    /** A new device has no storage to keep. */
    lemma NewHasNoStorage(confirmed: bool, a: bool, b: bool)
      requires brandNew && InstalledAs(confirmed, a)
      ensures InstalledAs(confirmed, b)
    {
    }

    lemma AsInstalled(before: Image, confirmed: bool, newSigned: bool)
      requires chip.Valid() && 4 <= flashLen <= FLASH_LEN_MAX && flashLen % 4 == 0 && CodeInPlace()
      requires HoldsPlaced(before, image, flashLen / 4)
      requires chip.Contents()[..META_WORDS] == PreparedMeta(base, before,
        KeepsStorage(brandNew, brandNew || !wasSigned, before[2], newSigned), confirmed)
      ensures InstalledAs(confirmed, newSigned)
    {
      hide FromLe32, PreparedMeta, DoAll;
      var n := flashLen / 4;
      PreparedWords(base, before, image, n, brandNew, wasSigned, newSigned, confirmed, chip.Contents());
      forall i | 8192 <= i < 8128 + n ensures chip.words[i] == FromLe32(image[4 * (i - 8128)..4 * (i - 8128) + 4]) {
        assert Location(i - 8128) == i && chip.words[i] == chip.Contents()[Location(i - 8128)];
        assert ImageWord(image, i - 8128) == FromLe32(image[4 * (i - 8128)..4 * (i - 8128) + 4]);
      }
      assert chip.words[64..8192] == chip.Contents()[64..8192];
    }

    lemma StorageAsInstalled(confirmed: bool, newSigned: bool)
      ensures InstalledAs(confirmed, newSigned) ==>
        && chip.words.Length == WORDS && flashLen <= |image|
        && if !brandNew && wasSigned && (flashLen < 12 || image[11] % 2 == 1) && newSigned
           then chip.words[64..8192] == base[64..8192]
           else forall i :: 64 <= i < 8192 ==> chip.words[i] == 0
    {
    }

    method RestoreAndTrack(ghost prepared: seq<uint32>)
      requires Tracking() && flashPos == flashLen && Prepared(chip.Contents(), prepared) && metaBackup[..] == prepared
      modifies this`install, chip`ops, chip.words
      ensures chip.Valid() && chip.Contents() == DoAll(base, install) && install == old(install) + RestoreOps(prepared)
      ensures chip.Contents()[..META_WORDS] == prepared && CodeInPlace() && CutsAreSafe(prepared[0] == MAGIC)
    {
      hide DoAll, PlaceOps, RestoreOps, Prepared, HoldsCode, HoldsPlaced, CutsAreSafe, EraseOps;
      ghost var s := chip.Contents();
      RestoreMetadata();
      DoAllAppend(base, install, RestoreOps(prepared));
      install := install + RestoreOps(prepared);
      Installed(s, image, flashPos / 4, prepared, chip.Contents());
      CutsInFinish(prepared);
    }

    lemma CutsInFinish(prepared: seq<uint32>)
      requires 4 <= flashLen <= 4 * IMAGE_WORDS && flashLen % 4 == 0 && flashLen <= |image| && |prepared| == META_WORDS
      requires install == EraseOps() + PlaceOps(image, flashLen / 4) + RestoreOps(prepared)
      ensures CutsAreSafe(prepared[0] == MAGIC)
    {
      hide EraseOps, PlaceOps, RestoreOps, Cut, SameCode, HoldsCode;
      forall t: Image | Cut(base, install, t) && t[0] == MAGIC
        ensures SameCode(base, t) || (prepared[0] == MAGIC && HoldsCode(t, image, flashLen / 4))
      {
        InstallIsSafe(base, image, flashLen / 4, prepared, t);
      }
    }

    /**
     One packet for the handler. The magic is over new code only once every word of the image
     is in place, and only if the user confirmed or there was no firmware before.
     */
    method RxCallback(buf: Packet, yes: bool, others: bool, hash: seq<uint32> -> Bytes) returns (r: Answer)
      requires Valid()
      modifies this, towrite, metaBackup, chip`ops, chip.words
      ensures Valid() && brandNew == old(brandNew)
      ensures old(state) == End ==> state == End && r == Nothing && chip.Contents() == old(chip.Contents())
      ensures old(state) == Ready || (old(state) == Open && state != FlashStart) ==>
        chip.Contents() == old(chip.Contents()) || (yes && state == End && Blank(chip.Contents()))
      ensures state == FlashStart || state == Flashing || state == Check ==> chip.words[0] == ERASED
      ensures chip.words[0] == MAGIC && chip.Contents() != old(chip.Contents()) ==>
        state == End && (brandNew || yes) && CodeInPlace()
      ensures old(state) == FlashStart || old(state) == Flashing || old(state) == Check || state == FlashStart ==>
        CutsAreSafe(brandNew || yes)
      ensures old(state) == Open && state == FlashStart ==>
        buf[..5] == [0x3F, 0x23, 0x23, 0, 6] && base == old(chip.Contents()) && wasSigned == signaturesOk(base)
      ensures old(state) != Open ==> base == old(base) && wasSigned == old(wasSigned)
      ensures old(state) == FlashStart && state != FlashStart ==>
        buf[..5] == [0x3F, 0x23, 0x23, 0, 7] && (state == Flashing ==> exists q :: 10 <= q < 64 && image == buf[q..])
      ensures old(state) == Flashing ==>
        && old(image) <= image <= old(image) + buf[1..]
        && (state == Flashing && flashPos < flashLen ==> image == old(image) + buf[1..])
      ensures old(state) == Check ==> image == old(image)
      ensures old(state) == Check ==>
        (state == End <==> buf[..3] == [0x3F, 0x23, 0x23] && (brandNew || buf[3..5] == [0, 0x1B]))
      ensures (old(state) == Check || (old(state) == Flashing && buf[0] == 0x3F)) && state == End ==>
        && InstalledAs(brandNew || yes, signaturesOk(old(chip.Contents())))
        && r == (if brandNew || yes then Success else Failure)
        && if !brandNew && wasSigned && (flashLen < 12 || (flashLen <= |image| && image[11] % 2 == 1))
              && signaturesOk(old(chip.Contents()))
           then chip.words[64..8192] == base[64..8192]
           else forall i :: 64 <= i < 8192 ==> chip.words[i] == 0
    {
      hide CutsAreSafe, CutsKeepCode, InstalledAs, CodeInPlace, Placing, HoldsPlaced, DoAll, Blank;
      Header(buf);
      r := Nothing;
      if state == End {
        return;
      }
      if state != Flashing {
        if buf[0] != 0x3F || buf[1] != 0x23 || buf[2] != 0x23 {
          MagicAbsent();
          PowerCut(brandNew || yes);
          return;
        }
        msgId := buf[3] as int * 256 + buf[4] as int;
      }
      if state == Ready || state == Open {
        r := Idle(yes, others, hash);
      } else if state == FlashStart {
        r := Start(buf, yes);
      } else {
        ghost var before := chip.Contents();
        r := PlaceOrFinish(buf, yes);
        StorageAsInstalled(brandNew || yes, signaturesOk(before));
        MagicAbsent();
      }
    }

    /** The two bytes behind the marker are the message, big-endian. */
    static lemma Header(buf: Packet)
      ensures buf[..3] == [0x3F, 0x23, 0x23] <==> buf[0] == 0x3F && buf[1] == 0x23 && buf[2] == 0x23
      ensures buf[3..5] == [0, 0x1B] <==> buf[3] as int * 256 + buf[4] as int == 27
      ensures buf[..5] == [0x3F, 0x23, 0x23, 0, 6]
         <==> buf[..3] == [0x3F, 0x23, 0x23] && buf[3] as int * 256 + buf[4] as int == 6
      ensures buf[..5] == [0x3F, 0x23, 0x23, 0, 7]
         <==> buf[..3] == [0x3F, 0x23, 0x23] && buf[3] as int * 256 + buf[4] as int == 7
    {
      assert buf[..3] == [buf[0], buf[1], buf[2]] && buf[3..5] == [buf[3], buf[4]];
      assert buf[..5] == [buf[0], buf[1], buf[2], buf[3], buf[4]];
    }

    /** READY and OPEN. */
    method Idle(yes: bool, others: bool, hash: seq<uint32> -> Bytes) returns (r: Answer)
      requires Valid() && (state == Ready || state == Open)
      modifies this, metaBackup, chip`ops, chip.words
      ensures Valid() && brandNew == old(brandNew) && msgId == old(msgId)
      ensures state == Ready || state == Open || state == FlashStart || state == End
      ensures state != FlashStart ==>
        && base == old(base) && wasSigned == old(wasSigned)
        && (chip.Contents() == old(chip.Contents()) || (yes && state == End && Blank(chip.Contents())))
        && (chip.words[0] == MAGIC ==> chip.Contents() == old(chip.Contents()))
      ensures state == FlashStart ==>
        && old(state) == Open && msgId == MSG_FIRMWARE_ERASE && base == old(chip.Contents())
        && wasSigned == signaturesOk(base) && chip.words[0] == ERASED && CutsAreSafe(brandNew || yes)
    {
      hide CutsAreSafe, CutsKeepCode, Placing, DoAll, HoldsPlaced;
      r := Nothing;
      if msgId == MSG_INITIALIZE {
        state := Open;
        r := Features;
      } else if msgId == MSG_GET_FEATURES {
        r := Features;
      } else if msgId == MSG_PING {
        r := Success;
      } else if msgId == MSG_WIPE_DEVICE {
        r := WipeDevice(yes);
      } else if msgId == MSG_SELF_TEST {
        r := SelfTest(others, hash);
      } else if state == Open && msgId == MSG_FIRMWARE_ERASE {
        r := FirmwareErase(yes);
        MagicAbsent();
        PowerCut(brandNew || yes);
      }
    }

    /** STATE_FLASHSTART. */
    method Start(buf: Packet, yes: bool) returns (r: Answer)
      requires Valid() && state == FlashStart
      modifies this`state, this`flashPos, this`flashLen, this`wi, this`image, this`install, towrite, chip`ops,
               chip.words
      ensures Valid() && (state == FlashStart || state == Flashing || state == End)
      ensures chip.words[0] == ERASED && CutsAreSafe(brandNew || yes)
      ensures state != FlashStart ==> msgId == MSG_FIRMWARE_UPLOAD
      ensures state == Flashing ==> exists q :: 10 <= q < 64 && image == buf[q..]
    {
      hide CutsAreSafe, CutsKeepCode, Placing, DoAll, HoldsPlaced;
      r := Nothing;
      MagicAbsent();
      PowerCut(brandNew || yes);
      if msgId == MSG_FIRMWARE_UPLOAD {
        ghost var before := chip.Contents();
        r := FirmwareUpload(buf);
        if state == Flashing {
          MagicAbsent();
          PowerCut(brandNew || yes);
        } else {
          assert CutsKeepCode();
          UntouchedIsSafe(brandNew || yes);
          assert chip.words[0] == before[0];
        }
      }
    }

    lemma MagicAbsent()
      requires Valid()
      ensures state == FlashStart || state == Flashing || state == Check ==> chip.words[0] == ERASED
    {
    }

    /** Wherever the power goes before the end, the magic is not over code that has changed. */
    lemma PowerCut(yes: bool)
      requires Valid()
      ensures state == FlashStart || state == Flashing || state == Check ==> CutsKeepCode() && CutsAreSafe(yes)
    {
      hide EraseOps, PlaceOps, Cut, SameCode, HoldsPlaced, DoAll, Blank;
      if state == FlashStart || state == Flashing || state == Check {
        var placed := if state == FlashStart then MAGIC_BYTES else image;
        var n := if state == FlashStart then 1 else flashPos / 4;
        NothingPlaced();
        forall t: Image | Cut(base, install, t) && t[0] == MAGIC ensures SameCode(base, t) {
          NoMagicWhilePlacing(base, placed, n, t);
        }
      }
    }

    static lemma NothingPlaced()
      ensures EraseOps() + PlaceOps(MAGIC_BYTES, 1) == EraseOps()
    {
    }

    lemma UntouchedIsSafe(yes: bool)
      requires CutsKeepCode()
      ensures CutsAreSafe(yes)
    {
      hide Cut, SameCode, HoldsCode;
    }

    /** STATE_FLASHING and STATE_CHECK: a new device goes on to the end in the same packet. */
    method PlaceOrFinish(buf: Packet, yes: bool) returns (r: Answer)
      requires Valid() && (state == Flashing || state == Check)
      modifies this, towrite, metaBackup, chip`ops, chip.words
      ensures Valid() && brandNew == old(brandNew) && (state == Flashing || state == Check || state == End)
      ensures chip.words[0] == MAGIC ==>
        state == End && (brandNew || yes) && CodeInPlace()
      ensures CutsAreSafe(brandNew || yes)
      ensures base == old(base) && wasSigned == old(wasSigned)
      ensures if old(state) == Flashing
              then && old(image) <= image <= old(image) + buf[1..]
                   && (state == Flashing && flashPos < flashLen ==> image == old(image) + buf[1..])
              else image == old(image) && (state == End <==> brandNew || old(msgId) == MSG_BUTTON_ACK)
      ensures (old(state) == Check || buf[0] == 0x3F) && state == End ==>
        r == (if brandNew || yes then Success else Failure)
        && InstalledAs(brandNew || yes, signaturesOk(old(chip.Contents())))
    {
      hide CutsAreSafe, CutsKeepCode, InstalledAs, CodeInPlace, Placing, DoAll, PreparedMeta, KeepsStorage, Blank,
           Separate;
      MagicAbsent();
      PowerCut(brandNew || yes);
      if state == Flashing {
        if buf[0] != 0x3F {
          r := Fail();
          return;
        }
        FlashPacket(buf);
        MagicAbsent();
        PowerCut(brandNew || yes);
        if state != Check {
          return Nothing;
        }
        if !brandNew {
          return ButtonRequest;
        }
      } else if !brandNew && msgId != MSG_BUTTON_ACK {
        return Nothing;
      }
      ghost var before := chip.Contents();
      r := Finish(yes, PreparedMeta(base, chip.Contents(),
        KeepsStorage(brandNew, oldWasUnsigned, chip.words[2], signaturesOk(chip.Contents())), brandNew || yes));
      if brandNew {
        NewHasNoStorage(true, signaturesOk(before), signaturesOk(old(chip.Contents())));
      }
    }
  }
}
