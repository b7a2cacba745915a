/**
 What installing firmware does to flash (bootloader/usb.c): everything erased, the image
 placed word by word with its magic withheld, and the metadata written over at the end.
 */
module InstallModel {
  import opened Bytes
  import opened FlashMemory

  /** "SAFT" as the word at the start of the metadata. */
  const MAGIC: uint32 := 0x5446_4153
  const MAGIC_BYTES: Bytes := [0x53, 0x41, 0x46, 0x54]

  const DESC_WORDS: nat := 64
  const APP: nat := 8192
  const IMAGE_WORDS: nat := 245824

  /** Word `k` of the image: the first 256 bytes are metadata, the rest is code. */
  function Location(k: nat): Addr
    requires k < IMAGE_WORDS
  {
    if k < DESC_WORDS then k else APP + (k - DESC_WORDS)
  }

  function ImageWord(image: Bytes, k: nat): uint32
    requires 4 * k + 4 <= |image|
  {
    FromLe32(image[4 * k..4 * k + 4])
  }

  /** Both metadata sectors, then the code sectors. */
  function EraseOps(): seq<Op>
  {
    [Erase(First)] + EraseRest()
  }

  function EraseRest(): seq<Op>
  {
    [Erase(Last)] + EraseCode(8)
  }

  function EraseCode(n: nat): (ops: seq<Op>)
    requires n <= 8
    ensures |ops| == n
  {
    seq(n, i requires 0 <= i < n => Erase(Code(i)))
  }

  /** Words 1 to n - 1 of the image. */
  function PlaceOps(image: Bytes, n: nat): (ops: seq<Op>)
    requires 1 <= n <= IMAGE_WORDS && 4 * n <= |image|
    ensures |ops| == n - 1
  {
    seq(n - 1, i requires 0 <= i < n - 1 => Write(Location(i + 1), ImageWord(image, i + 1)))
  }

  function RestoreOps(backup: seq<uint32>): seq<Op>
    requires |backup| == META_WORDS
  {
    WriteWords(0, backup)
  }

  // ------------------------------------------------------------- placement

  predicate Blank(s: Image)
  {
    forall i :: 0 <= i < WORDS ==> s[i] == ERASED
  }

  /** The word expected at an address once words 1 to n - 1 are placed. */
  function Placed(image: Bytes, n: nat, i: Addr): uint32
    requires 4 * n <= |image|
  {
    if 1 <= i < DESC_WORDS && i < n then ImageWord(image, i)
    else if APP <= i && i - APP + DESC_WORDS < n then ImageWord(image, i - APP + DESC_WORDS)
    else ERASED
  }

  ghost predicate HoldsPlaced(s: Image, image: Bytes, n: nat)
    requires 4 * n <= |image|
  {
    forall i :: 0 <= i < WORDS ==> s[i] == Placed(image, n, i)
  }

  lemma {:induction false} CodeErased(s: Image, n: nat)
    requires n <= 8
    ensures forall i :: 0 <= i < WORDS ==>
      DoAll(s, EraseCode(n))[i] == if META_WORDS <= i < (if n == 0 then META_WORDS else 24576 + (n - 1) * 32768)
          then ERASED else s[i]
  {
    if n == 0 {
      assert EraseCode(0) == [];
    } else {
      CodeErased(s, n - 1);
      assert EraseCode(n) == EraseCode(n - 1) + [Erase(Code(n - 1))];
      DoAllAppend(s, EraseCode(n - 1), [Erase(Code(n - 1))]);
      DoOne(DoAll(s, EraseCode(n - 1)), Erase(Code(n - 1)));
    }
  }

  /** The ten erases clear everything behind the bootloader. */
  lemma EraseIsComplete(s: Image)
    ensures Blank(DoAll(s, EraseOps()))
  {
    DoAllAppend(s, [Erase(First)], EraseRest());
    DoOne(s, Erase(First));
    DoAllAppend(Do(s, Erase(First)), [Erase(Last)], EraseCode(8));
    DoOne(Do(s, Erase(First)), Erase(Last));
    CodeErased(Do(Do(s, Erase(First)), Erase(Last)), 8);
  }

  lemma PlaceSnoc(image: Bytes, n: nat)
    requires 1 <= n < IMAGE_WORDS && 4 * n + 4 <= |image|
    ensures PlaceOps(image, n + 1) == PlaceOps(image, n) + [Write(Location(n), ImageWord(image, n))]
  {
  }

  /** One more word at its place. */
  lemma PlaceOne(s: Image, image: Bytes, n: nat)
    requires 1 <= n < IMAGE_WORDS && 4 * n + 4 <= |image| && HoldsPlaced(s, image, n)
    ensures HoldsPlaced(Do(s, Write(Location(n), ImageWord(image, n))), image, n + 1)
  {
    AndErased(ImageWord(image, n));
    hide And;
  }

  /** The stream goes on behind the words already placed. */
  lemma PlacedPrefix(image: Bytes, more: Bytes, n: nat)
    requires 1 <= n <= IMAGE_WORDS && 4 * n <= |image|
    ensures PlaceOps(image + more, n) == PlaceOps(image, n)
    ensures forall i: Addr :: Placed(image + more, n, i) == Placed(image, n, i)
  {
    forall k | 0 <= k < n ensures ImageWord(image + more, k) == ImageWord(image, k) {
      assert (image + more)[4 * k..4 * k + 4] == image[4 * k..4 * k + 4];
    }
  }

  lemma {:induction false} AndSame(x: nat)
    ensures And(x, x) == x
  {
    if x > 0 {
      AndSame(x / 2);
    }
  }

  /** The prepared metadata agrees with every word of the sector that is not erased. */
  ghost predicate Prepared(s: Image, backup: seq<uint32>)
  {
    |backup| == META_WORDS && forall k :: 0 <= k < META_WORDS ==> s[k] == ERASED || s[k] == backup[k]
  }

  /** Restoring then only clears bits, so flash ends up as prepared: metadata exactly, code untouched. */
  lemma {:induction false} RestoreStores(s: Image, backup: seq<uint32>, k: nat)
    requires Prepared(s, backup) && k <= META_WORDS
    ensures forall i :: 0 <= i < WORDS ==>
      DoAll(s, WriteWords(0, backup[..k]))[i] == if i < k then backup[i] else s[i]
    decreases k
  {
    if k == 0 {
      assert WriteWords(0, backup[..0]) == [];
    } else {
      RestoreStores(s, backup, k - 1);
      assert backup[..k] == backup[..k - 1] + [backup[k - 1]];
      WriteWordsSnoc(0, backup[..k - 1], backup[k - 1]);
      DoAllAppend(s, WriteWords(0, backup[..k - 1]), [Write(k - 1, backup[k - 1])]);
      DoOne(DoAll(s, WriteWords(0, backup[..k - 1])), Write(k - 1, backup[k - 1]));
      AndErased(backup[k - 1]);
      AndSame(backup[k - 1]);
    }
  }

  /** Every code word of the image is at its place. */
  ghost predicate HoldsCode(s: Image, image: Bytes, n: nat)
    requires n <= IMAGE_WORDS && 4 * n <= |image|
  {
    forall k :: DESC_WORDS <= k < n ==> s[Location(k)] == ImageWord(image, k)
  }

  /** After the whole installation: the metadata as prepared, and every code word of the image. */
  lemma Installed(s: Image, image: Bytes, n: nat, backup: seq<uint32>, t: Image)
    requires 1 <= n <= IMAGE_WORDS && 4 * n <= |image| && Prepared(s, backup)
    requires HoldsPlaced(s, image, n) && t == DoAll(s, RestoreOps(backup))
    ensures t[..META_WORDS] == backup
    ensures HoldsCode(t, image, n)
  {
    assert backup[..META_WORDS] == backup;
    RestoreStores(s, backup, META_WORDS);
    forall k | DESC_WORDS <= k < n ensures t[Location(k)] == ImageWord(image, k) {
      assert t[Location(k)] == s[Location(k)];
    }
  }

  // ----------------------------------------------------------- power cuts

  ghost predicate SameCode(s: Image, t: Image)
  {
    forall i :: APP <= i < WORDS ==> t[i] == s[i]
  }

  /** While erasing and placing, no cut leaves the magic over code that has changed. */
  lemma NoMagicWhilePlacing(base: Image, image: Bytes, n: nat, t: Image)
    requires 1 <= n <= IMAGE_WORDS && 4 * n <= |image|
    requires Cut(base, EraseOps() + PlaceOps(image, n), t) && t[0] == MAGIC
    ensures SameCode(base, t)
  {
    var rest := EraseRest() + PlaceOps(image, n);
    assert EraseOps() + PlaceOps(image, n) == [Erase(First)] + rest;
    CutAppend(base, [Erase(First)], rest, t);
    if Cut(base, [Erase(First)], t) {
      forall i | APP <= i < WORDS ensures t[i] == base[i] {
        UntouchedByCut(base, [Erase(First)], t, i);
      }
    } else {
      DoOne(base, Erase(First));
      UntouchedByCut(Do(base, Erase(First)), rest, t, 0);
    }
  }

  /** Cutting the final restore never touches code. */
  lemma RestoreKeepsCode(s: Image, backup: seq<uint32>, t: Image)
    requires |backup| == META_WORDS && Cut(s, RestoreOps(backup), t)
    ensures SameCode(s, t)
  {
    forall i | APP <= i < WORDS ensures t[i] == s[i] {
      UntouchedByCut(s, RestoreOps(backup), t, i);
    }
  }

  /** Until the first word of the restore the magic is absent; a zeroed first word keeps it absent. */
  lemma RestoreMagic(s: Image, backup: seq<uint32>, t: Image)
    requires |backup| == META_WORDS && s[0] == ERASED && Cut(s, RestoreOps(backup), t)
    ensures t[0] == ERASED || t[0] == backup[0]
  {
    var ops := RestoreOps(backup);
    var k :| 0 <= k <= |ops| && CutAt(s, ops, k, t);
    if k == 0 {
      assert ops[..0] == [];
    } else {
      DoOne(s, ops[0]);
      assert ops[..k] == [ops[0]] + ops[1..k];
      DoAllAppend(s, [ops[0]], ops[1..k]);
      Untouched(Do(s, ops[0]), ops[1..k], 0);
      AndErased(backup[0]);
    }
  }

  /**
   Install safety: wherever the power goes between the first erase and the end, if the
   magic is there, then either no code has changed, or the user has confirmed (or there was
   no firmware) and every word of the new code is in place.
   */
  lemma InstallIsSafe(base: Image, image: Bytes, n: nat, backup: seq<uint32>, t: Image)
    requires 1 <= n <= IMAGE_WORDS && 4 * n <= |image| && |backup| == META_WORDS
    requires Cut(base, EraseOps() + PlaceOps(image, n) + RestoreOps(backup), t) && t[0] == MAGIC
    ensures SameCode(base, t)
         || (backup[0] == MAGIC && HoldsCode(t, image, n))
  {
    CutAppend(base, EraseOps() + PlaceOps(image, n), RestoreOps(backup), t);
    if Cut(base, EraseOps() + PlaceOps(image, n), t) {
      NoMagicWhilePlacing(base, image, n, t);
    } else {
      var s := DoAll(base, EraseOps() + PlaceOps(image, n));
      PlacedAll(base, image, n);
      RestoreKeepsCode(s, backup, t);
      RestoreMagic(s, backup, t);
      forall k | DESC_WORDS <= k < n ensures t[Location(k)] == ImageWord(image, k) {
        assert s[Location(k)] == Placed(image, n, Location(k));
      }
    }
  }

  lemma PlacedAll(base: Image, image: Bytes, n: nat)
    requires 1 <= n <= IMAGE_WORDS && 4 * n <= |image|
    ensures HoldsPlaced(DoAll(base, EraseOps() + PlaceOps(image, n)), image, n)
  {
    EraseIsComplete(base);
    DoAllAppend(base, EraseOps(), PlaceOps(image, n));
    PlacedOnBlank(DoAll(base, EraseOps()), image, n);
  }

  lemma {:induction false} PlacedOnBlank(s: Image, image: Bytes, n: nat)
    requires 1 <= n <= IMAGE_WORDS && 4 * n <= |image| && Blank(s)
    ensures HoldsPlaced(DoAll(s, PlaceOps(image, n)), image, n)
  {
    if n == 1 {
      assert PlaceOps(image, 1) == [];
    } else {
      PlacedOnBlank(s, image, n - 1);
      PlaceSnoc(image, n - 1);
      var op := Write(Location(n - 1), ImageWord(image, n - 1));
      DoAllAppend(s, PlaceOps(image, n - 1), [op]);
      DoOne(DoAll(s, PlaceOps(image, n - 1)), op);
      PlaceOne(DoAll(s, PlaceOps(image, n - 1)), image, n - 1);
    }
  }
}
