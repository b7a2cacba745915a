/**
 The storage driver of firmware/storage.c over real flash words, and the PIN check of
 firmware/protect.c on top of it. Every method is proved to issue exactly the flash
 operations that `PinStorage` and `PinRuns` reason about.
 */
module StorageDevice {
  import opened Bytes
  import opened FlashMemory
  import opened PinStorage
  import opened PinRuns
  import Fields = StorageFields

  /** `storage_clear_update`. */
  function NothingStaged(): Fields.Struct
  {
    seq(1632, _ => 0)
  }

  /** `storageRom`. */
  function Rom(s: Image): Fields.Struct
  {
    Fields.StructOf(s[STORAGE_AT..STORAGE_AT + 408])
  }

  /** The structure that a commit writes: staged fields over those in flash. */
  function Merged(s: Image, staged: Fields.Struct, derive: Fields.Derivation): (r: seq<uint32>)
    ensures |r| == 408
  {
    Fields.WordsOf(Fields.Merged(Rom(s), staged, derive))
  }

  /** The whole settings sector: metadata kept, marker, identifier, structure, zeros. */
  function Page(s: Image, uuid: seq<uint32>, storage: seq<uint32>): (r: seq<uint32>)
    requires |uuid| == 3 && |storage| <= SECTOR - STORAGE_AT
    ensures |r| == SECTOR
  {
    s[..MAGIC_AT] + [STORAGE_MAGIC] + uuid + storage + Zeros(SECTOR - STORAGE_AT - |storage|)
  }

  function Zeros(n: nat): (r: seq<uint32>)
    ensures |r| == n
  {
    seq(n, _ => 0)
  }

  lemma PageHolds(s: Image, uuid: seq<uint32>, storage: seq<uint32>)
    requires |uuid| == 3 && |storage| == 408
    ensures Page(s, uuid, storage)[MAGIC_AT] == STORAGE_MAGIC
    ensures Page(s, uuid, storage)[STORAGE_AT..STORAGE_AT + 408] == storage
  {
  }

  /** A commit of a page keeps the firmware descriptor in words 0 to 63 and stores the identifier behind the marker. */
  lemma PageKeeps(s: Image, uuid: seq<uint32>, storage: seq<uint32>, t: Image)
    requires |uuid| == 3 && |storage| <= SECTOR - STORAGE_AT && t[..SECTOR] == Page(s, uuid, storage)
    ensures t[..64] == s[..64] && t[64] == 0x726f_7473 && t[65..68] == uuid
    ensures forall i :: 68 + |storage| <= i < 4096 ==> t[i] == 0
  {
    var page := Page(s, uuid, storage);
    assert forall i :: 0 <= i < SECTOR ==> t[i] == t[..SECTOR][i] == page[i];
    assert t[..64] == s[..64];
    assert page[65] == uuid[0] && page[66] == uuid[1] && page[67] == uuid[2];
    assert t[65..68] == [t[65], t[66], t[67]] == uuid;
  }

  /** The page is accepted, and reading the structure back gives the merged one. */
  lemma PageIsSettings(s: Image, uuid: seq<uint32>, staged: Fields.Struct, derive: Fields.Derivation)
    requires |uuid| == 3
    ensures var page := Page(s, uuid, Merged(s, staged, derive));
      && SettingsPage(page)
      && Fields.StructOf(page[STORAGE_AT..STORAGE_AT + 408]) == Fields.Merged(Rom(s), staged, derive)
      && page[STORAGE_AT + U2F_COUNTER]
         == if Fields.Has(staged, Fields.U2F) then Fields.Counter(staged) else s[STORAGE_AT + U2F_COUNTER]
  {
    hide Page, Fields.Merged, Fields.WordsOf, Fields.StructOf, Fields.Counter, Fields.Has;
    var storage := Merged(s, staged, derive);
    PageHolds(s, uuid, storage);
    Fields.WordsRoundTrip(Fields.Merged(Rom(s), staged, derive));
    Fields.CounterAfter(s[STORAGE_AT..STORAGE_AT + 408], staged, derive);
    var page := Page(s, uuid, storage);
    assert page[STORAGE_AT] == page[STORAGE_AT..STORAGE_AT + 408][0];
    assert page[STORAGE_AT + U2F_COUNTER] == page[STORAGE_AT..STORAGE_AT + 408][U2F_COUNTER];
  }

  /** The page of a recycling stores the staged counter with the offset added. */
  lemma RecycledCounter(s: Image, uuid: seq<uint32>, staged: Fields.Struct, v: uint32, derive: Fields.Derivation)
    requires |uuid| == 3
    ensures Page(s, uuid, Merged(s, Fields.WithCounter(staged, v), derive))[STORAGE_AT + U2F_COUNTER] == v
  {
    hide Page, Merged, Fields.WithCounter, Fields.Counter;
    PageIsSettings(s, uuid, Fields.WithCounter(staged, v), derive);
    Fields.WithCounterHas(staged, v);
  }

  lemma PageIsBlank(s: Image, uuid: seq<uint32>)
    requires |uuid| == 3
    ensures BlankPage(Page(s, uuid, []))
  {
  }

  lemma WriteWordsAppend(at: nat, a: seq<uint32>, b: seq<uint32>)
    requires at + |a| + |b| <= WORDS
    ensures WriteWords(at, a + b) == WriteWords(at, a) + WriteWords(at + |a|, b)
  {
  }

  /** The five runs of words of a commit are one page. */
  lemma PageInRuns(meta: seq<uint32>, uuid: seq<uint32>, storage: seq<uint32>, zeros: seq<uint32>)
    requires |meta| == MAGIC_AT && |uuid| == 3 && |storage| + |zeros| == SECTOR - STORAGE_AT
    ensures WriteWords(0, meta + [STORAGE_MAGIC] + uuid + storage + zeros)
         == WriteWords(0, meta) + WriteWords(MAGIC_AT, [STORAGE_MAGIC]) + WriteWords(MAGIC_AT + 1, uuid)
            + WriteWords(STORAGE_AT, storage) + WriteWords(STORAGE_AT + |storage|, zeros)
  {
    hide WriteWords;
    WriteWordsAppend(0, meta, [STORAGE_MAGIC]);
    WriteWordsAppend(0, meta + [STORAGE_MAGIC], uuid);
    WriteWordsAppend(0, meta + [STORAGE_MAGIC] + uuid, storage);
    WriteWordsAppend(0, meta + [STORAGE_MAGIC] + uuid + storage, zeros);
  }

  lemma AndZero(x: nat)
    ensures And(x, 0) == 0
  {
  }

  lemma Regroup<T>(a: seq<T>, e: seq<T>, u: seq<T>, v: seq<T>, w: seq<T>, x: seq<T>, y: seq<T>)
    ensures a + e + u + v + w + x + y == a + (e + (u + v + w + x + y))
  {
  }

  /** Metadata and structure are read from words that recycling has not touched yet. */
  lemma PageUnchanged(s: Image, t: Image, uuid: seq<uint32>, staged: Fields.Struct, derive: Fields.Derivation)
    requires |uuid| == 3
    requires forall i :: 0 <= i < SECTOR && i != MAGIC_AT ==> t[i] == s[i]
    ensures Page(t, uuid, Merged(t, staged, derive)) == Page(s, uuid, Merged(s, staged, derive))
  {
    assert t[..MAGIC_AT] == s[..MAGIC_AT];
    assert t[STORAGE_AT..STORAGE_AT + 408] == s[STORAGE_AT..STORAGE_AT + 408];
  }

  lemma PageUnchangedBlank(s: Image, t: Image, uuid: seq<uint32>)
    requires |uuid| == 3 && forall i :: 0 <= i < MAGIC_AT ==> t[i] == s[i]
    ensures Page(t, uuid, []) == Page(s, uuid, [])
  {
    assert t[..MAGIC_AT] == s[..MAGIC_AT];
  }

  lemma Regrouped<T>(a: seq<T>, b: seq<T>, c: seq<T>)
    ensures a + b + c == a + (b + c)
  {
  }

  /** The answer before and after one use, from the stored counter and the offset. */
  lemma CounterContinuity(base: uint32, n: nat, staging: uint32, after: uint32, n': nat)
    requires n + 1 < U2F_ROOM && n' == NextCount(n)
    requires after == if n + 1 < U2F_BITS then base else (staging + (n + 1)) % TWO32
    ensures (after + n') % TWO32 == ((base + n) % TWO32 + 1) % TWO32 <==> n + 1 < U2F_BITS || staging == base
  {
    Wraps(base + n);
    Wraps((base + n) % TWO32 + 1);
    Wraps(base + n + 1);
    Wraps(staging + (n + 1));
    Wraps(after + n');
  }

  /** The answer across a recycling alone: the offset goes into the stored counter. */
  lemma RecycledContinuity(base: uint32, n: uint32, staging: uint32)
    ensures (staging + n) % TWO32 == (base + n) % TWO32 <==> staging == base
  {
    Wraps(base + n);
    Wraps(staging + n);
  }

  /** One wrap-around at most. */
  lemma Wraps(x: nat)
    requires x < 2 * TWO32
    ensures x % TWO32 == if x < TWO32 then x else x - TWO32
  {
  }

  /** A word of the U2F area is zero exactly when all its bits are used. */
  lemma WordFull(s: Image, n: nat, i: nat)
    requires U2fArea(s, n) && i < REST_WORDS
    ensures s[U2FAREA + i] == 0 <==> n >= 32 * i + 32
    ensures i == n / 32 ==> s[U2FAREA + i] == High(32, n % 32)
  {
    assert U2fWord(s, i) == Mask(Cleared(n, i));
    HighZero(32, Cleared(n, i));
  }

  /** The offset goes with the cleared bits: with the boot scan it is their number, without it no more than that. */
  ghost predicate Counts(scans: bool, s: Image, o: nat)
  {
    exists n :: U2fArea(s, n) && o <= n && (scans ==> o == n)
  }

  lemma SameRestCounts(scans: bool, s: Image, t: Image, o: nat)
    requires Counts(scans, s, o) && forall i :: U2FAREA <= i < META_WORDS ==> t[i] == s[i]
    ensures Counts(scans, t, o)
  {
    hide Mask, Cleared;
    var n :| U2fArea(s, n) && o <= n && (scans ==> o == n);
    forall i | 0 <= i < REST_WORDS ensures U2fWord(t, i) == Mask(Cleared(n, i)) {
      assert U2fWord(t, i) == U2fWord(s, i);
    }
    assert U2fArea(t, n);
  }

  lemma FreshCounts(scans: bool, t: Image)
    requires U2fArea(t, 0)
    ensures Counts(scans, t, 0)
  {
  }

  lemma CountsNext(scans: bool, s: Image, o: nat)
    requires Counts(scans, s, o) && o + 1 < U2F_ROOM
    ensures Counts(scans, Do(s, Write(U2FAREA + o / 32, NextWord(o))), o + 1)
  {
    hide U2fArea, Do, NextWord;
    var n :| U2fArea(s, n) && o <= n && (scans ==> o == n);
    BitAdvances(s, n, o);
  }

  lemma PinPlace(s: Image, p: nat, k: nat)
    requires PinArea(s, p, k)
    ensures PINAREA <= p < PINAREA_END
  {
  }

  datatype PinResult = Granted | Cancelled | Invalid | Wiped

  class Storage {
    const chip: Chip
    const derive: Fields.Derivation
    const scans: bool             // the boot scan of the U2F area is compiled in
    var uuid: seq<uint32>
    var staged: Fields.Struct     // `storageUpdate`
    var u2fOffset: uint32
    var pinCached: bool
    var seedCached: bool
    var passphraseCached: bool

    ghost predicate Valid()
      reads this, chip, chip.words
    {
      chip.Valid() && |uuid| == 3
    }

    function Contents(): Image
      requires chip.words.Length == WORDS
      reads this, chip, chip.words
    {
      chip.Contents()
    }

    /** The counter a caller would be told now. */
    function Counter(): uint32
      requires chip.words.Length == WORDS
      reads this, chip, chip.words
    {
      (chip.words[STORAGE_AT + U2F_COUNTER] + u2fOffset) % TWO32
    }

    /** The cleared bits of the U2F area go with the offset. */
    ghost predicate Synced()
      requires chip.words.Length == WORDS
      reads this, chip, chip.words
    {
      Counts(scans, Contents(), u2fOffset)
    }

    /** The operations since then have turned the flash of that time into the present one. */
    lemma Issued(start: seq<Op>, before: Image, ops: seq<Op>)
      requires chip.Valid() && before == DoAll(chip.origin, start) && chip.ops == start + ops
      ensures Contents() == DoAll(before, ops)
    {
      hide DoAll;
      DoAllAppend(chip.origin, start, ops);
    }

    constructor (chip: Chip, uuid: seq<uint32>, derive: Fields.Derivation, scans: bool)
      requires chip.Valid() && |uuid| == 3
      ensures Valid() && this.chip == chip && this.derive == derive && this.scans == scans
      ensures staged == NothingStaged() && u2fOffset == 0 && !pinCached && !seedCached && !passphraseCached
    {
      this.chip, this.uuid, this.derive, this.scans := chip, uuid, derive, scans;
      staged, u2fOffset := NothingStaged(), 0;
      pinCached, seedCached, passphraseCached := false, false, false;
    }

    /** `storage_flash_words`: returns the address behind the last word. */
    method FlashWords(at: nat, words: seq<uint32>) returns (next: nat)
      requires Valid() && at + |words| <= WORDS
      modifies chip`ops, chip.words
      ensures Valid() && next == at + |words| && chip.ops == old(chip.ops) + WriteWords(at, words)
    {
      for i := 0 to |words|
        invariant Valid() && chip.ops == old(chip.ops) + WriteWords(at, words[..i])
      {
        hide DoAll;
        assert words[..i + 1] == words[..i] + [words[i]];
        WriteWordsSnoc(at, words[..i], words[i]);
        chip.Write32(at + i, words[i]);
      }
      assert words[..|words|] == words;
      next := at + |words|;
    }

    // --------------------------------------------------------------- commits

    /** `storage_commit_locked`: merges, erases the settings sector and writes it anew. */
    method CommitLocked(update: bool, ghost page: seq<uint32>)
      requires Valid()
      requires page == Page(Contents(), uuid, if update then Merged(Contents(), staged, derive) else [])
      modifies this`staged, this`pinCached, this`seedCached, this`passphraseCached, chip`ops, chip.words
      ensures Valid() && chip.ops == old(chip.ops) + CommitOps(page) && staged == NothingStaged()
      ensures Contents()[..SECTOR] == page && (old(Synced()) ==> Synced())
      ensures chip.words[..64] == old(chip.words[..64]) && chip.words[64] == 0x726f_7473 && chip.words[65..68] == uuid
      ensures forall i :: (if update then 476 else 68) <= i < 4096 ==> chip.words[i] == 0
      ensures pinCached == (old(pinCached) && !(update && Fields.Has(old(staged), Fields.PIN)))
      ensures var forgets := update && (Fields.Has(old(staged), Fields.PASSPHRASE)
        || Fields.Has(old(staged), Fields.MNEMONIC));
        seedCached == (old(seedCached) && !forgets) && passphraseCached == (old(passphraseCached) && !forgets)
    {
      hide DoAll, CommitOps, Counts, Fields.Merged, Fields.Has, Merged, Page;
      if update {
        ForgetStaged();
        staged := MergeStaged();
      }
      WriteCommit(update, page);
      ghost var before := old(Contents());
      Issued(old(chip.ops), before, CommitOps(page));
      CommitStores(before, page);
      PageKeeps(before, uuid, if update then Merged(before, old(staged), derive) else [], Contents());
      if old(Synced()) {
        SameRestCounts(scans, before, Contents(), u2fOffset);
      }
    }

    /** What a changed passphrase setting, PIN or mnemonic drops from the session. */
    method ForgetStaged()
      modifies this`pinCached, this`seedCached, this`passphraseCached
      ensures pinCached == (old(pinCached) && !Fields.Has(staged, Fields.PIN))
      ensures var forgets := Fields.Has(staged, Fields.PASSPHRASE) || Fields.Has(staged, Fields.MNEMONIC);
        seedCached == (old(seedCached) && !forgets) && passphraseCached == (old(passphraseCached) && !forgets)
    {
      if Fields.Has(staged, Fields.PASSPHRASE) {
        seedCached, passphraseCached := false, false;
      }
      if Fields.Has(staged, Fields.PIN) {
        pinCached := false;
      }
      if Fields.Has(staged, Fields.MNEMONIC) {
        seedCached, passphraseCached := false, false;
      }
    }

    method MergeStaged() returns (m: Fields.Struct)
      requires Valid()
      ensures Fields.WordsOf(m) == Merged(Contents(), staged, derive)
    {
      hide Fields.Merged, Fields.WordsOf;
      m := Fields.Merge(Rom(chip.words[..]), staged, derive);
    }

    /** `storage_update`: afterwards the counter is the staged one, if any, and the rest is merged. */
    method Update(ghost page: seq<uint32>)
      requires Valid() && page == Page(Contents(), uuid, Merged(Contents(), staged, derive))
      modifies this`staged, this`pinCached, this`seedCached, this`passphraseCached, chip`ops, chip.words
      ensures Valid() && chip.ops == old(chip.ops) + CommitOps(page) && staged == NothingStaged()
      ensures Rom(Contents()) == Fields.Merged(old(Rom(Contents())), old(staged), derive) && Accepts(Contents())
      ensures Counter() == if old(Fields.Has(staged, Fields.U2F)) then (old(Fields.Counter(staged)) + u2fOffset) % TWO32
                           else old(Counter())
      ensures old(Synced()) ==> Synced()
      ensures chip.words[..64] == old(chip.words[..64]) && chip.words[65..68] == uuid
    {
      hide DoAll, CommitOps, U2fArea, Counts, Page, Merged, Fields.Merged, Fields.StructOf;
      ghost var before, merging := Contents(), staged;
      PageIsSettings(before, uuid, merging, derive);
      CommitLocked(true, page);
      ghost var after := Contents();
      assert after[..SECTOR][STORAGE_AT..STORAGE_AT + 408] == after[STORAGE_AT..STORAGE_AT + 408];
      assert chip.words[STORAGE_AT + U2F_COUNTER] == after[..SECTOR][STORAGE_AT + U2F_COUNTER];
      assert after[..SECTOR][MAGIC_AT] == after[MAGIC_AT] && after[..SECTOR][STORAGE_AT] == after[STORAGE_AT];
    }

    /** The erase and the five runs of words of a commit. */
    method WriteCommit(update: bool, ghost page: seq<uint32>)
      requires Valid()
      requires page == Page(Contents(), uuid, if update then Fields.WordsOf(staged) else [])
      modifies this`staged, chip`ops, chip.words
      ensures Valid() && chip.ops == old(chip.ops) + CommitOps(page) && staged == NothingStaged()
    {
      hide DoAll, WriteWords, Merged, Do, Fields.WordsOf;
      ghost var start := chip.ops;
      var meta := chip.words[..MAGIC_AT];
      var storage := if update then Fields.WordsOf(staged) else [];
      var zeros := Zeros(SECTOR - STORAGE_AT - |storage|);
      PageInRuns(meta, uuid, storage, zeros);
      chip.EraseSector(First);
      var at := FlashWords(0, meta);
      at := FlashWords(at, [STORAGE_MAGIC]);
      at := FlashWords(at, uuid);
      at := FlashWords(at, storage);
      staged := NothingStaged();
      ZeroFill(at);
      Regroup(start, [Erase(First)], WriteWords(0, meta), WriteWords(MAGIC_AT, [STORAGE_MAGIC]),
              WriteWords(MAGIC_AT + 1, uuid), WriteWords(STORAGE_AT, storage),
              WriteWords(STORAGE_AT + |storage|, zeros));
    }

    /** The remainder of the sector is filled with zeros. */
    method ZeroFill(start: nat)
      requires Valid() && start <= SECTOR
      modifies chip`ops, chip.words
      ensures Valid() && chip.ops == old(chip.ops) + WriteWords(start, Zeros(SECTOR - start))
    {
      var at := start;
      while at < SECTOR
        invariant start <= at <= SECTOR && Valid()
        invariant chip.ops == old(chip.ops) + WriteWords(start, Zeros(at - start))
      {
        hide DoAll;
        assert Zeros(at - start + 1) == Zeros(at - start) + [0];
        WriteWordsSnoc(start, Zeros(at - start), 0);
        chip.Write32(at, 0);
        at := at + 1;
      }
    }

    /** What `storage_area_recycle` stages for the counter. */
    function Recycled(): Fields.Struct
      reads this
    {
      Fields.WithCounter(staged, (Fields.Counter(staged) + u2fOffset) % TWO32)
    }

    /** The first half of `storage_area_recycle`; the two read-backs never fail. */
    method ClearMarker(newPinFails: uint32)
      requires Valid()
      modifies chip`ops, chip.words
      ensures Valid() && chip.ops == old(chip.ops) + RecycleStart(newPinFails)
      ensures forall i :: 0 <= i < SECTOR && i != MAGIC_AT ==> chip.words[i] == old(chip.words[i])
    {
      hide DoAll, And;
      AndZero(chip.words[MAGIC_AT]);
      chip.Write32(MAGIC_AT, 0);
      assert chip.words[MAGIC_AT] == 0;
      chip.EraseSector(Last);
      AndErased(newPinFails);
      chip.Write32(PINAREA, newPinFails);
      assert chip.words[PINAREA] == newPinFails;
    }

    /**
     `storage_area_recycle`: the counters start over, and the counter that is told stays the
     same if and only if the staged counter equals the stored one.
     */
    method AreaRecycle(newPinFails: uint32, ghost page: seq<uint32>)
      requires Valid() && page == Page(Contents(), uuid, Merged(Contents(), Recycled(), derive))
      modifies this`staged, this`u2fOffset, this`pinCached, this`seedCached, this`passphraseCached, chip`ops, chip.words
      ensures Valid() && chip.ops == old(chip.ops) + RecycleOps(page, newPinFails)
      ensures u2fOffset == 0 && staged == NothingStaged() && Synced()
      ensures chip.words[PINAREA] == newPinFails && forall i :: PINAREA < i < META_WORDS ==> chip.words[i] == ERASED
      ensures chip.words[STORAGE_AT + U2F_COUNTER] == old((Fields.Counter(staged) + u2fOffset) % TWO32)
      ensures Counter() == old(Counter()) <==> old(Fields.Counter(staged)) == old(chip.words[STORAGE_AT + U2F_COUNTER])
      ensures pinCached == (old(pinCached) && !Fields.Has(old(staged), Fields.PIN))
      ensures chip.words[..64] == old(chip.words[..64]) && chip.words[65..68] == uuid
    {
      ghost var before, merged := Contents(), Recycled();
      hide DoAll, Page, Merged, U2fArea, Counts, RecycleOps;
      WriteRecycle(newPinFails, page);
      Issued(old(chip.ops), before, RecycleOps(page, newPinFails));
      RecycleClears(before, newPinFails, page);
      FreshCounts(scans, Contents());
      RecycledCounter(before, uuid, old(staged), old((Fields.Counter(staged) + u2fOffset) % TWO32), derive);
      assert Contents()[..SECTOR][STORAGE_AT + U2F_COUNTER] == chip.words[STORAGE_AT + U2F_COUNTER];
      RecycledContinuity(before[STORAGE_AT + U2F_COUNTER], old(u2fOffset), old(Fields.Counter(staged)));
    }

    /** The operations of a recycling. */
    method WriteRecycle(newPinFails: uint32, ghost page: seq<uint32>)
      requires Valid() && page == Page(Contents(), uuid, Merged(Contents(), Recycled(), derive))
      modifies this`staged, this`u2fOffset, this`pinCached, this`seedCached, this`passphraseCached, chip`ops, chip.words
      ensures Valid() && chip.ops == old(chip.ops) + RecycleOps(page, newPinFails)
      ensures u2fOffset == 0 && staged == NothingStaged()
      ensures pinCached == (old(pinCached) && !Fields.Has(old(staged), Fields.PIN))
      ensures chip.words[..64] == old(chip.words[..64]) && chip.words[65..68] == uuid
    {
      hide DoAll, Do, And, Page, Merged, CommitOps, U2fArea, Counts, Cleared;
      ghost var before := Contents();
      ClearMarker(newPinFails);
      Fields.WithCounterHas(staged, (Fields.Counter(staged) + u2fOffset) % TWO32);
      staged := Fields.WithCounter(staged, (Fields.Counter(staged) + u2fOffset) % TWO32);
      u2fOffset := 0;
      PageUnchanged(before, Contents(), uuid, staged, derive);
      CommitLocked(true, page);
    }

    // ------------------------------------------------------------ PIN failures

    /** `storage_getPinFailsOffset`: with a well-formed area the scan stops inside it. */
    method GetPinFailsOffset(ghost p: nat, ghost k: nat) returns (at: nat)
      requires Valid() && PinArea(Contents(), p, k)
      ensures at == p == FirstNonzero(Contents(), PINAREA)
    {
      ScanFindsWord(Contents(), p, k);
      at := PINAREA;
      while chip.words[at] == 0
        invariant PINAREA <= at <= p
        decreases p - at
      {
        at := at + 1;
      }
    }

    /** `storage_getPinWait`. */
    method GetPinWait(at: Addr) returns (wait: uint32)
      requires Valid()
      ensures wait == PinWait(chip.words[at])
    {
      wait := 0xffff_ffff - chip.words[at];
    }

    /** `storage_increasePinFails`: true when the word reads back as written, or can count no further. */
    method IncreasePinFails(at: Addr, ghost k: nat) returns (ok: bool)
      requires Valid() && PinArea(Contents(), at, k)
      modifies chip`ops, chip.words
      ensures Valid() && ok
      ensures FirstNonzero(old(Contents()), PINAREA) == at && chip.ops == old(chip.ops) + IncreaseOps(old(Contents()))
      ensures Contents() == DoAll(old(Contents()), IncreaseOps(old(Contents())))
           == old(Contents())[at := Mask(if k < 31 then k + 1 else 31)]
      ensures PinArea(Contents(), at, if k < 31 then k + 1 else 31)
      ensures old(Synced()) ==> Synced()
    {
      if k < 31 {
        Increased(Contents(), at, k);
      } else {
        IncreaseSaturates(Contents(), at);
      }
      ghost var before := Contents();
      var newctr := Shifted(chip.words[at]);
      DoNone(before);
      if newctr == 0 {
        return true;
      }
      chip.Write32(at, newctr);
      DoOne(before, Write(at, newctr));
      hide DoAll, Mask, Cleared, And;
      if old(Synced()) {
        SameRestCounts(scans, before, Contents(), u2fOffset);
      }
      return chip.words[at] == newctr;
    }

    /** `storage_resetPinFails`: no failures any more; the counter goes on as `AreaRecycle` says when that is needed. */
    method ResetPinFails(at: Addr, ghost k: nat, ghost page: seq<uint32>) returns (ghost p: nat)
      requires Valid() && page == Page(Contents(), uuid, Merged(Contents(), Recycled(), derive))
        && PinArea(Contents(), at, k)
      modifies this`staged, this`u2fOffset, this`pinCached, this`seedCached, this`passphraseCached, chip`ops, chip.words
      ensures Valid() && chip.ops == old(chip.ops) + ResetOps(at, page)
      ensures PinArea(Contents(), p, 0) && (old(Synced()) ==> Synced())
      ensures if at + 1 >= PINAREA_END
              then u2fOffset == 0
                   && (Counter() == old(Counter()) <==>
                     old(Fields.Counter(staged)) == old(chip.words[STORAGE_AT + U2F_COUNTER]))
              else u2fOffset == old(u2fOffset) && Counter() == old(Counter()) && staged == old(staged)
      ensures pinCached == (old(pinCached) && !(at + 1 >= PINAREA_END && Fields.Has(old(staged), Fields.PIN)))
      ensures chip.words[..64] == old(chip.words[..64])
      ensures chip.words[65..68] == if at + 1 >= PINAREA_END then uuid else old(chip.words[65..68])
    {
      hide DoAll, Mask, Page, Merged, RecycleOps, PinArea, U2fArea, Counts;
      ghost var before := Contents();
      p := ResetDone(before, at, k, page);
      if at + 1 >= PINAREA_END {
        AreaRecycle(0xffff_ffff, page);
      } else {
        PinPlace(before, at, k);
        chip.Write32(at, 0);
        if old(Synced()) {
          SameRestCounts(scans, before, Contents(), u2fOffset);
        }
      }
      Issued(old(chip.ops), before, ResetOps(at, page));
    }

    /** `storage_wipe`, with a new random identifier. */
    method Wipe(newUuid: seq<uint32>, ghost page: seq<uint32>)
      requires Valid() && |newUuid| == 3 && page == Page(Contents(), newUuid, [])
      modifies this, chip`ops, chip.words
      ensures Valid() && chip.ops == old(chip.ops) + WipeOps(page) && chip.origin == old(chip.origin)
      ensures !pinCached && !seedCached && !passphraseCached && u2fOffset == 0 && staged == NothingStaged()
      ensures PinArea(Contents(), PINAREA, 0) && !Accepts(Contents()) && Synced()
      ensures chip.words[..64] == old(chip.words[..64]) && chip.words[65..68] == newUuid == uuid
      ensures (forall i :: 68 <= i < 4096 ==> chip.words[i] == 0)
              && forall i :: 4096 <= i < 8192 ==> chip.words[i] == 0xffff_ffff
    {
      hide DoAll, Page, CommitOps, U2fArea, Counts, PinArea, Accepts;
      ghost var before := Contents();
      PageIsBlank(before, newUuid);
      pinCached, seedCached, passphraseCached := false, false, false;
      uuid := newUuid;
      CommitLocked(false, page);
      chip.EraseSector(Last);
      u2fOffset := 0;
      Issued(old(chip.ops), before, WipeOps(page));
      WipeDone(before, page);
      FreshCounts(scans, Contents());
    }

    /** `storage_from_flash` without legacy versions. */
    method FromFlash() returns (accepted: bool)
      requires Valid()
      modifies this`staged, this`uuid
      ensures Valid() && accepted == Accepts(Contents()) && staged == NothingStaged()
      ensures accepted ==> uuid == Contents()[MAGIC_AT + 1..STORAGE_AT]
    {
      staged := NothingStaged();
      if chip.words[MAGIC_AT] != STORAGE_MAGIC {
        return false;
      }
      var version := chip.words[STORAGE_AT];
      if version > STORAGE_VERSION {
        return false;
      }
      uuid := chip.words[MAGIC_AT + 1..STORAGE_AT];
      return version == STORAGE_VERSION;
    }

    /**
     `storage_init`, with the scan that `storage_from_flash` makes in builds that have it: whatever
     a power cut left, the device comes up with the counters it accepts or with new ones.
     */
    method StorageInit(newUuid: seq<uint32>, ghost n: nat) returns (wiped: bool)
      requires Valid() && |newUuid| == 3 && u2fOffset == 0
      requires scans && Accepts(Contents()) ==> U2fArea(Contents(), n)
      modifies this, chip`ops, chip.words
      ensures Valid() && wiped == !Accepts(old(Contents())) && (wiped || U2fArea(old(Contents()), n) ==> Synced())
      ensures wiped ==> PinArea(Contents(), PINAREA, 0) && !Accepts(Contents()) && u2fOffset == 0
      ensures !wiped ==> Contents() == old(Contents()) && u2fOffset == if scans then n else 0
      ensures chip.words[..64] == old(chip.words[..64]) && chip.words[65..68] == uuid && (wiped ==> uuid == newUuid)
    {
      var accepted := FromFlash();
      if !accepted {
        Wipe(newUuid, Page(Contents(), newUuid, []));
      } else if scans {
        ScanU2f(n);
      }
      return !accepted;
    }

    // ------------------------------------------------------------- U2F counter

    /** `storage_setU2FCounter`. */
    method SetU2FCounter(u2fcounter: uint32)
      requires Valid()
      modifies this`staged
      ensures Valid() && staged == Fields.WithCounter(old(staged), (u2fcounter as int - u2fOffset as int) % TWO32)
    {
      staged := Fields.WithCounter(staged, (u2fcounter as int - u2fOffset as int) % TWO32);
    }

    /** The recycling at the end of the U2F area: the PIN failures stay. */
    method RecycleForCounter(ghost p: nat, ghost k: nat, ghost page: seq<uint32>)
      requires Valid() && PinArea(Contents(), p, k)
        && page == Page(Contents(), uuid, Merged(Contents(), Recycled(), derive))
      modifies this`staged, this`u2fOffset, this`pinCached, this`seedCached, this`passphraseCached, chip`ops, chip.words
      ensures Valid() && u2fOffset == 0 && chip.ops == old(chip.ops) + RecycleOps(page, PinWord(old(Contents())))
      ensures PinArea(Contents(), PINAREA, k) && Synced()
      ensures chip.words[STORAGE_AT + U2F_COUNTER] == old((Fields.Counter(staged) + u2fOffset) % TWO32)
      ensures chip.words[..64] == old(chip.words[..64]) && chip.words[65..68] == uuid
    {
      hide DoAll, Page, Merged, U2fArea, Counts, RecycleOps, Mask;
      ScanFindsWord(Contents(), p, k);
      var pins := GetPinFailsOffset(p, k);
      AreaRecycle(chip.words[pins], page);
      Pow2Of32();
    }

    /** The bit of one use; settings and PIN failures stay. */
    method ClearNextBit(ghost p: nat, ghost k: nat)
      requires Valid() && u2fOffset + 1 < U2F_ROOM && PinArea(Contents(), p, k)
      modifies this`u2fOffset, chip`ops, chip.words
      ensures Valid() && u2fOffset == old(u2fOffset) + 1
      ensures var use := Write(U2FAREA + old(u2fOffset) / 32, NextWord(old(u2fOffset)));
        chip.ops == old(chip.ops) + [use] && Contents() == Do(old(Contents()), use)
      ensures PinArea(Contents(), p, k) && PinWord(Contents()) == PinWord(old(Contents()))
      ensures forall i :: 0 <= i < SECTOR ==> chip.words[i] == old(chip.words[i])
      ensures old(Synced()) ==> Synced()
    {
      ghost var before := Contents();
      hide DoAll, NextWord, U2fArea, Counts, PinArea, PinWord;
      BitKeepsFailures(before, u2fOffset, p, k);
      if Synced() {
        CountsNext(scans, before, u2fOffset);
      }
      chip.Write32(U2FAREA + u2fOffset / 32, NextWord(u2fOffset));
      u2fOffset := u2fOffset + 1;
    }

    /**
     `storage_nextU2FCounter`. It answers one more than before, except that behind the last
     bit of the area the answer depends on what is staged for the stored counter.
     */
    method NextU2FCounter(ghost p: nat, ghost k: nat, ghost page: seq<uint32>) returns (counter: uint32)
      requires Valid() && u2fOffset + 1 < U2F_ROOM && PinArea(Contents(), p, k)
      requires page == Page(Contents(), uuid,
        Merged(Contents(), Fields.WithCounter(staged, (Fields.Counter(staged) + (u2fOffset + 1)) % TWO32), derive))
      modifies this`staged, this`u2fOffset, this`pinCached, this`seedCached, this`passphraseCached, chip`ops, chip.words
      ensures Valid() && chip.ops == old(chip.ops) + CountOps(old(Contents()), old(u2fOffset), page)
      ensures u2fOffset == NextCount(old(u2fOffset)) && counter == Counter()
      ensures PinArea(Contents(), if u2fOffset == 0 then PINAREA else p, k) && (old(Synced()) ==> Synced())
      ensures counter == (old(Counter()) + 1) % TWO32
         <==> old(u2fOffset) + 1 < U2F_BITS || old(Fields.Counter(staged)) == old(chip.words[STORAGE_AT + U2F_COUNTER])
      ensures chip.words[..64] == old(chip.words[..64])
      ensures chip.words[65..68] == if u2fOffset == 0 then uuid else old(chip.words[65..68])
    {
      hide Page, Merged, DoAll, PinArea, Do, PinWord, RecycleOps, NextWord, U2fArea, Counts;
      ghost var before, start, n, staging := Contents(), chip.ops, u2fOffset, Fields.Counter(staged);
      ghost var use := Write(U2FAREA + u2fOffset / 32, NextWord(u2fOffset));
      ClearNextBit(p, k);
      ghost var rest: seq<Op> := [];
      if u2fOffset >= U2F_BITS {
        PageUnchanged(before, Contents(), uuid, Recycled(), derive);
        rest := RecycleOps(page, PinWord(before));
        RecycleForCounter(p, k, page);
      }
      Regrouped(start, [use], rest);
      counter := (chip.words[STORAGE_AT + U2F_COUNTER] + u2fOffset) % TWO32;
      CounterContinuity(before[STORAGE_AT + U2F_COUNTER], n, staging, chip.words[STORAGE_AT + U2F_COUNTER], u2fOffset);
    }

    /** The boot scan: it recovers the offset from a full or partial area. */
    method ScanU2f(ghost n: nat)
      requires Valid() && U2fArea(Contents(), n)
      modifies this`u2fOffset
      ensures Valid() && u2fOffset == n && Synced()
    {
      assert n < U2F_ROOM;
      var at := U2FAREA;
      while chip.words[at] == 0
        invariant U2FAREA <= at <= U2FAREA + n / 32
        decreases U2FAREA + n / 32 - at
      {
        WordFull(Contents(), n, at - U2FAREA);
        at := at + 1;
      }
      WordFull(Contents(), n, at - U2FAREA);
      u2fOffset := 32 * (at - U2FAREA);
      var word := chip.words[at];
      var bits := 0;
      while word % 2 == 0
        invariant Valid() && bits <= n % 32 && u2fOffset == 32 * (n / 32) + bits
        invariant word == High(32 - bits, n % 32 - bits)
        decreases n % 32 - bits
      {
        HighHalves(32 - bits, n % 32 - bits);
        u2fOffset := u2fOffset + 1;
        word := word / 2;
        bits := bits + 1;
      }
      HighHalves(32 - bits, n % 32 - bits);
    }

    // ---------------------------------------------------------- PIN checking

    /** `protectCheckMaxTry`: past fifteen failures the storage is wiped and the device stops. */
    method ProtectCheckMaxTry(wait: uint32, newUuid: seq<uint32>, ghost blank: seq<uint32>) returns (stopped: bool)
      requires Valid() && |newUuid| == 3 && blank == Page(Contents(), newUuid, [])
      modifies this, chip`ops, chip.words
      ensures Valid() && stopped == (wait >= 32768) && chip.origin == old(chip.origin)
      ensures stopped ==> chip.ops == old(chip.ops) + WipeOps(blank)
      ensures stopped ==> PinArea(Contents(), PINAREA, 0) && !Accepts(Contents()) && Synced()
      ensures chip.words[..64] == old(chip.words[..64]) && (stopped ==> chip.words[65..68] == newUuid == uuid)
      ensures stopped ==> forall i :: 68 <= i < 4096 ==> chip.words[i] == 0
      ensures !stopped ==> unchanged(this, chip, chip.words)
    {
      if wait < 32768 {
        return false;
      }
      Wipe(newUuid, blank);
      return true;
    }

    /** Counting, comparing, and either starting over or checking the count again. */
    method CheckEntered(right: bool, fails: Addr, ghost k: nat, newUuid: seq<uint32>,
                        ghost page: seq<uint32>, ghost blank: seq<uint32>) returns (r: PinResult, ghost p': nat)
      requires Valid() && PinArea(Contents(), fails, k) && k <= MAX_WRONG_PINS && |newUuid| == 3
      requires FirstNonzero(Contents(), PINAREA) < PINAREA_END
      requires page == Page(Contents(), uuid, Merged(Contents(), Recycled(), derive))
        && blank == Page(Contents(), newUuid, [])
      modifies this, chip`ops, chip.words
      ensures Valid() && chip.ops == old(chip.ops) + TryOps(old(Contents()), right, page, blank)
      ensures r == if right then Granted else if k + 1 > MAX_WRONG_PINS then Wiped else Invalid
      ensures PinArea(Contents(), p', if r == Invalid then k + 1 else 0) && (r == Invalid ==> p' == fails)
      ensures r == Wiped ==> !Accepts(Contents())
      ensures r == Granted && !Fields.Has(old(staged), Fields.PIN) ==> pinCached
      ensures old(Synced()) ==> Synced()
      ensures chip.words[..64] == old(chip.words[..64]) && uuid == if r == Wiped then newUuid else old(uuid)
      ensures chip.words[65..68] == uuid || (r != Wiped && chip.words[65..68] == old(chip.words[65..68]))
      ensures r == Wiped ==> forall i :: 68 <= i < 4096 ==> chip.words[i] == 0
    {
      hide DoAll, PinArea, Page, Merged, ResetOps, WipeOps, Mask, RecycleOps, U2fArea, Counts, Accepts, IncreaseOps,
           PinWord;
      ghost var before, start := Contents(), chip.ops;
      PinPlace(before, fails, k);
      var counted := IncreasePinFails(fails, k);
      assert counted;
      PageUnchanged(before, Contents(), uuid, Recycled(), derive);
      PageUnchangedBlank(before, Contents(), newUuid);
      WaitIsExponential(k + 1);
      if right {
        pinCached := true;
        p' := ResetPinFails(fails, k + 1, page);
        Regrouped(start, IncreaseOps(before), ResetOps(fails, page));
        r := Granted;
      } else {
        var wait := GetPinWait(fails);
        var stopped := ProtectCheckMaxTry(wait, newUuid, blank);
        Regrouped(start, IncreaseOps(before), if stopped then WipeOps(blank) else []);
        r, p' := if stopped then Wiped else Invalid, if stopped then PINAREA else fails;
      }
    }

    /** One second at a time, unless the host aborts in second `abortAt`, counted from zero. */
    method SleepOut(wait: uint32, abortAt: Option<nat>) returns (done: bool, waited: nat)
      ensures done == (abortAt.None? || abortAt.value >= wait)
      ensures waited == if done then wait else abortAt.value + 1
    {
      waited := 0;
      while waited < wait
        invariant waited <= wait && (abortAt.Some? ==> waited <= abortAt.value)
      {
        waited := waited + 1;
        if abortAt == Some((waited - 1) as nat) {
          return false, waited;
        }
      }
      return true, waited;
    }

    /**
     `protectPin`: a wait of 2^k - 1 seconds (in which the host may abort), then the PIN.
     `entered` is None when the user or the host cancels, else whether the PIN is right.
     */
    method ProtectPin(hasPin: bool, useCached: bool, abortAt: Option<nat>, entered: Option<bool>, newUuid: seq<uint32>,
                      ghost p: nat, ghost k: nat, ghost page: seq<uint32>, ghost blank: seq<uint32>)
      returns (r: PinResult, waited: nat, ghost p': nat)
      requires Valid() && PinArea(Contents(), p, k) && |newUuid| == 3 && FirstNonzero(Contents(), PINAREA) < PINAREA_END
      requires page == Page(Contents(), uuid, Merged(Contents(), Recycled(), derive))
        && blank == Page(Contents(), newUuid, [])
      modifies this, chip`ops, chip.words
      ensures Valid()
      ensures !hasPin || (useCached && old(pinCached)) ==> r == Granted && chip.ops == old(chip.ops)
      ensures hasPin && !(useCached && old(pinCached)) ==>
        if k > MAX_WRONG_PINS then r == Wiped && chip.ops == old(chip.ops) + WipeOps(blank)
        else if abortAt.Some? && abortAt.value < Pow2(k) - 1 then
          r == Cancelled && waited == abortAt.value + 1 && chip.ops == old(chip.ops)
        else if entered == None then r == Cancelled && waited == Pow2(k) - 1 && chip.ops == old(chip.ops)
        else && waited == Pow2(k) - 1
             && chip.ops == old(chip.ops) + TryOps(old(Contents()), entered.value, page, blank)
             && r == (if entered.value then Granted else if k + 1 > MAX_WRONG_PINS then Wiped else Invalid)
             && PinArea(Contents(), p', if r == Invalid then k + 1 else 0)
      ensures r == Wiped ==> PinArea(Contents(), p', 0) && !Accepts(Contents())
      ensures r == Cancelled ==> PinArea(Contents(), p, k)
      ensures r == Granted && hasPin && !Fields.Has(old(staged), Fields.PIN) ==> pinCached
      ensures old(Synced()) ==> Synced()
      ensures chip.words[..64] == old(chip.words[..64]) && uuid == if r == Wiped then newUuid else old(uuid)
      ensures chip.words[65..68] == uuid || (r != Wiped && chip.words[65..68] == old(chip.words[65..68]))
      ensures r == Wiped ==> forall i :: 68 <= i < 4096 ==> chip.words[i] == 0
    {
      p' := p;
      waited := 0;
      if !hasPin || (useCached && pinCached) {
        return Granted, waited, p;
      }
      var fails := GetPinFailsOffset(p, k);
      var wait := GetPinWait(fails);
      WaitIsExponential(k);
      assert k > 0 ==> Pow2(k) == 2 * Pow2(k - 1);
      hide DoAll, Page, Merged, PinArea, TryOps, WipeOps, Pow2, Mask, FirstNonzero, Recycled, U2fArea, Counts, Accepts;
      var stopped := ProtectCheckMaxTry(wait, newUuid, blank);
      if stopped {
        return Wiped, waited, PINAREA;
      }
      var done;
      done, waited := SleepOut(wait, abortAt);
      if !done || entered == None {
        return Cancelled, waited, p;
      }
      r, p' := CheckEntered(entered.value, fails, k, newUuid, page, blank);
    }
  }
}
