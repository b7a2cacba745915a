/**
 The Storage structure (firmware/storage.h) as the Cortex-M3 lays it out, and what a commit
 makes of it: staged fields replace those in flash, an empty text or picture removes its
 field, and a new seed replaces the old one together with the U2F root (firmware/storage.c).
 */
module StorageFields {
  import opened Bytes
  import PinStorage

  type Struct = s: Bytes | |s| == 1632 witness seq(1632, _ => 0)
  type NodeBytes = s: Bytes | |s| == 132 witness seq(132, _ => 0)

  /** `storage_compute_u2froot`: from a mnemonic, over what the node held before. */
  type Derivation = (Bytes, Bytes) -> NodeBytes

  /** The offset of a has-flag, and the value behind it. */
  datatype Field = Field(flag: nat, start: nat, end: nat)
  {
    predicate Valid()
    {
      flag < start < end <= 1632
    }
  }

  const NODE := Field(4, 8, 140)
  const MNEMONIC := Field(140, 141, 382)
  const PASSPHRASE := Field(382, 383, 384)
  const PIN := Field(384, 385, 395)
  const LANGUAGE := Field(395, 396, 413)
  const LABEL := Field(413, 414, 447)
  const IMPORTED := Field(447, 448, 449)
  const HOMESCREEN := Field(449, 452, 1480)
  const U2F := Field(1480, 1484, 1488)
  const BACKUP := Field(1488, 1489, 1490)
  const FLAGS := Field(1490, 1492, 1496)
  const U2FROOT := Field(1496, 1500, 1632)

  const FIELDS: seq<Field> :=
    [NODE, MNEMONIC, PASSPHRASE, PIN, LANGUAGE, LABEL, IMPORTED, HOMESCREEN, U2F, BACKUP, FLAGS, U2FROOT]

  function Has(s: Struct, f: Field): bool
    requires f.Valid()
  {
    s[f.flag] != 0
  }

  function Value(s: Struct, f: Field): (v: Bytes)
    requires f.Valid()
    ensures |v| == f.end - f.start
  {
    s[f.start..f.end]
  }

  /** A C string within its field. */
  function Text(b: Bytes): (t: Bytes)
    ensures |t| <= |b| && t == b[..|t|]
  {
    if |b| == 0 || b[0] == 0 then [] else [b[0]] + Text(b[1..])
  }

  /** `strlcpy` between fields of one size: the string and its terminator; what follows stays. */
  function StrlCpy(to: Bytes, from: Bytes): (r: Bytes)
    requires |to| == |from| > 0
    ensures |r| == |to|
  {
    var n := if |Text(from)| < |to| then |Text(from)| else |to| - 1;
    from[..n] + [0] + to[n + 1..]
  }

  lemma {:induction false} TextOfCopy(t: Bytes, rest: Bytes)
    requires forall i :: 0 <= i < |t| ==> t[i] != 0
    ensures Text(t + [0] + rest) == t
  {
    if |t| > 0 {
      assert (t + [0] + rest)[1..] == t[1..] + [0] + rest;
      TextOfCopy(t[1..], rest);
    }
  }

  lemma {:induction false} TextHasNoZero(b: Bytes)
    ensures forall i :: 0 <= i < |Text(b)| ==> Text(b)[i] != 0
  {
    if |b| > 0 && b[0] != 0 {
      TextHasNoZero(b[1..]);
    }
  }

  lemma TextIsPrefix(b: Bytes, n: nat)
    requires n <= |Text(b)|
    ensures forall i :: 0 <= i < n ==> b[..n][i] != 0
  {
    TextHasNoZero(b);
    assert b[..n] == Text(b)[..n];
  }

  lemma EmptyText(b: Bytes)
    requires |b| > 0
    ensures Text(b) == [] <==> b[0] == 0
  {
  }

  /** A copied string is the string, cut to leave room for its terminator. */
  lemma CopiedText(to: Bytes, from: Bytes)
    requires |to| == |from| > 0
    ensures Text(StrlCpy(to, from)) == if |Text(from)| < |to| then Text(from) else from[..|to| - 1]
  {
    hide Text;
    var n := if |Text(from)| < |to| then |Text(from)| else |to| - 1;
    TextIsPrefix(from, n);
    TextOfCopy(from[..n], to[n + 1..]);
  }

  // ------------------------------------------------------------- what is chosen

  function Own(s: Struct, f: Field): (c: (byte, Bytes))
    requires f.Valid()
    ensures |c.1| == f.end - f.start
  {
    (s[f.flag], Value(s, f))
  }

  function Copied(rom: Struct, upd: Struct, f: Field): (c: (byte, Bytes))
    requires f.Valid()
    ensures |c.1| == f.end - f.start
  {
    (rom[f.flag], StrlCpy(Value(upd, f), Value(rom, f)))
  }

  /** A staged text; the empty one removes the field. */
  function NonEmpty(upd: Struct, f: Field): (byte, Bytes)
    requires f.Valid()
  {
    (if Value(upd, f)[0] == 0 then 0 else upd[f.flag], Value(upd, f))
  }

  predicate NewSeed(upd: Struct)
  {
    Has(upd, NODE) || Has(upd, MNEMONIC)
  }

  function Picture(upd: Struct): (byte, Bytes)
  {
    (if Value(upd, HOMESCREEN)[..4] == [0, 0, 0, 0] then 0 else upd[HOMESCREEN.flag], Value(upd, HOMESCREEN))
  }

  function Root(rom: Struct, upd: Struct, derive: Derivation): (byte, Bytes)
  {
    if !NewSeed(upd) then Own(rom, U2FROOT)
    else if Has(upd, MNEMONIC) then (1, derive(Text(Value(upd, MNEMONIC)), Value(upd, U2FROOT)))
    else Own(upd, U2FROOT)
  }

  /** Flag and value of field `k` after a commit. */
  function Chosen(rom: Struct, upd: Struct, derive: Derivation, k: nat): (r: (byte, Bytes))
    requires k < 12
    ensures |r.1| == FIELDS[k].end - FIELDS[k].start
  {
    var f := FIELDS[k];
    if f == NODE then if NewSeed(upd) then Own(upd, f) else Own(rom, f)
    else if f == MNEMONIC then if NewSeed(upd) then Own(upd, f) else Copied(rom, upd, f)
    else if f == U2FROOT then Root(rom, upd, derive)
    else if f == PIN || f == LABEL then if Has(upd, f) then NonEmpty(upd, f) else Copied(rom, upd, f)
    else if f == LANGUAGE then if Has(upd, f) then Own(upd, f) else Copied(rom, upd, f)
    else if f == HOMESCREEN then if Has(upd, f) then Picture(upd) else Own(rom, f)
    else if Has(upd, f) then Own(upd, f) else Own(rom, f)
  }

  function EndOf(k: nat): nat
    requires k <= 12
  {
    if k == 0 then 4 else FIELDS[k - 1].end
  }

  /** A field with the padding before it. */
  function Part(upd: Struct, f: Field, from: nat, c: (byte, Bytes)): Bytes
    requires f.Valid() && from <= f.flag
  {
    upd[from..f.flag] + [c.0] + upd[f.flag + 1..f.start] + c.1
  }

  /** The version and the first `k` fields after a commit. */
  function UpTo(rom: Struct, upd: Struct, derive: Derivation, k: nat): (r: Bytes)
    requires k <= 12
    ensures |r| == EndOf(k)
  {
    if k == 0 then Le32(PinStorage.STORAGE_VERSION)
    else UpTo(rom, upd, derive, k - 1) + Part(upd, FIELDS[k - 1], EndOf(k - 1), Chosen(rom, upd, derive, k - 1))
  }

  function Merged(rom: Struct, upd: Struct, derive: Derivation): Struct
  {
    UpTo(rom, upd, derive, 12)
  }

  lemma EndsGrow(k: nat)
    requires k < 12
    ensures FIELDS[k].Valid() && EndOf(k) <= FIELDS[k].flag && EndOf(k + 1) == FIELDS[k].end && 4 <= EndOf(k)
  {
  }

  lemma {:induction false} UpToPrefix(rom: Struct, upd: Struct, derive: Derivation, j: nat, k: nat)
    requires j <= k <= 12
    ensures EndOf(j) <= EndOf(k) && UpTo(rom, upd, derive, k)[..EndOf(j)] == UpTo(rom, upd, derive, j)
  {
    hide Chosen, Part, EndOf;
    if j < k {
      EndsGrow(k - 1);
      UpToPrefix(rom, upd, derive, j, k - 1);
      UpToOne(rom, upd, derive, k - 1);
    }
  }

  lemma UpToOne(rom: Struct, upd: Struct, derive: Derivation, k: nat)
    requires k < 12
    ensures EndOf(k) <= FIELDS[k].flag
    ensures UpTo(rom, upd, derive, k + 1)
         == UpTo(rom, upd, derive, k) + Part(upd, FIELDS[k], EndOf(k), Chosen(rom, upd, derive, k))
  {
    hide Chosen, Part;
    EndsGrow(k);
  }

  lemma PartHolds(upd: Struct, f: Field, from: nat, c: (byte, Bytes))
    requires f.Valid() && from <= f.flag && |c.1| == f.end - f.start
    ensures var p := Part(upd, f, from, c);
      |p| == f.end - from && p[f.flag - from] == c.0 && p[f.start - from..] == c.1
  {
  }

  /** Every field of the merged structure is the chosen one. */
  lemma FieldIsChosen(rom: Struct, upd: Struct, derive: Derivation, k: nat)
    requires k < 12
    ensures Own(Merged(rom, upd, derive), FIELDS[k]) == Chosen(rom, upd, derive, k)
  {
    hide Chosen, Part, UpTo, EndOf;
    UpToPrefix(rom, upd, derive, k + 1, 12);
    UpToOne(rom, upd, derive, k);
    EndsGrow(k);
    var m, f, c := Merged(rom, upd, derive), FIELDS[k], Chosen(rom, upd, derive, k);
    var front, part := UpTo(rom, upd, derive, k), Part(upd, f, EndOf(k), c);
    PartHolds(upd, f, EndOf(k), c);
    assert m[..f.end] == front + part;
    assert m[f.flag] == (front + part)[f.flag] == part[f.flag - EndOf(k)];
    assert m[f.start..f.end] == (front + part)[f.start..] == part[f.start - EndOf(k)..];
  }

  lemma VersionIsWritten(rom: Struct, upd: Struct, derive: Derivation)
    ensures Merged(rom, upd, derive)[..4] == Le32(PinStorage.STORAGE_VERSION)
  {
    hide Chosen, Part;
    UpToPrefix(rom, upd, derive, 0, 12);
  }

  // ---------------------------------------------------------- what that means

  /** A text as its getter answers it. */
  function Read(s: Struct, f: Field): Option<Bytes>
    requires f.Valid()
  {
    if Has(s, f) then Some(Text(Value(s, f))) else None
  }

  predicate Terminated(s: Struct, f: Field)
    requires f.Valid()
  {
    |Text(Value(s, f))| < f.end - f.start
  }

  /** The language, the label and the PIN after a commit; the empty label and PIN are none. */
  lemma TextsAfter(rom: Struct, upd: Struct, derive: Derivation, f: Field)
    requires f == LANGUAGE || f == LABEL || f == PIN
    requires Terminated(if Has(upd, f) then upd else rom, f)
    ensures Terminated(Merged(rom, upd, derive), f)
    ensures Read(Merged(rom, upd, derive), f)
         == if !Has(upd, f) then Read(rom, f)
            else if f != LANGUAGE && Text(Value(upd, f)) == [] then None
            else Some(Text(Value(upd, f)))
  {
    hide Merged, Text, StrlCpy, Chosen, Value;
    var k := if f == PIN then 3 else if f == LANGUAGE then 4 else 5;
    FieldIsChosen(rom, upd, derive, k);
    ChosenText(rom, upd, derive, k);
    CopiedText(Value(upd, f), Value(rom, f));
    EmptyText(Value(upd, f));
  }

  lemma ChosenText(rom: Struct, upd: Struct, derive: Derivation, k: nat)
    requires 3 <= k < 6
    ensures var f := FIELDS[k];
      Chosen(rom, upd, derive, k)
      == if !Has(upd, f) then Copied(rom, upd, f)
         else (if f != LANGUAGE && Value(upd, f)[0] == 0 then 0 else upd[f.flag], Value(upd, f))
  {
    hide StrlCpy, Value;
  }

  /** Flag and value of the fields that are replaced as a whole. */
  lemma PlainsAfter(rom: Struct, upd: Struct, derive: Derivation, f: Field)
    requires f in [PASSPHRASE, IMPORTED, U2F, BACKUP, FLAGS]
    ensures Own(Merged(rom, upd, derive), f) == if Has(upd, f) then Own(upd, f) else Own(rom, f)
  {
    hide Merged;
    var k := if f == PASSPHRASE then 2 else if f == IMPORTED then 6 else if f == U2F then 8
             else if f == BACKUP then 9 else 10;
    FieldIsChosen(rom, upd, derive, k);
  }

  lemma PictureAfter(rom: Struct, upd: Struct, derive: Derivation)
    ensures var m := Merged(rom, upd, derive);
      && Value(m, HOMESCREEN) == Value(if Has(upd, HOMESCREEN) then upd else rom, HOMESCREEN)
      && (Has(m, HOMESCREEN) <==>
            if Has(upd, HOMESCREEN) then Value(upd, HOMESCREEN)[..4] != [0, 0, 0, 0] else Has(rom, HOMESCREEN))
  {
    hide Merged;
    FieldIsChosen(rom, upd, derive, 7);
  }

  /** There is at most one seed, and the U2F root is that of the mnemonic, and there with it. */
  predicate OneSeed(s: Struct, derive: Derivation)
  {
    && !(Has(s, NODE) && Has(s, MNEMONIC)) && (Has(s, U2FROOT) <==> Has(s, MNEMONIC)) && Terminated(s, MNEMONIC)
    && (Has(s, MNEMONIC) ==> Value(s, U2FROOT) == derive(Text(Value(s, MNEMONIC)), seq(132, _ => 0)))
  }

  /** What the setters stage: one seed at most, and the U2F root never. */
  predicate Stageable(upd: Struct)
  {
    && !(Has(upd, NODE) && Has(upd, MNEMONIC)) && !Has(upd, U2FROOT) && Terminated(upd, MNEMONIC)
    && Value(upd, U2FROOT) == seq(132, _ => 0)
  }

  /** A commit keeps that: a new seed takes the old one away, whichever kind it was. */
  lemma SeedAfter(rom: Struct, upd: Struct, derive: Derivation)
    requires OneSeed(rom, derive) && Stageable(upd)
    ensures OneSeed(Merged(rom, upd, derive), derive)
    ensures Read(Merged(rom, upd, derive), MNEMONIC) == Read(if NewSeed(upd) then upd else rom, MNEMONIC)
    ensures Own(Merged(rom, upd, derive), NODE) == Own(if NewSeed(upd) then upd else rom, NODE)
  {
    hide Merged, Text;
    FieldIsChosen(rom, upd, derive, 0);
    FieldIsChosen(rom, upd, derive, 1);
    FieldIsChosen(rom, upd, derive, 11);
    CopiedText(Value(upd, MNEMONIC), Value(rom, MNEMONIC));
  }

  /** The structure after a sequence of commits. */
  function Commits(rom: Struct, upds: seq<Struct>, derive: Derivation): Struct
  {
    if |upds| == 0 then rom else Merged(Commits(rom, upds[..|upds| - 1], derive), upds[|upds| - 1], derive)
  }

  lemma {:induction false} SeedOverCommits(rom: Struct, upds: seq<Struct>, derive: Derivation)
    requires OneSeed(rom, derive) && forall i :: 0 <= i < |upds| ==> Stageable(upds[i])
    ensures OneSeed(Commits(rom, upds, derive), derive)
  {
    hide OneSeed, Stageable, Merged;
    if |upds| > 0 {
      SeedOverCommits(rom, upds[..|upds| - 1], derive);
      SeedAfter(Commits(rom, upds[..|upds| - 1], derive), upds[|upds| - 1], derive);
    }
  }

  /** After a wipe there is none. */
  lemma WipedHasNoSeed(derive: Derivation)
    ensures OneSeed(seq(1632, _ => 0), derive)
  {
  }

  // ------------------------------------------------------------- in words

  /** The structure as flash words, and read from them. */
  function WordsOf(s: Struct): (w: seq<uint32>)
    ensures |w| == 408
  {
    seq(408, i requires 0 <= i < 408 => FromLe32(s[4 * i..4 * i + 4]))
  }

  function StructOf(w: seq<uint32>): Struct
    requires |w| == 408
  {
    seq(1632, b requires 0 <= b < 1632 => Le32(w[b / 4])[b % 4])
  }

  lemma {:induction false} DigitOf(b: Bytes, k: nat)
    requires k < |b|
    ensures Digit(FromLittleEndian(b), k) == b[k]
  {
    if k > 0 {
      DigitOf(b[1..], k - 1);
    }
  }

  /** What is written is read back. */
  lemma WordsRoundTrip(s: Struct)
    ensures StructOf(WordsOf(s)) == s
  {
    hide FromLittleEndian, Digit;
    forall b | 0 <= b < 1632 ensures StructOf(WordsOf(s))[b] == s[b] {
      var i := b / 4;
      assert WordsOf(s)[i] == FromLe32(s[4 * i..4 * i + 4]);
      DigitOf(s[4 * i..4 * i + 4], b % 4);
    }
  }

  lemma WordOf(w: seq<uint32>, i: nat)
    requires |w| == 408 && i < 408
    ensures StructOf(w)[4 * i..4 * i + 4] == Le32(w[i])
  {
    hide LittleEndian;
    assert forall k :: 0 <= k < 4 ==> StructOf(w)[4 * i + k] == Le32(w[i])[k];
  }

  /** The stored counter is word 371. */
  function Counter(s: Struct): uint32
  {
    FromLe32(Value(s, U2F))
  }

  function WithCounter(s: Struct, v: uint32): Struct
  {
    s[..1480] + [1] + s[1481..1484] + Le32(v) + s[1488..]
  }

  lemma WithCounterHas(s: Struct, v: uint32)
    ensures Has(WithCounter(s, v), U2F) && Counter(WithCounter(s, v)) == v
    ensures Has(WithCounter(s, v), PIN) == Has(s, PIN)
  {
    Le32RoundTrip(v);
    assert Value(WithCounter(s, v), U2F) == Le32(v);
  }

  lemma CounterAfter(w: seq<uint32>, upd: Struct, derive: Derivation)
    requires |w| == 408
    ensures var m := WordsOf(Merged(StructOf(w), upd, derive));
      m[0] == PinStorage.STORAGE_VERSION && m[371] == if Has(upd, U2F) then Counter(upd) else w[371]
  {
    hide Merged, WordsOf, StructOf, FromLittleEndian, LittleEndian;
    var m := Merged(StructOf(w), upd, derive);
    VersionIsWritten(StructOf(w), upd, derive);
    Le32RoundTrip(PinStorage.STORAGE_VERSION);
    PlainsAfter(StructOf(w), upd, derive, U2F);
    WordOf(w, 371);
    Le32RoundTrip(w[371]);
    WordsAt(m, 0);
    WordsAt(m, 371);
  }

  lemma WordsAt(s: Struct, i: nat)
    requires i < 408
    ensures WordsOf(s)[i] == FromLe32(s[4 * i..4 * i + 4])
  {
  }

  // ------------------------------------------------------------- in place

  function Put(s: Struct, f: Field, c: (byte, Bytes)): Struct
    requires f.Valid() && |c.1| == f.end - f.start
  {
    s[..f.flag] + [c.0] + s[f.flag + 1..f.start] + c.1 + s[f.end..]
  }

  /** The structure while it is merged in place: `k` fields and the U2F root are done. */
  function Mixed(rom: Struct, upd: Struct, derive: Derivation, k: nat): Struct
    requires k <= 11
  {
    EndsInside(k);
    var root := Root(rom, upd, derive);
    UpTo(rom, upd, derive, k) + upd[EndOf(k)..1496] + ([root.0] + upd[1497..1500] + root.1)
  }

  lemma EndsInside(k: nat)
    requires k <= 11
    ensures EndOf(k) <= 1496
  {
  }

  /** The pieces around a field when everything before `a` has been replaced. */
  lemma Pieces(done: Bytes, upd: Struct, tail: Bytes, f: Field, a: nat, m: Struct)
    requires f.Valid() && |done| == a <= f.flag && f.end <= 1496 && |tail| == 136
    requires m == done + upd[a..1496] + tail
    ensures m[..f.flag] == done + upd[a..f.flag] && m[f.flag..f.end] == upd[f.flag..f.end]
    ensures m[f.end..] == upd[f.end..1496] + tail
  {
    var x, y, z := done + upd[a..f.flag], upd[f.flag..f.end], upd[f.end..1496] + tail;
    assert upd[a..1496] == upd[a..f.flag] + y + upd[f.end..1496];
    assert m == x + y + z;
    Thirds(x, y, z);
  }

  lemma Thirds(x: Bytes, y: Bytes, z: Bytes)
    ensures (x + y + z)[..|x|] == x && (x + y + z)[|x|..|x| + |y|] == y && (x + y + z)[|x| + |y|..] == z
  {
  }

  lemma Inner(m: Struct, upd: Struct, f: Field)
    requires f.Valid() && m[f.flag..f.end] == upd[f.flag..f.end]
    ensures m[f.flag + 1..f.start] == upd[f.flag + 1..f.start] && Own(m, f) == Own(upd, f)
  {
    var x := m[f.flag..f.end];
    Within(m, f.flag, f.end, 1, f.start - f.flag);
    Within(upd, f.flag, f.end, 1, f.start - f.flag);
    Within(m, f.flag, f.end, f.start - f.flag, f.end - f.flag);
    Within(upd, f.flag, f.end, f.start - f.flag, f.end - f.flag);
    assert m[f.flag + 1..f.start] == x[1..f.start - f.flag] by {
      assert f.flag + (f.start - f.flag) == f.start;
    }
    assert Value(m, f) == x[f.start - f.flag..f.end - f.flag] == Value(upd, f);
    assert m[f.flag] == x[0] == upd[f.flag];
  }

  lemma Within(s: Bytes, a: nat, b: nat, i: nat, j: nat)
    requires a <= b <= |s| && i <= j <= b - a
    ensures s[a..b][i..j] == s[a + i..a + j]
  {
    var x, y := s[a..b][i..j], s[a + i..a + j];
    assert forall k :: 0 <= k < |x| ==> x[k] == s[a..b][i + k] == s[a + i + k] == y[k];
  }

  lemma PutBetween(done: Bytes, upd: Struct, tail: Bytes, f: Field, a: nat, c: (byte, Bytes), m: Struct)
    requires f.Valid() && |done| == a <= f.flag && f.end <= 1496 && |tail| == 136 && |c.1| == f.end - f.start
    requires m == done + upd[a..1496] + tail
    ensures Put(m, f, c) == done + Part(upd, f, a, c) + upd[f.end..1496] + tail
    ensures Own(m, f) == Own(upd, f)
  {
    hide Own;
    Pieces(done, upd, tail, f, a, m);
    Inner(m, upd, f);
    Regroup(done, upd[a..f.flag], [c.0], upd[f.flag + 1..f.start], c.1, upd[f.end..1496], tail);
  }

  lemma Regroup(a: Bytes, b: Bytes, c: Bytes, d: Bytes, e: Bytes, f: Bytes, g: Bytes)
    ensures a + b + c + d + e + (f + g) == a + (b + c + d + e) + f + g
  {
  }

  lemma PutOwn(s: Struct, f: Field)
    requires f.Valid()
    ensures Put(s, f, Own(s, f)) == s
  {
  }

  /** One more field in place; it still has its staged flag and value before. */
  lemma PutOne(rom: Struct, upd: Struct, derive: Derivation, k: nat)
    requires k < 11
    ensures Put(Mixed(rom, upd, derive, k), FIELDS[k], Chosen(rom, upd, derive, k)) == Mixed(rom, upd, derive, k + 1)
    ensures Own(Mixed(rom, upd, derive, k), FIELDS[k]) == Own(upd, FIELDS[k])
    ensures Chosen(rom, upd, derive, k) == Own(upd, FIELDS[k]) ==>
      Mixed(rom, upd, derive, k) == Mixed(rom, upd, derive, k + 1)
  {
    hide Chosen, UpTo, EndOf, Root, Part, Put, Own;
    EndsGrow(k);
    EndsInside(k);
    EndsInside(k + 1);
    UpToOne(rom, upd, derive, k);
    var f, c := FIELDS[k], Chosen(rom, upd, derive, k);
    var m, root := Mixed(rom, upd, derive, k), Root(rom, upd, derive);
    PutBetween(UpTo(rom, upd, derive, k), upd, [root.0] + upd[1497..1500] + root.1, f, EndOf(k), c, m);
    PutOwn(m, f);
  }

  lemma MixedStarts(rom: Struct, upd: Struct, derive: Derivation)
    ensures Mixed(rom, upd, derive, 0)
         == Put(Le32(PinStorage.STORAGE_VERSION) + upd[4..], U2FROOT, Root(rom, upd, derive))
  {
    hide Root;
  }

  lemma MixedEnds(rom: Struct, upd: Struct, derive: Derivation)
    ensures Mixed(rom, upd, derive, 11) == Merged(rom, upd, derive)
  {
    hide Chosen;
    UpToOne(rom, upd, derive, 11);
    assert Chosen(rom, upd, derive, 11) == Root(rom, upd, derive) by { LastIsRoot(rom, upd, derive); }
    assert EndOf(11) == 1496;
  }

  lemma LastIsRoot(rom: Struct, upd: Struct, derive: Derivation)
    ensures Chosen(rom, upd, derive, 11) == Root(rom, upd, derive)
  {
  }

  /** The version, the U2F root, and the two kinds of seed. */
  method MergeSeed(rom: Struct, upd: Struct, derive: Derivation) returns (m: Struct)
    ensures m == Mixed(rom, upd, derive, 2)
  {
    hide Mixed, Put, Own, Text, Has, Value, Copied, Root, Chosen;
    StartReads(upd);
    MixedStarts(rom, upd, derive);
    SeedCases(rom, upd, derive);
    PutOne(rom, upd, derive, 0);
    PutOne(rom, upd, derive, 1);
    m := Le32(PinStorage.STORAGE_VERSION) + upd[4..];
    if !Has(m, NODE) && !Has(m, MNEMONIC) {
      m := Put(m, U2FROOT, Own(rom, U2FROOT));
      m := Put(m, NODE, Own(rom, NODE));
      m := Put(m, MNEMONIC, Copied(rom, upd, MNEMONIC));
    } else if Has(m, MNEMONIC) {
      m := Put(m, U2FROOT, (1, derive(Text(Value(m, MNEMONIC)), Value(m, U2FROOT))));
    } else {
      PutOwn(m, U2FROOT);
    }
  }

  lemma StartReads(upd: Struct)
    ensures var m := Le32(PinStorage.STORAGE_VERSION) + upd[4..];
      && Has(m, NODE) == Has(upd, NODE) && Has(m, MNEMONIC) == Has(upd, MNEMONIC)
      && Value(m, MNEMONIC) == Value(upd, MNEMONIC)
      && Value(m, U2FROOT) == Value(upd, U2FROOT) && Own(m, U2FROOT) == Own(upd, U2FROOT)
  {
  }

  lemma SeedCases(rom: Struct, upd: Struct, derive: Derivation)
    ensures if !Has(upd, NODE) && !Has(upd, MNEMONIC)
            then && Root(rom, upd, derive) == Own(rom, U2FROOT)
                 && Chosen(rom, upd, derive, 0) == Own(rom, NODE)
                 && Chosen(rom, upd, derive, 1) == Copied(rom, upd, MNEMONIC)
            else && Root(rom, upd, derive) == (if Has(upd, MNEMONIC)
                      then (1, derive(Text(Value(upd, MNEMONIC)), Value(upd, U2FROOT))) else Own(upd, U2FROOT))
                 && Chosen(rom, upd, derive, 0) == Own(upd, NODE)
                 && Chosen(rom, upd, derive, 1) == Own(upd, MNEMONIC)
  {
    hide Text, Value, Has;
  }

  /** A field that is kept or replaced as a whole. */
  method MergePlain(rom: Struct, m: Struct, f: Field) returns (r: Struct)
    requires f.Valid()
    ensures r == Put(m, f, if Has(m, f) then Own(m, f) else Own(rom, f))
  {
    PutOwn(m, f);
    hide Put;
    r := if !Has(m, f) then Put(m, f, Own(rom, f)) else m;
  }

  /** A text; with `empties` the empty one is none. */
  method MergeText(rom: Struct, m: Struct, f: Field, empties: bool) returns (r: Struct)
    requires f.Valid()
    ensures r == Put(m, f, if !Has(m, f) then Copied(rom, m, f) else if empties then NonEmpty(m, f) else Own(m, f))
  {
    PutOwn(m, f);
    hide Put;
    r := m;
    if !Has(m, f) {
      r := Put(m, f, Copied(rom, m, f));
    } else if empties && Value(m, f)[0] == 0 {
      r := Put(m, f, (0, Value(m, f)));
    }
  }

  method MergePicture(rom: Struct, m: Struct) returns (r: Struct)
    ensures r == Put(m, HOMESCREEN, if Has(m, HOMESCREEN) then Picture(m) else Own(rom, HOMESCREEN))
  {
    PutOwn(m, HOMESCREEN);
    hide Put;
    r := m;
    if !Has(m, HOMESCREEN) {
      r := Put(m, HOMESCREEN, Own(rom, HOMESCREEN));
    } else if Value(m, HOMESCREEN)[..4] == [0, 0, 0, 0] {
      r := Put(m, HOMESCREEN, (0, Value(m, HOMESCREEN)));
    }
  }

  /** What a field reads while it has not been merged yet is what was staged. */
  lemma SameChoice(rom: Struct, upd: Struct, m: Struct, f: Field)
    requires f.Valid() && Own(m, f) == Own(upd, f)
    ensures Has(m, f) == Has(upd, f) && Copied(rom, m, f) == Copied(rom, upd, f) && NonEmpty(m, f) == NonEmpty(upd, f)
    ensures f == HOMESCREEN ==> Picture(m) == Picture(upd)
  {
  }

  lemma PutNext(rom: Struct, upd: Struct, derive: Derivation, k: nat)
    requires k < 11
    ensures var m, f := Mixed(rom, upd, derive, k), FIELDS[k];
      && Put(m, f, Chosen(rom, upd, derive, k)) == Mixed(rom, upd, derive, k + 1)
      && Own(m, f) == Own(upd, f) && Has(m, f) == Has(upd, f)
      && Copied(rom, m, f) == Copied(rom, upd, f) && NonEmpty(m, f) == NonEmpty(upd, f)
      && (f == HOMESCREEN ==> Picture(m) == Picture(upd))
  {
    hide Mixed, Chosen, Put, Copied, NonEmpty, Picture, Own, Has;
    PutOne(rom, upd, derive, k);
    SameChoice(rom, upd, Mixed(rom, upd, derive, k), FIELDS[k]);
  }

  /** The fields from the passphrase flag to the label. */
  method MergeTexts(rom: Struct, upd: Struct, derive: Derivation, was: Struct) returns (m: Struct)
    requires was == Mixed(rom, upd, derive, 2)
    ensures m == Mixed(rom, upd, derive, 6)
  {
    hide Mixed, Put, Own, Copied, NonEmpty, Picture, Has;
    PutNext(rom, upd, derive, 2);
    m := MergePlain(rom, was, PASSPHRASE);
    PutNext(rom, upd, derive, 3);
    m := MergeText(rom, m, PIN, true);
    PutNext(rom, upd, derive, 4);
    m := MergeText(rom, m, LANGUAGE, false);
    PutNext(rom, upd, derive, 5);
    m := MergeText(rom, m, LABEL, true);
  }

  /** The merge of `storage_commit_locked`, field by field on the staged structure. */
  method Merge(rom: Struct, upd: Struct, derive: Derivation) returns (m: Struct)
    ensures m == Merged(rom, upd, derive)
  {
    hide Mixed, Put, Own, Copied, NonEmpty, Picture, Merged, Has;
    m := MergeSeed(rom, upd, derive);
    m := MergeTexts(rom, upd, derive, m);
    PutNext(rom, upd, derive, 6);
    m := MergePlain(rom, m, IMPORTED);
    PutNext(rom, upd, derive, 7);
    m := MergePicture(rom, m);
    PutNext(rom, upd, derive, 8);
    m := MergePlain(rom, m, U2F);
    PutNext(rom, upd, derive, 9);
    m := MergePlain(rom, m, BACKUP);
    PutNext(rom, upd, derive, 10);
    m := MergePlain(rom, m, FLAGS);
    MixedEnds(rom, upd, derive);
  }
}
