/**
 The CryptoMemory stream cipher of at88sc0104.c: three shift registers fed by the data
 and by the previous output, the encryption and decryption of buffers in place.
 */
module CryptoMemory {
  // ------------------------------------------------------------ register sums

  /** `cm_Mod`; the C sum is an int, and within the bounds it fits a byte. */
  function ModSum(x: bv8, y: bv8, m: bv8): (r: bv8)
    requires x <= m && y <= m && m <= 0x7f
    ensures r <= m
  {
    if x + y > m then x + y - m else x + y
  }

  /** `cm_RotR` and `cm_RotT`. */
  function Rot5(x: bv8): (r: bv8)
    ensures r <= 0x1f
  {
    ((x & 0x0f) << 1) | ((x & 0x10) >> 4)
  }

  /** `cm_RotS`. */
  function Rot7(x: bv8): (r: bv8)
    ensures r <= 0x7f
  {
    ((x & 0x3f) << 1) | ((x & 0x40) >> 6)
  }

  /** Residues, in sixteen bits so that no sum of two bytes wraps. */
  function Mod31(x: bv16): bv16 { x % 31 }

  function Mod127(x: bv16): bv16 { x % 127 }

  function Wide(x: bv8): bv16 { x as bv16 }

  lemma Mod31Is(x: bv16)
    requires x <= 93
    ensures Mod31(x) == if x < 31 then x else if x < 62 then x - 31 else if x < 93 then x - 62 else 0
  {
  }

  lemma Mod127Is(x: bv16)
    requires x <= 381
    ensures Mod127(x) == if x < 127 then x else if x < 254 then x - 127 else if x < 381 then x - 254 else 0
  {
  }

  /** Nothing is lost in sixteen bits. */
  lemma WideEqual(x: bv8, y: bv8)
    ensures x == y <==> Wide(x) == Wide(y)
  {
  }

  lemma WideSum31(x: bv8, y: bv8)
    requires x <= 0x1f && y <= 0x1f
    ensures var w := Wide(x) + Wide(y); Wide(ModSum(x, y, 0x1f)) == if w > 0x1f then w - 0x1f else w
  {
  }

  lemma WideBounds31(x: bv8, y: bv8, r: bv8)
    requires x <= 0x1f && y <= 0x1f && r <= 0x1f
    ensures Wide(x) + Wide(y) <= 62 && Wide(r) <= 0x1f
    ensures (Wide(x) + Wide(y) == 0 <==> x == 0 && y == 0) && (Wide(r) == 0 <==> r == 0)
  {
  }

  lemma WideSum127(x: bv8, y: bv8)
    requires x <= 0x7f && y <= 0x7f
    ensures var w := Wide(x) + Wide(y); Wide(ModSum(x, y, 0x7f)) == if w > 0x7f then w - 0x7f else w
  {
  }

  lemma WideBounds127(x: bv8, y: bv8, r: bv8)
    requires x <= 0x7f && y <= 0x7f && r <= 0x7f
    ensures Wide(x) + Wide(y) <= 254 && Wide(r) <= 0x7f
    ensures (Wide(x) + Wide(y) == 0 <==> x == 0 && y == 0) && (Wide(r) == 0 <==> r == 0)
  {
  }

  lemma Residue31(w: bv16, r: bv16)
    requires w <= 62 && r <= 0x1f
    ensures r == (if w > 0x1f then w - 0x1f else w) <==> Mod31(r) == Mod31(w) && (r == 0 <==> w == 0)
  {
    hide Mod31;
    Mod31Is(r);
    Mod31Is(w);
  }

  lemma Residue127(w: bv16, r: bv16)
    requires w <= 254 && r <= 0x7f
    ensures r == (if w > 0x7f then w - 0x7f else w) <==> Mod127(r) == Mod127(w) && (r == 0 <==> w == 0)
  {
    hide Mod127;
    Mod127Is(r);
    Mod127Is(w);
  }

  /** The sum is the sum modulo 31 with zero kept apart from 31: this determines it. */
  lemma SumModulo31(x: bv8, y: bv8, r: bv8)
    requires x <= 0x1f && y <= 0x1f && r <= 0x1f
    ensures r == ModSum(x, y, 0x1f) <==> Mod31(Wide(r)) == Mod31(Wide(x) + Wide(y)) && (r == 0 <==> x == 0 && y == 0)
  {
    hide Mod31, Wide, ModSum;
    WideSum31(x, y);
    WideEqual(r, ModSum(x, y, 0x1f));
    WideBounds31(x, y, r);
    Residue31(Wide(x) + Wide(y), Wide(r));
  }

  lemma SumModulo127(x: bv8, y: bv8, r: bv8)
    requires x <= 0x7f && y <= 0x7f && r <= 0x7f
    ensures r == ModSum(x, y, 0x7f) <==> Mod127(Wide(r)) == Mod127(Wide(x) + Wide(y)) && (r == 0 <==> x == 0 && y == 0)
  {
    hide Mod127, Wide, ModSum;
    WideSum127(x, y);
    WideEqual(r, ModSum(x, y, 0x7f));
    WideBounds127(x, y, r);
    Residue127(Wide(x) + Wide(y), Wide(r));
  }

  /** The rotations double modulo 31 and 127, again with zero kept apart. */
  lemma RotationDoubles31(x: bv8, r: bv8)
    requires x <= 0x1f && r <= 0x1f
    ensures r == Rot5(x) <==> Mod31(Wide(r)) == Mod31(Wide(x) + Wide(x)) && (r == 0 <==> x == 0)
  {
    hide Mod31;
    Mod31Is(Wide(r));
    Mod31Is(Wide(x) + Wide(x));
  }

  lemma RotationDoubles127(x: bv8, r: bv8)
    requires x <= 0x7f && r <= 0x7f
    ensures r == Rot7(x) <==> Mod127(Wide(r)) == Mod127(Wide(x) + Wide(x)) && (r == 0 <==> x == 0)
  {
    hide Mod127;
    Mod127Is(Wide(r));
    Mod127Is(Wide(x) + Wide(x));
  }

  // ------------------------------------------------------------- one clock

  /** The registers hold values of five and seven bits. */
  type bits5 = x: bv8 | x <= 0x1f
  type bits7 = x: bv8 | x <= 0x7f

  datatype State = State(r: seq<bits5>, s: seq<bits7>, t: seq<bits5>, out: bv8)
  {
    predicate Valid()
    {
      |r| == 7 && |s| == 7 && |t| == 5
    }
  }

  function IntoR(din: bv8): bits5 { din & 0x1f }

  function IntoS(din: bv8): bits7 { ((din & 0x0f) << 3) | ((din & 0xe0) >> 5) }

  function IntoT(din: bv8): bits5 { (din & 0xf8) >> 3 }

  function Output(out: bv8, r0: bv8, r4: bv8, s0: bv8, t0: bv8, t3: bv8): bv8
  {
    ((out << 4) & 0xf0) | (((((r0 ^ r4) & 0x0f) & !s0) | (((t0 ^ t3) & 0x0f) & s0)) & 0x0f)
  }

  /** The low bits of S[0] select the four new bits of the output; the nibble before moves up. */
  lemma OutputSelects(out: bv8, r0: bv8, r4: bv8, s0: bv8, t0: bv8, t3: bv8, bit: bv8)
    requires bit == 1 || bit == 2 || bit == 4 || bit == 8
    ensures Output(out, r0, r4, s0, t0, t3) & bit == (if s0 & bit == 0 then r0 ^ r4 else t0 ^ t3) & bit
    ensures Output(out, r0, r4, s0, t0, t3) >> 4 == out & 0x0f
  {
  }

  /** `cm_GPAGen` as a step of the registers. */
  function Clock(g: State, data: bv8): (h: State)
    requires g.Valid()
    ensures h.Valid()
  {
    var din := data ^ g.out;
    var r := [ModSum(g.r[3], Rot5(g.r[6]), 0x1f), g.r[0], g.r[1], Xor5(g.r[2], IntoR(din)), g.r[3], g.r[4], g.r[5]];
    var s := [ModSum(g.s[5], Rot7(g.s[6]), 0x7f), g.s[0], g.s[1], g.s[2], g.s[3], Xor7(g.s[4], IntoS(din)), g.s[5]];
    var t := [ModSum(g.t[4], g.t[2], 0x1f), g.t[0], Xor5(g.t[1], IntoT(din)), g.t[2], g.t[3]];
    State(r, s, t, Output(g.out, r[0], r[4], s[0], t[0], t[3]))
  }

  function Xor5(x: bits5, y: bits5): bits5 { x ^ y }

  function Xor7(x: bits7, y: bits7): bits7 { x ^ y }

  /** R takes in the five low bits, T the five high bits, S the bits 3 to 0 in front of the bits 7 to 5. */
  lemma InputBits(din: bv8)
    ensures IntoR(din) & 0x10 == din & 0x10 && IntoR(din) & 0x0f == din & 0x0f
    ensures IntoS(din) >> 3 == din & 0x0f && IntoS(din) & 0x07 == din >> 5
    ensures IntoT(din) == din >> 3
  {
  }

  /** r = x + 2 y modulo 31, with zero kept apart. */
  predicate SumAndTwice31(r: bv8, x: bv8, y: bv8)
  {
    Mod31(Wide(r)) == Mod31(Wide(x) + (Wide(y) + Wide(y))) && (r == 0 <==> x == 0 && y == 0)
  }

  /** r = x + 2 y modulo 127, with zero kept apart. */
  predicate SumAndTwice127(r: bv8, x: bv8, y: bv8)
  {
    Mod127(Wide(r)) == Mod127(Wide(x) + (Wide(y) + Wide(y))) && (r == 0 <==> x == 0 && y == 0)
  }

  lemma SumDoubled31(x: bits5, y: bits5)
    ensures SumAndTwice31(ModSum(x, Rot5(y), 0x1f), x, y)
  {
    hide ModSum, Mod31, Wide, Rot5;
    WideBounds31(y, y, x);
    WideBounds31(y, y, Rot5(y));
    SumModulo31(x, Rot5(y), ModSum(x, Rot5(y), 0x1f));
    RotationDoubles31(y, Rot5(y));
    SumOfResidues31(Wide(x), Wide(Rot5(y)), Wide(y) + Wide(y));
  }

  lemma SumOfResidues31(a: bv16, u: bv16, v: bv16)
    requires a <= 31 && u <= 31 && v <= 62 && Mod31(u) == Mod31(v)
    ensures Mod31(a + u) == Mod31(a + v)
  {
    hide Mod31;
    Mod31Is(u);
    Mod31Is(v);
    Mod31Is(a + u);
    Mod31Is(a + v);
  }

  lemma SumDoubled127(x: bits7, y: bits7)
    ensures SumAndTwice127(ModSum(x, Rot7(y), 0x7f), x, y)
  {
    hide ModSum, Mod127, Wide, Rot7;
    WideBounds127(y, y, x);
    WideBounds127(y, y, Rot7(y));
    SumModulo127(x, Rot7(y), ModSum(x, Rot7(y), 0x7f));
    RotationDoubles127(y, Rot7(y));
    SumOfResidues127(Wide(x), Wide(Rot7(y)), Wide(y) + Wide(y));
  }

  lemma SumOfResidues127(a: bv16, u: bv16, v: bv16)
    requires a <= 127 && u <= 127 && v <= 254 && Mod127(u) == Mod127(v)
    ensures Mod127(a + u) == Mod127(a + v)
  {
    hide Mod127;
    Mod127Is(u);
    Mod127Is(v);
    Mod127Is(a + u);
    Mod127Is(a + v);
  }

  lemma XorBack5(x: bits5, y: bits5)
    ensures Xor5(x, y) ^ x == y
  {
  }

  lemma XorBack7(x: bits7, y: bits7)
    ensures Xor7(x, y) ^ x == y
  {
  }

  /** One clock moves the registers up by one, and the input comes into R[3], S[5] and T[2]. */
  lemma ClockShifts(g: State, data: bv8)
    requires g.Valid()
    ensures var h, din := Clock(g, data), data ^ g.out;
      && h.r[1] == g.r[0] && h.r[2] == g.r[1] && h.r[4] == g.r[3] && h.r[5] == g.r[4] && h.r[6] == g.r[5]
      && h.s[1] == g.s[0] && h.s[2] == g.s[1] && h.s[3] == g.s[2] && h.s[4] == g.s[3] && h.s[6] == g.s[5]
      && h.t[1] == g.t[0] && h.t[3] == g.t[2] && h.t[4] == g.t[3]
      && h.r[3] == Xor5(g.r[2], IntoR(din)) && h.s[5] == Xor7(g.s[4], IntoS(din)) && h.t[2] == Xor5(g.t[1], IntoT(din))
  {
    hide ModSum, Rot5, Rot7, Xor5, Xor7, IntoR, IntoS, IntoT, Output;
  }

  /** So that the bits of the input are the differences of these registers. */
  lemma ClockTakesIn(g: State, data: bv8)
    requires g.Valid()
    ensures var h, din := Clock(g, data), data ^ g.out;
      && (h.r[3] ^ g.r[2]) & 0x10 == din & 0x10 && (h.r[3] ^ g.r[2]) & 0x0f == din & 0x0f
      && (h.s[5] ^ g.s[4]) >> 3 == din & 0x0f && (h.s[5] ^ g.s[4]) & 0x07 == din >> 5
      && h.t[2] ^ g.t[1] == din >> 3
  {
    hide Clock, Xor5, Xor7, IntoR, IntoS, IntoT;
    var din := data ^ g.out;
    ClockShifts(g, data);
    InputBits(din);
    XorBack5(g.r[2], IntoR(din));
    XorBack7(g.s[4], IntoS(din));
    XorBack5(g.t[1], IntoT(din));
  }

  lemma ClockSums(g: State, data: bv8)
    requires g.Valid()
    ensures var h := Clock(g, data);
      && h.r[0] == ModSum(g.r[3], Rot5(g.r[6]), 0x1f) && h.s[0] == ModSum(g.s[5], Rot7(g.s[6]), 0x7f)
      && h.t[0] == ModSum(g.t[4], g.t[2], 0x1f)
      && h.out == Output(g.out, h.r[0], h.r[4], h.s[0], h.t[0], h.t[3])
  {
    hide ModSum, Rot5, Rot7, Xor5, Xor7, IntoR, IntoS, IntoT, Output;
  }

  /** The new first registers: R[3] + 2 R[6] modulo 31, S[5] + 2 S[6] modulo 127, T[4] + T[2] modulo 31. */
  lemma Polynomials(g: State, data: bv8)
    requires g.Valid()
    ensures SumAndTwice31(Clock(g, data).r[0], g.r[3], g.r[6]) && SumAndTwice127(Clock(g, data).s[0], g.s[5], g.s[6])
    ensures Mod31(Wide(Clock(g, data).t[0])) == Mod31(Wide(g.t[4]) + Wide(g.t[2]))
    ensures Clock(g, data).t[0] == 0 <==> g.t[4] == 0 && g.t[2] == 0
  {
    hide Mod31, Wide, ModSum, Rot5, Rot7, Clock, Output, SumAndTwice31, SumAndTwice127;
    ClockSums(g, data);
    SumDoubled31(g.r[3], g.r[6]);
    SumDoubled127(g.s[5], g.s[6]);
    SumModulo31(g.t[4], g.t[2], ModSum(g.t[4], g.t[2], 0x1f));
  }

  /** And each new bit of the output is one of R[0] ^ R[4] or of T[0] ^ T[3], as S[0] says. */
  lemma ClockOutput(g: State, data: bv8, bit: bv8)
    requires g.Valid() && (bit == 1 || bit == 2 || bit == 4 || bit == 8)
    ensures var h := Clock(g, data);
      && h.out >> 4 == g.out & 0x0f
      && h.out & bit == (if h.s[0] & bit == 0 then h.r[0] ^ h.r[4] else h.t[0] ^ h.t[3]) & bit
  {
    hide Output, Clock;
    var h := Clock(g, data);
    ClockSums(g, data);
    OutputSelects(g.out, h.r[0], h.r[4], h.s[0], h.t[0], h.t[3], bit);
  }

  function Clocks(g: State, data: bv8, count: nat): (h: State)
    requires g.Valid()
    ensures h.Valid()
  {
    if count == 0 then g else Clock(Clocks(g, data, count - 1), data)
  }

  /** Five clocks without data, as they come before each byte on one side and after it on the other. */
  function Idle(g: State): (h: State)
    requires g.Valid()
    ensures h.Valid()
  {
    Clocks(g, 0, 5)
  }

  // ---------------------------------------------------------------- buffers

  function AfterEncrypt(g: State, plain: seq<bv8>): (h: State)
    requires g.Valid()
    ensures h.Valid()
  {
    if |plain| == 0 then g
    else Clock(Idle(AfterEncrypt(g, plain[..|plain| - 1])), plain[|plain| - 1])
  }

  function Enciphered(g: State, encrypt: bool, plain: seq<bv8>): (c: seq<bv8>)
    requires g.Valid()
    ensures |c| == |plain|
  {
    if |plain| == 0 then []
    else
      var front, last := plain[..|plain| - 1], plain[|plain| - 1];
      Enciphered(g, encrypt, front) + [if encrypt then Xor(last, Idle(AfterEncrypt(g, front)).out) else last]
  }

  function AfterDecrypt(g: State, encrypt: bool, cipher: seq<bv8>): (h: State)
    requires g.Valid()
    ensures h.Valid()
  {
    if |cipher| == 0 then g
    else
      var h, last := AfterDecrypt(g, encrypt, cipher[..|cipher| - 1]), cipher[|cipher| - 1];
      Idle(Clock(h, if encrypt then Xor(last, h.out) else last))
  }

  function Deciphered(g: State, encrypt: bool, cipher: seq<bv8>): (p: seq<bv8>)
    requires g.Valid()
    ensures |p| == |cipher|
  {
    if |cipher| == 0 then []
    else
      var front, last := cipher[..|cipher| - 1], cipher[|cipher| - 1];
      Deciphered(g, encrypt, front) + [if encrypt then Xor(last, AfterDecrypt(g, encrypt, front).out) else last]
  }

  lemma EncryptOne(g: State, encrypt: bool, plain: seq<bv8>, x: bv8)
    requires g.Valid()
    ensures Enciphered(g, encrypt, plain + [x])
         == Enciphered(g, encrypt, plain) + [if encrypt then Xor(x, Idle(AfterEncrypt(g, plain)).out) else x]
    ensures AfterEncrypt(g, plain + [x]) == Clock(Idle(AfterEncrypt(g, plain)), x)
  {
    hide Idle, Clock, State.Valid, Xor;
    assert (plain + [x])[..|plain|] == plain;
  }

  /**
   Each byte goes through exclusive or with the output five idle clocks after the byte before;
   without encryption it stays.
   */
  lemma {:induction false} EncipheredByte(g: State, plain: seq<bv8>, i: nat)
    requires g.Valid() && i < |plain|
    ensures Enciphered(g, true, plain)[i] == plain[i] ^ Clocks(AfterEncrypt(g, plain[..i]), 0, 5).out
    ensures Enciphered(g, false, plain)[i] == plain[i]
    decreases |plain|
  {
    hide Clock, State.Valid, AfterEncrypt;
    var n := |plain| - 1;
    if i < n {
      EncipheredByte(g, plain[..n], i);
      assert plain[..n][..i] == plain[..i];
    }
  }

  lemma DecryptOne(g: State, encrypt: bool, cipher: seq<bv8>, x: bv8)
    requires g.Valid()
    ensures var h := AfterDecrypt(g, encrypt, cipher);
      var p := if encrypt then Xor(x, h.out) else x;
      Deciphered(g, encrypt, cipher + [x]) == Deciphered(g, encrypt, cipher) + [p]
      && AfterDecrypt(g, encrypt, cipher + [x]) == Idle(Clock(h, p))
  {
    hide Idle, Clock, State.Valid, Xor;
    assert (cipher + [x])[..|cipher|] == cipher;
  }

  /** Decryption from five idle clocks ahead gives the plain text back and ends five idle clocks ahead again. */
  lemma {:induction false} DecryptInvertsEncrypt(g: State, encrypt: bool, plain: seq<bv8>)
    requires g.Valid()
    ensures Deciphered(Idle(g), encrypt, Enciphered(g, encrypt, plain)) == plain
    ensures AfterDecrypt(Idle(g), encrypt, Enciphered(g, encrypt, plain)) == Idle(AfterEncrypt(g, plain))
  {
    hide Idle, Clock, State.Valid, Xor, Enciphered, AfterEncrypt, Deciphered, AfterDecrypt;
    EncryptNone(g, encrypt);
    DecryptNone(Idle(g), encrypt);
    if |plain| > 0 {
      var front, last := plain[..|plain| - 1], plain[|plain| - 1];
      assert plain == front + [last];
      var key := Idle(AfterEncrypt(g, front)).out;
      DecryptInvertsEncrypt(g, encrypt, front);
      EncryptOne(g, encrypt, front, last);
      DecryptOne(Idle(g), encrypt, Enciphered(g, encrypt, front), if encrypt then Xor(last, key) else last);
      XorTwice(last, key);
    }
  }

  /** Any buffer is what encrypting its decryption yields, with the states in step again. */
  lemma {:induction false} EncryptInvertsDecrypt(g: State, encrypt: bool, cipher: seq<bv8>)
    requires g.Valid()
    ensures Enciphered(g, encrypt, Deciphered(Idle(g), encrypt, cipher)) == cipher
    ensures AfterDecrypt(Idle(g), encrypt, cipher) == Idle(AfterEncrypt(g, Deciphered(Idle(g), encrypt, cipher)))
  {
    hide Idle, Clock, State.Valid, Xor, Enciphered, AfterEncrypt, Deciphered, AfterDecrypt;
    EncryptNone(g, encrypt);
    DecryptNone(Idle(g), encrypt);
    if |cipher| > 0 {
      var front, last := cipher[..|cipher| - 1], cipher[|cipher| - 1];
      assert cipher == front + [last];
      var key := AfterDecrypt(Idle(g), encrypt, front).out;
      EncryptInvertsDecrypt(g, encrypt, front);
      DecryptOne(Idle(g), encrypt, front, last);
      EncryptOne(g, encrypt, Deciphered(Idle(g), encrypt, front), if encrypt then Xor(last, key) else last);
      XorTwice(last, key);
    }
  }

  function Xor(x: bv8, k: bv8): bv8 { x ^ k }

  lemma XorTwice(x: bv8, k: bv8)
    ensures Xor(Xor(x, k), k) == x
  {
  }

  // ------------------------------------------------------------- the device

  class Cipher {
    const R: array<bits5>
    const S: array<bits7>
    const T: array<bits5>
    var out: bv8

    ghost predicate Valid()
      reads this, R, S, T
    {
      && R.Length == 7 && S.Length == 7 && T.Length == 5 && R != T
      && Gpa().Valid()
    }

    ghost function Gpa(): State
      reads this, R, S, T
    {
      State(R[..], S[..], T[..], out)
    }

    /** `cm_ResetCrypto`. */
    constructor ()
      ensures Valid() && fresh(R) && fresh(S) && fresh(T)
      ensures Gpa() == State(seq(7, _ => 0), seq(7, _ => 0), seq(5, _ => 0), 0)
    {
      R := new bits5[7](_ => 0);
      S := new bits7[7](_ => 0);
      T := new bits5[5](_ => 0);
      out := 0;
    }

    /** The R polynomial. */
    method ClockR(input: bits5)
      requires R.Length == 7
      modifies R
      ensures R[..] == [old(ModSum(R[3], Rot5(R[6]), 0x1f)), old(R[0]), old(R[1]), Xor5(old(R[2]), input), old(R[3]),
        old(R[4]), old(R[5])]
    {
      hide ModSum, Rot5, Rot7, Xor5, Xor7;
      var sum := ModSum(R[3], Rot5(R[6]), 0x1f);
      forall k | 1 <= k < 7 { R[k] := R[k - 1]; }
      R[3] := Xor5(R[3], input);
      R[0] := sum;
    }

    /** The S polynomial. */
    method ClockS(input: bits7)
      requires S.Length == 7
      modifies S
      ensures S[..] == [old(ModSum(S[5], Rot7(S[6]), 0x7f)), old(S[0]), old(S[1]), old(S[2]), old(S[3]),
        Xor7(old(S[4]), input), old(S[5])]
    {
      hide ModSum, Rot5, Rot7, Xor5, Xor7;
      var sum := ModSum(S[5], Rot7(S[6]), 0x7f);
      forall k | 1 <= k < 7 { S[k] := S[k - 1]; }
      S[5] := Xor7(S[5], input);
      S[0] := sum;
    }

    /** The T polynomial. */
    method ClockT(input: bits5)
      requires T.Length == 5
      modifies T
      ensures T[..] == [old(ModSum(T[4], T[2], 0x1f)), old(T[0]), Xor5(old(T[1]), input), old(T[2]), old(T[3])]
    {
      hide ModSum, Rot5, Rot7, Xor5, Xor7;
      var sum := ModSum(T[4], T[2], 0x1f);
      forall k | 1 <= k < 5 { T[k] := T[k - 1]; }
      T[2] := Xor5(T[2], input);
      T[0] := sum;
    }

    method GPAGen(data: bv8) returns (o: bv8)
      requires Valid()
      modifies this, R, S, T
      ensures Valid() && Gpa() == Clock(old(Gpa()), data)
      ensures o == out
    {
      hide ModSum, Rot5, Rot7, IntoR, IntoS, IntoT, Xor5, Xor7, Output;
      var din := data ^ out;
      ClockR(IntoR(din));
      ClockS(IntoS(din));
      ClockT(IntoT(din));
      out := Output(out, R[0], R[4], S[0], T[0], T[3]);
      o := out;
    }

    /** `cm_GPAGenN`; the count is a byte that is decremented first, so that 0 means 256. */
    method GPAGenN(data: bv8, count: nat) returns (o: bv8)
      requires Valid() && count < 256
      modifies this, R, S, T
      ensures Valid() && Gpa() == Clocks(old(Gpa()), data, if count == 0 then 256 else count)
      ensures o == out
    {
      hide State.Valid, Clock;
      ghost var g, total: nat := Gpa(), if count == 0 then 256 else count;
      var left := (count - 1) % 256;
      while left != 0
        invariant Valid() && 0 <= left < total
        invariant Gpa() == Clocks(g, data, total - 1 - left)
        decreases left
      {
        var _ := GPAGen(data);
        left := left - 1;
      }
      o := GPAGen(data);
    }

    /** `cm_GPAencrypt`. */
    method Encrypt(encrypt: bool, buffer: array<bv8>, count: nat)
      requires Valid() && buffer as object !in {R as object, S as object, T as object}
      requires count <= buffer.Length && count < 256
      modifies this, R, S, T, buffer
      ensures Valid()
      ensures buffer[..] == Enciphered(old(Gpa()), encrypt, old(buffer[..count])) + old(buffer[count..])
      ensures Gpa() == AfterEncrypt(old(Gpa()), old(buffer[..count]))
    {
      hide State.Valid, Clock, Idle, Enciphered, AfterEncrypt;
      ghost var g, was := Gpa(), buffer[..];
      EncryptNone(g, encrypt);
      var i := 0;
      while i < count
        invariant Valid() && 0 <= i <= count
        invariant buffer[..] == Enciphered(g, encrypt, was[..i]) + was[i..]
        invariant Gpa() == AfterEncrypt(g, was[..i])
      {
        EncryptOne(g, encrypt, was[..i], was[i]);
        TakeOne(Enciphered(g, encrypt, was[..i]), was, i, if encrypt then Xor(was[i], Idle(Gpa()).out) else was[i]);
        EncryptByte(encrypt, buffer, i);
        i := i + 1;
      }
      assert was[..count] == old(buffer[..count]) && was[count..] == old(buffer[count..]);
    }

    method EncryptByte(encrypt: bool, buffer: array<bv8>, i: nat)
      requires Valid() && buffer as object !in {R as object, S as object, T as object}
      requires i < buffer.Length
      modifies this, R, S, T, buffer
      ensures Valid() && Gpa() == Clock(Idle(old(Gpa())), old(buffer[i]))
      ensures buffer[..] == old(buffer[..])[i :=
        if encrypt then Xor(old(buffer[i]), Idle(old(Gpa())).out) else old(buffer[i])]
    {
      hide State.Valid, Clock, Clocks, Xor;
      var _ := GPAGenN(0, 5);
      var data := buffer[i];
      if encrypt {
        buffer[i] := Xor(buffer[i], out);
      }
      var _ := GPAGen(data);
    }

    /** `cm_GPAdecrypt`. */
    method Decrypt(encrypt: bool, buffer: array<bv8>, count: nat)
      requires Valid() && buffer as object !in {R as object, S as object, T as object}
      requires count <= buffer.Length && count < 256
      modifies this, R, S, T, buffer
      ensures Valid()
      ensures buffer[..] == Deciphered(old(Gpa()), encrypt, old(buffer[..count])) + old(buffer[count..])
      ensures Gpa() == AfterDecrypt(old(Gpa()), encrypt, old(buffer[..count]))
    {
      hide State.Valid, Clock, Idle, Deciphered, AfterDecrypt;
      ghost var g, was := Gpa(), buffer[..];
      DecryptNone(g, encrypt);
      var i := 0;
      while i < count
        invariant Valid() && 0 <= i <= count
        invariant buffer[..] == Deciphered(g, encrypt, was[..i]) + was[i..]
        invariant Gpa() == AfterDecrypt(g, encrypt, was[..i])
      {
        DecryptOne(g, encrypt, was[..i], was[i]);
        TakeOne(Deciphered(g, encrypt, was[..i]), was, i, if encrypt then Xor(was[i], out) else was[i]);
        DecryptByte(encrypt, buffer, i);
        i := i + 1;
      }
      assert was[..count] == old(buffer[..count]) && was[count..] == old(buffer[count..]);
    }

    method DecryptByte(encrypt: bool, buffer: array<bv8>, i: nat)
      requires Valid() && buffer as object !in {R as object, S as object, T as object}
      requires i < buffer.Length
      modifies this, R, S, T, buffer
      ensures Valid()
      ensures buffer[..] == old(buffer[..])[i := if encrypt then Xor(old(buffer[i]), old(out)) else old(buffer[i])]
      ensures Gpa() == Idle(Clock(old(Gpa()), buffer[i]))
    {
      hide State.Valid, Clock, Clocks, Xor;
      if encrypt {
        buffer[i] := Xor(buffer[i], out);
      }
      var _ := GPAGen(buffer[i]);
      var _ := GPAGenN(0, 5);
    }
  }

  lemma TakeOne(done: seq<bv8>, was: seq<bv8>, i: nat, x: bv8)
    requires i < |was| && |done| == i
    ensures was[..i] + [was[i]] == was[..i + 1]
    ensures (done + was[i..])[i] == was[i]
    ensures (done + was[i..])[i := x] == done + [x] + was[i + 1..]
  {
  }

  lemma EncryptNone(g: State, encrypt: bool)
    requires g.Valid()
    ensures Enciphered(g, encrypt, []) == [] && AfterEncrypt(g, []) == g
  {
  }

  lemma DecryptNone(g: State, encrypt: bool)
    requires g.Valid()
    ensures Deciphered(g, encrypt, []) == [] && AfterDecrypt(g, encrypt, []) == g
  {
  }
}
