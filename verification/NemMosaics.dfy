/**
 The order of NEM mosaics (firmware/nem2.h) and what a canonical list of them is
 (firmware/nem2.c): strictly sorted, each name once, quantities summed modulo 2^64.
 */
module NemMosaics {
  import opened Bytes

  /** C strings of 7-bit characters, without their terminator. */
  type Char7 = x: int | 1 <= x < 128 witness 1
  type Text = seq<Char7>

  const COLON: Char7 := 0x3A

  datatype Mosaic = Mosaic(namespace: Text, name: Text, quantity: uint64)

  // ------------------------------------------------------------- comparing

  /** `strcmp`: the difference at the first place where the strings differ, the terminator being 0. */
  function StrCmp(s: Text, t: Text): int
  {
    if |s| == 0 then (if |t| == 0 then 0 else -(t[0] as int))
    else if |t| == 0 then s[0] as int
    else if s[0] != t[0] then s[0] as int - t[0] as int
    else StrCmp(s[1..], t[1..])
  }

  function Take(s: Text, n: nat): Text
  {
    if n < |s| then s[..n] else s
  }

  /** `strncmp`. */
  function StrNCmp(s: Text, t: Text, n: nat): int
  {
    StrCmp(Take(s, n), Take(t, n))
  }

  /** `nem_mosaicCompare`. */
  function Compare(a: Mosaic, b: Mosaic): int
    decreases if |a.namespace| > |b.namespace| then 1 else 0
  {
    var n := |a.namespace|;
    if n > |b.namespace| then -Compare(b, a)
    else
      var r := StrNCmp(a.namespace, b.namespace, n);
      var r' := if r == 0 && n < |b.namespace| then COLON as int - b.namespace[n] as int else r;
      if r' == 0 then StrCmp(a.name, b.name) else r'
  }

  /** The qualified name. */
  function Key(m: Mosaic): Text
  {
    m.namespace + [COLON] + m.name
  }

  /** One namespace is the other followed by a colon and more: what the comparator overlooks. */
  predicate ColonClash(a: Mosaic, b: Mosaic)
  {
    || (|a.namespace| < |b.namespace| && b.namespace[..|a.namespace|] == a.namespace
        && b.namespace[|a.namespace|] == COLON)
    || (|b.namespace| < |a.namespace| && a.namespace[..|b.namespace|] == b.namespace
        && a.namespace[|b.namespace|] == COLON)
  }

  lemma {:induction false} StrCmpAntisymmetric(s: Text, t: Text)
    ensures StrCmp(s, t) == -StrCmp(t, s)
  {
    if |s| > 0 && |t| > 0 && s[0] == t[0] {
      StrCmpAntisymmetric(s[1..], t[1..]);
    }
  }

  lemma {:induction false} StrCmpZero(s: Text, t: Text)
    ensures StrCmp(s, t) == 0 <==> s == t
  {
    if |s| > 0 && |t| > 0 && s[0] == t[0] {
      StrCmpZero(s[1..], t[1..]);
      assert s == [s[0]] + s[1..] && t == [t[0]] + t[1..];
    }
  }

  lemma {:induction false} StrCmpTransitive(s: Text, t: Text, u: Text)
    requires StrCmp(s, t) <= 0 && StrCmp(t, u) <= 0
    ensures StrCmp(s, u) <= 0
    ensures StrCmp(s, t) < 0 || StrCmp(t, u) < 0 ==> StrCmp(s, u) < 0
  {
    if |s| > 0 && |t| > 0 && |u| > 0 && s[0] == t[0] == u[0] {
      StrCmpTransitive(s[1..], t[1..], u[1..]);
    }
  }

  /** Behind a common prefix the comparison goes on. */
  lemma {:induction false} StrCmpPrefix(p: Text, s: Text, t: Text)
    ensures StrCmp(p + s, p + t) == StrCmp(s, t)
  {
    if |p| == 0 {
      assert p + s == s && p + t == t;
    } else {
      assert (p + s)[1..] == p[1..] + s && (p + t)[1..] == p[1..] + t;
      StrCmpPrefix(p[1..], s, t);
    }
  }

  /** A difference within the first `n` characters decides, whatever follows. */
  lemma {:induction false} StrCmpDecided(s: Text, t: Text, s': Text, t': Text)
    requires |s| == |t| && s != t
    ensures StrCmp(s + s', t + t') == StrCmp(s, t) != 0
  {
    if s[0] == t[0] {
      assert s == [s[0]] + s[1..] && t == [t[0]] + t[1..];
      assert (s + s')[1..] == s[1..] + s' && (t + t')[1..] == t[1..] + t';
      StrCmpDecided(s[1..], t[1..], s', t');
    }
  }

  /** Without such a clash, comparing mosaics is comparing qualified names. */
  lemma CompareIsKeyOrder(a: Mosaic, b: Mosaic)
    requires !ColonClash(a, b)
    ensures Compare(a, b) == StrCmp(Key(a), Key(b))
    decreases if |a.namespace| > |b.namespace| then 1 else 0
  {
    var n := |a.namespace|;
    if n > |b.namespace| {
      CompareIsKeyOrder(b, a);
      StrCmpAntisymmetric(Key(a), Key(b));
    } else {
      var p, q := a.namespace, b.namespace[..n];
      var tail := b.namespace[n..];
      assert b.namespace == q + tail;
      assert Key(a) == p + ([COLON] + a.name);
      assert Key(b) == q + (tail + [COLON] + b.name);
      StrCmpZero(p, q);
      assert Take(a.namespace, n) == p && Take(b.namespace, n) == q;
      if p == q {
        StrCmpPrefix(p, [COLON] + a.name, tail + [COLON] + b.name);
        if |tail| == 0 {
          assert tail + [COLON] + b.name == [COLON] + b.name;
          StrCmpPrefix([COLON], a.name, b.name);
        } else {
          assert (tail + [COLON] + b.name)[0] == tail[0] == b.namespace[n] != COLON;
        }
      } else {
        StrCmpDecided(p, q, [COLON] + a.name, tail + [COLON] + b.name);
      }
    }
  }

  lemma SplitKey(p: Text, s: Text, q: Text, t: Text)
    requires |p| <= |q| && p + [COLON] + s == q + [COLON] + t
    ensures (p == q && s == t) || (|p| < |q| && q[..|p|] == p && q[|p|] == COLON)
  {
    var u, v := p + [COLON] + s, q + [COLON] + t;
    assert u[..|p|] == p && v[..|q|] == q && u[|p|] == COLON;
    assert u[|p| + 1..] == s && v[|q| + 1..] == t;
    assert q[..|p|] == v[..|p|];
  }

  predicate SameName(a: Mosaic, b: Mosaic)
  {
    a.namespace == b.namespace && a.name == b.name
  }

  /** Where namespaces do not clash, zero means equal, and the sign is antisymmetric and transitive. */
  lemma TotalOrder(a: Mosaic, b: Mosaic, c: Mosaic)
    requires !ColonClash(a, b) && !ColonClash(b, c) && !ColonClash(a, c)
    ensures Compare(a, b) == 0 <==> SameName(a, b)
    ensures Compare(a, b) == -Compare(b, a)
    ensures Compare(a, b) <= 0 && Compare(b, c) <= 0 ==> Compare(a, c) <= 0
    ensures Compare(a, b) < 0 && Compare(b, c) < 0 ==> Compare(a, c) < 0
  {
    hide Compare, StrCmp;
    CompareIsKeyOrder(a, b);
    CompareIsKeyOrder(b, a);
    CompareIsKeyOrder(b, c);
    CompareIsKeyOrder(a, c);
    StrCmpZero(Key(a), Key(b));
    StrCmpAntisymmetric(Key(a), Key(b));
    if Key(a) == Key(b) {
      if |a.namespace| <= |b.namespace| {
        SplitKey(a.namespace, a.name, b.namespace, b.name);
      } else {
        SplitKey(b.namespace, b.name, a.namespace, a.name);
      }
    }
    if Compare(a, b) <= 0 && Compare(b, c) <= 0 {
      StrCmpTransitive(Key(a), Key(b), Key(c));
    }
  }

  /** For any namespaces at all: zero means the same name, except exactly for equal names across such a clash. */
  lemma ZeroExactly(a: Mosaic, b: Mosaic)
    ensures Compare(a, b) == 0 <==> SameName(a, b) || (ColonClash(a, b) && a.name == b.name)
    decreases if |a.namespace| > |b.namespace| then 1 else 0
  {
    if |a.namespace| > |b.namespace| {
      ZeroExactly(b, a);
    } else {
      StrCmpZero(a.namespace, b.namespace[..|a.namespace|]);
      StrCmpZero(a.name, b.name);
      assert |a.namespace| == |b.namespace| ==> b.namespace[..|a.namespace|] == b.namespace;
    }
  }

  /** Two different names that compare equal: "a" and "a:b" with the same mosaic. */
  lemma ColonsConfuse()
    ensures exists a: Mosaic, b: Mosaic :: Compare(a, b) == 0 && !SameName(a, b)
  {
    var a, b := Mosaic([0x61], [0x78], 1), Mosaic([0x61, COLON, 0x62], [0x78], 1);
    ZeroExactly(a, b);
    assert b.namespace[..1] == [0x61];
    assert Compare(a, b) == 0 && !SameName(a, b);
  }

  /** The comparator only looks at names, and turning it around changes the sign. */
  lemma CompareNames(a: Mosaic, b: Mosaic, a': Mosaic, b': Mosaic)
    requires SameName(a, a') && SameName(b, b')
    ensures Compare(a, b) == Compare(a', b')
    decreases if |a.namespace| > |b.namespace| then 1 else 0
  {
    if |a.namespace| > |b.namespace| {
      CompareNames(b, a, b', a');
    }
  }

  lemma CompareTurned(a: Mosaic, b: Mosaic)
    ensures Compare(a, b) == -Compare(b, a)
  {
    var n := |a.namespace|;
    if n == |b.namespace| {
      StrCmpAntisymmetric(Take(a.namespace, n), Take(b.namespace, n));
      StrCmpAntisymmetric(a.name, b.name);
    }
  }

  /** The comparator tells the names of the list apart. */
  predicate Unconfused(s: seq<Mosaic>)
  {
    forall i, j :: 0 <= i < |s| && 0 <= j < |s| && Compare(s[i], s[j]) == 0 ==> SameName(s[i], s[j])
  }

  /** It is an order on the names of the list. */
  predicate Orderly(s: seq<Mosaic>)
  {
    && Unconfused(s)
    && forall i, j, k ::
         0 <= i < |s| && 0 <= j < |s| && 0 <= k < |s| && Compare(s[i], s[j]) < 0 && Compare(s[j], s[k]) < 0 ==>
         Compare(s[i], s[k]) < 0
  }

  /** So it is in every list without clashing namespaces. */
  lemma NoClashIsOrderly(s: seq<Mosaic>)
    requires forall i, j :: 0 <= i < |s| && 0 <= j < |s| ==> !ColonClash(s[i], s[j])
    ensures Orderly(s)
  {
    hide Compare, SameName;
    forall i, j | 0 <= i < |s| && 0 <= j < |s| && Compare(s[i], s[j]) == 0 ensures SameName(s[i], s[j]) {
      TotalOrder(s[i], s[j], s[j]);
    }
    forall i, j, k | 0 <= i < |s| && 0 <= j < |s| && 0 <= k < |s| && Compare(s[i], s[j]) < 0 && Compare(s[j], s[k]) < 0
      ensures Compare(s[i], s[k]) < 0
    {
      TotalOrder(s[i], s[j], s[k]);
    }
  }

  /** The names of a list are confused exactly by a clash of namespaces over one mosaic name. */
  lemma ConfusedExactly(s: seq<Mosaic>)
    ensures Unconfused(s) <==>
      forall i, j :: 0 <= i < |s| && 0 <= j < |s| && ColonClash(s[i], s[j]) ==> s[i].name != s[j].name
  {
    hide Compare;
    forall i, j | 0 <= i < |s| && 0 <= j < |s|
      ensures Compare(s[i], s[j]) == 0 <==> SameName(s[i], s[j]) || (ColonClash(s[i], s[j]) && s[i].name == s[j].name)
    {
      ZeroExactly(s[i], s[j]);
    }
  }

  /** Between a namespace and its continuation behind a colon only the mosaic names count. */
  lemma ClashComparesNames(a: Mosaic, b: Mosaic)
    requires |a.namespace| < |b.namespace| && ColonClash(a, b)
    ensures Compare(a, b) == StrCmp(a.name, b.name)
  {
    StrCmpZero(a.namespace, b.namespace[..|a.namespace|]);
  }

  /** Three names that the comparator tells apart and does not order: a:a z < a:b x < a y < a:a z. */
  lemma ColonsCycle()
    ensures exists s: seq<Mosaic> :: Unconfused(s) && !Orderly(s)
  {
    var a, b := Mosaic([0x61], [0x79], 1), Mosaic([0x61, COLON, 0x61], [0x7A], 1);
    var c := Mosaic([0x61, COLON, 0x62], [0x78], 1);
    var s := [b, c, a];
    assert b.namespace[..1] == c.namespace[..1] == a.namespace;
    ClashComparesNames(a, b);
    ClashComparesNames(a, c);
    CompareTurned(a, b);
    CompareTurned(a, c);
    LastDecides(b, c);
    ConfusedExactly(s);
    assert Compare(s[0], s[1]) < 0 && Compare(s[1], s[2]) < 0 && Compare(s[0], s[2]) > 0;
  }

  lemma LastDecides(b: Mosaic, c: Mosaic)
    requires b.namespace == [0x61, COLON, 0x61] && c.namespace == [0x61, COLON, 0x62]
    ensures Compare(b, c) < 0
  {
    assert b.namespace == [0x61, COLON] + [0x61] && c.namespace == [0x61, COLON] + [0x62];
    StrCmpPrefix([0x61, COLON], [0x61], [0x62]);
  }

  // ------------------------------------------------------- canonical lists

  /** A sum of quantities of `m`, one mosaic on, in 64 bits. */
  function Added(sum: uint64, x: Mosaic, m: Mosaic): uint64
  {
    (sum as int + (if SameName(x, m) then x.quantity as int else 0)) % TWO64
  }

  /** Quantities of one name, summed in 64 bits. */
  function SumOf(s: seq<Mosaic>, m: Mosaic): uint64
  {
    if |s| == 0 then 0 else Added(SumOf(s[..|s| - 1], m), s[|s| - 1], m)
  }

  predicate Has(s: seq<Mosaic>, m: Mosaic)
  {
    exists i :: 0 <= i < |s| && SameName(s[i], m)
  }

  predicate StrictlySorted(s: seq<Mosaic>)
  {
    forall i, j :: 0 <= i < j < |s| ==> Compare(s[i], s[j]) < 0
  }

  /** `r` is the canonical form of `s`. */
  ghost predicate CanonicalOf(r: seq<Mosaic>, s: seq<Mosaic>)
  {
    StrictlySorted(r) && SameContent(r, s)
  }

  /** The same names with the same sums. */
  ghost predicate SameContent(r: seq<Mosaic>, s: seq<Mosaic>)
  {
    && (forall m: Mosaic :: Has(r, m) <==> Has(s, m))
    && (forall m: Mosaic :: SumOf(r, m) == SumOf(s, m))
  }

  lemma SumSnoc(s: seq<Mosaic>, x: Mosaic, m: Mosaic)
    ensures SumOf(s + [x], m) == Added(SumOf(s, m), x, m)
  {
    assert (s + [x])[..|s|] == s;
  }

  lemma HasFront(s: seq<Mosaic>, m: Mosaic)
    requires |s| > 0
    ensures Has(s, m) <==> Has(s[..|s| - 1], m) || SameName(s[|s| - 1], m)
  {
    if Has(s[..|s| - 1], m) {
      var i :| 0 <= i < |s| - 1 && SameName(s[..|s| - 1][i], m);
      assert SameName(s[i], m);
    }
    if Has(s, m) && !SameName(s[|s| - 1], m) {
      var i :| 0 <= i < |s| && SameName(s[i], m);
      assert s[..|s| - 1][i] == s[i];
    }
  }

  lemma {:induction false} SumAbsent(s: seq<Mosaic>, m: Mosaic)
    requires !Has(s, m)
    ensures SumOf(s, m) == 0
  {
    if |s| > 0 {
      assert !SameName(s[|s| - 1], m);
      HasFront(s, m);
      SumAbsent(s[..|s| - 1], m);
    }
  }

  predicate Distinct(s: seq<Mosaic>)
  {
    forall i, j :: 0 <= i < j < |s| ==> !SameName(s[i], s[j])
  }

  /** With distinct names the sum of a name is its quantity. */
  lemma {:induction false} SumOfDistinct(s: seq<Mosaic>, k: nat)
    requires Distinct(s) && k < |s|
    ensures SumOf(s, s[k]) == s[k].quantity
  {
    var front := s[..|s| - 1];
    if k == |s| - 1 {
      assert !Has(front, s[k]);
      SumAbsent(front, s[k]);
    } else {
      assert !SameName(s[|s| - 1], s[k]);
      SumOfDistinct(front, k);
    }
  }

  lemma SortedIsDistinct(s: seq<Mosaic>)
    requires StrictlySorted(s)
    ensures Distinct(s)
  {
    hide Compare;
    forall i, j | 0 <= i < j < |s| ensures !SameName(s[i], s[j]) {
      ZeroExactly(s[i], s[j]);
    }
  }

  /** Nothing smaller than its first element is in a sorted list. */
  lemma FirstIsLeast(s: seq<Mosaic>, m: Mosaic)
    requires StrictlySorted(s) && |s| > 0 && Has(s, m)
    ensures SameName(s[0], m) || Compare(s[0], m) < 0
  {
    hide Compare;
    var i :| 0 <= i < |s| && SameName(s[i], m);
    CompareNames(s[0], s[i], s[0], m);
  }

  /** Sorted lists with the same names have the same names position by position. */
  lemma {:induction false} SameNamesSameOrder(r: seq<Mosaic>, r': seq<Mosaic>)
    requires StrictlySorted(r) && StrictlySorted(r')
    requires forall m: Mosaic :: Has(r, m) <==> Has(r', m)
    ensures |r| == |r'| && forall i :: 0 <= i < |r| ==> SameName(r[i], r'[i])
    decreases |r|
  {
    hide Compare;
    assert |r'| > 0 ==> SameName(r'[0], r'[0]) && Has(r', r'[0]);
    assert |r| > 0 ==> SameName(r[0], r[0]) && Has(r, r[0]);
    if |r| > 0 {
      FirstIsLeast(r, r'[0]);
      FirstIsLeast(r', r[0]);
      CompareTurned(r[0], r'[0]);
      SortedIsDistinct(r);
      SortedIsDistinct(r');
      forall m: Mosaic ensures Has(r[1..], m) <==> Has(r'[1..], m) {
        TailHas(r, m);
        TailHas(r', m);
      }
      SameNamesSameOrder(r[1..], r'[1..]);
      forall i | 0 <= i < |r| ensures SameName(r[i], r'[i]) {
        if i > 0 {
          assert SameName(r[1..][i - 1], r'[1..][i - 1]);
        }
      }
    }
  }

  lemma TailHas(s: seq<Mosaic>, m: Mosaic)
    requires |s| > 0 && Distinct(s)
    ensures Has(s[1..], m) <==> Has(s, m) && !SameName(s[0], m)
  {
    if Has(s[1..], m) {
      var i :| 0 <= i < |s| - 1 && SameName(s[1..][i], m);
      assert SameName(s[i + 1], m);
    }
    if Has(s, m) && !SameName(s[0], m) {
      var i :| 0 <= i < |s| && SameName(s[i], m);
      assert s[1..][i - 1] == s[i];
    }
  }

  /** Places in a sorted list decide the comparison. */
  lemma SortedPlaces(r: seq<Mosaic>, i: nat, j: nat, a: Mosaic, b: Mosaic)
    requires StrictlySorted(r) && i < |r| && j < |r| && SameName(r[i], a) && SameName(r[j], b)
    ensures (i < j <==> Compare(a, b) < 0) && (i == j <==> Compare(a, b) == 0) && (i == j ==> SameName(a, b))
  {
    hide Compare;
    CompareNames(r[i], r[j], a, b);
    CompareTurned(r[i], r[j]);
    if i == j {
      ZeroExactly(a, b);
    }
  }

  /** Only an orderly list can be sorted. */
  lemma SortedIsOrderly(r: seq<Mosaic>, s: seq<Mosaic>)
    requires StrictlySorted(r) && forall i :: 0 <= i < |s| ==> Has(r, s[i])
    ensures Orderly(s)
  {
    hide Compare, SameName, StrictlySorted;
    forall i, j | 0 <= i < |s| && 0 <= j < |s| && Compare(s[i], s[j]) == 0 ensures SameName(s[i], s[j]) {
      var p :| 0 <= p < |r| && SameName(r[p], s[i]);
      var q :| 0 <= q < |r| && SameName(r[q], s[j]);
      SortedPlaces(r, p, q, s[i], s[j]);
    }
    forall i, j, k | 0 <= i < |s| && 0 <= j < |s| && 0 <= k < |s| && Compare(s[i], s[j]) < 0 && Compare(s[j], s[k]) < 0
      ensures Compare(s[i], s[k]) < 0
    {
      var p :| 0 <= p < |r| && SameName(r[p], s[i]);
      var q :| 0 <= q < |r| && SameName(r[q], s[j]);
      var t :| 0 <= t < |r| && SameName(r[t], s[k]);
      SortedPlaces(r, p, q, s[i], s[j]);
      SortedPlaces(r, q, t, s[j], s[k]);
      SortedPlaces(r, p, t, s[i], s[k]);
    }
  }

  /** What holds of the names of a list holds of a list with no other names. */
  lemma OrderlyWithin(r: seq<Mosaic>, s: seq<Mosaic>)
    requires Orderly(s) && forall i :: 0 <= i < |r| ==> Has(s, r[i])
    ensures Orderly(r)
  {
    hide Compare;
    forall i, j | 0 <= i < |r| && 0 <= j < |r| && Compare(r[i], r[j]) == 0 ensures SameName(r[i], r[j]) {
      var p :| 0 <= p < |s| && SameName(s[p], r[i]);
      var q :| 0 <= q < |s| && SameName(s[q], r[j]);
      CompareNames(s[p], s[q], r[i], r[j]);
    }
    forall i, j, k | 0 <= i < |r| && 0 <= j < |r| && 0 <= k < |r| && Compare(r[i], r[j]) < 0 && Compare(r[j], r[k]) < 0
      ensures Compare(r[i], r[k]) < 0
    {
      var p :| 0 <= p < |s| && SameName(s[p], r[i]);
      var q :| 0 <= q < |s| && SameName(s[q], r[j]);
      var t :| 0 <= t < |s| && SameName(s[t], r[k]);
      CompareNames(s[p], s[q], r[i], r[j]);
      CompareNames(s[q], s[t], r[j], r[k]);
      CompareNames(s[p], s[t], r[i], r[k]);
    }
  }

  /** There is one canonical form. */
  lemma CanonicalUnique(r: seq<Mosaic>, r': seq<Mosaic>, s: seq<Mosaic>)
    requires CanonicalOf(r, s) && CanonicalOf(r', s)
    ensures r == r'
  {
    forall m: Mosaic ensures Has(r, m) <==> Has(r', m) {
      assert Has(r, m) <==> Has(s, m);
    }
    SameNamesSameOrder(r, r');
    SortedIsDistinct(r);
    SortedIsDistinct(r');
    forall i | 0 <= i < |r| ensures r[i] == r'[i] {
      SumOfDistinct(r, i);
      SumOfDistinct(r', i);
      assert SumOf(r, r[i]) == SumOf(s, r[i]) && SumOf(r', r'[i]) == SumOf(s, r'[i]);
      SumSameName(s, r[i], r'[i]);
    }
  }

  lemma {:induction false} SumSameName(s: seq<Mosaic>, m: Mosaic, m': Mosaic)
    requires SameName(m, m')
    ensures SumOf(s, m) == SumOf(s, m')
  {
    if |s| > 0 {
      SumSameName(s[..|s| - 1], m, m');
    }
  }

  // ------------------------------------------------------------ permutations

  lemma AddedCommutes(sum: uint64, x: Mosaic, y: Mosaic, m: Mosaic)
    ensures Added(Added(sum, x, m), y, m) == Added(Added(sum, y, m), x, m)
  {
    var b := if SameName(x, m) then x.quantity as int else 0;
    var c := if SameName(y, m) then y.quantity as int else 0;
    AddTwice(sum, b, c);
    AddTwice(sum, c, b);
  }

  lemma AddTwice(a: nat, b: nat, c: nat)
    ensures ((a + b) % TWO64 + c) % TWO64 == (a + b + c) % TWO64
  {
  }

  /** Taking out one element takes its quantity out of the sum. */
  lemma {:induction false} SumRemove(s: seq<Mosaic>, k: nat, m: Mosaic)
    requires k < |s|
    ensures SumOf(s, m) == Added(SumOf(s[..k] + s[k + 1..], m), s[k], m)
    decreases |s|
  {
    hide Added;
    var n := |s| - 1;
    if k == n {
      assert s[..k] + s[k + 1..] == s[..n];
    } else {
      SumRemove(s[..n], k, m);
      var rest := s[..n][..k] + s[..n][k + 1..];
      assert s[..k] + s[k + 1..] == rest + [s[n]];
      SumSnoc(rest, s[n], m);
      AddedCommutes(SumOf(rest, m), s[k], s[n], m);
    }
  }

  lemma RemoveOne<T>(s: seq<T>, k: nat)
    requires k < |s|
    ensures multiset(s[..k] + s[k + 1..]) == multiset(s) - multiset{s[k]}
  {
    assert s == s[..k] + [s[k]] + s[k + 1..];
  }

  /** Sums depend on the elements, not on their order. */
  lemma {:induction false} SumPermuted(s: seq<Mosaic>, t: seq<Mosaic>, m: Mosaic)
    requires multiset(s) == multiset(t)
    ensures SumOf(s, m) == SumOf(t, m)
    decreases |s|
  {
    hide SumOf, SameName;
    assert |s| == |multiset(s)| == |multiset(t)| == |t|;
    if |s| == 0 {
      assert s == t;
    } else {
      var n := |s| - 1;
      assert s[n] in multiset(t);
      var k :| 0 <= k < |t| && t[k] == s[n];
      RemoveOne(s, n);
      RemoveOne(t, k);
      assert s[..n] + s[n + 1..] == s[..n];
      SumPermuted(s[..n], t[..k] + t[k + 1..], m);
      SumRemove(s, n, m);
      SumRemove(t, k, m);
    }
  }

  lemma HasPermuted(s: seq<Mosaic>, t: seq<Mosaic>, m: Mosaic)
    requires multiset(s) == multiset(t) && Has(s, m)
    ensures Has(t, m)
  {
    var i :| 0 <= i < |s| && SameName(s[i], m);
    assert s[i] in multiset(t);
    var k :| 0 <= k < |t| && t[k] == s[i];
  }

  /** The canonical form is the same for every permutation of the list. */
  lemma CanonicalOfPermutation(r: seq<Mosaic>, s: seq<Mosaic>, r': seq<Mosaic>, s': seq<Mosaic>)
    requires CanonicalOf(r, s) && CanonicalOf(r', s') && multiset(s) == multiset(s')
    ensures r == r'
  {
    forall m: Mosaic ensures (Has(r', m) <==> Has(s, m)) && SumOf(r', m) == SumOf(s, m) {
      SumPermuted(s, s', m);
      if Has(s, m) {
        HasPermuted(s, s', m);
      }
      if Has(s', m) {
        HasPermuted(s', s, m);
      }
    }
    CanonicalUnique(r, r', s);
  }
}
