/** The CFDP file checksum: the modular checksum of section 4.2 of CCSDS 727.0-B, fed piece by piece.
    U8 and U32 arithmetic is written out with its truncation. */
module Checksum {
  import opened Common
  import opened Bytes

  /** What a byte at this position of the file counts: bytes fill 32-bit words from the high end. */
  function Weight(position: nat): nat {
    Pow256(3 - position % 4)
  }

  /** What a byte of this weight adds. */
  function Share(byte: Byte, weight: nat): nat {
    byte * weight
  }

  /** The weighted sum of bytes i .. j - 1 of data that starts at the given offset of the file. */
  function Sum(data: seq<Byte>, offset: nat, i: nat, j: nat): nat
    requires i <= j <= |data|
  {
    if i == j then 0 else Sum(data, offset, i, j - 1) + Share(data[j - 1], Weight(offset + j - 1))
  }

  function Wrap32(n: nat): U32 {
    n % TWO_32
  }

  /** A checksum that was start before bytes i .. j - 1 were added. */
  function Running(start: U32, data: seq<Byte>, offset: nat, i: nat, j: nat): U32
    requires i <= j <= |data|
  {
    Wrap32(start + Sum(data, offset, i, j))
  }

  /** The checksum after adding data at an offset. */
  function Updated(value: U32, data: seq<Byte>, offset: nat): U32 {
    Running(value, data, offset, 0, |data|)
  }

  /** Bytes before the first word boundary at or after the offset. */
  function Lead(offset: nat): nat {
    (4 - offset % 4) % 4
  }

  /** The guard of the word loop, in 32-bit arithmetic. */
  predicate WordLeft(index: U32, length: U32) {
    (index + 4) % TWO_32 <= length
  }

  lemma ModAdd(a: nat, b: nat)
    ensures Wrap32(Wrap32(a) + b) == Wrap32(a + b)
  {
    var q, r := a / TWO_32, a % TWO_32;
    assert a + b == r + b + q * TWO_32;
    ModShift(r + b, q);
  }

  lemma {:induction false} ModShift(x: nat, q: nat)
    ensures (x + q * TWO_32) % TWO_32 == x % TWO_32
  {
    if q > 0 {
      ModShift(x, q - 1);
      assert x + q * TWO_32 == (x + (q - 1) * TWO_32) + TWO_32;
    }
  }

  class Checksum {
    var value: U32

    constructor ()
      ensures value == 0
    {
      value := 0;
    }

    method AddByteAtOffset(byte: Byte, offset: nat)
      requires offset < 4
      modifies this
      ensures value == (old(value) + Share(byte, Weight(offset))) % TWO_32
    {
      var addend := byte * Pow256(3 - offset);   // byte << (8 * (3 - offset))
      value := (value + addend) % TWO_32;
    }

    /** Adds the four bytes from index on, which start a word of the file. */
    method AddWordAligned(data: seq<Byte>, index: nat, ghost offset: nat)
      requires index + 4 <= |data| && Place(offset + index) == 0
      modifies this
      ensures value == Running(old(value), data, offset, index, index + 4)
    {
      NothingAdded(value, data, offset, index);
      hide Running, Weight, Place;
      for i := 0 to 4
        invariant value == Running(old(value), data, offset, index, index + i)
      {
        PlaceInWord(offset + index, i);
        ByteAdded(old(value), data, offset, index, index + i, i);
        AddByteAtOffset(data[index + i], i);
      }
    }

    /** Adds length bytes from index on; position is the position of the first, cut to 8 bits. */
    method AddWordUnaligned(data: seq<Byte>, index: nat, position: nat, length: nat, ghost offset: nat)
      requires length < 4 && index + length <= |data|
      requires position == (offset + index) % TWO_32 % 256
      modifies this
      ensures value == Running(old(value), data, offset, index, index + length)
    {
      var at := position % 4;
      TruncationKeepsPlace(offset + index);
      NothingAdded(value, data, offset, index);
      hide Running, Weight, Place;
      for i := 0 to length
        invariant at == Place(offset + index + i) < 4
        invariant value == Running(old(value), data, offset, index, index + i)
      {
        ByteAdded(old(value), data, offset, index, index + i, at);
        AddByteAtOffset(data[index + i], at);
        NextInWord(offset + index + i);
        at := at + 1;
        if at == 4 {
          at := 0;
        }
      }
    }

    /** One piece of the file.  The length bound is exact: see GuardExact. */
    method Update(data: seq<Byte>, offset: U32)
      requires |data| < TWO_32 && |data| < TWO_32 - 4 + Lead(offset)
      modifies this
      ensures value == Updated(old(value), data, offset)
    {
      var length := |data|;
      var index := 0;
      var offsetMod4 := offset % 4;
      NothingAdded(value, data, offset, 0);
      LeadReachesWord(offset, length);
      hide Running, WordLeft, LoopIndex, Place, Lead;
      if offsetMod4 != 0 {
        var wordLength := if length < 4 - offsetMod4 then length else 4 - offsetMod4;
        AddWordUnaligned(data, index, (offset + index) % TWO_32 % 256, wordLength, offset);
        index := index + wordLength;
      }
      while WordLeft(index, length)
        invariant 0 <= index <= length
        invariant LoopIndex(index, offset, length) || index == length < 4
        invariant value == Running(old(value), data, offset, 0, index)
        decreases length - index
      {
        GuardIsPlain(index, offset, length);
        RunningJoins(old(value), data, offset, index, index + 4);
        AddWordAligned(data, index, offset);
        index := index + 4;
      }
      GuardIsPlain(index, offset, length);
      if index < length {
        RunningJoins(old(value), data, offset, index, length);
        AddWordUnaligned(data, index, (offset + index) % TWO_32 % 256, length - index, offset);
      }
    }
  }

  /** Place of a file position in its word. */
  function Place(position: nat): nat {
    position % 4
  }

  lemma NextInWord(p: nat)
    ensures Place(p + 1) == if Place(p) == 3 then 0 else Place(p) + 1
    ensures Place(p) < 4
  {
  }

  lemma PlaceInWord(p: nat, i: nat)
    requires Place(p) == 0 && i < 4
    ensures Place(p + i) == i
  {
  }

  /** Cutting a position to 32 and then to 8 bits does not change its place in the word. */
  lemma TruncationKeepsPlace(p: nat)
    ensures p % TWO_32 % 256 % 4 == Place(p)
  {
    var r := p % TWO_32;
    WholeWords(p / TWO_32 * 0x4000_0000, r);
    WholeWords(r / 256 * 64, r % 256);
    assert p == 4 * (p / TWO_32 * 0x4000_0000) + r;
    assert r == 4 * (r / 256 * 64) + r % 256;
  }

  lemma WholeWords(words: nat, rest: nat)
    ensures (4 * words + rest) % 4 == rest % 4
  {
  }

  lemma NothingAdded(start: U32, data: seq<Byte>, offset: nat, i: nat)
    requires i <= |data|
    ensures Running(start, data, offset, i, i) == start
  {
  }

  lemma ByteAdded(start: U32, data: seq<Byte>, offset: nat, i: nat, j: nat, at: nat)
    requires i <= j < |data| && at == Place(offset + j)
    ensures Running(start, data, offset, i, j + 1)
         == Wrap32(Running(start, data, offset, i, j) + Share(data[j], Weight(at)))
  {
    assert Weight(at) == Weight(offset + j);
    hide Share, Weight, Wrap32;
    ModAdd(start + Sum(data, offset, i, j), Share(data[j], Weight(at)));
  }

  lemma {:induction false} SumSplits(data: seq<Byte>, offset: nat, i: nat, m: nat, j: nat)
    requires i <= m <= j <= |data|
    ensures Sum(data, offset, i, j) == Sum(data, offset, i, m) + Sum(data, offset, m, j)
  {
    if m < j {
      SumSplits(data, offset, i, m, j - 1);
    }
  }

  lemma RunningJoins(start: U32, data: seq<Byte>, offset: nat, m: nat, j: nat)
    requires m <= j <= |data|
    ensures Running(Running(start, data, offset, 0, m), data, offset, m, j) == Running(start, data, offset, 0, j)
  {
    SumSplits(data, offset, 0, m, j);
    hide Sum, Wrap32;
    ModAdd(start + Sum(data, offset, 0, m), Sum(data, offset, m, j));
  }

  lemma LeadReachesWord(offset: U32, length: U32)
    ensures offset % 4 == 0 ==> LoopIndex(0, offset, length)
    ensures offset % 4 != 0 && 4 - offset % 4 <= length ==> LoopIndex(4 - offset % 4, offset, length)
  {
    if offset % 4 != 0 {
      WholeWords(offset / 4 + 1, 0);
    }
  }

  lemma GuardIsPlain(index: U32, offset: U32, length: U32)
    requires length < TWO_32 - 4 + Lead(offset)
    requires LoopIndex(index, offset, length) || index == length < 4
    ensures WordLeft(index, length) <==> index + 4 <= length
    ensures index + 4 <= length ==> Place(offset + index) == 0 && LoopIndex(index + 4, offset, length)
  {
    if LoopIndex(index, offset, length) {
      IndexOfWord(index, offset);
      assert index + 4 < TWO_32;
      WholeWords(1, offset + index);
    }
  }

  /** Word boundaries of the file lie at indices congruent to the lead. */
  lemma IndexOfWord(index: U32, offset: U32)
    requires Place(offset + index) == 0
    ensures index % 4 == Lead(offset)
  {
    var q, r, p := offset / 4, offset % 4, index % 4;
    assert offset + index == 4 * (q + index / 4) + (r + p);
    WholeWords(q + index / 4, r + p);
  }

  /** Where the word loop can stand. */
  predicate LoopIndex(index: U32, offset: U32, length: U32) {
    Lead(offset) <= index <= length && Place(offset + index) == 0
  }

  /** Where the guard of a longer piece goes wrong: at its last word boundary below 2^32. */
  lemma GuardWraps(offset: U32, length: U32) returns (index: U32)
    requires length >= TWO_32 - 4 + Lead(offset)
    ensures LoopIndex(index, offset, length) && WordLeft(index, length) && index + 4 > length
  {
    index := TWO_32 - 4 + Lead(offset);
    LeadToBoundary(offset);
    WholeWords(0x3FFF_FFFF, offset + Lead(offset));
    assert (index + 4) % TWO_32 == Lead(offset);
  }

  lemma LeadToBoundary(offset: nat)
    ensures Lead(offset) < 4 && (offset + Lead(offset)) % 4 == 0
  {
    var q, r := offset / 4, offset % 4;
    assert offset == 4 * q + r;
    if r > 0 {
      WholeWords(q + 1, 0);
      assert offset + Lead(offset) == 4 * (q + 1) + 0;
    }
  }

  /** The 32-bit guard says "a whole word is left" at every place the loop can reach, exactly for the
      lengths Update accepts; for longer pieces it wraps and lets the loop run past the end. */
  lemma GuardExact(offset: U32, length: U32)
    ensures (forall index: U32 :: LoopIndex(index, offset, length) ==>
               (WordLeft(index, length) <==> index + 4 <= length))
      <==> length < TWO_32 - 4 + Lead(offset)
  {
    hide LoopIndex, WordLeft, Lead;
    if length < TWO_32 - 4 + Lead(offset) {
      forall index: U32 | LoopIndex(index, offset, length)
        ensures WordLeft(index, length) <==> index + 4 <= length
      {
        GuardIsPlain(index, offset, length);
      }
    } else {
      var index := GuardWraps(offset, length);
      assert LoopIndex(index, offset, length);
    }
  }

  // ------------------------------------------------------------------ any pieces in any order

  /** Bytes lo .. hi - 1 of the file, delivered at their true offset. */
  datatype Piece = Piece(lo: nat, hi: nat)

  predicate AllFit(f: seq<Byte>, ps: seq<Piece>) {
    forall i :: 0 <= i < |ps| ==> ps[i].lo <= ps[i].hi <= |f|
  }

  /** The checksum after the pieces, in the order given. */
  function Deliver(f: seq<Byte>, ps: seq<Piece>): U32
    requires AllFit(f, ps)
  {
    if ps == [] then 0
    else
      var p := ps[|ps| - 1];
      Updated(Deliver(f, ps[..|ps| - 1]), f[p.lo..p.hi], p.lo)
  }

  /** The pieces lie end to end and cover the first n bytes. */
  predicate Cut(ps: seq<Piece>, n: nat) {
    if ps == [] then n == 0
    else
      var p := ps[|ps| - 1];
      p.lo <= p.hi == n && Cut(ps[..|ps| - 1], p.lo)
  }

  function Total(f: seq<Byte>, ps: seq<Piece>): nat
    requires AllFit(f, ps)
  {
    if ps == [] then 0
    else
      var p := ps[|ps| - 1];
      Total(f, ps[..|ps| - 1]) + Sum(f, 0, p.lo, p.hi)
  }

  lemma {:induction false} PieceSum(f: seq<Byte>, lo: nat, hi: nat)
    requires lo <= hi <= |f|
    ensures Sum(f[lo..hi], lo, 0, hi - lo) == Sum(f, 0, lo, hi)
  {
    if lo < hi {
      var n := hi - 1 - lo;
      PieceSum(f, lo, hi - 1);
      PrefixOfSlice(f, lo, n + 1, n);
      assert f[lo..hi][..n] == f[lo..hi - 1][..n];
      SumOfPrefix(f[lo..hi], f[lo..hi - 1], lo, n);
    }
  }

  lemma {:induction false} SumOfPrefix(a: seq<Byte>, b: seq<Byte>, offset: nat, n: nat)
    requires n <= |a| && n <= |b| && a[..n] == b[..n]
    ensures Sum(a, offset, 0, n) == Sum(b, offset, 0, n)
  {
    if n > 0 {
      assert a[n - 1] == a[..n][n - 1] == b[..n][n - 1] == b[n - 1];
      assert a[..n - 1] == a[..n][..n - 1] == b[..n][..n - 1] == b[..n - 1];
      SumOfPrefix(a, b, offset, n - 1);
    }
  }

  lemma {:induction false} DeliverIsTotal(f: seq<Byte>, ps: seq<Piece>)
    requires AllFit(f, ps)
    ensures Deliver(f, ps) == Wrap32(Total(f, ps))
  {
    hide Updated, Sum;
    if ps != [] {
      var p, before := ps[|ps| - 1], ps[..|ps| - 1];
      DeliverIsTotal(f, before);
      PieceAdded(Deliver(f, before), f, p, Total(f, before));
    }
  }

  lemma PieceAdded(value: U32, f: seq<Byte>, p: Piece, total: nat)
    requires p.lo <= p.hi <= |f| && value == Wrap32(total)
    ensures Updated(value, f[p.lo..p.hi], p.lo) == Wrap32(total + Sum(f, 0, p.lo, p.hi))
  {
    hide Sum, Wrap32;
    PieceSum(f, p.lo, p.hi);
    ModAdd(total, Sum(f, 0, p.lo, p.hi));
  }

  lemma {:induction false} TotalWithout(f: seq<Byte>, ps: seq<Piece>, i: nat)
    requires i < |ps| && AllFit(f, ps)
    ensures AllFit(f, ps[..i] + ps[i + 1..])
    ensures Total(f, ps) == Total(f, ps[..i] + ps[i + 1..]) + Sum(f, 0, ps[i].lo, ps[i].hi)
  {
    var n := |ps| - 1;
    if i == n {
      assert ps[..i] + ps[i + 1..] == ps[..n];
    } else {
      var rest := ps[..i] + ps[i + 1..];
      assert rest[..n - 1] == ps[..n][..i] + ps[..n][i + 1..];
      TotalWithout(f, ps[..n], i);
      assert rest[n - 1] == ps[n];
      assert AllFit(f, rest);
    }
  }

  /** The last element of a, found in its reordering b and taken out of both. */
  lemma TakeOut(a: seq<Piece>, b: seq<Piece>) returns (i: nat)
    requires a != [] && multiset(a) == multiset(b)
    ensures i < |b| && b[i] == a[|a| - 1]
    ensures multiset(a[..|a| - 1]) == multiset(b[..i] + b[i + 1..])
  {
    var n := |a| - 1;
    assert a[n] in multiset(a);
    i :| 0 <= i < |b| && b[i] == a[n];
    WithoutOne(a, n);
    WithoutOne(b, i);
    assert a[..n] + a[n + 1..] == a[..n];
  }

  lemma WithoutOne(a: seq<Piece>, i: nat)
    requires i < |a|
    ensures multiset(a[..i] + a[i + 1..]) == multiset(a) - multiset{a[i]}
  {
    assert a == a[..i] + [a[i]] + a[i + 1..];
  }

  lemma {:induction false} TotalIgnoresOrder(f: seq<Byte>, a: seq<Piece>, b: seq<Piece>)
    requires multiset(a) == multiset(b) && AllFit(f, a) && AllFit(f, b)
    ensures Total(f, a) == Total(f, b)
  {
    if a == [] {
      assert |b| == |multiset(b)| == 0;
    } else {
      var i := TakeOut(a, b);
      TotalWithout(f, b, i);
      TotalIgnoresOrder(f, a[..|a| - 1], b[..i] + b[i + 1..]);
    }
  }

  lemma ReorderedFits(f: seq<Byte>, a: seq<Piece>, b: seq<Piece>)
    requires multiset(a) == multiset(b) && AllFit(f, a)
    ensures AllFit(f, b)
  {
    forall i | 0 <= i < |b| ensures b[i].lo <= b[i].hi <= |f| {
      assert b[i] in multiset(b);
      assert b[i] in a;
    }
  }

  lemma {:induction false} CutFits(f: seq<Byte>, ps: seq<Piece>, n: nat)
    requires Cut(ps, n) && n <= |f|
    ensures AllFit(f, ps)
    ensures Total(f, ps) == Sum(f, 0, 0, n)
  {
    if ps != [] {
      var p, before := ps[|ps| - 1], ps[..|ps| - 1];
      CutFits(f, before, p.lo);
      assert ps == before + [p];
      SumSplits(f, 0, 0, p.lo, n);
    }
  }

  /** For every file, every cut of it into pieces and every order of delivery, the checksum is the
      weighted sum of the file's bytes modulo 2^32. */
  lemma {:induction false} AnyPiecesAnyOrder(f: seq<Byte>, cut: seq<Piece>, order: seq<Piece>)
    requires Cut(cut, |f|) && multiset(order) == multiset(cut)
    ensures AllFit(f, order)
    ensures Deliver(f, order) == Sum(f, 0, 0, |f|) % TWO_32
  {
    CutFits(f, cut, |f|);
    ReorderedFits(f, cut, order);
    TotalIgnoresOrder(f, cut, order);
    DeliverIsTotal(f, order);
  }

  /** Every piece lies where Update takes it: at a 32-bit offset and below the length at which the word
      loop's guard wraps. */
  predicate Deliverable(ps: seq<Piece>) {
    forall i :: 0 <= i < |ps| ==>
      && ps[i].lo < TWO_32 && ps[i].lo <= ps[i].hi
      && ps[i].hi - ps[i].lo < TWO_32 && ps[i].hi - ps[i].lo < TWO_32 - 4 + Lead(ps[i].lo)
  }

  /** Updating a new checksum with the pieces of a file, cut anyhow and in any order, leaves the weighted
      sum of all the file's bytes modulo 2^32. */
  method DeliverPieces(f: seq<Byte>, ghost cut: seq<Piece>, order: seq<Piece>) returns (c: Checksum)
    requires Cut(cut, |f|) && multiset(order) == multiset(cut) && Deliverable(order)
    ensures fresh(c) && c.value == Sum(f, 0, 0, |f|) % TWO_32
  {
    AnyPiecesAnyOrder(f, cut, order);
    hide Sum, Updated, Cut, Lead;
    c := new Checksum();
    for i := 0 to |order|
      invariant fresh(c) && AllFit(f, order[..i]) && c.value == Deliver(f, order[..i])
    {
      var p := order[i];
      c.Update(f[p.lo..p.hi], p.lo);
      OnePieceMore(f, order, i);
    }
    assert order[..|order|] == order;
  }

  lemma OnePieceMore(f: seq<Byte>, ps: seq<Piece>, i: nat)
    requires i < |ps| && AllFit(f, ps)
    ensures AllFit(f, ps[..i]) && AllFit(f, ps[..i + 1])
    ensures Deliver(f, ps[..i + 1]) == Updated(Deliver(f, ps[..i]), f[ps[i].lo..ps[i].hi], ps[i].lo)
  {
    hide Updated;
    assert ps[..i + 1][..i] == ps[..i] && ps[..i + 1][i] == ps[i];
  }

  // ------------------------------------------------------------------ the words of the file

  /** Bytes missing from the last word. */
  function Missing(length: nat): (n: nat)
    ensures (length + n) % 4 == 0
  {
    (4 - length % 4) % 4
  }

  function Zeros(n: nat): (z: seq<Byte>)
    ensures |z| == n
  {
    seq(n, _ => 0)
  }

  /** The file, filled up with zeros to whole words. */
  function Padded(f: seq<Byte>): (g: seq<Byte>)
    ensures |g| % 4 == 0
  {
    f + Zeros(Missing(|f|))
  }

  /** The sum of the big-endian 32-bit words. */
  function WordSum(g: seq<Byte>): nat
    requires |g| % 4 == 0
  {
    if g == [] then 0 else WordSum(g[..|g| - 4]) + FromBigEndian(g[|g| - 4..])
  }

  lemma WordValue(w: seq<Byte>)
    requires |w| == 4
    ensures FromBigEndian(w) == Share(w[0], Pow256(3)) + Share(w[1], Pow256(2)) + Share(w[2], Pow256(1))
                                + Share(w[3], Pow256(0))
  {
    var a, b, c := w[..3], w[..3][..2], w[..3][..2][..1];
    assert c[..0] == [];
    assert FromBigEndian(c) == c[0];
    assert FromBigEndian(b) == FromBigEndian(c) * 256 + b[1];
    assert FromBigEndian(a) == FromBigEndian(b) * 256 + a[2];
    assert Pow256(0) == 1 && Pow256(1) == 256 && Pow256(2) == 65_536 && Pow256(3) == 16_777_216;
  }

  lemma Weights(n: nat)
    requires n % 4 == 0
    ensures Weight(n) == Pow256(3) && Weight(n + 1) == Pow256(2) && Weight(n + 2) == Pow256(1)
         && Weight(n + 3) == Pow256(0)
  {
    hide Pow256;
  }

  lemma LastWord(g: seq<Byte>, n: nat)
    requires |g| == n + 4 && n % 4 == 0
    ensures Sum(g, 0, 0, n + 4) == Sum(g, 0, 0, n) + FromBigEndian(g[n..])
  {
    hide Pow256, FromBigEndian, Weight, Share;
    WordValue(g[n..]);
    Weights(n);
    assert Sum(g, 0, 0, n + 1) == Sum(g, 0, 0, n) + Share(g[n], Weight(n));
    assert Sum(g, 0, 0, n + 2) == Sum(g, 0, 0, n + 1) + Share(g[n + 1], Weight(n + 1));
    assert Sum(g, 0, 0, n + 3) == Sum(g, 0, 0, n + 2) + Share(g[n + 2], Weight(n + 2));
  }

  lemma {:induction false} SumIsWords(g: seq<Byte>)
    requires |g| % 4 == 0
    ensures Sum(g, 0, 0, |g|) == WordSum(g)
  {
    if g != [] {
      var front := g[..|g| - 4];
      SumIsWords(front);
      LastWord(g, |g| - 4);
      hide FromBigEndian, Sum;
      assert front[..|front|] == g[..|front|];
      SumOfPrefix(front, g, 0, |front|);
    }
  }

  lemma ZeroAddsNothing(a: seq<Byte>)
    ensures Sum(a + [0], 0, 0, |a| + 1) == Sum(a, 0, 0, |a|)
  {
    var b: seq<Byte> := a + [0];
    assert a[..|a|] == b[..|a|];
    SumOfPrefix(a, b, 0, |a|);
    assert b[|a|] == 0;
  }

  lemma {:induction false} ZerosAddNothing(f: seq<Byte>, n: nat)
    ensures Sum(f + Zeros(n), 0, 0, |f| + n) == Sum(f, 0, 0, |f|)
  {
    hide Sum;
    if n == 0 {
      assert f + Zeros(0) == f;
    } else {
      ZerosAddNothing(f, n - 1);
      var a := f + Zeros(n - 1);
      assert f + Zeros(n) == a + [0];
      ZeroAddsNothing(a);
    }
  }

  /** For every file the weighted sum is that of its big-endian 32-bit words, the last one filled up with zeros. */
  lemma ChecksumIsWordSum(f: seq<Byte>)
    ensures Sum(f, 0, 0, |f|) == WordSum(Padded(f))
  {
    hide Sum, WordSum;
    ZerosAddNothing(f, Missing(|f|));
    SumIsWords(Padded(f));
    assert |Padded(f)| == |f| + Missing(|f|);
  }
}
