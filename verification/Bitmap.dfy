/** Packed bitmaps (lib/kernel/bitmap.c): single-bit updates of bytes and the first-fit
    search for a run of clear bits. */
module Bitmaps {

  type Byte = x: int | 0 <= x < 256

  function Pow2(n: nat): (p: nat)
    ensures p >= 1
  {
    if n == 0 then 1 else 2 * Pow2(n - 1)
  }

  /** b & (BITMAP_MASK << k) != 0, bit by bit from the low end. */
  predicate TestBit(b: nat, k: nat)
    decreases k
  {
    if k == 0 then b % 2 == 1 else TestBit(b / 2, k - 1)
  }

  /** b |= MASK << k, or b &= ~(MASK << k). */
  function PutBit(b: nat, k: nat, value: bool): nat
    decreases k
  {
    if k == 0 then b / 2 * 2 + (if value then 1 else 0)
    else b % 2 + 2 * PutBit(b / 2, k - 1, value)
  }

  /** Writing one bit changes that bit and no other, and a byte stays a byte. */
  lemma {:induction false} PutBitExact(b: nat, k: nat, value: bool, j: nat)
    ensures TestBit(PutBit(b, k, value), j) == if j == k then value else TestBit(b, j)
    decreases k
  {
    if k == 0 {
      assert PutBit(b, 0, value) / 2 == b / 2;
    } else {
      assert PutBit(b, k, value) / 2 == PutBit(b / 2, k - 1, value);
      if j > 0 { PutBitExact(b / 2, k - 1, value, j - 1); }
    }
  }

  lemma {:induction false} PutBitBound(b: nat, k: nat, value: bool, n: nat)
    requires k < n && b < Pow2(n)
    ensures PutBit(b, k, value) < Pow2(n)
    decreases k
  {
    assert Pow2(n) == 2 * Pow2(n - 1) && b / 2 < Pow2(n - 1);
    if k > 0 { PutBitBound(b / 2, k - 1, value, n - 1); }
  }

  lemma Pow2Eight()
    ensures Pow2(8) == 256
  {
    assert Pow2(2) == 4;
    assert Pow2(4) == 16;
    assert Pow2(6) == 64;
  }

  function PutBitByte(b: Byte, k: nat, value: bool): Byte
    requires k < 8
  {
    Pow2Eight();
    PutBitBound(b, k, value, 8);
    PutBit(b, k, value)
  }

  lemma {:induction false} OnesBits(n: nat, k: nat)
    requires k < n
    ensures TestBit(Pow2(n) - 1, k)
    decreases n
  {
    assert Pow2(n) == 2 * Pow2(n - 1);
    if k > 0 {
      assert (Pow2(n) - 1) / 2 == Pow2(n - 1) - 1;
      OnesBits(n - 1, k - 1);
    }
  }

  lemma {:induction false} ClearBitBelow(b: nat, n: nat) returns (k: nat)
    requires b < Pow2(n) - 1
    ensures k < n && !TestBit(b, k)
    decreases n
  {
    assert Pow2(n) == 2 * Pow2(n - 1);
    if b % 2 == 0 {
      k := 0;
    } else {
      k := ClearBitBelow(b / 2, n - 1);
      assert TestBit(b, k + 1) == TestBit(b / 2, k);
      k := k + 1;
    }
  }

  lemma FullByteBits(k: nat)
    requires k < 8
    ensures TestBit(0xff, k)
  {
    Pow2Eight();
    OnesBits(8, k);
  }

  lemma OtherByteBit(b: Byte) returns (k: nat)
    requires b != 0xff
    ensures k < 8 && !TestBit(b, k)
  {
    Pow2Eight();
    k := ClearBitBelow(b, 8);
  }

  lemma {:induction false} ZeroBits(k: nat)
    ensures !TestBit(0, k)
  {
    if k > 0 { ZeroBits(k - 1); }
  }

  lemma SomeBitAbove(b: Byte, k: nat)
    requires b != 0xff && k < 8 && forall j: nat | j <= k :: TestBit(b, j)
    ensures k < 7
  {
    var j := OtherByteBit(b);
  }

  /** The bits of a byte string, lowest bit of each byte first. */
  function BitsOf(bytes: seq<Byte>): (v: seq<bool>)
    ensures |v| == 8 * |bytes|
    ensures forall i :: 0 <= i < |v| ==> v[i] == TestBit(bytes[i / 8], i % 8)
  {
    seq(8 * |bytes|, i requires 0 <= i < 8 * |bytes| => TestBit(bytes[i / 8], i % 8))
  }

  // ----- runs of clear bits -----

  predicate Clear(v: seq<bool>, s: int, cnt: nat)
  {
    0 <= s && s + cnt <= |v| && forall i :: s <= i < s + cnt ==> !v[i]
  }

  ghost predicate HasRun(v: seq<bool>, cnt: nat)
  {
    exists s :: Clear(v, s, cnt)
  }

  /** s starts the lowest run of cnt clear bits. */
  ghost predicate FirstFit(v: seq<bool>, cnt: nat, s: int)
  {
    Clear(v, s, cnt) && forall t :: t < s ==> !Clear(v, t, cnt)
  }

  predicate AllSet(v: seq<bool>)
  {
    forall i :: 0 <= i < |v| ==> v[i]
  }

  function FillRun(v: seq<bool>, s: nat, cnt: nat, value: bool): (w: seq<bool>)
    requires s + cnt <= |v|
    ensures |w| == |v|
    ensures forall i :: 0 <= i < |v| ==> w[i] == if s <= i < s + cnt then value else v[i]
  {
    seq(|v|, i requires 0 <= i < |v| => if s <= i < s + cnt then value else v[i])
  }

  /** What a call can do: return a start, return -1, or spin in the ASSERT of line 29. */
  datatype Scan = At(start: nat) | NoRun | Panicked

  /** The window the search really looks at: with cnt > 1 its last probe is bit 8 * len,
      one past the end (the loop of lines 48-59 runs bit_left times from start + 1). */
  function Window(v: seq<bool>, len: nat, cnt: nat): seq<bool>
    requires 8 * len < |v|
  {
    if cnt == 1 then v[..8 * len] else v[..8 * len + 1]
  }

  /** The whole result of bitmap_scan as a function-free specification. */
  ghost predicate ScanSpec(v: seq<bool>, len: nat, cnt: nat, r: Scan)
    requires 8 * len < |v|
  {
    match r
    case Panicked => AllSet(v[..8 * len])
    case NoRun => !AllSet(v[..8 * len]) && !HasRun(Window(v, len, cnt), cnt)
    case At(s) => !AllSet(v[..8 * len]) && FirstFit(Window(v, len, cnt), cnt, s)
  }

  /** The result as a function: the lowest run from t on. */
  function LowestRun(w: seq<bool>, cnt: nat, t: nat): Scan
    requires cnt >= 1
    decreases |w| - t
  {
    if t + cnt > |w| then NoRun
    else if Clear(w, t, cnt) then At(t)
    else LowestRun(w, cnt, t + 1)
  }

  function ScanOf(v: seq<bool>, len: nat, cnt: nat): Scan
    requires 8 * len < |v| && cnt >= 1
  {
    if AllSet(v[..8 * len]) then Panicked else LowestRun(Window(v, len, cnt), cnt, 0)
  }

  lemma {:induction false} LowestRunMeets(w: seq<bool>, cnt: nat, t: nat)
    requires cnt >= 1 && forall u :: u < t ==> !Clear(w, u, cnt)
    ensures match LowestRun(w, cnt, t)
            case Panicked => false
            case NoRun => !HasRun(w, cnt)
            case At(s) => FirstFit(w, cnt, s)
    decreases |w| - t
  {
    if t + cnt <= |w| && !Clear(w, t, cnt) { LowestRunMeets(w, cnt, t + 1); }
  }

  /** The function meets the specification, and the specification leaves no choice. */
  lemma ScanDetermined(v: seq<bool>, len: nat, cnt: nat, r: Scan)
    requires 8 * len < |v| && cnt >= 1
    ensures ScanSpec(v, len, cnt, r) <==> r == ScanOf(v, len, cnt)
  {
    if !AllSet(v[..8 * len]) { LowestRunMeets(Window(v, len, cnt), cnt, 0); }
    var q := ScanOf(v, len, cnt);
    if q.At? && r.At? && ScanSpec(v, len, cnt, r) {
      assert !(q.start < r.start) && !(r.start < q.start);
    }
  }

  /** The lowest clear bit from i on, or -1. */
  function LowestClear(v: seq<bool>, n: nat, i: nat): (r: int)
    requires i <= n <= |v|
    ensures -1 <= r < n && (r >= 0 ==> !v[r])
    decreases n - i
  {
    if i == n then -1 else if !v[i] then i else LowestClear(v, n, i + 1)
  }

  lemma {:induction false} LowestClearMeets(v: seq<bool>, n: nat, i: nat)
    requires i <= n <= |v| && forall j :: 0 <= j < i ==> v[j]
    ensures LowestClear(v, n, i) < 0 <==> AllSet(v[..n])
    ensures LowestClear(v, n, i) >= 0 ==> forall j :: 0 <= j < LowestClear(v, n, i) ==> v[j]
    decreases n - i
  {
    if i < n {
      if v[i] { LowestClearMeets(v, n, i + 1); } else { assert !v[..n][i]; }
    }
  }

  /** Asked for one bit, the search answers the lowest clear one and fails only by its ASSERT. */
  lemma OneBitFound(v: seq<bool>, len: nat)
    requires 8 * len < |v|
    ensures var i := LowestClear(v, 8 * len, 0);
            ScanOf(v, len, 1) == (if i < 0 then Panicked else At(i)) && (i < 0 <==> AllSet(v[..8 * len]))
  {
    var i, w := LowestClear(v, 8 * len, 0), v[..8 * len];
    LowestClearMeets(v, 8 * len, 0);
    if i >= 0 {
      assert !w[i] && Clear(w, i, 1);
      forall t | t < i ensures !Clear(w, t, 1) { if 0 <= t { assert w[t]; } }
      ScanDetermined(v, len, 1, At(i));
    }
  }

  /** A bitmap over memory that goes on past its last byte. */
  class Bitmap {
    const bits: array<Byte>
    const bytesLen: nat

    ghost predicate Valid()
    {
      bytesLen < bits.Length
    }

    ghost function View(): (v: seq<bool>)
      reads bits
      ensures |v| == 8 * bits.Length
      ensures forall i :: 0 <= i < |v| ==> v[i] == TestBit(bits[i / 8], i % 8)
    {
      BitsOf(bits[..])
    }

    constructor (memory: array<Byte>, len: nat)
      requires len < memory.Length
      ensures Valid() && bits == memory && bytesLen == len
    {
      bits := memory;
      bytesLen := len;
    }

    /** bitmap_init: clear the bitmap's own bytes only. */
    method Init()
      requires Valid()
      modifies bits
      ensures View() == FillRun(old(View()), 0, 8 * bytesLen, false)
    {
      for i := 0 to bytesLen
        invariant forall k :: 0 <= k < i ==> bits[k] == 0
        invariant forall k :: i <= k < bits.Length ==> bits[k] == old(bits[k])
      {
        bits[i] := 0;
      }
      forall i | 0 <= i < 8 * bytesLen ensures !View()[i] {
        ZeroBits(i % 8);
      }
    }

    method ScanTest(bitIdx: nat) returns (set_: bool)
      requires bitIdx < 8 * bits.Length
      ensures set_ == View()[bitIdx]
    {
      var byteIdx, bitOdd := bitIdx / 8, bitIdx % 8;
      set_ := TestBit(bits[byteIdx], bitOdd);
    }

    method Set(bitIdx: nat, value: bool)
      requires bitIdx < 8 * bits.Length
      modifies bits
      ensures View() == old(View())[bitIdx := value]
    {
      var byteIdx, bitOdd := bitIdx / 8, bitIdx % 8;
      ghost var was := bits[byteIdx];
      ghost var before := View();
      bits[byteIdx] := PutBitByte(bits[byteIdx], bitOdd, value);
      forall i | 0 <= i < 8 * bits.Length ensures View()[i] == before[bitIdx := value][i] {
        if i / 8 == byteIdx {
          PutBitExact(was, bitOdd, value, i % 8);
        }
      }
    }

    /** The first byte with a clear bit, by the two loops of lines 26-37. */
    method FirstClear() returns (found: bool, start: nat)
      requires Valid()
      ensures found <==> !AllSet(View()[..8 * bytesLen])
      ensures found ==> start < 8 * bytesLen && FirstFit(View()[..8 * bytesLen], 1, start)
    {
      ghost var v := View();
      var idxByte := 0;
      while bits[idxByte] == 0xff && idxByte < bytesLen
        invariant idxByte <= bytesLen
        invariant forall i :: 0 <= i < 8 * idxByte ==> v[i]
        decreases bytesLen - idxByte
      {
        forall i | 8 * idxByte <= i < 8 * (idxByte + 1) ensures v[i] {
          assert i / 8 == idxByte;
          FullByteBits(i % 8);
        }
        idxByte := idxByte + 1;
      }
      if !(idxByte < bytesLen) {
        return false, 0;
      }
      var idxBit := 0;
      while TestBit(bits[idxByte], idxBit)
        invariant 0 <= idxBit < 8
        invariant forall k :: 0 <= k < idxBit ==> TestBit(bits[idxByte], k)
        decreases 8 - idxBit
      {
        SomeBitAbove(bits[idxByte], idxBit);
        idxBit := idxBit + 1;
      }
      start := idxByte * 8 + idxBit;
      assert start / 8 == idxByte && start % 8 == idxBit;
      assert !v[start];
      forall i | 0 <= i < start ensures v[i] {
        if 8 * idxByte <= i {
          assert i / 8 == idxByte && i % 8 < idxBit;
        }
      }
      ghost var w := v[..8 * bytesLen];
      assert Clear(w, start, 1);
      forall t | t < start ensures !Clear(w, t, 1) {
        if 0 <= t { assert w[t]; }
      }
      found := true;
    }

    method Scan(cnt: nat) returns (r: Scan)
      requires Valid() && cnt >= 1
      ensures ScanSpec(View(), bytesLen, cnt, r)
    {
      var found, bitIdxStart := FirstClear();
      if !found {
        return Panicked;
      }
      if cnt == 1 {
        return At(bitIdxStart);
      }
      ghost var v := View();
      ghost var w := Window(v, bytesLen, cnt);
      FirstClearBelow(v[..8 * bytesLen], bitIdxStart);
      var bitLeft := bytesLen * 8 - bitIdxStart;
      var nextBit := bitIdxStart + 1;
      var count := 1;
      r := NoRun;
      forall t | t < bitIdxStart ensures !Clear(w, t, cnt) {
        if 0 <= t { assert w[t]; }
      }
      while bitLeft > 0
        invariant nextBit + bitLeft == 8 * bytesLen + 1
        invariant bitIdxStart < nextBit
        invariant 0 <= count < cnt && count <= nextBit
        invariant Clear(w, nextBit - count, count)
        invariant forall t :: t + cnt <= nextBit ==> !Clear(w, t, cnt)
        invariant forall t :: t < nextBit - count && nextBit < t + cnt ==> !Clear(w, t, cnt)
        invariant r == NoRun
      {
        bitLeft := bitLeft - 1;
        var isSet := ScanTest(nextBit);
        assert isSet == w[nextBit];
        if !isSet {
          count := count + 1;
        } else {
          count := 0;
          assert forall t :: t <= nextBit < t + cnt ==> !Clear(w, t, cnt);
        }
        if count == cnt {
          r := At(nextBit - cnt + 1);
          break;
        }
        nextBit := nextBit + 1;
      }
    }
  }

  lemma FirstClearBelow(v: seq<bool>, start: nat)
    requires FirstFit(v, 1, start)
    ensures forall i :: 0 <= i < start ==> v[i]
  {
    forall i | 0 <= i < start ensures v[i] {
      assert !Clear(v, i, 1);
    }
  }

  // ----- what the overrun of the last probe means -----

  /** The run of cnt bits that ends one past the bitmap: its last cnt - 1 bits and the bit
      after it are clear. */
  predicate TailOverrun(v: seq<bool>, len: nat, cnt: nat)
    requires 8 * len < |v|
  {
    cnt > 1 && Clear(v[..8 * len + 1], 8 * len + 1 - cnt, cnt)
  }

  /** The code answers as an in-range first-fit search would, except exactly when no run
      lies inside the bitmap and the tail overruns into a clear bit after it. */
  lemma {:induction false} ScanExactIff(v: seq<bool>, len: nat, cnt: nat, r: Scan)
    requires 8 * len < |v| && cnt >= 1
    requires ScanSpec(v, len, cnt, r) && !r.Panicked?
    ensures (match r
             case At(s) => FirstFit(v[..8 * len], cnt, s)
             case _ => !HasRun(v[..8 * len], cnt))
            <==> !(TailOverrun(v, len, cnt) && !HasRun(v[..8 * len], cnt))
  {
    var a, w := v[..8 * len], Window(v, len, cnt);
    if cnt > 1 {
      forall t ensures Clear(a, t, cnt) <==> Clear(w, t, cnt) && t + cnt <= 8 * len {
        if Clear(w, t, cnt) && t + cnt <= 8 * len {
          assert forall i :: t <= i < t + cnt ==> a[i] == w[i];
        }
      }
      match r
      case At(s) =>
        if s + cnt <= 8 * len {
          assert Clear(a, s, cnt);
        } else {
          assert s == 8 * len + 1 - cnt && TailOverrun(v, len, cnt);
          forall t ensures !Clear(a, t, cnt) { assert t >= s || !Clear(w, t, cnt); }
        }
      case NoRun =>
        assert !Clear(w, 8 * len + 1 - cnt, cnt);
    } else {
      assert w == a;
    }
  }

  /** A one-byte bitmap with only its last bit clear, followed by a clear bit: asked for two
      bits the search answers 7, and bit 8 is not part of the bitmap. */
  lemma ScanOverrunWitness()
    ensures var v := [true, true, true, true, true, true, true, false] + seq(8, _ => false);
            ScanSpec(v, 1, 2, At(7)) && !Clear(v[..8], 7, 2)
  {
    var v := [true, true, true, true, true, true, true, false] + seq(8, _ => false);
    assert !v[7] && !AllSet(v[..8]) by { assert !v[..8][7]; }
    var w := Window(v, 1, 2);
    assert w == v[..9];
    assert Clear(w, 7, 2);
    forall t | t < 7 ensures !Clear(w, t, 2) { if 0 <= t { assert w[t]; } }
  }

  /** Once an answer's bits are set, no later answer overlaps it: successive allocations
      are disjoint. */
  lemma {:induction false} LaterScansDisjoint(v: seq<bool>, len: nat, cnt: nat, s: nat,
                                              v': seq<bool>, cnt': nat, s': nat)
    requires 8 * len < |v| == |v'| && cnt >= 1 && cnt' >= 1
    requires ScanSpec(v, len, cnt, At(s))
    requires forall i :: s <= i < s + cnt ==> i < |v'| && v'[i]
    requires ScanSpec(v', len, cnt', At(s'))
    ensures s' + cnt' <= s || s + cnt <= s'
  {
    ScanFindsClear(v', len, cnt', s');
    var i := if s < s' then s' else s;
    var shared := 0 <= i < |v'| && v'[i];
  }

  /** A successful answer always names bits that were clear, so nothing already set is handed out. */
  lemma ScanFindsClear(v: seq<bool>, len: nat, cnt: nat, s: nat)
    requires 8 * len < |v| && cnt >= 1 && ScanSpec(v, len, cnt, At(s))
    ensures s + cnt <= 8 * len + (if cnt == 1 then 0 else 1)
    ensures forall i :: s <= i < s + cnt ==> !v[i]
  {
    var w := Window(v, len, cnt);
    forall i | s <= i < s + cnt ensures !v[i] { assert !w[i]; }
  }

  lemma ScanOfAt(v: seq<bool>, len: nat, cnt: nat, s: nat)
    requires 8 * len < |v| && cnt >= 1 && ScanOf(v, len, cnt) == At(s)
    ensures FirstFit(Window(v, len, cnt), cnt, s) && s + cnt <= 8 * len + 1
    ensures forall i :: s <= i < s + cnt ==> !v[i]
  {
    ScanDetermined(v, len, cnt, At(s));
    ScanFindsClear(v, len, cnt, s);
  }

  lemma FirstFitFound(v: seq<bool>, len: nat, cnt: nat, k: nat)
    requires 8 * len < |v| && cnt >= 1
    ensures FirstFit(Window(v, len, cnt), cnt, k) <==> ScanOf(v, len, cnt) == At(k)
  {
    var w := Window(v, len, cnt);
    ScanDetermined(v, len, cnt, At(k));
    if FirstFit(w, cnt, k) { assert !w[k] && w[k] == v[..8 * len][k]; }
  }
}
