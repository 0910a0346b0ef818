/** lib/kernel/bitmap.c: a bit map packed into bytes, its first-fit scan, and the two places
    where the byte indices do not do what the bit indices ask for. */
module Bitmap {

  // ---------------------------------------------------------------- bits in bytes

  function Mask(k: nat): bv8
    requires k < 8
  {
    if k == 0 then 1 else if k == 1 then 2 else if k == 2 then 4 else if k == 3 then 8
    else if k == 4 then 16 else if k == 5 then 32 else if k == 6 then 64 else 128
  }

  predicate Bit(b: bv8, k: nat)
    requires k < 8
  {
    b & Mask(k) != 0
  }

  lemma MaskIsShift(k: nat)
    requires k < 8
    ensures Mask(k) == (1 as bv8) << k
  {
  }

  lemma FullByte(b: bv8)
    ensures b == 0xff <==> (forall k :: 0 <= k < 8 ==> Bit(b, k))
  {
    if forall k :: 0 <= k < 8 ==> Bit(b, k) {
      assert Bit(b, 0) && Bit(b, 1) && Bit(b, 2) && Bit(b, 3) && Bit(b, 4) && Bit(b, 5) && Bit(b, 6) && Bit(b, 7);
    }
  }

  /** The byte with bit k set or cleared, as bitmap_set computes it. */
  function WithBit(b: bv8, k: nat, value: bool): bv8
    requires k < 8
  {
    if value then b | Mask(k) else b & !Mask(k)
  }

  lemma WithBitAt(b: bv8, k: nat, value: bool, j: nat)
    requires k < 8 && j < 8
    ensures Bit(WithBit(b, k, value), j) == if j == k then value else Bit(b, j)
  {
  }

  lemma WithBitAll(b: bv8, k: nat, value: bool)
    requires k < 8
    ensures forall j :: 0 <= j < 8 ==> Bit(WithBit(b, k, value), j) == if j == k then value else Bit(b, j)
  {
    forall j | 0 <= j < 8 ensures Bit(WithBit(b, k, value), j) == if j == k then value else Bit(b, j) {
      WithBitAt(b, k, value, j);
    }
  }

  /** The bit map that the bytes stand for: bit i is bit i % 8 of byte i / 8. */
  ghost function Bits(bytes: seq<bv8>): (bits: seq<bool>)
    ensures |bits| == 8 * |bytes|
  {
    seq(8 * |bytes|, (i: nat) requires i < 8 * |bytes| => Bit(bytes[i / 8], i % 8))
  }

  // ---------------------------------------------------------------- what scan and set mean

  predicate ClearRun(bits: seq<bool>, start: int, cnt: nat) {
    0 <= start && start + cnt <= |bits| && forall i :: start <= i < start + cnt ==> !bits[i]
  }

  /** `start` is the least start of cnt consecutive clear bits. */
  ghost predicate IsFirstRun(bits: seq<bool>, cnt: nat, start: int) {
    ClearRun(bits, start, cnt) && forall s :: 0 <= s < start ==> !ClearRun(bits, s, cnt)
  }

  /** `Stopped` is the failed assertion of bitmap_scan on a full map. */
  datatype Found = At(start: nat) | Nowhere | Stopped

  /** The bit that bitmap_set writes when asked for bit idx: the byte index is kept in 8 bits. */
  function Target(idx: nat): (j: nat)
    ensures j <= idx && (j == idx <==> idx < 2048)
  {
    idx / 8 % 256 * 8 + idx % 8
  }

  /** bitmap_set on the bits. */
  function SetBit(bits: seq<bool>, idx: nat, value: bool): seq<bool>
    requires idx < |bits|
  {
    bits[Target(idx) := value]
  }

  /** bitmap_set does what it is asked, on every map that has the bit, exactly below 2048. */
  lemma SetBitIsExact(idx: nat)
    ensures (forall bits: seq<bool>, value :: idx < |bits| ==> SetBit(bits, idx, value) == bits[idx := value]) <==>
              idx < 2048
  {
    if idx >= 2048 {
      var bits := seq(idx + 1, i => false);
      assert SetBit(bits, idx, true)[Target(idx)] != bits[idx := true][Target(idx)];
    }
  }

  lemma BitsOfByteUpdate(bytes: seq<bv8>, i: nat, b: bv8, k: nat, value: bool)
    requires i < |bytes| && k < 8
    requires forall j :: 0 <= j < 8 ==> Bit(b, j) == (if j == k then value else Bit(bytes[i], j))
    ensures Bits(bytes[i := b]) == Bits(bytes)[8 * i + k := value]
  {
    var u, v := Bits(bytes[i := b]), Bits(bytes)[8 * i + k := value];
    forall n | 0 <= n < |u| ensures u[n] == v[n] {
      assert n == 8 * (n / 8) + n % 8;
    }
  }

  lemma BitsOfWithBit(bytes: seq<bv8>, idx: nat, value: bool)
    requires idx / 8 < |bytes|
    ensures Bits(bytes[Target(idx) / 8 := WithBit(bytes[Target(idx) / 8], idx % 8, value)]) ==
              SetBit(Bits(bytes), idx, value)
  {
    var i, k := Target(idx) / 8, idx % 8;
    var b := WithBit(bytes[i], k, value);
    WithBitAll(bytes[i], k, value);
    BitsOfByteUpdate(bytes, i, b, k, value);
  }

  /** bitmap_set; `value` is 0 or 1 by its assertion. */
  method BitmapSet(bytes: array<bv8>, idx: nat, value: bool)
    requires idx / 8 < bytes.Length
    modifies bytes
    ensures Bits(bytes[..]) == SetBit(old(Bits(bytes[..])), idx, value)
  {
    var byteIdx, bitRemain := idx / 8 % 256, idx % 8;
    BitsOfWithBit(bytes[..], idx, value);
    bytes[byteIdx] := WithBit(bytes[byteIdx], bitRemain, value);
    assert bytes[..] == old(bytes[..])[byteIdx := bytes[byteIdx]];
  }

  // ---------------------------------------------------------------- bitmap_scan

  /** The map of the first len bytes, and that map with the bit after it, which the scan's inner
      loop also looks at. */
  ghost function InRange(bytes: seq<bv8>, len: nat): (bits: seq<bool>)
    requires len <= |bytes|
    ensures |bits| == 8 * len
  {
    Bits(bytes)[..8 * len]
  }

  ghost function OnePast(bytes: seq<bv8>, len: nat): (bits: seq<bool>)
    requires len < |bytes|
    ensures |bits| == 8 * len + 1
  {
    Bits(bytes)[..8 * len + 1]
  }

  /** What bitmap_scan returns on a map with the bits `bits`, followed in memory by the bit `past`. */
  ghost predicate Scans(bits: seq<bool>, past: bool, cnt: nat, found: Found) {
    match found
    case Stopped => forall i :: 0 <= i < |bits| ==> bits[i]
    case At(start) => (exists i :: 0 <= i < |bits| && !bits[i])
        && IsFirstRun(if cnt == 1 then bits else bits + [past], cnt, start)
    case Nowhere => (exists i :: 0 <= i < |bits| && !bits[i]) && cnt > 1 && forall s :: !ClearRun(bits + [past], s, cnt)
  }

  lemma SetBefore(bits: seq<bool>, cnt: nat, s: int, i: int)
    requires 0 <= i < |bits| && bits[i] && s <= i < s + cnt
    ensures !ClearRun(bits, s, cnt)
  {
  }

  /** bitmap_scan_test. */
  predicate BitmapScanTest(bytes: array<bv8>, idx: nat)
    requires idx / 8 < bytes.Length
    reads bytes
    ensures BitmapScanTest(bytes, idx) == Bits(bytes[..])[idx]
  {
    bytes[idx / 8] & Mask(idx % 8) != 0
  }

  /** The bit-by-bit comparison of a byte that is not full. */
  method FirstClear(b: bv8) returns (idxBit: nat)
    requires b != 0xff
    ensures idxBit < 8 && !Bit(b, idxBit) && forall k :: 0 <= k < idxBit ==> Bit(b, k)
  {
    FullByte(b);
    idxBit := 0;
    while b & Mask(idxBit) != 0
      invariant idxBit < 8
      invariant forall k :: 0 <= k < idxBit ==> Bit(b, k)
      decreases 8 - idxBit
    {
      idxBit := idxBit + 1;
    }
  }

  /** The first clear bit of the map, or none: the byte loop and the bit loop. */
  method FirstFree(bytes: array<bv8>, len: nat) returns (start: nat)
    requires len < bytes.Length
    ensures start <= 8 * len && forall i :: 0 <= i < start ==> Bits(bytes[..])[i]
    ensures start < 8 * len ==> !Bits(bytes[..])[start]
  {
    ghost var all := Bits(bytes[..]);
    var idxByte := 0;
    while bytes[idxByte] == 0xff && idxByte < len
      invariant idxByte <= len
      invariant forall i :: 0 <= i < 8 * idxByte ==> all[i]
    {
      FullByte(bytes[idxByte]);
      idxByte := idxByte + 1;
    }
    if idxByte == len { return 8 * len; }
    var idxBit := FirstClear(bytes[idxByte]);
    start := idxByte * 8 + idxBit;
    forall i | 8 * idxByte <= i < start ensures all[i] { assert Bit(bytes[idxByte], i % 8); }
  }

  lemma NoneBefore(bits: seq<bool>, cnt: nat, start: nat)
    requires cnt >= 1 && start <= |bits| && forall i :: 0 <= i < start ==> bits[i]
    ensures forall s :: 0 <= s < start ==> !ClearRun(bits, s, cnt)
  {
    forall s | 0 <= s < start ensures !ClearRun(bits, s, cnt) { SetBefore(bits, cnt, s, s); }
  }

  /** The clear run that ends at `end` has `count` bits and no more. */
  ghost predicate EndsRun(bits: seq<bool>, end: nat, count: nat) {
    && count <= end <= |bits| && (forall i :: end - count <= i < end ==> !bits[i])
    && (end == count || bits[end - count - 1])
  }

  lemma ShortRun(bits: seq<bool>, cnt: nat, end: nat, count: nat)
    requires EndsRun(bits, end, count) && count < cnt <= end
    ensures !ClearRun(bits, end - cnt, cnt)
  {
    SetBefore(bits, cnt, end - cnt, end - count - 1);
  }

  lemma ExtendRun(bits: seq<bool>, cnt: nat, end: nat, count: nat, count': nat)
    requires end < |bits| && EndsRun(bits, end, count) && count' == (if bits[end] then 0 else count + 1) < cnt
    requires forall s :: 0 <= s <= end - cnt ==> !ClearRun(bits, s, cnt)
    ensures EndsRun(bits, end + 1, count') && forall s :: 0 <= s <= end + 1 - cnt ==> !ClearRun(bits, s, cnt)
  {
    if cnt <= end + 1 { ShortRun(bits, cnt, end + 1, count'); }
  }

  lemma FoundRun(bits: seq<bool>, cnt: nat, end: nat, count: nat)
    requires end < |bits| && EndsRun(bits, end, count) && !bits[end] && count + 1 == cnt
    requires forall s :: 0 <= s <= end - cnt ==> !ClearRun(bits, s, cnt)
    ensures IsFirstRun(bits, cnt, end - cnt + 1)
  {
  }

  /** The loop of bitmap_scan that counts clear bits from the first free one; `bits` are the bits
      of the map and the one after it. */
  method CountRun(bytes: array<bv8>, len: nat, cnt: nat, start: nat, ghost bits: seq<bool>) returns (found: Found)
    requires len < bytes.Length && cnt > 1 && start < 8 * len && |bits| == 8 * len + 1
    requires forall i :: 0 <= i < |bits| ==> (BitmapScanTest(bytes, i) <==> bits[i])
    requires !bits[start] && forall i :: 0 <= i < start ==> bits[i]
    ensures found != Stopped
    ensures found.At? ==> IsFirstRun(bits, cnt, found.start)
    ensures found.Nowhere? ==> forall s :: !ClearRun(bits, s, cnt)
  {
    var bitLeft := 8 * len - start;
    var nextBit := start + 1;
    var count := 1;
    NoneBefore(bits, cnt, start);
    while bitLeft > 0
      invariant 0 <= bitLeft && nextBit + bitLeft == 8 * len + 1
      invariant count < cnt && EndsRun(bits, nextBit, count)
      invariant forall s :: 0 <= s <= nextBit - cnt ==> !ClearRun(bits, s, cnt)
    {
      ghost var before := count;
      bitLeft := bitLeft - 1;
      if !BitmapScanTest(bytes, nextBit) {
        count := count + 1;
      } else {
        count := 0;
      }
      if count == cnt {
        FoundRun(bits, cnt, nextBit, before);
        return At(nextBit - cnt + 1);
      }
      ExtendRun(bits, cnt, nextBit, before, count);
      nextBit := nextBit + 1;
    }
    return Nowhere;
  }

  /** bitmap_scan over the bytes of the map; the byte after the map exists in memory. */
  method BitmapScan(bytes: array<bv8>, len: nat, cnt: nat) returns (found: Found)
    requires len < bytes.Length && cnt >= 1
    ensures Scans(InRange(bytes[..], len), Bits(bytes[..])[8 * len], cnt, found)
  {
    ghost var inRange := InRange(bytes[..], len);
    assert OnePast(bytes[..], len) == inRange + [Bits(bytes[..])[8 * len]];
    var start := FirstFree(bytes, len);
    if start == 8 * len { return Stopped; }
    assert !inRange[start];
    if cnt == 1 {
      NoneBefore(inRange, cnt, start);
      return At(start);
    }
    found := CountRun(bytes, len, cnt, start, OnePast(bytes[..], len));
  }

  /** The scan is exact first fit on the map itself except in one case: no run of cnt bits fits in
      the map, but its last cnt - 1 bits and the bit after it are clear. */
  lemma ScanIsFirstFit(bits: seq<bool>, past: bool, cnt: nat, found: Found)
    requires cnt >= 1 && Scans(bits, past, cnt, found) && found != Stopped
    ensures (match found
             case At(start) => IsFirstRun(bits, cnt, start)
             case Nowhere => forall s :: !ClearRun(bits, s, cnt)
             case Stopped => false)
            <==> !(cnt > 1 && !past && ClearRun(bits, |bits| + 1 - cnt, cnt - 1) && forall s :: !ClearRun(bits, s, cnt))
  {
    if cnt > 1 {
      var long, last := bits + [past], |bits| + 1 - cnt;
      assert forall i :: 0 <= i < |bits| ==> long[i] == bits[i];
      assert forall s :: s + cnt <= |bits| ==> (ClearRun(long, s, cnt) <==> ClearRun(bits, s, cnt));
      assert long[|bits|] == past;
      assert ClearRun(bits, last, cnt - 1) && !past ==> ClearRun(long, last, cnt);
      assert ClearRun(long, last, cnt) ==> ClearRun(bits, last, cnt - 1);
    } else {
      var i :| 0 <= i < |bits| && !bits[i];
      assert ClearRun(bits, i, 1);
    }
  }

  /** The one case, on a map of one byte: its last bit is clear and two are asked for. */
  lemma ScanFailsAt(bits: seq<bool>)
    requires bits == seq(8, i => i < 7)
    ensures Scans(bits, false, 2, At(7)) && !ClearRun(bits, 7, 2) && forall s :: !ClearRun(bits, s, 2)
  {
    var long := bits + [false];
    assert forall s :: 0 <= s < 7 ==> bits[s] && long[s];
    assert ClearRun(long, 7, 2) && !bits[7];
    assert forall s {:trigger ClearRun(long, s, 2)} :: ClearRun(long, s, 2) ==> s >= 7 || !long[s];
    assert forall s {:trigger ClearRun(bits, s, 2)} :: ClearRun(bits, s, 2) ==> s < 7 && !bits[s];
  }

  // ---------------------------------------------------------------- the scan as a function of the bits

  function LowestClear(bits: seq<bool>): (i: nat)
    ensures i <= |bits| && (forall j :: 0 <= j < i ==> bits[j]) && (i < |bits| ==> !bits[i])
  {
    if bits == [] || !bits[0] then 0 else 1 + LowestClear(bits[1..])
  }

  /** LowestClear is what bitmap_scan(map, 1) finds. */
  lemma ScanOne(bits: seq<bool>, past: bool, found: Found)
    requires Scans(bits, past, 1, found)
    ensures found == if LowestClear(bits) < |bits| then At(LowestClear(bits)) else Stopped
  {
    match found
    case At(start) =>
      assert ClearRun(bits, start, 1);
      forall j | 0 <= j < start ensures bits[j] {
        if !bits[j] { assert ClearRun(bits, j, 1); }
      }
      LowestClearUnique(bits, start);
    case Stopped => LowestClearUnique(bits, |bits|);
    case Nowhere =>
  }

  lemma LowestClearUnique(bits: seq<bool>, i: nat)
    requires i <= |bits| && (i < |bits| ==> !bits[i])
    requires forall j :: 0 <= j < i ==> bits[j]
    ensures LowestClear(bits) == i
  {
  }

  /** The least start, from `from` on, of cnt consecutive clear bits; the map's length if there is none. */
  function FirstRun(bits: seq<bool>, cnt: nat, from: nat): (s: nat)
    requires cnt >= 1 && from <= |bits|
    ensures from <= s <= |bits| && (s < |bits| ==> ClearRun(bits, s, cnt))
    ensures forall t :: from <= t < s ==> !ClearRun(bits, t, cnt)
    decreases |bits| - from
  {
    if from == |bits| || ClearRun(bits, from, cnt) then from else FirstRun(bits, cnt, from + 1)
  }

  /** What bitmap_scan returns. */
  function ScanOf(bits: seq<bool>, past: bool, cnt: nat): Found
    requires cnt >= 1
  {
    if LowestClear(bits) == |bits| then Stopped
    else
      var long := if cnt == 1 then bits else bits + [past];
      if FirstRun(long, cnt, 0) < |long| then At(FirstRun(long, cnt, 0)) else Nowhere
  }

  lemma ScanOfIsScan(bits: seq<bool>, past: bool, cnt: nat, found: Found)
    requires cnt >= 1
    ensures Scans(bits, past, cnt, found) <==> found == ScanOf(bits, past, cnt)
  {
    var f := LowestClear(bits);
    assert f < |bits| ==> !bits[f];
    if f < |bits| {
      var long := if cnt == 1 then bits else bits + [past];
      var s := FirstRun(long, cnt, 0);
      assert cnt == 1 ==> ClearRun(long, f, 1);
      assert ClearRun(long, |long|, cnt) ==> false;
      if found.At? {
        assert IsFirstRun(long, cnt, found.start) ==> found.start < |long|;
      }
    }
  }
}
