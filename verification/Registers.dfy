/** The 128-bit word: two limbs, sixteen bytes, and its views as lanes of one element type. */
module Registers {
  import opened Words

  type Byte = x: int | 0 <= x < 256

  /** Two 64-bit limbs, low word first. */
  datatype Bits128 = Bits128(lo: Word, hi: Word)

  function FromU128(v: int): Bits128
    requires 0 <= v < TWO_TO_128
  {
    Bits128(v % TWO_TO_64, v / TWO_TO_64)
  }

  function FromI128(v: int): Bits128
    requires -(TWO_TO_128 / 2) <= v < TWO_TO_128 / 2
  {
    FromU128(Unsigned(v, TWO_TO_128))
  }

  function AsU128(word: Bits128): (v: int)
    ensures 0 <= v < TWO_TO_128
  {
    word.lo + TWO_TO_64 * word.hi
  }

  function AsI128(word: Bits128): int {
    Signed(AsU128(word), TWO_TO_128)
  }

  lemma LimbsInvert(word: Bits128, v: int)
    ensures FromU128(AsU128(word)) == word
    ensures -(TWO_TO_128 / 2) <= AsI128(word) < TWO_TO_128 / 2 && FromI128(AsI128(word)) == word
    ensures 0 <= v < TWO_TO_128 ==> AsU128(FromU128(v)) == v
    ensures -(TWO_TO_128 / 2) <= v < TWO_TO_128 / 2 ==> AsI128(FromI128(v)) == v
  {
    CastsInvert(AsU128(word), TWO_TO_128);
    CastsInvert(v, TWO_TO_128);
  }

  // ----- Little-endian bytes -----

  function Pow256(n: nat): (p: int)
    ensures p > 0
    ensures n > 0 ==> p % 2 == 0
  {
    if n == 0 then 1 else 256 * Pow256(n - 1)
  }

  function ToLe(v: nat, n: nat): (bytes: seq<Byte>)
    ensures |bytes| == n
    decreases n
  {
    if n == 0 then [] else [v % 256] + ToLe(v / 256, n - 1)
  }

  function FromLe(bytes: seq<Byte>): (v: nat)
    ensures v < Pow256(|bytes|)
  {
    if bytes == [] then 0 else bytes[0] + 256 * FromLe(bytes[1..])
  }

  lemma {:induction false} FromLeToLe(v: nat, n: nat)
    requires v < Pow256(n)
    ensures FromLe(ToLe(v, n)) == v
    decreases n
  {
    if n > 0 {
      FromLeToLe(v / 256, n - 1);
      assert ToLe(v, n)[1..] == ToLe(v / 256, n - 1);
    }
  }

  lemma LowByte(first: Byte, rest: nat)
    ensures (first + 256 * rest) % 256 == first && (first + 256 * rest) / 256 == rest
  {
  }

  lemma {:induction false} ToLeFromLe(bytes: seq<Byte>)
    ensures ToLe(FromLe(bytes), |bytes|) == bytes
  {
    if bytes != [] {
      ToLeFromLe(bytes[1..]);
      LowByte(bytes[0], FromLe(bytes[1..]));
      assert bytes == [bytes[0]] + bytes[1..];
    }
  }

  function ToLeBytes(word: Bits128): (bytes: seq<Byte>)
    ensures |bytes| == 16
  {
    ToLe(AsU128(word), 16)
  }

  function FromLeBytes(bytes: seq<Byte>): Bits128
    requires |bytes| == 16
  {
    Pow256Of16();
    FromU128(FromLe(bytes))
  }

  lemma Pow256Of16()
    ensures Pow256(1) == 0x100 && Pow256(2) == 0x1_0000 && Pow256(4) == 0x1_0000_0000
    ensures Pow256(8) == TWO_TO_64 && Pow256(16) == TWO_TO_128
  {
    assert Pow256(4) == 0x1_0000_0000;
    assert Pow256(8) == TWO_TO_64;
    assert Pow256(12) == 0x1_0000_0000 * TWO_TO_64;
  }

  lemma BytesInvert(word: Bits128, bytes: seq<Byte>)
    ensures FromLeBytes(ToLeBytes(word)) == word
    ensures |bytes| == 16 ==> ToLeBytes(FromLeBytes(bytes)) == bytes
  {
    Pow256Of16();
    LimbsInvert(word, 0);
    FromLeToLe(AsU128(word), 16);
    if |bytes| == 16 {
      ToLeFromLe(bytes);
      LimbsInvert(word, FromLe(bytes));
    }
  }

  // ----- Lanes -----

  /** One lane type: its width in bytes, and whether its bits are read as two's complement. */
  datatype Lane = Lane(width: nat, signed: bool)

  predicate ValidLane(lane: Lane) {
    lane.width == 1 || lane.width == 2 || lane.width == 4 || lane.width == 8
  }

  predicate InLane(lane: Lane, v: int) {
    if lane.signed then -(Pow256(lane.width) / 2) <= v < Pow256(lane.width) / 2
    else 0 <= v < Pow256(lane.width)
  }

  function LaneValue(lane: Lane, bytes: seq<Byte>): int
    requires |bytes| == lane.width
  {
    if lane.signed then Signed(FromLe(bytes), Pow256(lane.width)) else FromLe(bytes)
  }

  function LaneBytes(lane: Lane, v: int): (bytes: seq<Byte>)
    ensures |bytes| == lane.width
  {
    ToLe(Unsigned(v, Pow256(lane.width)), lane.width)
  }

  lemma LaneInverts(lane: Lane, v: int, bytes: seq<Byte>)
    requires ValidLane(lane) && |bytes| == lane.width
    ensures InLane(lane, LaneValue(lane, bytes)) && LaneBytes(lane, LaneValue(lane, bytes)) == bytes
    ensures InLane(lane, v) ==> LaneValue(lane, LaneBytes(lane, v)) == v
  {
    var modulus := Pow256(lane.width);
    CastsInvert(FromLe(bytes), modulus);
    ToLeFromLe(bytes);
    CastsInvert(v, modulus);
    FromLeToLe(Unsigned(v, modulus), lane.width);
    Remainder(FromLe(bytes), modulus, 0, FromLe(bytes));
    if 0 <= v < modulus {
      Remainder(v, modulus, 0, v);
    }
    hide Signed, Pow256, FromLe, ToLe;
  }

  /** The lanes of a run of bytes, lane 0 at the lowest address. */
  function LanesOf(lane: Lane, bytes: seq<Byte>): seq<int>
    requires lane.width > 0
    decreases |bytes|
  {
    if |bytes| < lane.width then []
    else [LaneValue(lane, bytes[..lane.width])] + LanesOf(lane, bytes[lane.width..])
  }

  lemma {:induction false} LanesCount(lane: Lane, bytes: seq<Byte>)
    requires lane.width > 0
    ensures |LanesOf(lane, bytes)| == |bytes| / lane.width
    decreases |bytes|
  {
    if |bytes| >= lane.width {
      LanesCount(lane, bytes[lane.width..]);
      LessOne(|bytes|, lane.width);
    } else {
      Remainder(|bytes|, lane.width, 0, |bytes|);
    }
  }

  lemma {:induction false} BytesCount(lane: Lane, lanes: seq<int>)
    ensures |BytesOf(lane, lanes)| == |lanes| * lane.width
  {
    if lanes != [] {
      BytesCount(lane, lanes[1..]);
    }
  }

  lemma LessOne(n: nat, width: nat)
    requires 0 < width <= n
    ensures n / width == (n - width) / width + 1
  {
    var quotient := (n - width) / width;
    assert n - width == width * quotient + (n - width) % width;
    Remainder(n, width, quotient + 1, (n - width) % width);
  }

  function BytesOf(lane: Lane, lanes: seq<int>): seq<Byte> {
    if lanes == [] then [] else LaneBytes(lane, lanes[0]) + BytesOf(lane, lanes[1..])
  }

  lemma {:induction false} LanesOfBytes(lane: Lane, lanes: seq<int>)
    requires ValidLane(lane) && forall i :: 0 <= i < |lanes| ==> InLane(lane, lanes[i])
    ensures LanesOf(lane, BytesOf(lane, lanes)) == lanes
  {
    if lanes != [] {
      var first, rest := LaneBytes(lane, lanes[0]), BytesOf(lane, lanes[1..]);
      LanesOfBytes(lane, lanes[1..]);
      LaneInverts(lane, lanes[0], first);
      hide LaneValue, LaneBytes;
      assert (first + rest)[..lane.width] == first && (first + rest)[lane.width..] == rest;
      assert lanes == [lanes[0]] + lanes[1..];
    }
  }

  lemma {:induction false} BytesOfLanes(lane: Lane, bytes: seq<Byte>)
    requires ValidLane(lane) && |bytes| % lane.width == 0
    ensures BytesOf(lane, LanesOf(lane, bytes)) == bytes
    ensures forall i :: 0 <= i < |LanesOf(lane, bytes)| ==> InLane(lane, LanesOf(lane, bytes)[i])
    decreases |bytes|
  {
    hide LaneValue, LaneBytes, InLane, LanesOf, BytesOf;
    LanesByFirst(lane, bytes);
    if |bytes| >= lane.width {
      var first, rest := bytes[..lane.width], bytes[lane.width..];
      StillWhole(lane, |bytes|);
      BytesOfLanes(lane, rest);
      LaneInverts(lane, 0, first);
      BytesByFirst(lane, LaneValue(lane, first), LanesOf(lane, rest));
      assert bytes == first + rest;
    } else {
      SmallMultiple(lane, |bytes|);
      BytesByFirst(lane, 0, []);
    }
  }

  lemma LanesByFirst(lane: Lane, bytes: seq<Byte>)
    requires lane.width > 0
    ensures LanesOf(lane, bytes) ==
      if |bytes| < lane.width then [] else [LaneValue(lane, bytes[..lane.width])] + LanesOf(lane, bytes[lane.width..])
  {
  }

  lemma BytesByFirst(lane: Lane, v: int, lanes: seq<int>)
    ensures BytesOf(lane, [v] + lanes) == LaneBytes(lane, v) + BytesOf(lane, lanes) && BytesOf(lane, []) == []
  {
    assert ([v] + lanes)[1..] == lanes;
  }

  lemma SmallMultiple(lane: Lane, n: nat)
    requires ValidLane(lane) && n % lane.width == 0 && n < lane.width
    ensures n == 0
  {
  }

  lemma StillWhole(lane: Lane, n: nat)
    requires ValidLane(lane) && n % lane.width == 0 && n >= lane.width
    ensures (n - lane.width) % lane.width == 0
  {
  }

  function LaneCount(lane: Lane): nat
    requires ValidLane(lane)
  {
    16 / lane.width
  }

  /** Every view of the word, at every element width, is a bijection between words and lanes in range. */
  lemma ViewsAreBijections(lane: Lane, word: Bits128, lanes: seq<int>)
    requires ValidLane(lane)
    ensures var view := LanesOf(lane, ToLeBytes(word));
      && |view| == LaneCount(lane)
      && (forall i :: 0 <= i < |view| ==> InLane(lane, view[i]))
      && |BytesOf(lane, view)| == 16
      && FromLeBytes(BytesOf(lane, view)) == word
    ensures |lanes| == LaneCount(lane) && (forall i :: 0 <= i < |lanes| ==> InLane(lane, lanes[i])) ==>
      && |BytesOf(lane, lanes)| == 16
      && LanesOf(lane, ToLeBytes(FromLeBytes(BytesOf(lane, lanes)))) == lanes
  {
    BytesOfLanes(lane, ToLeBytes(word));
    LanesCount(lane, ToLeBytes(word));
    BytesCount(lane, lanes);
    if |lanes| == LaneCount(lane) && forall i :: 0 <= i < |lanes| ==> InLane(lane, lanes[i]) {
      assert |BytesOf(lane, lanes)| == 16;
      BytesInvert(word, BytesOf(lane, lanes));
      LanesOfBytes(lane, lanes);
    } else {
      BytesInvert(word, []);
    }
  }

  // ----- The codecs, as loops over the bytes -----

  lemma Regroup<T>(a: seq<T>, b: seq<T>, c: seq<T>)
    ensures a + (b + c) == (a + b) + c
  {
  }

  /** Lane `i` starts at byte `at`. */
  predicate StartsAt(lane: Lane, i: nat, at: nat)
    requires ValidLane(lane)
  {
    at == i * lane.width && i <= LaneCount(lane)
  }

  lemma Offsets(lane: Lane, i: nat, at: nat)
    requires ValidLane(lane) && StartsAt(lane, i, at)
    ensures at <= 16
    ensures i == LaneCount(lane) ==> at == 16
    ensures i < LaneCount(lane) ==> at + lane.width <= 16 && StartsAt(lane, i + 1, at + lane.width)
  {
  }

  lemma NextLane(lane: Lane, bytes: seq<Byte>, at: nat)
    requires lane.width > 0 && at + lane.width <= |bytes|
    ensures LanesOf(lane, bytes[at..])
         == [LaneValue(lane, bytes[at..at + lane.width])] + LanesOf(lane, bytes[at + lane.width..])
  {
    assert bytes[at..][..lane.width] == bytes[at..at + lane.width];
    assert bytes[at..][lane.width..] == bytes[at + lane.width..];
  }

  lemma NextBytes(lane: Lane, lanes: seq<int>, i: nat)
    requires i < |lanes|
    ensures BytesOf(lane, lanes[i..]) == LaneBytes(lane, lanes[i]) + BytesOf(lane, lanes[i + 1..])
  {
    assert lanes[i..][1..] == lanes[i + 1..];
  }

  /** Where the codecs' loops start, and what is left when they end. */
  lemma Ends(lane: Lane, bytes: seq<Byte>, lanes: seq<int>)
    requires ValidLane(lane)
    ensures lane.width > 0 && StartsAt(lane, 0, 0)
    ensures bytes[0..] == bytes && LanesOf(lane, bytes[|bytes|..]) == []
    ensures lanes[0..] == lanes && BytesOf(lane, lanes[|lanes|..]) == []
  {
  }

  method ToLanes(lane: Lane, word: Bits128) returns (out: array<int>)
    requires ValidLane(lane)
    ensures fresh(out) && out[..] == LanesOf(lane, ToLeBytes(word))
  {
    hide *;
    var b := ToLeBytes(word);
    var w := lane.width;
    Ends(lane, b, []);
    out := new int[LaneCount(lane)];
    var i := 0;
    var at := 0;
    while i < out.Length
      invariant 0 <= i <= out.Length && 0 <= at <= 16 && StartsAt(lane, i, at)
      invariant out[..i] + LanesOf(lane, b[at..]) == LanesOf(lane, b)
    {
      Offsets(lane, i, at);
      ghost var done := out[..i];
      NextLane(lane, b, at);
      out[i] := LaneValue(lane, b[at..at + w]);
      Regroup(done, [out[i]], LanesOf(lane, b[at + w..]));
      i := i + 1;
      at := at + w;
      assert out[..i] == done + [out[i - 1]];
    }
    Offsets(lane, i, at);
    assert out[..i] == out[..];
  }

  /** `copy_from_slice` into the bytes from `at` on. */
  method CopyInto(b: array<Byte>, at: nat, source: seq<Byte>)
    requires at + |source| <= b.Length
    modifies b
    ensures b[..at + |source|] == old(b[..at]) + source
  {
    forall k | 0 <= k < |source| {
      b[at + k] := source[k];
    }
  }

  method FromLanes(lane: Lane, lanes: array<int>) returns (word: Bits128)
    requires ValidLane(lane) && lanes.Length == LaneCount(lane)
    ensures |BytesOf(lane, lanes[..])| == 16 && word == FromLeBytes(BytesOf(lane, lanes[..]))
  {
    hide *;
    var w := lane.width;
    var b := new Byte[16](_ => 0);
    var i := 0;
    var at := 0;
    ghost var all := lanes[..];
    Ends(lane, [], all);
    while i < lanes.Length
      invariant 0 <= i <= lanes.Length && 0 <= at <= 16 && StartsAt(lane, i, at)
      invariant b[..at] + BytesOf(lane, all[i..]) == BytesOf(lane, all)
    {
      Offsets(lane, i, at);
      ghost var done := b[..at];
      var lb := LaneBytes(lane, lanes[i]);
      NextBytes(lane, all, i);
      CopyInto(b, at, lb);
      Regroup(done, lb, BytesOf(lane, all[i + 1..]));
      i := i + 1;
      at := at + w;
    }
    Offsets(lane, i, at);
    ghost var bytes := b[..16];
    assert bytes == b[..] && bytes + [] == bytes;
    assert bytes == BytesOf(lane, all);
    word := FromLeBytes(b[..]);
  }
}
