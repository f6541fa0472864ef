/** EBML: variable-size integers (section 4 of RFC 8794), unsigned integers and elements (section 6),
    as the recorder writes them, and a reader for them. */
module Ebml {
  import opened Bytes

  // ---- Big-endian integers ----

  function Pow256(k: nat): (p: nat)
    ensures p >= 1
  {
    if k == 0 then 1 else 256 * Pow256(k - 1)
  }

  function FromBe(s: seq<byte>): nat {
    if s == [] then 0 else FromBe(s[..|s| - 1]) * 256 + s[|s| - 1]
  }

  /** The k low bytes of n, most significant first. */
  function Be(n: nat, k: nat): (s: seq<byte>)
    ensures |s| == k
  {
    if k == 0 then [] else Be(n / 256, k - 1) + [n % 256]
  }

  lemma {:induction false} FromBeOfBe(n: nat, k: nat)
    requires n < Pow256(k)
    ensures FromBe(Be(n, k)) == n
  {
    if k > 0 {
      FromBeOfBe(n / 256, k - 1);
      assert Be(n, k)[..k - 1] == Be(n / 256, k - 1);
    }
  }

  lemma {:induction false} FromBeBound(s: seq<byte>)
    ensures FromBe(s) < Pow256(|s|)
  {
    if s != [] {
      FromBeBound(s[..|s| - 1]);
    }
  }

  /** An unsigned integer in as few bytes as possible. */
  function Minimal(n: nat): (s: seq<byte>)
    ensures s != []
  {
    if n < 256 then [n] else Minimal(n / 256) + [n % 256]
  }

  lemma {:induction false} FromBeMinimal(n: nat)
    ensures FromBe(Minimal(n)) == n
  {
    if n >= 256 {
      FromBeMinimal(n / 256);
      assert Minimal(n)[..|Minimal(n)| - 1] == Minimal(n / 256);
    }
  }

  /** No shorter big-endian form has the same value. */
  lemma {:induction false} MinimalIsShortest(n: nat, s: seq<byte>)
    requires FromBe(s) == n && s != []
    ensures |Minimal(n)| <= |s|
  {
    if n >= 256 {
      MinimalIsShortest(n / 256, s[..|s| - 1]);
    }
  }

  function Zeros(k: nat): seq<byte> {
    if k == 0 then [] else [0] + Zeros(k - 1)
  }

  lemma {:induction false} ZerosSnoc(k: nat)
    ensures Zeros(k) + [0] == [0] + Zeros(k)
    ensures |Zeros(k)| == k && forall i :: 0 <= i < k ==> Zeros(k)[i] == 0
  {
    if k > 0 {
      ZerosSnoc(k - 1);
      assert Zeros(k) + [0] == [0] + (Zeros(k - 1) + [0]);
    }
  }

  lemma {:induction false} BeZero(k: nat)
    ensures Be(0, k) == Zeros(k)
  {
    if k > 0 {
      BeZero(k - 1);
      ZerosSnoc(k - 1);
    }
  }

  /** The fixed-width form is the minimal one after leading zeros. */
  lemma {:induction false} BeIsPaddedMinimal(n: nat, k: nat)
    requires 0 < k && n < Pow256(k)
    ensures |Minimal(n)| <= k && Be(n, k) == Zeros(k - |Minimal(n)|) + Minimal(n)
  {
    if n < 256 {
      BeZero(k - 1);
      assert Be(n, k) == Be(0, k - 1) + [n];
    } else {
      BeIsPaddedMinimal(n / 256, k - 1);
      assert Zeros(k - |Minimal(n)|) + Minimal(n / 256) + [n % 256] == Zeros(k - |Minimal(n)|) + Minimal(n);
    }
  }

  lemma {:induction false} MinimalHead(n: nat)
    requires n > 0
    ensures Minimal(n)[0] != 0
  {
    if n >= 256 {
      MinimalHead(n / 256);
    }
  }

  /** The bytes of an unsigned integer element: the eight-byte form without its leading zeros. */
  method UintBytes(v: nat) returns (b: seq<byte>)
    requires v < Pow256(8)
    ensures b == Minimal(v)
  {
    if v == 0 {
      return [0];
    }
    var full := Be(v, 8);
    ghost var zeros := 8 - |Minimal(v)|;
    BeIsPaddedMinimal(v, 8);
    MinimalHead(v);
    ZerosSnoc(zeros);
    var i := 0;
    while i < 7 && full[i] == 0
      invariant 0 <= i <= zeros && i <= 7
    {
      assert i != zeros;
      i := i + 1;
    }
    return full[i..];
  }

  // ---- Element sizes ----

  const UNKNOWN: nat := 0xFF_FFFF_FFFF_FFFF // 2^56 - 1

  function EncodeSize(n: nat): seq<byte> {
    if n < 0x7F then [0x80 + n]
    else if n < 0x3FFF then [0x40 + n / 0x100, n % 0x100]
    else if n < 0x1F_FFFF then [0x20 + n / 0x1_0000, n / 0x100 % 0x100, n % 0x100]
    else if n < 0xFFF_FFFF then [0x10 + n / 0x100_0000, n / 0x1_0000 % 0x100, n / 0x100 % 0x100, n % 0x100]
    else [0x01] + Be(n, 7)
  }

  function UnknownSize(): seq<byte> {
    [0x01, 0xFF, 0xFF, 0xFF, 0xFF, 0xFF, 0xFF, 0xFF]
  }

  /** Bytes of a variable-size integer, from its first byte; 9 when that has no marker bit. */
  function Width(first: byte): nat {
    if first >= 0x80 then 1 else if first >= 0x40 then 2 else if first >= 0x20 then 3 else if first >= 0x10 then 4
    else if first >= 0x08 then 5 else if first >= 0x04 then 6 else if first >= 0x02 then 7 else if first >= 0x01 then 8
    else 9
  }

  /** The marker bit of each width. */
  function Marker(width: nat): nat
    requires 1 <= width <= 8
  {
    [0x80, 0x40, 0x20, 0x10, 0x08, 0x04, 0x02, 0x01][width - 1]
  }

  /** The value whose bits are all ones, which means "unknown" and not a size. */
  function AllOnes(width: nat): nat
    requires 1 <= width <= 8
  {
    Marker(width) * Pow256(width - 1) - 1
  }

  datatype SizeRead = Known(n: nat, rest: seq<byte>) | Unknown(rest: seq<byte>) | NoSize

  function ReadSize(s: seq<byte>): SizeRead {
    if s == [] || Width(s[0]) > 8 || |s| < Width(s[0]) then NoSize
    else
      var w := Width(s[0]);
      var v := (s[0] - Marker(w)) * Pow256(w - 1) + FromBe(s[1..w]);
      if v == AllOnes(w) then Unknown(s[w..]) else Known(v, s[w..])
  }

  lemma Pow256Values()
    ensures Pow256(0) == 1 && Pow256(1) == 0x100 && Pow256(2) == 0x1_0000 && Pow256(3) == 0x100_0000
    ensures Pow256(7) == 0x100_0000_0000_0000 && Pow256(8) == 0x1_0000_0000_0000_0000
  {
    assert Pow256(4) == 0x1_0000_0000;
    assert Pow256(6) == 0x1_0000_0000_0000;
  }

  lemma ReadSizeParts(first: byte, tail: seq<byte>, rest: seq<byte>)
    requires Width(first) <= 8 && |tail| == Width(first) - 1
    ensures var w := Width(first);
            var v := (first - Marker(w)) * Pow256(w - 1) + FromBe(tail);
            ReadSize([first] + tail + rest) == if v == AllOnes(w) then Unknown(rest) else Known(v, rest)
  {
    SizeSlices(first, tail, rest);
  }

  lemma SizeSlices(first: byte, tail: seq<byte>, rest: seq<byte>)
    ensures var s, w := [first] + tail + rest, 1 + |tail|;
            |s| >= w && s[0] == first && s[1..w] == tail && s[w..] == rest
  {
  }

  lemma FromBeOne(a: byte)
    ensures FromBe([a]) == a
  {
    assert [a][..0] == [];
  }

  lemma FromBeTwo(a: byte, b: byte)
    ensures FromBe([a, b]) == a * 256 + b
  {
    assert [a, b][..1] == [a];
    FromBeOne(a);
  }

  lemma FromBeThree(a: byte, b: byte, c: byte)
    ensures FromBe([a, b, c]) == (a * 256 + b) * 256 + c
  {
    assert [a, b, c][..2] == [a, b];
    FromBeTwo(a, b);
  }

  lemma ReadSize1(n: nat, rest: seq<byte>)
    requires n < 0x7F
    ensures ReadSize([0x80 + n] + rest) == Known(n, rest)
  {
    ReadSizeParts(0x80 + n, [], rest);
    assert [0x80 + n] + [] == [0x80 + n];
  }

  lemma ReadSize2(a: byte, b: byte, rest: seq<byte>)
    requires a < 0x40 && a * 256 + b < 0x3FFF
    ensures ReadSize([0x40 + a, b] + rest) == Known(a * 256 + b, rest)
  {
    ReadSizeParts(0x40 + a, [b], rest);
    FromBeOne(b);
    Pow256Values();
    assert [0x40 + a] + [b] == [0x40 + a, b];
  }

  lemma ReadSize3(a: byte, b: byte, c: byte, rest: seq<byte>)
    requires a < 0x20 && (a * 256 + b) * 256 + c < 0x1F_FFFF
    ensures ReadSize([0x20 + a, b, c] + rest) == Known((a * 256 + b) * 256 + c, rest)
  {
    ReadSizeParts(0x20 + a, [b, c], rest);
    FromBeTwo(b, c);
    Pow256Values();
    assert [0x20 + a] + [b, c] == [0x20 + a, b, c];
  }

  lemma ReadSize4(a: byte, b: byte, c: byte, d: byte, rest: seq<byte>)
    requires a < 0x10 && ((a * 256 + b) * 256 + c) * 256 + d < 0xFFF_FFFF
    ensures ReadSize([0x10 + a, b, c, d] + rest) == Known(((a * 256 + b) * 256 + c) * 256 + d, rest)
  {
    ReadSizeParts(0x10 + a, [b, c, d], rest);
    FromBeThree(b, c, d);
    Pow256Values();
    assert [0x10 + a] + [b, c, d] == [0x10 + a, b, c, d];
  }

  lemma Bytes3(n: nat)
    ensures (n / 0x1_0000 * 256 + n / 0x100 % 0x100) * 256 + n % 0x100 == n
  {
    var n1 := n / 0x100;
    assert n / 0x1_0000 == n1 / 0x100;
  }

  lemma Bytes4(n: nat)
    ensures ((n / 0x100_0000 * 256 + n / 0x1_0000 % 0x100) * 256 + n / 0x100 % 0x100) * 256 + n % 0x100 == n
  {
    var n1 := n / 0x100;
    assert n / 0x1_0000 == n1 / 0x100 && n / 0x100_0000 == n1 / 0x1_0000;
    Bytes3(n1);
  }

  lemma ReadShortSize(n: nat, rest: seq<byte>)
    requires n < 0xFFF_FFFF
    ensures ReadSize(EncodeSize(n) + rest) == Known(n, rest)
  {
    if n < 0x7F {
      ReadSize1(n, rest);
    } else if n < 0x3FFF {
      ReadSize2(n / 0x100, n % 0x100, rest);
    } else if n < 0x1F_FFFF {
      Bytes3(n);
      ReadSize3(n / 0x1_0000, n / 0x100 % 0x100, n % 0x100, rest);
    } else {
      Bytes4(n);
      ReadSize4(n / 0x100_0000, n / 0x1_0000 % 0x100, n / 0x100 % 0x100, n % 0x100, rest);
    }
  }

  lemma {:induction false} BeDropsHighBytes(high: nat, low: nat, k: nat)
    ensures Be(high * Pow256(k) + low, k) == Be(low, k)
  {
    if k > 0 {
      var m := high * Pow256(k - 1);
      assert high * Pow256(k) == 256 * m;
      assert (256 * m + low) / 256 == m + low / 256 && (256 * m + low) % 256 == low % 256;
      BeDropsHighBytes(high, low / 256, k - 1);
    }
  }

  /** The eight-byte form keeps only the low 56 bits, and reads them as "unknown" when all are set. */
  lemma ReadLongSize(n: nat, rest: seq<byte>)
    requires n >= 0xFFF_FFFF
    ensures ReadSize(EncodeSize(n) + rest)
         == if n % Pow256(7) == UNKNOWN then Unknown(rest) else Known(n % Pow256(7), rest)
  {
    Pow256Values();
    BeDropsHighBytes(n / Pow256(7), n % Pow256(7), 7);
    FromBeOfBe(n % Pow256(7), 7);
    ReadSizeParts(0x01, Be(n, 7), rest);
  }

  /** A size is read back exactly when it is below 2^56 - 1; that value itself reads as "unknown", and
      larger ones lose their high bits. */
  lemma SizeReadBackIff(n: nat, rest: seq<byte>)
    ensures ReadSize(EncodeSize(n) + rest) == Known(n, rest) <==> n < UNKNOWN
    ensures ReadSize(EncodeSize(n) + rest).Unknown? <==> n >= UNKNOWN && n % Pow256(7) == UNKNOWN
  {
    Pow256Values();
    if n < 0xFFF_FFFF {
      ReadShortSize(n, rest);
    } else {
      ReadLongSize(n, rest);
    }
  }

  lemma ReadUnknownSize(rest: seq<byte>)
    ensures ReadSize(UnknownSize() + rest) == Unknown(rest)
  {
    Pow256Values();
    var ones := [0xFF, 0xFF, 0xFF, 0xFF, 0xFF, 0xFF, 0xFF];
    assert Be(UNKNOWN, 7) == ones;
    FromBeOfBe(UNKNOWN, 7);
    assert UnknownSize() == [0x01] + ones;
    ReadSizeParts(0x01, ones, rest);
  }

  // ---- Elements ----

  function EncodeId(id: nat): seq<byte>
    requires id < 0x1_0000_0000
  {
    if id > 0xFF_FFFF then Be(id, 4)
    else if id > 0xFFFF then [id / 0x1_0000, id / 0x100 % 0x100, id % 0x100]
    else if id > 0xFF then [id / 0x100, id % 0x100]
    else [id]
  }

  /** Ids whose first byte marks their length, as all element ids of the format do. */
  predicate ValidId(id: nat) {
    || 0x80 <= id <= 0xFF
    || 0x4000 <= id <= 0x7FFF
    || 0x20_0000 <= id <= 0x3F_FFFF
    || 0x1000_0000 <= id <= 0x1FFF_FFFF
  }

  datatype IdRead = Id(id: nat, rest: seq<byte>) | NoId

  function ReadId(s: seq<byte>): IdRead {
    if s == [] || Width(s[0]) > 4 || |s| < Width(s[0]) then NoId
    else Id(FromBe(s[..Width(s[0])]), s[Width(s[0])..])
  }

  lemma {:induction false} FourBytes(n: nat)
    requires n < 0x1_0000_0000
    ensures Be(n, 4)[0] == n / 0x100_0000
  {
    BeNext(n, 4);
    BeNext(n / 256, 3);
    BeNext(n / 256 / 256, 2);
    BeNext(n / 256 / 256 / 256, 1);
  }

  lemma IdBytes(id: nat)
    requires ValidId(id)
    ensures EncodeId(id) != [] && Width(EncodeId(id)[0]) == |EncodeId(id)| <= 4 && FromBe(EncodeId(id)) == id
  {
    if id > 0xFF_FFFF {
      assert Pow256(4) == 0x1_0000_0000;
      FromBeOfBe(id, 4);
      FourBytes(id);
    } else if id > 0xFFFF {
      FromBeThree(id / 0x1_0000, id / 0x100 % 0x100, id % 0x100);
    } else if id > 0xFF {
      FromBeTwo(id / 0x100, id % 0x100);
    } else {
      FromBeOne(id);
    }
  }

  lemma ReadIdOfEncode(id: nat, rest: seq<byte>)
    requires ValidId(id)
    ensures ReadId(EncodeId(id) + rest) == Id(id, rest)
  {
    var e := EncodeId(id);
    IdBytes(id);
    assert (e + rest)[..|e|] == e && (e + rest)[|e|..] == rest;
  }

  function Element(id: nat, body: seq<byte>): seq<byte>
    requires id < 0x1_0000_0000
  {
    EncodeId(id) + EncodeSize(|body|) + body
  }

  /** What a reader meets next: a complete element, the start of one of unknown size, or the point
      where the data stops or makes no sense. */
  datatype Next = Elem(id: nat, body: seq<byte>, rest: seq<byte>) | Open(id: nat, rest: seq<byte>) | Stop

  function ReadNext(s: seq<byte>): Next {
    match ReadId(s)
    case NoId => Stop
    case Id(id, s1) =>
      match ReadSize(s1)
      case NoSize => Stop
      case Unknown(s2) => Open(id, s2)
      case Known(n, s2) => if |s2| < n then Stop else Elem(id, s2[..n], s2[n..])
  }

  lemma ReadElement(id: nat, body: seq<byte>, rest: seq<byte>)
    requires ValidId(id) && |body| < UNKNOWN
    ensures ReadNext(Element(id, body) + rest) == Elem(id, body, rest)
  {
    var size := EncodeSize(|body|);
    assert Element(id, body) + rest == EncodeId(id) + (size + (body + rest));
    ReadIdOfEncode(id, size + (body + rest));
    SizeReadBackIff(|body|, body + rest);
    assert (body + rest)[..|body|] == body && (body + rest)[|body|..] == rest;
  }

  lemma ReadOpen(id: nat, rest: seq<byte>)
    requires ValidId(id)
    ensures ReadNext(EncodeId(id) + UnknownSize() + rest) == Open(id, rest)
  {
    assert EncodeId(id) + UnknownSize() + rest == EncodeId(id) + (UnknownSize() + rest);
    ReadIdOfEncode(id, UnknownSize() + rest);
    ReadUnknownSize(rest);
  }

  /** Ids and sizes byte by byte, at both ends of every length. */
  lemma Forms()
    ensures EncodeId(0xA3) == [0xA3] && EncodeId(0x4282) == [0x42, 0x82] && EncodeId(0x2AD7B1) == [0x2A, 0xD7, 0xB1]
    ensures EncodeSize(0) == [0x80] && EncodeSize(126) == [0xFE]
    ensures EncodeSize(127) == [0x40, 0x7F] && EncodeSize(16_382) == [0x7F, 0xFE]
    ensures EncodeSize(16_383) == [0x20, 0x3F, 0xFF] && EncodeSize(2_097_150) == [0x3F, 0xFF, 0xFE]
    ensures EncodeSize(2_097_151) == [0x10, 0x1F, 0xFF, 0xFF]
    ensures EncodeSize(268_435_454) == [0x1F, 0xFF, 0xFF, 0xFE]
  {
  }

  lemma {:induction false} LongId()
    ensures EncodeId(0x1A45DFA3) == [0x1A, 0x45, 0xDF, 0xA3]
  {
    BeNext(0x1A45DFA3, 4);
    BeNext(0x1A45DF, 3);
    BeNext(0x1A45, 2);
    BeNext(0x1A, 1);
  }

  lemma {:induction false} LongSize()
    ensures EncodeSize(268_435_455) == [0x01, 0, 0, 0, 0x0F, 0xFF, 0xFF, 0xFF]
    ensures UnknownSize() == [0x01, 0xFF, 0xFF, 0xFF, 0xFF, 0xFF, 0xFF, 0xFF]
  {
    FourLow(268_435_455, 15);
    BeZero(3);
  }

  /** Seven bytes of a number that fits in four. */
  lemma {:induction false} FourLow(n: nat, top: nat)
    requires n == 0x100_0000 * top + 0xFF_FFFF && top < 256
    ensures Be(n, 7) == Be(0, 3) + [top, 0xFF, 0xFF, 0xFF]
  {
    BeNext(n, 7);
    BeNext(n / 256, 6);
    BeNext(n / 256 / 256, 5);
    BeNext(top, 4);
    assert n / 256 / 256 / 256 == top && n / 256 % 256 == 0xFF && n / 256 / 256 % 256 == 0xFF;
  }

  lemma BeNext(n: nat, k: nat)
    requires k > 0
    ensures Be(n, k) == Be(n / 256, k - 1) + [n % 256] && Be(n / 256, 0) == []
  {
  }
}
