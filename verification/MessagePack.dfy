/**
 * The part of the MessagePack specification (section "Formats") that the RPC
 * messages use: nil, bool, integers, str, bin, array and map. Floats and
 * extension types are rejected.
 */
module MessagePack {
  import opened Common
  import opened Framing

  /** The items of a map are its keys and values in turn; str bytes are UTF-8. */
  datatype Value =
    | Nil
    | Bool(b: bool)
    | UInt(n: nat)
    | NegInt(neg: int)
    | Str(s: Bytes)
    | Bin(bytes: Bytes)
    | Arr(items: seq<Value>)
    | Map(pairs: seq<Value>)

  // ---- big-endian numbers ------------------------------------------------------

  /** 256 to the power of `k`. */
  function Range(k: nat): (r: nat)
    ensures r > 0
  {
    if k == 0 then 1 else 256 * Range(k - 1)
  }

  function ToBE(n: nat, k: nat): (b: Bytes)
    ensures |b| == k
  {
    if k == 0 then [] else ToBE(n / 256, k - 1) + [n % 256]
  }

  function FromBE(b: Bytes): nat {
    if b == [] then 0 else 256 * FromBE(b[..|b| - 1]) + b[|b| - 1]
  }

  lemma {:induction false} BigEndianRoundTrip(n: nat, k: nat)
    requires n < Range(k)
    ensures FromBE(ToBE(n, k)) == n
  {
    if k > 0 {
      BigEndianRoundTrip(n / 256, k - 1);
      assert ToBE(n, k)[..k - 1] == ToBE(n / 256, k - 1);
    }
  }

  lemma Ranges()
    ensures Range(1) == 0x100 && Range(2) == 0x1_0000
    ensures Range(4) == 0x1_0000_0000 && Range(8) == 0x1_0000_0000_0000_0000
  {
    assert Range(1) == 256 && Range(2) == 0x1_0000 && Range(3) == 0x100_0000 && Range(4) == 0x1_0000_0000;
    assert Range(5) == 0x100_0000_0000 && Range(6) == 0x1_0000_0000_0000;
    assert Range(7) == 0x100_0000_0000_0000;
  }

  // ---- encoding ------------------------------------------------------------------

  /** Values the format can represent: lengths and numbers fit their widest form. */
  predicate Encodable(v: Value) {
    match v
    case UInt(n) => n < 0x1_0000_0000_0000_0000
    case NegInt(n) => -0x8000_0000_0000_0000 <= n < 0
    case Str(s) => |s| < 0x1_0000_0000
    case Bin(b) => |b| < 0x1_0000_0000
    case Arr(vs) => |vs| < 0x1_0000_0000 && forall w :: w in vs ==> Encodable(w)
    case Map(vs) => |vs| % 2 == 0 && |vs| / 2 < 0x1_0000_0000 && forall w :: w in vs ==> Encodable(w)
    case _ => true
  }

  /** A marker followed by a number of `k` bytes. */
  function Tagged(tag: byte, n: nat, k: nat): (b: Bytes)
    ensures |b| == 1 + k && b[0] == tag
  {
    [tag] + ToBE(n, k)
  }

  function StrHead(n: nat): Bytes {
    if n < 32 then [0xa0 + n] else if n < 0x100 then Tagged(0xd9, n, 1)
    else if n < 0x1_0000 then Tagged(0xda, n, 2) else Tagged(0xdb, n, 4)
  }

  function BinHead(n: nat): Bytes {
    if n < 0x100 then Tagged(0xc4, n, 1) else if n < 0x1_0000 then Tagged(0xc5, n, 2) else Tagged(0xc6, n, 4)
  }

  function ArrHead(n: nat): Bytes {
    if n < 16 then [0x90 + n] else if n < 0x1_0000 then Tagged(0xdc, n, 2) else Tagged(0xdd, n, 4)
  }

  function MapHead(n: nat): Bytes {
    if n < 16 then [0x80 + n] else if n < 0x1_0000 then Tagged(0xde, n, 2) else Tagged(0xdf, n, 4)
  }

  function UIntBytes(n: nat): Bytes {
    if n < 0x80 then [n]
    else if n < 0x100 then Tagged(0xcc, n, 1) else if n < 0x1_0000 then Tagged(0xcd, n, 2)
    else if n < 0x1_0000_0000 then Tagged(0xce, n, 4) else Tagged(0xcf, n, 8)
  }

  function NegIntBytes(n: int): Bytes
    requires -0x8000_0000_0000_0000 <= n < 0
  {
    if n >= -32 then [0x100 + n]
    else if n >= -0x80 then Tagged(0xd0, 0x100 + n, 1)
    else if n >= -0x8000 then Tagged(0xd1, 0x1_0000 + n, 2)
    else if n >= -0x8000_0000 then Tagged(0xd2, 0x1_0000_0000 + n, 4)
    else Tagged(0xd3, 0x1_0000_0000_0000_0000 + n, 8)
  }

  function Encode(v: Value): Bytes
    requires Encodable(v)
    decreases v, 0
  {
    match v
    case Nil => [0xc0]
    case Bool(b) => [if b then 0xc3 else 0xc2]
    case UInt(n) => UIntBytes(n)
    case NegInt(n) => NegIntBytes(n)
    case Str(s) => StrHead(|s|) + s
    case Bin(b) => BinHead(|b|) + b
    case Arr(vs) => ArrHead(|vs|) + EncodeAll(vs)
    case Map(vs) => MapHead(|vs| / 2) + EncodeAll(vs)
  }

  function EncodeAll(vs: seq<Value>): Bytes
    requires forall w :: w in vs ==> Encodable(w)
    decreases vs
  {
    if vs == [] then [] else Encode(vs[0]) + EncodeAll(vs[1..])
  }

  // ---- parsing -------------------------------------------------------------------

  /** What the first marker announces; `len` counts the bytes of the head itself. */
  datatype Head =
    | Scalar(value: Value, len: nat)
    | Blob(isStr: bool, size: nat, len: nat)
    | Items(isMap: bool, count: nat, len: nat)
    | NoHead
    | BadHead

  /** How many bytes of a number follow the marker. */
  function Width(m: byte): nat {
    if m == 0xc4 || m == 0xcc || m == 0xd0 || m == 0xd9 then 1
    else if m == 0xc5 || m == 0xcd || m == 0xd1 || m == 0xda || m == 0xdc || m == 0xde then 2
    else if m == 0xc6 || m == 0xce || m == 0xd2 || m == 0xdb || m == 0xdd || m == 0xdf then 4
    else if m == 0xcf || m == 0xd3 then 8
    else 0
  }

  function Signed(n: nat, k: nat): Value {
    if n * 2 >= Range(k) then NegInt(n - Range(k)) else UInt(n)
  }

  function ParseHead(b: Bytes): (h: Head)
    ensures !h.NoHead? && !h.BadHead? ==> 0 < h.len <= |b|
  {
    if b == [] then NoHead
    else
      var m: int := b[0];
      var k := Width(m);
      if |b| < 1 + k then NoHead
      else
        var n := FromBE(b[1..1 + k]);
        if m < 0x80 then Scalar(UInt(m), 1)
        else if m < 0x90 then Items(true, m - 0x80, 1)
        else if m < 0xa0 then Items(false, m - 0x90, 1)
        else if m < 0xc0 then Blob(true, m - 0xa0, 1)
        else if m == 0xc0 then Scalar(Nil, 1)
        else if m == 0xc2 then Scalar(Bool(false), 1)
        else if m == 0xc3 then Scalar(Bool(true), 1)
        else if 0xc4 <= m <= 0xc6 then Blob(false, n, 1 + k)
        else if 0xcc <= m <= 0xcf then Scalar(UInt(n), 1 + k)
        else if 0xd0 <= m <= 0xd3 then Scalar(Signed(n, k), 1 + k)
        else if 0xd9 <= m <= 0xdb then Blob(true, n, 1 + k)
        else if 0xdc <= m <= 0xdd then Items(false, n, 1 + k)
        else if 0xde <= m <= 0xdf then Items(true, n, 1 + k)
        else if m >= 0xe0 then Scalar(NegInt(m - 0x100), 1)
        else BadHead
  }

  function Wrap(isMap: bool, len: nat, items: Parsed<seq<Value>>): Parsed<Value> {
    match items
    case Incomplete => Incomplete
    case Invalid => Invalid
    case Frame(vs, used) => Frame(if isMap then Map(vs) else Arr(vs), len + used)
  }

  function Cons(v: Value, len: nat, items: Parsed<seq<Value>>): Parsed<seq<Value>> {
    match items
    case Incomplete => Incomplete
    case Invalid => Invalid
    case Frame(vs, used) => Frame([v] + vs, len + used)
  }

  function Parse(b: Bytes): (r: Parsed<Value>)
    ensures r.Frame? ==> 0 < r.len <= |b|
    decreases |b|, 0, 0
  {
    match ParseHead(b)
    case NoHead => Incomplete
    case BadHead => Invalid
    case Scalar(v, len) => Frame(v, len)
    case Blob(isStr, size, len) =>
      if |b| < len + size then Incomplete
      else Frame(if isStr then Str(b[len..len + size]) else Bin(b[len..len + size]), len + size)
    case Items(isMap, count, len) =>
      Wrap(isMap, len, ParseItems(if isMap then 2 * count else count, b[len..]))
  }

  function ParseItems(n: nat, b: Bytes): (r: Parsed<seq<Value>>)
    ensures r.Frame? ==> r.len <= |b|
    decreases |b|, 1, n
  {
    if n == 0 then Frame([], 0)
    else
      match Parse(b)
      case Incomplete => Incomplete
      case Invalid => Invalid
      case Frame(v, len) =>
        Cons(v, len, ParseItems(n - 1, b[len..]))
  }

  // ---- the parser never changes its mind --------------------------------------------

  lemma HeadStable(b: Bytes, c: Bytes)
    ensures !ParseHead(b).NoHead? ==> ParseHead(b + c) == ParseHead(b)
  {
    if b != [] && |b| >= 1 + Width(b[0]) {
      assert (b + c)[1..1 + Width(b[0])] == b[1..1 + Width(b[0])];
    }
  }

  lemma {:induction false} ParseStable(b: Bytes, c: Bytes)
    ensures !Parse(b).Incomplete? ==> Parse(b + c) == Parse(b)
    decreases |b|, 0, 0
  {
    HeadStable(b, c);
    match ParseHead(b)
    case Blob(_, size, len) =>
      if len + size <= |b| {
        CutInside(b, c, len + size);
        assert (b + c)[len..len + size] == (b + c)[..len + size][len..] == b[len..len + size];
      }
    case Items(isMap, count, len) =>
      CutInside(b, c, len);
      ItemsStable(if isMap then 2 * count else count, b[len..], c);
    case _ =>
  }

  lemma {:induction false} ItemsStable(n: nat, b: Bytes, c: Bytes)
    ensures !ParseItems(n, b).Incomplete? ==> ParseItems(n, b + c) == ParseItems(n, b)
    decreases |b|, 1, n
  {
    hide Parse;
    if n > 0 {
      ParseStable(b, c);
      match Parse(b)
      case Frame(v, len) =>
        ItemsStable(n - 1, b[len..], c);
        CutInside(b, c, len);
        ItemsUnfold(n, b);
        ItemsUnfold(n, b + c);
      case _ =>
    }
  }

  lemma ItemsUnfold(n: nat, b: Bytes)
    requires n > 0 && Parse(b).Frame?
    ensures ParseItems(n, b) == Cons(Parse(b).value, Parse(b).len, ParseItems(n - 1, b[Parse(b).len..]))
  {
  }

  /** So the fragmentation results hold of this parser. */
  lemma ParserStable()
    ensures Stable(Parse)
  {
    forall b, more ensures StableAt(Parse, b, more) {
      ParseStable(b, more);
    }
  }

  // ---- round trip ------------------------------------------------------------------

  lemma TaggedHead(tag: byte, n: nat, k: nat, rest: Bytes)
    requires k == Width(tag) && n < Range(k)
    ensures var b := Tagged(tag, n, k) + rest;
            |b| >= 1 + k && b[0] == tag && FromBE(b[1..1 + k]) == n
  {
    BigEndianRoundTrip(n, k);
    assert (Tagged(tag, n, k) + rest)[1..1 + k] == ToBE(n, k);
  }

  lemma StrHeadParses(n: nat, rest: Bytes)
    requires n < 0x1_0000_0000
    ensures ParseHead(StrHead(n) + rest) == Blob(true, n, |StrHead(n)|)
  {
    Ranges();
    if 32 <= n {
      TaggedHead(if n < 0x100 then 0xd9 else if n < 0x1_0000 then 0xda else 0xdb, n,
                 if n < 0x100 then 1 else if n < 0x1_0000 then 2 else 4, rest);
    }
  }

  lemma BinHeadParses(n: nat, rest: Bytes)
    requires n < 0x1_0000_0000
    ensures ParseHead(BinHead(n) + rest) == Blob(false, n, |BinHead(n)|)
  {
    Ranges();
    TaggedHead(if n < 0x100 then 0xc4 else if n < 0x1_0000 then 0xc5 else 0xc6, n,
               if n < 0x100 then 1 else if n < 0x1_0000 then 2 else 4, rest);
  }

  lemma ArrHeadParses(n: nat, rest: Bytes)
    requires n < 0x1_0000_0000
    ensures ParseHead(ArrHead(n) + rest) == Items(false, n, |ArrHead(n)|)
  {
    Ranges();
    if 16 <= n {
      TaggedHead(if n < 0x1_0000 then 0xdc else 0xdd, n, if n < 0x1_0000 then 2 else 4, rest);
    }
  }

  lemma MapHeadParses(n: nat, rest: Bytes)
    requires n < 0x1_0000_0000
    ensures ParseHead(MapHead(n) + rest) == Items(true, n, |MapHead(n)|)
  {
    Ranges();
    if 16 <= n {
      TaggedHead(if n < 0x1_0000 then 0xde else 0xdf, n, if n < 0x1_0000 then 2 else 4, rest);
    }
  }

  lemma UIntParses(n: nat, rest: Bytes)
    requires n < 0x1_0000_0000_0000_0000
    ensures ParseHead(UIntBytes(n) + rest) == Scalar(UInt(n), |UIntBytes(n)|)
  {
    Ranges();
    if n < 0x80 {
    } else if n < 0x100 {
      TaggedHead(0xcc, n, 1, rest);
    } else if n < 0x1_0000 {
      TaggedHead(0xcd, n, 2, rest);
    } else if n < 0x1_0000_0000 {
      TaggedHead(0xce, n, 4, rest);
    } else {
      TaggedHead(0xcf, n, 8, rest);
    }
  }

  /** The two's complement form of a negative number of `k` bytes. */
  lemma TaggedNegative(tag: byte, n: int, k: nat, rest: Bytes)
    requires (tag, k) == (0xd0, 1) || (tag, k) == (0xd1, 2) || (tag, k) == (0xd2, 4) || (tag, k) == (0xd3, 8)
    requires -(Range(k) / 2) <= n < 0
    ensures ParseHead(Tagged(tag, Range(k) + n, k) + rest) == Scalar(NegInt(n), 1 + k)
  {
    Ranges();
    hide Range, ToBE, FromBE;
    TaggedHead(tag, Range(k) + n, k, rest);
  }

  lemma SmallNegative(n: int, rest: Bytes)
    requires -32 <= n < 0
    ensures ParseHead(NegIntBytes(n) + rest) == Scalar(NegInt(n), 1)
  {
  }

  lemma NegIntParses(n: int, rest: Bytes)
    requires -0x8000_0000_0000_0000 <= n < 0
    ensures ParseHead(NegIntBytes(n) + rest) == Scalar(NegInt(n), |NegIntBytes(n)|)
  {
    Ranges();
    hide ParseHead, Range, Tagged;
    if n >= -32 {
      SmallNegative(n, rest);
    } else if n >= -0x80 {
      TaggedNegative(0xd0, n, 1, rest);
    } else if n >= -0x8000 {
      TaggedNegative(0xd1, n, 2, rest);
    } else if n >= -0x8000_0000 {
      TaggedNegative(0xd2, n, 4, rest);
    } else {
      TaggedNegative(0xd3, n, 8, rest);
    }
  }

  /** Whatever follows an encoded value, parsing gives back the value and stops exactly at its end. */
  lemma {:induction false} RoundTrip(v: Value, rest: Bytes)
    requires Encodable(v)
    ensures Parse(Encode(v) + rest) == Frame(v, |Encode(v)|)
    decreases v, 0
  {
    hide Parse, Encode, EncodeAll, ParseItems;
    match v
    case Arr(vs) =>
      RoundTripAll(vs, rest);
      ArrParses(vs, rest);
    case Map(vs) =>
      RoundTripAll(vs, rest);
      MapParses(vs, rest);
    case Str(_) => TextParses(v, rest);
    case Bin(_) => TextParses(v, rest);
    case _ => ScalarParses(v, rest);
  }

  lemma ScalarParses(v: Value, rest: Bytes)
    requires Encodable(v) && (v.Nil? || v.Bool? || v.UInt? || v.NegInt?)
    ensures Parse(Encode(v) + rest) == Frame(v, |Encode(v)|)
  {
    if v.UInt? || v.NegInt? { NumberParses(v, rest); }
  }

  lemma NumberParses(v: Value, rest: Bytes)
    requires Encodable(v) && (v.UInt? || v.NegInt?)
    ensures Parse(Encode(v) + rest) == Frame(v, |Encode(v)|)
  {
    hide ParseHead, UIntBytes, NegIntBytes;
    if v.UInt? { UIntParses(v.n, rest); } else { NegIntParses(v.neg, rest); }
  }

  lemma TextParses(v: Value, rest: Bytes)
    requires Encodable(v) && (v.Str? || v.Bin?)
    ensures Parse(Encode(v) + rest) == Frame(v, |Encode(v)|)
  {
    hide ParseHead, StrHead, BinHead;
    var s := if v.Str? then v.s else v.bytes;
    var head := if v.Str? then StrHead(|s|) else BinHead(|s|);
    assert Encode(v) == head + s;
    assert head + s + rest == head + (s + rest);
    if v.Str? { StrHeadParses(|s|, s + rest); } else { BinHeadParses(|s|, s + rest); }
  }

  lemma ArrParses(vs: seq<Value>, rest: Bytes)
    requires Encodable(Arr(vs)) && ParseItems(|vs|, EncodeAll(vs) + rest) == Frame(vs, |EncodeAll(vs)|)
    ensures Parse(Encode(Arr(vs)) + rest) == Frame(Arr(vs), |Encode(Arr(vs))|)
  {
    var head := ArrHead(|vs|);
    var tail := EncodeAll(vs) + rest;
    assert Encode(Arr(vs)) + rest == head + tail;
    ArrHeadParses(|vs|, tail);
    assert (head + tail)[|head|..] == tail;
  }

  lemma MapParses(vs: seq<Value>, rest: Bytes)
    requires Encodable(Map(vs)) && ParseItems(|vs|, EncodeAll(vs) + rest) == Frame(vs, |EncodeAll(vs)|)
    ensures Parse(Encode(Map(vs)) + rest) == Frame(Map(vs), |Encode(Map(vs))|)
  {
    var head := MapHead(|vs| / 2);
    var tail := EncodeAll(vs) + rest;
    assert Encode(Map(vs)) + rest == head + tail;
    MapHeadParses(|vs| / 2, tail);
    assert 2 * (|vs| / 2) == |vs|;
    assert (head + tail)[|head|..] == tail;
  }

  lemma {:induction false} RoundTripAll(vs: seq<Value>, rest: Bytes)
    requires forall w :: w in vs ==> Encodable(w)
    ensures ParseItems(|vs|, EncodeAll(vs) + rest) == Frame(vs, |EncodeAll(vs)|)
    decreases vs
  {
    hide Parse, Encode;
    if vs != [] {
      var tail := EncodeAll(vs[1..]) + rest;
      assert EncodeAll(vs) + rest == Encode(vs[0]) + tail;
      RoundTrip(vs[0], tail);
      assert (Encode(vs[0]) + tail)[|Encode(vs[0])|..] == tail;
      RoundTripAll(vs[1..], rest);
      assert [vs[0]] + vs[1..] == vs;
    }
  }

  /** A proper prefix of an encoded value is never taken for a frame or an error. */
  lemma ProperPrefixIncomplete(v: Value, n: nat)
    requires Encodable(v) && n < |Encode(v)|
    ensures Parse(Encode(v)[..n]).Incomplete?
  {
    var b := Encode(v)[..n];
    assert b + Encode(v)[n..] == Encode(v) && Encode(v) + [] == Encode(v);
    RoundTrip(v, []);
    ParseStable(b, Encode(v)[n..]);
  }
}
