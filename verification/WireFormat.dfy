/**
 * The encoder against the MessagePack specification (section "Formats"), byte by
 * byte, and the stream notifications as bytes. Numbers are spelled out digit by
 * digit here and not with the encoder's own functions.
 */
module WireFormat {
  import opened Common
  import opened Framing
  import opened MessagePack
  import opened StreamMessages

  /** Two, four and eight bytes, the most significant first. */
  function Two(n: nat): Bytes
    requires n < 0x1_0000
  {
    [n / 0x100, n % 0x100]
  }

  function Four(n: nat): Bytes
    requires n < 0x1_0000_0000
  {
    Two(n / 0x1_0000) + Two(n % 0x1_0000)
  }

  function Eight(n: nat): Bytes
    requires n < 0x1_0000_0000_0000_0000
  {
    Four(n / 0x1_0000_0000) + Four(n % 0x1_0000_0000)
  }

  lemma ToBE1(n: nat)
    ensures ToBE(n, 1) == [n % 0x100]
  {
    assert ToBE(n / 0x100, 0) == [];
  }

  lemma ToBE2(n: nat)
    ensures ToBE(n, 2) == Two(n % 0x1_0000)
  {
    ToBE1(n / 0x100);
    assert ToBE(n, 2) == ToBE(n / 0x100, 1) + [n % 0x100];
    assert n / 0x100 % 0x100 == n % 0x1_0000 / 0x100;
  }

  /** `n` without its `k` lowest bytes. */
  function Above(n: nat, k: nat): nat {
    Quotient(n, Range(k))
  }

  function Quotient(n: nat, d: nat): nat
    requires d > 0
  {
    n / d
  }

  lemma {:induction false} ToBESplits(n: nat, j: nat, k: nat)
    ensures ToBE(n, j + k) == ToBE(Above(n, k), j) + ToBE(n, k)
  {
    if k == 0 {
      assert ToBE(n, k) == [] && Above(n, 0) == n;
    } else {
      ToBESplits(n / 0x100, j, k - 1);
      AboveTwice(n, k);
      assert ToBE(n, j + k) == ToBE(n / 0x100, j + k - 1) + [n % 0x100];
      assert ToBE(n, k) == ToBE(n / 0x100, k - 1) + [n % 0x100];
    }
  }

  lemma AboveTwice(n: nat, k: nat)
    requires k > 0
    ensures Above(n / 0x100, k - 1) == Above(n, k)
  {
    DivTwice(n, Range(k - 1));
  }

  lemma DivTwice(n: nat, d: nat)
    requires d > 0
    ensures Quotient(n / 0x100, d) == Quotient(n, 0x100 * d)
  {
    var q, r := n / 0x100 / d, n / 0x100 % d;
    assert n / 0x100 == q * d + r;
    var low := 0x100 * r + n % 0x100;
    assert n == 0x100 * (q * d + r) + n % 0x100 == q * (0x100 * d) + low;
    assert 0 <= low < 0x100 * d;
    DivUnique(n, 0x100 * d, q, low);
  }

  lemma DivUnique(n: nat, d: nat, q: nat, r: nat)
    requires d > 0 && n == q * d + r && r < d
    ensures n / d == q
  {
    var q', r' := n / d, n % d;
    assert n == q' * d + r';
    assert (q - q') * d == r' - r && (q' - q) * d == r - r';
    if q > q' { AtLeastOne(q - q', d); }
    if q' > q { AtLeastOne(q' - q, d); }
  }

  lemma AtLeastOne(a: int, d: nat)
    requires a >= 1
    ensures a * d >= d
  {
  }

  lemma HalvesOfFour(n: nat)
    ensures n / 0x1_0000 % 0x1_0000 == n % 0x1_0000_0000 / 0x1_0000
    ensures n % 0x1_0000 == n % 0x1_0000_0000 % 0x1_0000
  {
  }

  lemma HalvesOfEight(n: nat)
    ensures n / 0x1_0000_0000 % 0x1_0000_0000 == n % 0x1_0000_0000_0000_0000 / 0x1_0000_0000
    ensures n % 0x1_0000_0000 == n % 0x1_0000_0000_0000_0000 % 0x1_0000_0000
  {
    var high, low := n / 0x1_0000_0000, n % 0x1_0000_0000;
    var top, mid := high / 0x1_0000_0000, high % 0x1_0000_0000;
    var rest := mid * 0x1_0000_0000 + low;
    assert n == top * 0x1_0000_0000_0000_0000 + rest && rest < 0x1_0000_0000_0000_0000;
    assert n % 0x1_0000_0000_0000_0000 == rest;
  }

  lemma ToBE4(n: nat)
    ensures ToBE(n, 4) == Four(n % 0x1_0000_0000)
  {
    hide ToBE, Two, Range;
    Ranges();
    ToBESplits(n, 2, 2);
    ToBE2(n / 0x1_0000);
    ToBE2(n);
    HalvesOfFour(n);
  }

  lemma ToBE8(n: nat)
    ensures ToBE(n, 8) == Eight(n % 0x1_0000_0000_0000_0000)
  {
    hide ToBE, Four, Range;
    Ranges();
    ToBESplits(n, 4, 4);
    ToBE4(n / 0x1_0000_0000);
    ToBE4(n);
    HalvesOfEight(n);
  }

  lemma Digits(n: nat)
    ensures n < 0x100 ==> ToBE(n, 1) == [n]
    ensures n < 0x1_0000 ==> ToBE(n, 2) == Two(n)
    ensures n < 0x1_0000_0000 ==> ToBE(n, 4) == Four(n)
    ensures n < 0x1_0000_0000_0000_0000 ==> ToBE(n, 8) == Eight(n)
  {
    ToBE1(n);
    ToBE2(n);
    ToBE4(n);
    ToBE8(n);
    hide ToBE, Two, Four, Eight;
  }

  /** What starts a string, a binary, an array or a map of `n` bytes, items or pairs. */
  lemma HeadsAsSpecified(n: nat)
    requires n < 0x1_0000_0000
    ensures StrHead(n) ==
              if n <= 31 then [0xa0 + n]
              else if n <= 255 then [0xd9, n]
              else if n <= 65535 then [0xda] + Two(n) else [0xdb] + Four(n)
    ensures BinHead(n) ==
              if n <= 255 then [0xc4, n]
              else if n <= 65535 then [0xc5] + Two(n) else [0xc6] + Four(n)
    ensures ArrHead(n) ==
              if n <= 15 then [0x90 + n]
              else if n <= 65535 then [0xdc] + Two(n) else [0xdd] + Four(n)
    ensures MapHead(n) ==
              if n <= 15 then [0x80 + n]
              else if n <= 65535 then [0xde] + Two(n) else [0xdf] + Four(n)
  {
    Digits(n);
    hide ToBE, Two, Four, Eight;
  }

  /** Numbers take the shortest form; negative ones are in two's complement. */
  lemma NumbersAsSpecified(n: int)
    ensures 0 <= n < 0x1_0000_0000_0000_0000 ==>
              UIntBytes(n) ==
                if n <= 127 then [n]
                else if n <= 255 then [0xcc, n]
                else if n <= 65535 then [0xcd] + Two(n)
                else if n <= 0xffff_ffff then [0xce] + Four(n) else [0xcf] + Eight(n)
    ensures -0x8000_0000_0000_0000 <= n < 0 ==>
              NegIntBytes(n) ==
                if n >= -32 then [256 + n]
                else if n >= -128 then [0xd0, 256 + n]
                else if n >= -32768 then [0xd1] + Two(65536 + n)
                else if n >= -0x8000_0000 then [0xd2] + Four(0x1_0000_0000 + n)
                else [0xd3] + Eight(0x1_0000_0000_0000_0000 + n)
  {
    if 0 <= n {
      Digits(n);
    } else if -0x8000_0000_0000_0000 <= n {
      Digits(if n >= -128 then 256 + n else if n >= -32768 then 65536 + n
             else if n >= -0x8000_0000 then 0x1_0000_0000 + n else 0x1_0000_0000_0000_0000 + n);
    }
    hide ToBE, Two, Four, Eight;
  }

  /** The markers the parser does not take: the unused one, floats and extension types. */
  lemma RejectsExactly(b: Bytes)
    ensures ParseHead(b).BadHead? <==>
              b != [] && (b[0] == 0xc1 || 0xc7 <= b[0] <= 0xcb || 0xd4 <= b[0] <= 0xd8)
  {
  }

  // ---- the notifications ------------------------------------------------------------

  lemma EncodesCons(v: Value, vs: seq<Value>)
    requires Encodable(v) && forall w :: w in vs ==> Encodable(w)
    ensures forall w :: w in [v] + vs ==> Encodable(w)
    ensures EncodeAll([v] + vs) == Encode(v) + EncodeAll(vs)
  {
    hide Encodable, Encode;
    assert ([v] + vs)[0] == v && ([v] + vs)[1..] == vs;
  }

  lemma EncodesTwo(u: Value, v: Value)
    requires Encodable(u) && Encodable(v)
    ensures EncodeAll([u, v]) == Encode(u) + Encode(v)
  {
    hide Encodable, Encode;
    EncodesCons(v, []);
    EncodesCons(u, [v]);
    assert [u] + [v] == [u, v] && [v] + [] == [v];
    NoItems();
    assert Encode(v) + [] == Encode(v);
  }

  lemma NoItems()
    ensures EncodeAll([]) == []
  {
  }

  /** A short string: its length and its characters. */
  function Text(s: string): Bytes
    requires |s| < 32
  {
    [0xa0 + |s|] + Ascii(s)
  }

  lemma ShortText(s: string)
    requires |s| < 32
    ensures Encodable(Str(Ascii(s))) && Encode(Str(Ascii(s))) == Text(s)
  {
  }

  lemma EncodesMap(pairs: seq<Value>)
    requires Encodable(Map(pairs)) && |pairs| < 32
    ensures Encode(Map(pairs)) == [0x80 + |pairs| / 2] + EncodeAll(pairs)
  {
  }

  lemma EncodableMap(pairs: seq<Value>)
    requires |pairs| % 2 == 0 && |pairs| < 32 && forall w :: w in pairs ==> Encodable(w)
    ensures Encodable(Map(pairs))
  {
  }

  /** A map of one pair, and of two, with short names. */
  lemma OnePair(name: string, v: Value)
    requires |name| < 32 && Encodable(v)
    ensures Encodable(Map([Str(Ascii(name)), v]))
    ensures Encode(Map([Str(Ascii(name)), v])) == [0x81] + (Text(name) + Encode(v))
  {
    hide Encode, Ascii, Encodable, Text;
    var pairs := [Str(Ascii(name)), v];
    ShortText(name);
    EncodesTwo(Str(Ascii(name)), v);
    EncodableMap(pairs);
    EncodesMap(pairs);
  }

  lemma TwoPairs(a: string, u: Value, b: string, v: Value)
    requires |a| < 32 && |b| < 32 && Encodable(u) && Encodable(v)
    ensures Encodable(Map([Str(Ascii(a)), u, Str(Ascii(b)), v]))
    ensures Encode(Map([Str(Ascii(a)), u, Str(Ascii(b)), v])) ==
              [0x82] + (Text(a) + (Encode(u) + (Text(b) + Encode(v))))
  {
    hide Encode, Ascii, Encodable, Text;
    var two := [Str(Ascii(b)), v];
    ShortText(a);
    ShortText(b);
    EncodesTwo(Str(Ascii(b)), v);
    EncodesCons(u, two);
    EncodesCons(Str(Ascii(a)), [u] + two);
    var pairs := [Str(Ascii(a)), u, Str(Ascii(b)), v];
    assert [Str(Ascii(a))] + ([u] + two) == pairs;
    EncodableMap(pairs);
    EncodesMap(pairs);
  }

  /** A notification: a map of `id`, which is nil, `method` and `params`. */
  function Envelope(name: string, params: Bytes): Bytes
    requires |name| < 32
  {
    [0x83] + (Text("id") + ([0xc0] + (Text("method") + (Text(name) + (Text("params") + params)))))
  }

  lemma NotificationBytes(name: string, params: Value)
    requires |name| < 32 && Encodable(params)
    ensures Encodable(Notification(Ascii(name), params))
    ensures Encode(Notification(Ascii(name), params)) == Envelope(name, Encode(params))
  {
    hide Encode, Ascii, Encodable, Text;
    ShortText(name);
    ShortText("id");
    ShortText("method");
    ShortText("params");
    NilByte();
    var two := [Str(PARAMS), params];
    EncodesTwo(Str(PARAMS), params);
    EncodesCons(Str(Ascii(name)), two);
    EncodesCons(Str(METHOD), [Str(Ascii(name))] + two);
    EncodesCons(Nil, [Str(METHOD)] + ([Str(Ascii(name))] + two));
    EncodesCons(Str(ID), [Nil] + ([Str(METHOD)] + ([Str(Ascii(name))] + two)));
    var pairs := Notification(Ascii(name), params).pairs;
    assert [Str(ID)] + ([Nil] + ([Str(METHOD)] + ([Str(Ascii(name))] + two))) == pairs;
    EncodableMap(pairs);
    EncodesMap(pairs);
  }

  lemma NilByte()
    ensures Encodable(Nil) && Encode(Nil) == [0xc0]
  {
  }

  /** The ids of an announcement, one after the other. */
  function Ids(ids: seq<u32>): Bytes {
    if ids == [] then [] else UIntBytes(ids[0]) + Ids(ids[1..])
  }

  lemma {:induction false} EncodesIds(ids: seq<u32>)
    ensures forall w :: w in UInts(ids) ==> Encodable(w)
    ensures EncodeAll(UInts(ids)) == Ids(ids)
  {
    if ids == [] {
      NoItems();
    } else {
      EncodesIds(ids[1..]);
      EncodesUInt(ids[0]);
      hide Encode, Encodable, UIntBytes;
      EncodesCons(UInt(ids[0]), UInts(ids[1..]));
    }
  }

  lemma EncodesUInt(n: u32)
    ensures Encodable(UInt(n)) && Encode(UInt(n)) == UIntBytes(n)
  {
  }

  lemma EncodesBin(segment: Bytes)
    requires |segment| <= 4096
    ensures Encodable(Bin(segment)) && Encode(Bin(segment)) == BinHead(|segment|) + segment
  {
  }

  lemma EncodesArr(ids: seq<u32>)
    requires |ids| < 0x1_0000_0000
    ensures Encodable(Arr(UInts(ids))) && Encode(Arr(UInts(ids))) == ArrHead(|ids|) + Ids(ids)
  {
    EncodesIds(ids);
  }

  /** The stream notifications, byte by byte: names, order of the fields, and the form of each value. */
  lemma NotificationsAsBytes(m: Msg)
    requires Sendable(m)
    ensures m.Started? ==>
              Bytes1(m) == Envelope("streams_started",
                [0x82] + (Text("for_request_id") + (UIntBytes(m.req) + (Text("stream_ids") + (ArrHead(|m.ids|) + Ids(m.ids))))))
    ensures m.Data? ==>
              Bytes1(m) == Envelope("stream_data",
                [0x82] + (Text("segment") + (BinHead(|m.segment|) + m.segment + (Text("stream") + UIntBytes(m.id)))))
    ensures m.Ended? ==>
              Bytes1(m) == Envelope("stream_ended", [0x81] + (Text("stream") + UIntBytes(m.id)))
  {
    hide Encode, Encodable, Ascii, Text, Envelope, UIntBytes, ArrHead, BinHead, Notification;
    match m
    case Started(req, ids) =>
      EncodesUInt(req);
      EncodesArr(ids);
      TwoPairs("for_request_id", UInt(req), "stream_ids", Arr(UInts(ids)));
      NotificationBytes("streams_started", Map([Str(FOR_REQUEST_ID), UInt(req), Str(STREAM_IDS), Arr(UInts(ids))]));
    case Data(id, segment) =>
      EncodesUInt(id);
      EncodesBin(segment);
      TwoPairs("segment", Bin(segment), "stream", UInt(id));
      NotificationBytes("stream_data", Map([Str(SEGMENT), Bin(segment), Str(STREAM), UInt(id)]));
    case Ended(id) =>
      EncodesUInt(id);
      OnePair("stream", UInt(id));
      NotificationBytes("stream_ended", Map([Str(STREAM), UInt(id)]));
    case Other(_) =>
  }
}
