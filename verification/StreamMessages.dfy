/**
 * The three stream notifications and how they look on the wire: a request
 * without an id, as a MessagePack map.
 */
module StreamMessages {
  import opened Common
  import opened MessagePack
  import opened Framing

  datatype Msg =
    | Started(req: u32, ids: seq<u32>)
    | Data(id: u32, segment: Bytes)
    | Ended(id: u32)
    | Other(v: Value)

  function Ascii(s: string): (b: Bytes)
    ensures |b| == |s|
    ensures forall i :: 0 <= i < |s| && s[i] < 128 as char ==> b[i] == s[i] as int
  {
    seq(|s|, i requires 0 <= i < |s| => if s[i] < 128 as char then s[i] as int else 63)
  }

  const ID := Ascii("id")
  const METHOD := Ascii("method")
  const PARAMS := Ascii("params")
  const STREAMS_STARTED := Ascii("streams_started")
  const STREAM_DATA := Ascii("stream_data")
  const STREAM_ENDED := Ascii("stream_ended")
  const FOR_REQUEST_ID := Ascii("for_request_id")
  const STREAM_IDS := Ascii("stream_ids")
  const SEGMENT := Ascii("segment")
  const STREAM := Ascii("stream")

  /** A `FullRequest` whose id is None. */
  function Notification(method_: Bytes, params: Value): Value {
    Map([Str(ID), Nil, Str(METHOD), Str(method_), Str(PARAMS), params])
  }

  function UInts(ids: seq<u32>): (vs: seq<Value>)
    ensures |vs| == |ids|
  {
    if ids == [] then [] else [UInt(ids[0])] + UInts(ids[1..])
  }

  function ToValue(m: Msg): Value {
    match m
    case Started(req, ids) =>
      Notification(STREAMS_STARTED, Map([Str(FOR_REQUEST_ID), UInt(req), Str(STREAM_IDS), Arr(UInts(ids))]))
    case Data(id, segment) =>
      Notification(STREAM_DATA, Map([Str(SEGMENT), Bin(segment), Str(STREAM), UInt(id)]))
    case Ended(id) =>
      Notification(STREAM_ENDED, Map([Str(STREAM), UInt(id)]))
    case Other(v) => v
  }

  /** The value of a named field, as a derived deserialiser picks it. */
  function Field(v: Value, name: Bytes): Option<Value> {
    if v.Map? then Lookup(v.pairs, name) else None
  }

  function Lookup(pairs: seq<Value>, name: Bytes): Option<Value> {
    if |pairs| < 2 then None
    else if pairs[0] == Str(name) then Some(pairs[1])
    else Lookup(pairs[2..], name)
  }

  function ToIds(vs: seq<Value>): Option<seq<u32>> {
    if vs == [] then Some([])
    else
      match (vs[0], ToIds(vs[1..]))
      case (UInt(n), Some(rest)) => if n < 0x1_0000_0000 then Some([n] + rest) else None
      case _ => None
  }

  /** What a received value means to the stream layer. */
  function Understand(v: Value): Msg {
    match (Field(v, METHOD), Field(v, PARAMS))
    case (Some(Str(name)), Some(params)) =>
      if name == STREAM_DATA then
        match (Field(params, SEGMENT), Field(params, STREAM))
        case (Some(Bin(segment)), Some(UInt(id))) =>
          if id < 0x1_0000_0000 then Data(id, segment) else Other(v)
        case _ => Other(v)
      else if name == STREAM_ENDED then
        match Field(params, STREAM)
        case Some(UInt(id)) => if id < 0x1_0000_0000 then Ended(id) else Other(v)
        case _ => Other(v)
      else if name == STREAMS_STARTED then
        match (Field(params, FOR_REQUEST_ID), Field(params, STREAM_IDS))
        case (Some(UInt(req)), Some(Arr(vs))) =>
          if req < 0x1_0000_0000 && ToIds(vs).Some? then Started(req, ToIds(vs).value) else Other(v)
        case _ => Other(v)
      else Other(v)
    case _ => Other(v)
  }

  /** Messages as the senders make them; `Other` is any message that is not a stream notification. */
  predicate Sendable(m: Msg) {
    match m
    case Started(_, ids) => |ids| < 0x1_0000_0000
    case Data(_, segment) => |segment| <= 4096
    case Ended(_) => true
    case Other(v) => Encodable(v) && Understand(v) == m
  }

  lemma NamesDiffer()
    ensures ID != METHOD && ID != PARAMS && METHOD != PARAMS
    ensures FOR_REQUEST_ID != STREAM_IDS && SEGMENT != STREAM
    ensures STREAM_DATA != STREAM_ENDED && STREAM_DATA != STREAMS_STARTED && STREAM_ENDED != STREAMS_STARTED
  {
    assert METHOD[0] == 'm' as int && PARAMS[0] == 'p' as int;
  }

  lemma {:induction false} IdsRoundTrip(ids: seq<u32>)
    ensures ToIds(UInts(ids)) == Some(ids)
    ensures forall w :: w in UInts(ids) ==> Encodable(w)
  {
    if ids != [] {
      IdsRoundTrip(ids[1..]);
      assert UInts(ids)[1..] == UInts(ids[1..]);
      assert [ids[0]] + ids[1..] == ids;
    }
  }

  lemma FieldsOfNotification(name: Bytes, params: Value)
    ensures var v := Notification(name, params);
            Field(v, METHOD) == Some(Str(name)) && Field(v, PARAMS) == Some(params)
  {
    NamesDiffer();
    var ps := Notification(name, params).pairs;
    assert ps[2..] == [Str(METHOD), Str(name), Str(PARAMS), params];
    assert ps[2..][2..] == [Str(PARAMS), params];
    assert Lookup(ps, METHOD) == Lookup(ps[2..], METHOD);
    assert Lookup(ps, PARAMS) == Lookup(ps[2..], PARAMS) == Lookup(ps[2..][2..], PARAMS);
  }

  lemma FieldsOfPair(k1: Bytes, v1: Value, k2: Bytes, v2: Value)
    requires k1 != k2
    ensures var v := Map([Str(k1), v1, Str(k2), v2]);
            Field(v, k1) == Some(v1) && Field(v, k2) == Some(v2)
  {
    var ps := [Str(k1), v1, Str(k2), v2];
    assert ps[2..] == [Str(k2), v2];
    assert Lookup(ps, k2) == Lookup(ps[2..], k2);
  }

  /** The receiver understands what the sender meant. */
  lemma Understood(m: Msg)
    requires Sendable(m)
    ensures Understand(ToValue(m)) == m
  {
    NamesDiffer();
    match m
    case Started(req, ids) =>
      IdsRoundTrip(ids);
      FieldsOfPair(FOR_REQUEST_ID, UInt(req), STREAM_IDS, Arr(UInts(ids)));
      FieldsOfNotification(STREAMS_STARTED, Map([Str(FOR_REQUEST_ID), UInt(req), Str(STREAM_IDS), Arr(UInts(ids))]));
    case Data(id, segment) =>
      FieldsOfPair(SEGMENT, Bin(segment), STREAM, UInt(id));
      FieldsOfNotification(STREAM_DATA, Map([Str(SEGMENT), Bin(segment), Str(STREAM), UInt(id)]));
    case Ended(id) =>
      FieldsOfNotification(STREAM_ENDED, Map([Str(STREAM), UInt(id)]));
    case Other(_) =>
  }

  lemma NotificationEncodable(name: Bytes, params: Value)
    requires |name| < 0x1_0000_0000 && Encodable(params)
    ensures Encodable(Notification(name, params))
  {
    forall w | w in Notification(name, params).pairs ensures Encodable(w) {
    }
  }

  lemma SendableEncodable(m: Msg)
    requires Sendable(m)
    ensures Encodable(ToValue(m))
  {
    match m
    case Started(req, ids) =>
      IdsRoundTrip(ids);
      NotificationEncodable(STREAMS_STARTED, Map([Str(FOR_REQUEST_ID), UInt(req), Str(STREAM_IDS), Arr(UInts(ids))]));
    case Data(id, segment) =>
      NotificationEncodable(STREAM_DATA, Map([Str(SEGMENT), Bin(segment), Str(STREAM), UInt(id)]));
    case Ended(id) =>
      NotificationEncodable(STREAM_ENDED, Map([Str(STREAM), UInt(id)]));
    case Other(_) =>
  }

  /** The bytes of one message. */
  function Bytes1(m: Msg): Bytes
    requires Sendable(m)
  {
    SendableEncodable(m);
    Encode(ToValue(m))
  }

  lemma Bytes1NotEmpty(m: Msg)
    requires Sendable(m)
    ensures Bytes1(m) != []
  {
    SendableEncodable(m);
    RoundTrip(ToValue(m), []);
    assert Encode(ToValue(m)) + [] == Encode(ToValue(m));
    HeadNotEmpty();
  }

  lemma HeadNotEmpty()
    ensures Parse([]).Incomplete?
  {
  }

  /** The bytes of a sequence of messages, one after the other. */
  function Wire(ms: seq<Msg>): Bytes
    requires forall m :: m in ms ==> Sendable(m)
  {
    if ms == [] then [] else Bytes1(ms[0]) + Wire(ms[1..])
  }

  lemma {:induction false} WireSnoc(ms: seq<Msg>, m: Msg)
    requires Sendable(m) && forall k :: k in ms ==> Sendable(k)
    ensures Wire(ms + [m]) == Wire(ms) + Bytes1(m)
  {
    hide Bytes1, Sendable;
    if ms == [] {
      assert [m][1..] == [];
    } else {
      assert (ms + [m])[0] == ms[0] && (ms + [m])[1..] == ms[1..] + [m];
      WireSnoc(ms[1..], m);
    }
  }

  /** A message that is there in full is taken off. */
  lemma CompleteParses(buf: Bytes, rest: Bytes, m: Msg, later: Bytes)
    requires Sendable(m) && buf + rest == Bytes1(m) + later && |Bytes1(m)| <= |buf|
    ensures Parse(buf).Frame?
  {
    SendableEncodable(m);
    hide Parse, Encode, Encodable, Sendable;
    var front := Bytes1(m);
    SameFront(buf, rest, front, later);
    RoundTrip(ToValue(m), buf[|front|..]);
  }

  lemma SameFront(buf: Bytes, rest: Bytes, front: Bytes, later: Bytes)
    requires buf + rest == front + later && |front| <= |buf|
    ensures buf == front + buf[|front|..]
  {
    assert forall i :: 0 <= i < |front| ==> buf[i] == (buf + rest)[i] == (front + later)[i] == front[i];
  }

  lemma FirstParses(buf: Bytes, rest: Bytes, m: Msg, later: Bytes)
    requires Sendable(m) && buf + rest == Bytes1(m) + later
    ensures !Parse(buf).Invalid?
    ensures Parse(buf).Frame? ==>
              && Understand(Parse(buf).value) == m
              && Parse(buf).len <= |buf| && buf[Parse(buf).len..] + rest == later
    ensures Parse(buf).Incomplete? ==> |buf| < |Bytes1(m)|
  {
    SendableEncodable(m);
    hide Parse, Encode, Encodable, Sendable, Understand, ToValue;
    ParseStable(buf, rest);
    RoundTrip(ToValue(m), later);
    Understood(m);
    if |Bytes1(m)| <= |buf| { CompleteParses(buf, rest, m, later); }
    if Parse(buf).Frame? { CutFront(buf, rest, Bytes1(m), later); }
  }

  lemma CutFront(buf: Bytes, rest: Bytes, front: Bytes, later: Bytes)
    requires buf + rest == front + later && |front| <= |buf|
    ensures buf[|front|..] + rest == later
  {
    assert (buf + rest)[|front|..] == buf[|front|..] + rest;
    assert (front + later)[|front|..] == later;
  }

  /**
   * When part of what was sent has arrived, the decoder takes off the first
   * message sent or asks for more; it never fails, and it asks for more only
   * when the first message is not there in full.
   */
  lemma WireParses(buf: Bytes, rest: Bytes, ms: seq<Msg>)
    requires forall m :: m in ms ==> Sendable(m)
    requires buf + rest == Wire(ms)
    ensures !Parse(buf).Invalid?
    ensures Parse(buf).Frame? ==>
              && ms != []
              && Understand(Parse(buf).value) == ms[0]
              && buf[Parse(buf).len..] + rest == Wire(ms[1..])
    ensures Parse(buf).Incomplete? && ms != [] ==> |buf| < |Bytes1(ms[0])|
    ensures Parse(buf).Incomplete? && rest == [] ==> ms == []
  {
    HeadNotEmpty();
    hide Parse, Understand, Bytes1, Sendable;
    if ms == [] {
      assert buf == [] && rest == [];
    } else {
      FirstParses(buf, rest, ms[0], Wire(ms[1..]));
      if rest == [] { assert buf + rest == buf; }
    }
  }
}
