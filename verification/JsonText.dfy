/**
 * Reading JSON text: what structure a text has, apart from how it came about.
 * Scalars are kept as they are spelled.
 */
module JsonText {
  import opened Common

  datatype Json = Scalar(text: string) | List(items: seq<Json>) | Record(members: seq<Member>)

  datatype Member = Member(key: string, value: Json)

  datatype Reading<+T> = Failed | Got(value: T, rest: string)

  predicate Delimiter(c: char) {
    c == ',' || c == ']' || c == '}'
  }

  /** Where the string literal ends whose opening quote has been read; an escaped character does not end it. */
  function StringEnd(s: string): (end: Option<nat>)
    ensures end.Some? ==> 0 < end.value <= |s|
  {
    if s == "" then None
    else if s[0] == '"' then Some(1)
    else
      var step := if s[0] == '\\' then 2 else 1;
      if |s| < step then None
      else
        match StringEnd(s[step..])
        case None => None
        case Some(n) => Some(n + step)
  }

  /** Where a number or a literal name ends. */
  function BareEnd(s: string): (end: nat)
    ensures end <= |s|
  {
    if s == "" || Delimiter(s[0]) then 0 else 1 + BareEnd(s[1..])
  }

  function ReadValue(s: string): (r: Reading<Json>)
    ensures r.Got? ==> |r.rest| < |s|
    decreases |s|, 0
  {
    if s == "" then Failed
    else if s[0] == '[' then
      if |s| > 1 && s[1] == ']' then Got(List([]), s[2..])
      else
        match ReadItems(s[1..])
        case Failed => Failed
        case Got(items, rest) => Got(List(items), rest)
    else if s[0] == '{' then
      if |s| > 1 && s[1] == '}' then Got(Record([]), s[2..])
      else
        match ReadMembers(s[1..])
        case Failed => Failed
        case Got(members, rest) => Got(Record(members), rest)
    else if s[0] == '"' then
      match StringEnd(s[1..])
      case None => Failed
      case Some(n) => Got(Scalar(s[..n + 1]), s[n + 1..])
    else
      var n := BareEnd(s);
      if n == 0 then Failed else Got(Scalar(s[..n]), s[n..])
  }

  /** One or more values with commas between them, up to the closing bracket. */
  function ReadItems(s: string): (r: Reading<seq<Json>>)
    ensures r.Got? ==> |r.rest| < |s|
    decreases |s|, 1
  {
    match ReadValue(s)
    case Failed => Failed
    case Got(v, rest) =>
      if rest == "" then Failed
      else if rest[0] == ']' then Got([v], rest[1..])
      else if rest[0] == ',' then
        match ReadItems(rest[1..])
        case Failed => Failed
        case Got(vs, end) => Got([v] + vs, end)
      else Failed
  }

  /** One or more members with commas between them, up to the closing brace. */
  function ReadMembers(s: string): (r: Reading<seq<Member>>)
    ensures r.Got? ==> |r.rest| < |s|
    decreases |s|, 1
  {
    match ReadMember(s)
    case Failed => Failed
    case Got(m, rest) =>
      if rest == "" then Failed
      else if rest[0] == '}' then Got([m], rest[1..])
      else if rest[0] == ',' then
        match ReadMembers(rest[1..])
        case Failed => Failed
        case Got(ms, end) => Got([m] + ms, end)
      else Failed
  }

  function ReadMember(s: string): (r: Reading<Member>)
    ensures r.Got? ==> |r.rest| < |s|
    decreases |s|, 0
  {
    if s == "" || s[0] != '"' then Failed
    else
      match StringEnd(s[1..])
      case None => Failed
      case Some(n) =>
        if |s| == n + 1 || s[n + 1] != ':' then Failed
        else
          match ReadValue(s[n + 2..])
          case Failed => Failed
          case Got(v, rest) => Got(Member(s[1..n], v), rest)
  }

  // ----- spellings -----

  /** A string literal, a number or a literal name. */
  predicate ScalarText(text: string) {
    && text != ""
    && if text[0] == '"' then StringEnd(text[1..]) == Some(|text| - 1)
       else text[0] != '[' && text[0] != '{' && forall i :: 0 <= i < |text| ==> !Delimiter(text[i])
  }

  /** A key that needs no escapes. */
  predicate PlainKey(key: string) {
    forall i :: 0 <= i < |key| ==> key[i] != '"' && key[i] != '\\'
  }

  predicate Ends(rest: string) {
    rest == "" || Delimiter(rest[0])
  }

  lemma {:induction false} StringEndThere(s: string, more: string)
    requires StringEnd(s).Some?
    ensures StringEnd(s + more) == StringEnd(s)
  {
    if s[0] != '"' {
      var step := if s[0] == '\\' then 2 else 1;
      assert (s + more)[step..] == s[step..] + more;
      StringEndThere(s[step..], more);
    }
  }

  lemma {:induction false} KeyEnds(key: string, more: string)
    requires PlainKey(key)
    ensures StringEnd(key + "\"" + more) == Some(|key| + 1)
  {
    var s := key + "\"" + more;
    if key == "" {
      assert s[0] == '"';
    } else {
      assert s[0] == key[0] && s[1..] == key[1..] + "\"" + more;
      KeyEnds(key[1..], more);
    }
  }

  lemma {:induction false} BareEnds(text: string, rest: string)
    requires forall i :: 0 <= i < |text| ==> !Delimiter(text[i])
    requires Ends(rest)
    ensures BareEnd(text + rest) == |text|
  {
    if text == "" {
      assert text + rest == rest;
    } else {
      assert (text + rest)[0] == text[0] && (text + rest)[1..] == text[1..] + rest;
      BareEnds(text[1..], rest);
    }
  }

  lemma ScalarReads(text: string, rest: string)
    requires ScalarText(text) && Ends(rest)
    ensures ReadValue(text + rest) == Got(Scalar(text), rest)
  {
    var s := text + rest;
    assert s[0] == text[0];
    if text[0] == '"' {
      assert s[1..] == text[1..] + rest;
      StringEndThere(text[1..], rest);
    } else {
      BareEnds(text, rest);
    }
    assert s[..|text|] == text && s[|text|..] == rest;
  }

  lemma MemberReads(key: string, text: string, v: Json, rest: string)
    requires PlainKey(key) && ReadValue(text + rest) == Got(v, rest)
    ensures ReadMember("\"" + key + "\":" + text + rest) == Got(Member(key, v), rest)
  {
    var tail := text + rest;
    MemberParts(key, text, rest);
    KeyEnds(key, ":" + tail);
    hide ReadValue, StringEnd, PlainKey;
  }

  lemma MemberParts(key: string, text: string, rest: string)
    ensures var s, n, tail := "\"" + key + "\":" + text + rest, |key| + 1, text + rest;
            && |s| == n + 2 + |tail| && s[0] == '"' && s[1..] == key + "\"" + (":" + tail)
            && s[n + 1] == ':' && s[n + 2..] == tail && s[1..n] == key
  {
    var s, n, tail := "\"" + key + "\":" + text + rest, |key| + 1, text + rest;
    assert s == ("\"" + key + "\":") + tail;
  }

  lemma LastItem(s: string, v: Json, rest: string)
    requires ReadValue(s) == Got(v, "]" + rest)
    ensures ReadItems(s) == Got([v], rest)
  {
    hide ReadValue;
    assert ("]" + rest)[1..] == rest;
  }

  lemma NextItem(s: string, v: Json, tail: string, vs: seq<Json>, rest: string)
    requires ReadValue(s) == Got(v, "," + tail) && ReadItems(tail) == Got(vs, rest)
    ensures ReadItems(s) == Got([v] + vs, rest)
  {
    hide ReadValue;
    assert ("," + tail)[1..] == tail;
  }

  lemma LastMember(s: string, m: Member, rest: string)
    requires ReadMember(s) == Got(m, "}" + rest)
    ensures ReadMembers(s) == Got([m], rest)
  {
    hide ReadMember;
    assert ("}" + rest)[1..] == rest;
  }

  lemma NextMember(s: string, m: Member, tail: string, ms: seq<Member>, rest: string)
    requires ReadMember(s) == Got(m, "," + tail) && ReadMembers(tail) == Got(ms, rest)
    ensures ReadMembers(s) == Got([m] + ms, rest)
  {
    hide ReadMember;
    assert ("," + tail)[1..] == tail;
  }
}
