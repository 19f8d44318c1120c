/**
 * Pointing the product at a local policy server and back: `product.overrides.json`
 * is rewritten by wiring, with a backup of what was there, and put back by
 * unwiring, from the backup if there is one and key by key otherwise.
 */
module PolicyOverrides {
  import opened Common

  const AGENT := "defaultChatAgent"

  type Fields = map<string, Json>

  datatype Json =
    | Null
    | Bool(b: bool)
    | Number(n: real)
    | Text(chars: string)
    | Array(items: seq<Json>)
    | Object(fields: Fields)

  predicate Truthy(v: Json) {
    match v
    case Null => false
    case Bool(b) => b
    case Number(n) => n != 0.0
    case Text(chars) => chars != ""
    case _ => true
  }

  function Decimal(n: nat): string {
    var digit := [('0' as int + n % 10) as char];
    if n < 10 then digit else Decimal(n / 10) + digit
  }

  /** The elements from the i-th on, under their indices. */
  function Indexed(items: seq<Json>, i: nat): Fields
    requires i <= |items|
    decreases |items| - i
  {
    if i == |items| then map[] else Indexed(items, i + 1)[Decimal(i) := items[i]]
  }

  /** The enumerable properties of a value, which are what spreading copies. */
  function Spread(v: Json): Fields {
    match v
    case Object(fields) => fields
    case Array(items) => Indexed(items, 0)
    case Text(chars) => Indexed(seq(|chars|, i requires 0 <= i < |chars| => Text([chars[i]])), 0)
    case _ => map[]
  }

  /** The `defaultChatAgent` of a document, if it has one. */
  function Agent(doc: Json): Option<Json> {
    if doc.Object? && AGENT in doc.fields then Some(doc.fields[AGENT]) else None
  }

  /** As `Agent`, with `null` taken for nothing. */
  function AgentFields(doc: Json, otherwise: Fields): Fields {
    match Agent(doc)
    case None | Some(Null) => otherwise
    case Some(v) => Spread(v)
  }

  datatype Endpoint = Endpoint(productKey: string, url: string)

  /** The URLs the server provides; the last endpoint with a key decides. */
  function Urls(endpoints: seq<Endpoint>): Fields {
    if endpoints == [] then map[]
    else
      var e := endpoints[|endpoints| - 1];
      Urls(endpoints[..|endpoints| - 1])[e.productKey := Text(e.url)]
  }

  /** Each endpoint's key as the product has it, or not at all if the product does not. */
  function Reverted(agent: Fields, endpoints: seq<Endpoint>, base: Fields): Fields {
    if endpoints == [] then agent
    else
      var k := endpoints[|endpoints| - 1].productKey;
      var before := Reverted(agent, endpoints[..|endpoints| - 1], base);
      if k in base then before[k := base[k]] else before - {k}
  }

  /**
   * The text format: parsing and printing. Printed text parses back to the same
   * value; most texts are not printed ones, and some are not JSON at all.
   */
  datatype Format = Format(parse: string -> Option<Json>, print_: Json -> string) {
    ghost predicate Faithful() {
      forall j :: parse(print_(j)) == Some(j)
    }
  }

  datatype Files = Files(product: string, overrides: Option<string>, backup: Option<string>)

  datatype Reply = Done | Threw

  /** The overrides document, if there is one and it can be parsed. */
  function Overrides(f: Format, s: Files): Option<Json> {
    match s.overrides
    case None => None
    case Some(text) => f.parse(text)
  }

  function OrEmpty(doc: Option<Json>): Json {
    match doc
    case None => Object(map[])
    case Some(d) => d
  }

  /** What wiring makes of a document; values without properties cannot take the agent. */
  function WiredDoc(doc: Json, base: Fields, endpoints: seq<Endpoint>): Json {
    match doc
    case Object(fields) => Object(fields[AGENT := Object(base + AgentFields(doc, base) + Urls(endpoints))])
    case _ => doc
  }

  function Wire(f: Format, endpoints: seq<Endpoint>, s: Files): (Files, Reply) {
    match f.parse(s.product)
    case None => (s, Threw)
    case Some(product) =>
      var saved := if s.overrides.Some? then s.(backup := s.overrides) else s;
      var doc := OrEmpty(Overrides(f, s));
      if doc == Null then (saved, Threw)
      else (saved.(overrides := Some(f.print_(WiredDoc(doc, AgentFields(product, map[]), endpoints)))), Done)
  }

  /** The key-by-key way back, for a document that has an agent; `None` for an empty result. */
  function RevertedDoc(fields: Fields, base: Fields, endpoints: seq<Endpoint>): Option<Json>
    requires AGENT in fields
  {
    var agent := Reverted(Spread(fields[AGENT]), endpoints, base);
    var left := if agent == base then fields - {AGENT} else fields[AGENT := Object(agent)];
    if left == map[] then None else Some(Object(left))
  }

  function Unwire(f: Format, endpoints: seq<Endpoint>, s: Files): (Files, Reply) {
    if s.backup.Some? then (s.(overrides := s.backup, backup := None), Done)
    else
      match Overrides(f, s)
      case None => (s, Done)
      case Some(doc) =>
        if doc == Null then (s, Threw)
        else if Agent(doc).None? || !Truthy(doc.fields[AGENT]) then (s, Done)
        else
          match f.parse(s.product)
          case None => (s, Threw)
          case Some(product) =>
            match RevertedDoc(doc.fields, AgentFields(product, map[]), endpoints)
            case None => (s.(overrides := None), Done)
            case Some(d) => (s.(overrides := Some(f.print_(d))), Done)
  }

  /** Some endpoint overrides the key. */
  predicate Overridden(endpoints: seq<Endpoint>, k: string) {
    exists i :: 0 <= i < |endpoints| && endpoints[i].productKey == k
  }

  /** No later endpoint has the same key. */
  predicate Decides(endpoints: seq<Endpoint>, i: nat) {
    i < |endpoints| && forall j :: i < j < |endpoints| ==> endpoints[j].productKey != endpoints[i].productKey
  }

  /** Every endpoint's key has the server's URL; of several with the same key the last decides. */
  ghost predicate PointsHere(agent: Fields, endpoints: seq<Endpoint>) {
    forall i :: 0 <= i < |endpoints| && Decides(endpoints, i) ==>
      endpoints[i].productKey in agent && agent[endpoints[i].productKey] == Text(endpoints[i].url)
  }

  ghost predicate IsWired(f: Format, endpoints: seq<Endpoint>, s: Files) {
    match Overrides(f, s)
    case None => false
    case Some(doc) =>
      Agent(doc).Some? && Truthy(Agent(doc).value) && PointsHere(Spread(Agent(doc).value), endpoints)
  }

  // ----- the loops -----

  lemma {:induction false} UrlsHasKeys(endpoints: seq<Endpoint>, k: string)
    ensures k in Urls(endpoints) <==> Overridden(endpoints, k)
  {
    if endpoints != [] {
      var n := |endpoints| - 1;
      UrlsHasKeys(endpoints[..n], k);
      if k in Urls(endpoints[..n]) {
        var i :| 0 <= i < n && endpoints[..n][i].productKey == k;
        assert endpoints[i].productKey == k;
      }
      if i :| 0 <= i < |endpoints| && endpoints[i].productKey == k {
        assert i < n ==> endpoints[..n][i].productKey == k;
      }
    }
  }

  lemma {:induction false} UrlOf(endpoints: seq<Endpoint>, i: nat)
    requires Decides(endpoints, i)
    ensures var k := endpoints[i].productKey; k in Urls(endpoints) && Urls(endpoints)[k] == Text(endpoints[i].url)
  {
    var n := |endpoints| - 1;
    if i < n {
      assert forall j :: 0 <= j < n ==> endpoints[..n][j] == endpoints[j];
      UrlOf(endpoints[..n], i);
    }
  }

  lemma {:induction false} LastWith(endpoints: seq<Endpoint>, k: string) returns (i: nat)
    requires Overridden(endpoints, k)
    ensures Decides(endpoints, i) && endpoints[i].productKey == k
  {
    var n := |endpoints| - 1;
    if endpoints[n].productKey == k {
      i := n;
    } else {
      assert forall j :: 0 <= j < n ==> endpoints[..n][j] == endpoints[j];
      var m :| 0 <= m < |endpoints| && endpoints[m].productKey == k;
      assert endpoints[..n][m].productKey == k;
      i := LastWith(endpoints[..n], k);
    }
  }

  /** Having the URLs as values is pointing here. */
  lemma UrlsPointHere(agent: Fields, endpoints: seq<Endpoint>)
    ensures PointsHere(agent, endpoints) <==>
            forall k :: k in Urls(endpoints) ==> k in agent && agent[k] == Urls(endpoints)[k]
  {
    hide Urls;
    forall i | 0 <= i < |endpoints| && Decides(endpoints, i)
      ensures endpoints[i].productKey in Urls(endpoints)
           && Urls(endpoints)[endpoints[i].productKey] == Text(endpoints[i].url)
    {
      UrlOf(endpoints, i);
    }
    if PointsHere(agent, endpoints) {
      forall k | k in Urls(endpoints) ensures k in agent && agent[k] == Urls(endpoints)[k] {
        UrlsHasKeys(endpoints, k);
        var i := LastWith(endpoints, k);
        UrlOf(endpoints, i);
      }
    }
  }

  // ----- what spreading copies -----

  /** The number a decimal numeral stands for. */
  function Numeral(s: string): int
    requires s != ""
  {
    (if |s| == 1 then 0 else 10 * Numeral(s[..|s| - 1])) + (s[|s| - 1] as int - '0' as int)
  }

  lemma {:induction false} DecimalReads(n: nat)
    ensures Decimal(n) != "" && Numeral(Decimal(n)) == n
    ensures forall i :: 0 <= i < |Decimal(n)| ==> '0' <= Decimal(n)[i] <= '9'
    ensures |Decimal(n)| > 1 ==> Decimal(n)[0] != '0'
  {
    if n >= 10 {
      DecimalReads(n / 10);
      var d := Decimal(n);
      assert d[..|d| - 1] == Decimal(n / 10);
      if |Decimal(n / 10)| == 1 { assert Numeral(Decimal(n / 10)) == Decimal(n / 10)[0] as int - '0' as int; }
    }
  }

  /** Property `k` of the value is `x`; arrays and strings have their elements under decimal indices. */
  ghost predicate PropertyOf(v: Json, k: string, x: Json) {
    match v
    case Object(fields) => k in fields && fields[k] == x
    case Array(items) => exists i :: 0 <= i < |items| && k == Decimal(i) && x == items[i]
    case Text(chars) => exists i :: 0 <= i < |chars| && k == Decimal(i) && x == Text([chars[i]])
    case _ => false
  }

  lemma {:induction false} IndexedAt(items: seq<Json>, i: nat, k: string, x: Json)
    requires i <= |items|
    ensures k in Indexed(items, i) && Indexed(items, i)[k] == x <==>
            exists j :: i <= j < |items| && k == Decimal(j) && x == items[j]
    decreases |items| - i
  {
    hide Decimal;
    if i < |items| {
      IndexedAt(items, i + 1, k, x);
      if k == Decimal(i) {
        forall j | i < j < |items| ensures Decimal(j) != k {
          DecimalReads(i);
          DecimalReads(j);
        }
      }
    }
  }

  /** Spreading copies exactly the properties. */
  lemma SpreadIs(v: Json, k: string, x: Json)
    ensures k in Spread(v) && Spread(v)[k] == x <==> PropertyOf(v, k, x)
  {
    hide Indexed, Decimal;
    match v
    case Array(items) => IndexedAt(items, 0, k, x);
    case Text(chars) =>
      IndexedAt(seq(|chars|, i requires 0 <= i < |chars| => Text([chars[i]])), 0, k, x);
    case _ =>
  }

  /** What counts as false in a condition. */
  lemma FalsyValues(v: Json)
    ensures !Truthy(v) <==> v == Null || v == Bool(false) || v == Number(0.0) || v == Text("")
  {
  }

  /** Reverting touches the endpoints' keys and no other, and leaves them as in the product. */
  lemma {:induction false} RevertedAt(agent: Fields, endpoints: seq<Endpoint>, base: Fields, k: string)
    ensures var r := Reverted(agent, endpoints, base);
            var from := if Overridden(endpoints, k) then base else agent;
            (k in r <==> k in from) && (k in r ==> r[k] == from[k])
  {
    if endpoints != [] {
      RevertedAt(agent, endpoints[..|endpoints| - 1], base, k);
      UrlsHasKeys(endpoints, k);
      UrlsHasKeys(endpoints[..|endpoints| - 1], k);
    }
  }

  /** The whole effect of reverting: the endpoints' keys from the product, the rest kept. */
  lemma RevertedIs(agent: Fields, endpoints: seq<Endpoint>, base: Fields)
    ensures var keys := Urls(endpoints).Keys;
            Reverted(agent, endpoints, base) == (agent - keys) + map k | k in base && k in keys :: base[k]
  {
    var keys := Urls(endpoints).Keys;
    var r, e := Reverted(agent, endpoints, base), (agent - keys) + map k | k in base && k in keys :: base[k];
    forall k ensures (k in r <==> k in e) && (k in r ==> r[k] == e[k]) {
      RevertedAt(agent, endpoints, base, k);
      UrlsHasKeys(endpoints, k);
    }
    assert r.Keys == e.Keys;
  }

  // ----- wiring and unwiring -----

  /**
   * Wiring makes the product use the server, except that a document which is
   * not an object is written back as it was, and `null` and an unreadable
   * product are errors.
   */
  lemma WireMakesWired(f: Format, endpoints: seq<Endpoint>, s: Files)
    requires f.Faithful() && f.parse(s.product).Some?
    ensures IsWired(f, endpoints, Wire(f, endpoints, s).0) <==> OrEmpty(Overrides(f, s)).Object?
    ensures Wire(f, endpoints, s).1 == Threw <==> Overrides(f, s) == Some(Null)
  {
    var doc := OrEmpty(Overrides(f, s));
    var base := AgentFields(f.parse(s.product).value, map[]);
    var (after, reply) := Wire(f, endpoints, s);
    if doc != Null {
      assert Overrides(f, after) == Some(WiredDoc(doc, base, endpoints));
      UrlsPointHere(base + AgentFields(doc, base) + Urls(endpoints), endpoints);
    }
  }

  /** A document that is not an object is written back as the same value. */
  lemma WireKeepsOthers(f: Format, endpoints: seq<Endpoint>, s: Files)
    requires f.Faithful() && f.parse(s.product).Some?
    requires Overrides(f, s).Some? && !Overrides(f, s).value.Object? && Overrides(f, s).value != Null
    ensures Overrides(f, Wire(f, endpoints, s).0) == Overrides(f, s)
    ensures Wire(f, endpoints, s).0.backup == s.overrides
  {
  }

  /** When the two operations throw, and that unwiring changes nothing then; wiring may have made the backup. */
  lemma RepliesExactly(f: Format, endpoints: seq<Endpoint>, s: Files)
    requires f.Faithful()
    ensures Wire(f, endpoints, s).1 == Threw <==> f.parse(s.product).None? || Overrides(f, s) == Some(Null)
    ensures f.parse(s.product).None? ==> Wire(f, endpoints, s).0 == s
    ensures f.parse(s.product).Some? && Overrides(f, s) == Some(Null) ==>
              Wire(f, endpoints, s).0 == Files(s.product, s.overrides, s.overrides)
    ensures Unwire(f, endpoints, s).1 == Threw <==>
              && s.backup.None? && Overrides(f, s).Some?
              && var doc := Overrides(f, s).value;
                 || doc == Null
                 || (f.parse(s.product).None? && Agent(doc).Some?
                     && Agent(doc).value !in [Null, Bool(false), Number(0.0), Text("")])
    ensures Unwire(f, endpoints, s).1 == Threw ==> Unwire(f, endpoints, s).0 == s
    ensures s.backup.None? && Overrides(f, s).Some? && Agent(Overrides(f, s).value).Some?
            && Agent(Overrides(f, s).value).value in [Null, Bool(false), Number(0.0), Text("")] ==>
              Unwire(f, endpoints, s) == (s, Done)
  {
    if Overrides(f, s).Some? && Agent(Overrides(f, s).value).Some? { FalsyValues(Agent(Overrides(f, s).value).value); }
  }

  ghost predicate Has(v: Option<Json>, k: string, x: Json) {
    v.Some? && PropertyOf(v.value, k, x)
  }

  /**
   * Every other key of the document is kept. A key of the agent that no endpoint
   * overrides is the agent's own, if it has it, and otherwise the product's, and
   * there are no others.
   */
  lemma WireKeepsTheRest(f: Format, endpoints: seq<Endpoint>, s: Files, k: string)
    requires f.Faithful() && f.parse(s.product).Some? && OrEmpty(Overrides(f, s)).Object?
    ensures
      var before := OrEmpty(Overrides(f, s));
      var after := Overrides(f, Wire(f, endpoints, s).0);
      var own, base := Agent(before), Agent(f.parse(s.product).value);
      && after.Some? && after.value.Object? && Agent(after.value).Some? && Agent(after.value).value.Object?
      && (k != "defaultChatAgent" ==> (k in before.fields <==> k in after.value.fields))
      && (k != "defaultChatAgent" && k in before.fields ==> after.value.fields[k] == before.fields[k])
      && var agent := Agent(after.value).value.fields;
         !Overridden(endpoints, k) ==>
           && (forall x :: Has(own, k, x) ==> k in agent && agent[k] == x)
           && ((forall x :: !Has(own, k, x)) ==>
                 && (forall x :: Has(base, k, x) ==> k in agent && agent[k] == x)
                 && ((forall x :: !Has(base, k, x)) ==> k !in agent))
  {
    var before := OrEmpty(Overrides(f, s));
    var product := f.parse(s.product).value;
    var base := AgentFields(product, map[]);
    assert Overrides(f, Wire(f, endpoints, s).0) == Some(WiredDoc(before, base, endpoints));
    UrlsHasKeys(endpoints, k);
    AgentFieldsAt(product, map[], k);
    AgentFieldsAt(before, base, k);
  }

  lemma AgentFieldsAt(doc: Json, otherwise: Fields, k: string)
    ensures var fields := AgentFields(doc, otherwise);
            if Agent(doc).None? || Agent(doc) == Some(Null) then fields == otherwise && forall x :: !Has(Agent(doc), k, x)
            else
              && (forall x :: Has(Agent(doc), k, x) ==> k in fields && fields[k] == x)
              && ((forall x :: !Has(Agent(doc), k, x)) ==> k !in fields)
  {
    if Agent(doc).Some? {
      forall x ensures k in Spread(Agent(doc).value) && Spread(Agent(doc).value)[k] == x <==> Has(Agent(doc), k, x) {
        SpreadIs(Agent(doc).value, k, x);
      }
      if k in Spread(Agent(doc).value) { assert Has(Agent(doc), k, Spread(Agent(doc).value)[k]); }
    }
  }

  /** Reverting an agent made from the product's own gives the product's back. */
  lemma RevertingTheBase(base: Fields, endpoints: seq<Endpoint>)
    ensures Reverted(base + base + Urls(endpoints), endpoints, base) == base
  {
    var r := Reverted(base + base + Urls(endpoints), endpoints, base);
    forall k ensures (k in r <==> k in base) && (k in r ==> r[k] == base[k]) {
      RevertedAt(base + base + Urls(endpoints), endpoints, base, k);
      UrlsHasKeys(endpoints, k);
    }
    assert r.Keys == base.Keys;
  }

  /**
   * Wiring and then unwiring puts all three files back exactly when there was no
   * backup file before: for every text of the product and of the overrides,
   * whether or not they parse, whether or not wiring fails, through the backup
   * if there were overrides and key by key if there were none.
   */
  lemma WireThenUnwire(f: Format, endpoints: seq<Endpoint>, s: Files)
    requires f.Faithful()
    ensures Unwire(f, endpoints, Wire(f, endpoints, s).0).0 == s <==> s.backup == None
  {
    var wired := Wire(f, endpoints, s).0;
    if s.backup == None && s.overrides == None && f.parse(s.product).Some? {
      var base := AgentFields(f.parse(s.product).value, map[]);
      var agent := base + base + Urls(endpoints);
      var fields: Fields := map[AGENT := Object(agent)];
      var none: Fields := map[];
      assert none[AGENT := Object(agent)] == fields;
      assert wired.overrides == Some(f.print_(Object(fields)));
      assert Overrides(f, wired) == Some(Object(fields));
      RevertingTheBase(base, endpoints);
      assert fields - {AGENT} == map[];
    }
  }

  /** With a leftover backup, the overrides come back only if they are what wiring backed up. */
  lemma StaleBackup(f: Format, endpoints: seq<Endpoint>, s: Files)
    requires f.Faithful() && s.backup.Some?
    ensures var after := Unwire(f, endpoints, Wire(f, endpoints, s).0).0;
            && after.backup == None && after.product == s.product
            && after.overrides == if s.overrides.Some? && f.parse(s.product).Some? then s.overrides else s.backup
  {
  }

  /** Wiring twice overwrites the backup: unwiring then leaves the product wired. */
  lemma SecondWireLosesOriginal(f: Format, endpoints: seq<Endpoint>, s: Files)
    requires f.Faithful() && f.parse(s.product).Some? && OrEmpty(Overrides(f, s)).Object?
    ensures
      var once := Wire(f, endpoints, s).0;
      var after := Unwire(f, endpoints, Wire(f, endpoints, once).0).0;
      && after.overrides == once.overrides
      && IsWired(f, endpoints, after)
  {
    WireMakesWired(f, endpoints, s);
    var once := Wire(f, endpoints, s).0;
    assert Overrides(f, once).Some?;
    WireMakesWired(f, endpoints, once);
  }

  /** The condition under which the key-by-key way restores a document that was wired. */
  ghost predicate Restorable(fields: Fields, base: Fields, endpoints: seq<Endpoint>) {
    if AGENT !in fields then fields != map[]
    else
      && fields[AGENT].Object?
      && var own := fields[AGENT].fields;
         && own != base
         && base.Keys <= own.Keys
         && forall k :: Overridden(endpoints, k) ==> if k in base then own[k] == base[k] else k !in own
  }

  /**
   * Without the backup, an overrides document survives wiring and unwiring
   * exactly if it is not empty and has either no agent, or an agent that differs
   * from the product's, lacks none of its keys and agrees with it on every
   * endpoint. What gets lost otherwise is the difference on those keys.
   */
  lemma SurgicalRestores(f: Format, endpoints: seq<Endpoint>, s: Files)
    requires f.Faithful() && f.parse(s.product).Some?
    requires Overrides(f, s).Some? && Overrides(f, s).value.Object?
    ensures
      var base := AgentFields(f.parse(s.product).value, map[]);
      var wired := Wire(f, endpoints, s).0.(backup := None);
      (Overrides(f, Unwire(f, endpoints, wired).0) == Overrides(f, s))
      == Restorable(Overrides(f, s).value.fields, base, endpoints)
  {
    var base := AgentFields(f.parse(s.product).value, map[]);
    var doc := Overrides(f, s).value;
    var wired := Wire(f, endpoints, s).0.(backup := None);
    var fields := WiredDoc(doc, base, endpoints).fields;
    assert Overrides(f, wired) == Some(Object(fields));
    assert Overrides(f, Unwire(f, endpoints, wired).0) == RevertedDoc(fields, base, endpoints);
    RevertedDocIs(doc.fields, base, endpoints);
  }

  lemma RevertedDocIs(own: Fields, base: Fields, endpoints: seq<Endpoint>)
    ensures RevertedDoc(WiredDoc(Object(own), base, endpoints).fields, base, endpoints) == Some(Object(own))
      <==> Restorable(own, base, endpoints)
  {
    var agent := base + AgentFields(Object(own), base) + Urls(endpoints);
    var fields := own[AGENT := Object(agent)];
    var reverted := Reverted(agent, endpoints, base);
    if AGENT !in own {
      RevertingTheBase(base, endpoints);
      assert fields - {AGENT} == own;
    } else if own[AGENT] == Null {
      RevertingTheBase(base, endpoints);
      assert AGENT !in fields - {AGENT};
    } else {
      RevertedMatches(base, Spread(own[AGENT]), endpoints);
      if reverted == base {
        assert AGENT !in fields - {AGENT};
      } else {
        assert fields[AGENT := Object(reverted)] == own[AGENT := Object(reverted)];
        assert own[AGENT := Object(reverted)] == own <==> own[AGENT] == Object(reverted);
      }
    }
  }

  /** When reverting the wired agent gives back the agent there was before. */
  lemma RevertedMatches(base: Fields, own: Fields, endpoints: seq<Endpoint>)
    ensures Reverted(base + own + Urls(endpoints), endpoints, base) == own <==>
            && base.Keys <= own.Keys
            && forall k :: Overridden(endpoints, k) ==> if k in base then k in own && own[k] == base[k] else k !in own
  {
    var agent := base + own + Urls(endpoints);
    var r := Reverted(agent, endpoints, base);
    forall k
      ensures k in r <==> k in base || (k in own && !Overridden(endpoints, k))
      ensures k in r ==> r[k] == if Overridden(endpoints, k) then base[k] else if k in own then own[k] else base[k]
    {
      RevertedAt(agent, endpoints, base, k);
      UrlsHasKeys(endpoints, k);
    }
    if && base.Keys <= own.Keys
       && forall k :: Overridden(endpoints, k) ==> if k in base then k in own && own[k] == base[k] else k !in own {
      assert forall k :: k in r <==> k in own;
      assert r.Keys == own.Keys;
    }
  }

  // ----- the operations in place -----

  /** Comparing the number of keys and then every key of one side compares the objects. */
  method ShallowEqual(a: Fields, b: Fields) returns (same: bool)
    ensures same == (a == b)
  {
    if |a.Keys| != |b.Keys| { return false; }
    var rest := a.Keys;
    while rest != {}
      invariant rest <= a.Keys
      invariant forall k :: k in a.Keys - rest ==> k in b && a[k] == b[k]
      decreases |rest|
    {
      var k :| k in rest;
      if k !in b || a[k] != b[k] { return false; }
      rest := rest - {k};
    }
    SameSize(a.Keys, b.Keys);
    return true;
  }

  lemma SameSize(a: set<string>, b: set<string>)
    requires a <= b && |a| == |b|
    ensures a == b
  {
    assert b == a + (b - a);
    assert |b| == |a| + |b - a|;
    assert b - a == {};
  }

  class Server {
    const format: Format
    const endpoints: seq<Endpoint>
    const product: string
    var overrides: Option<string>
    var backup: Option<string>

    ghost function View(): Files
      reads this
    {
      Files(product, overrides, backup)
    }

    constructor (format: Format, endpoints: seq<Endpoint>, files: Files)
      ensures View() == files && this.format == format && this.endpoints == endpoints
    {
      this.format, this.endpoints := format, endpoints;
      product, overrides, backup := files.product, files.overrides, files.backup;
    }

    method OverrideUrls() returns (urls: Fields)
      ensures urls == Urls(endpoints)
    {
      urls := map[];
      for i := 0 to |endpoints|
        invariant urls == Urls(endpoints[..i])
      {
        assert endpoints[..i + 1][..i] == endpoints[..i];
        urls := urls[endpoints[i].productKey := Text(endpoints[i].url)];
      }
      assert endpoints[..|endpoints|] == endpoints;
    }

    method Wired() returns (r: bool)
      ensures r == IsWired(format, endpoints, View())
    {
      if overrides.None? { return false; }
      var doc := format.parse(overrides.value);
      if doc.None? || Agent(doc.value).None? || !Truthy(Agent(doc.value).value) { return false; }
      var agent := Spread(Agent(doc.value).value);
      var urls := OverrideUrls();
      UrlsPointHere(agent, endpoints);
      var rest := urls.Keys;
      while rest != {}
        invariant rest <= urls.Keys
        invariant forall k :: k in urls.Keys - rest ==> k in agent && agent[k] == urls[k]
        decreases |rest|
      {
        var k :| k in rest;
        if k !in agent || agent[k] != urls[k] { return false; }
        rest := rest - {k};
      }
      return true;
    }

    method WireOverrides() returns (reply: Reply)
      modifies this
      ensures (View(), reply) == Wire(format, endpoints, old(View()))
    {
      var parsed := format.parse(product);
      if parsed.None? { return Threw; }
      var base := AgentFields(parsed.value, map[]);
      if overrides.Some? { backup := overrides; }
      var doc := Object(map[]);
      if overrides.Some? {
        var read := format.parse(overrides.value);
        if read.Some? { doc := read.value; }
      }
      if doc == Null { return Threw; }
      var existing := AgentFields(doc, base);
      var urls := OverrideUrls();
      if doc.Object? {
        doc := Object(doc.fields[AGENT := Object(base + existing + urls)]);
      }
      overrides := Some(format.print_(doc));
      return Done;
    }

    method UnwireOverrides() returns (reply: Reply)
      modifies this
      ensures (View(), reply) == Unwire(format, endpoints, old(View()))
    {
      if backup.Some? {
        overrides, backup := backup, None;
        return Done;
      }
      if overrides.None? { return Done; }
      var read := format.parse(overrides.value);
      if read.None? { return Done; }
      var doc := read.value;
      if doc == Null { return Threw; }
      if Agent(doc).None? || !Truthy(Agent(doc).value) { return Done; }
      var parsed := format.parse(product);
      if parsed.None? { return Threw; }
      var base := AgentFields(parsed.value, map[]);
      var agent := Spread(doc.fields[AGENT]);
      for i := 0 to |endpoints|
        invariant agent == Reverted(Spread(doc.fields[AGENT]), endpoints[..i], base)
      {
        var k := endpoints[i].productKey;
        assert endpoints[..i + 1][..i] == endpoints[..i];
        agent := if k !in base then agent - {k} else agent[k := base[k]];
      }
      assert endpoints[..|endpoints|] == endpoints;
      var same := ShallowEqual(agent, base);
      var left := if same then doc.fields - {AGENT} else doc.fields[AGENT := Object(agent)];
      if left == map[] {
        overrides := None;
      } else {
        overrides := Some(format.print_(Object(left)));
      }
      return Done;
    }
  }
}
