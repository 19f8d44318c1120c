/**
 * Printing arbitrary values for the log without running in circles: the printer
 * walks the object graph and asks a filter about every value; the filter
 * remembers the objects it has seen and replaces one it sees again by a marker.
 *
 * Regular expressions are objects the filter lets pass unremembered. One that
 * contains itself is caught by the printer, which gives up on the whole value.
 * So it does on a value it refuses, such as a BigInt, or one whose getter or
 * `toJSON` throws.
 */
module SafeInspect {
  import opened Common
  import opened JsonText

  const MAX_LENGTH := 100000

  datatype Value = Atom(text: string) | Ref(id: nat) | Refused

  datatype Slot = Slot(key: string, value: Value)

  datatype Kind = ArrayKind | ObjectKind | RegExpKind

  datatype Node = Node(kind: Kind, slots: seq<Slot>) {
    /** The filter remembers this object. */
    predicate Tracked() {
      !kind.RegExpKind?
    }
  }

  type Heap = map<nat, Node>

  predicate InHeap(h: Heap, v: Value) {
    v.Ref? ==> v.id in h
  }

  predicate AllInHeap(h: Heap, slots: seq<Slot>) {
    forall i :: 0 <= i < |slots| ==> InHeap(h, slots[i].value)
  }

  ghost predicate Closed(h: Heap) {
    forall id :: id in h ==> AllInHeap(h, h[id].slots)
  }

  predicate IsTracked(h: Heap, id: nat) {
    id in h && h[id].Tracked()
  }

  /** What is printed, as a tree; `Marker` stands for an object that was seen before. */
  datatype Tree = Leaf(text: string) | Marker(id: nat) | Branch(id: nat, kind: Kind, kids: seq<Kid>)

  datatype Kid = Kid(key: string, tree: Tree)

  function Unseen(h: Heap, seen: seq<nat>): set<nat> {
    set id | id in h && id !in seen
  }

  /** The filter's answer: whether to print the marker, and what it has seen then. */
  function Filter(h: Heap, id: nat, seen: seq<nat>): (bool, seq<nat>) {
    if !IsTracked(h, id) then (false, seen)
    else if id in seen then (true, seen)
    else (false, seen + [id])
  }

  /**
   * Printing a value: the tree, or `None` if the printer gives up, and the
   * objects seen by then. `path` holds the objects being printed, outermost first.
   */
  function Print(h: Heap, v: Value, seen: seq<nat>, path: seq<nat>): (r: (Option<Tree>, seq<nat>))
    requires Closed(h) && InHeap(h, v)
    ensures seen <= r.1
    decreases Unseen(h, seen), Unseen(h, path), 0
  {
    match v
    case Atom(text) => (Some(Leaf(text)), seen)
    case Refused => (None, seen)
    case Ref(id) =>
      var (marked, now) := Filter(h, id, seen);
      if marked then (Some(Marker(id)), now)
      else if id in path then (None, now)
      else
        assert h[id].Tracked() ==> id in Unseen(h, seen) && id !in Unseen(h, now);
        assert !IsTracked(h, id) ==> id in Unseen(h, path) && id !in Unseen(h, path + [id]);
        var (kids, after) := PrintAll(h, h[id].slots, now, path + [id]);
        match kids
        case None => (None, after)
        case Some(ks) => (Some(Branch(id, h[id].kind, ks)), after)
  }

  function PrintAll(h: Heap, slots: seq<Slot>, seen: seq<nat>, path: seq<nat>): (r: (Option<seq<Kid>>, seq<nat>))
    requires Closed(h) && AllInHeap(h, slots)
    ensures seen <= r.1
    ensures r.0.Some? ==> |r.0.value| == |slots|
    decreases Unseen(h, seen), Unseen(h, path), 1 + |slots|
  {
    if slots == [] then (Some([]), seen)
    else
      var (first, now) := Print(h, slots[0].value, seen, path);
      if first.None? then (None, now)
      else
        assert Unseen(h, now) <= Unseen(h, seen);
        assert Unseen(h, now) != Unseen(h, seen) ==> Unseen(h, now) < Unseen(h, seen);
        var (rest, after) := PrintAll(h, slots[1..], now, path);
        match rest
        case None => (None, after)
        case Some(ks) => (Some([Kid(slots[0].key, first.value)] + ks), after)
  }

  // ----- what the tree says -----

  /** The tree shows the value: an atom as it is, an object in full or as its marker. */
  ghost predicate Shows(h: Heap, v: Value, t: Tree)
    decreases t
  {
    match t
    case Leaf(text) => v == Atom(text)
    case Marker(id) => v == Ref(id) && IsTracked(h, id)
    case Branch(id, kind, kids) => v == Ref(id) && id in h && kind == h[id].kind && ShowsAll(h, h[id].slots, kids)
  }

  ghost predicate ShowsAll(h: Heap, slots: seq<Slot>, kids: seq<Kid>)
    decreases kids
  {
    if kids == [] then slots == []
    else
      && slots != [] && slots[0].key == kids[0].key
      && Shows(h, slots[0].value, kids[0].tree)
      && ShowsAll(h, slots[1..], kids[1..])
  }

  /** The remembered objects that are printed in full, with how often they are. */
  ghost function InFull(t: Tree): multiset<nat>
    decreases t
  {
    match t
    case Branch(id, kind, kids) => (if kind.RegExpKind? then multiset{} else multiset{id}) + InFullAll(kids)
    case _ => multiset{}
  }

  ghost function InFullAll(kids: seq<Kid>): multiset<nat>
    decreases kids
  {
    if kids == [] then multiset{} else InFull(kids[0].tree) + InFullAll(kids[1..])
  }

  ghost function Markers(t: Tree): multiset<nat>
    decreases t
  {
    match t
    case Leaf(_) => multiset{}
    case Marker(id) => multiset{id}
    case Branch(_, _, kids) => MarkersAll(kids)
  }

  ghost function MarkersAll(kids: seq<Kid>): multiset<nat>
    decreases kids
  {
    if kids == [] then multiset{} else Markers(kids[0].tree) + MarkersAll(kids[1..])
  }

  ghost predicate Distinct(s: seq<nat>) {
    forall i, j :: 0 <= i < j < |s| ==> s[i] != s[j]
  }

  /** What printing from `seen` to `after` has added to a tree or a list of trees. */
  ghost predicate Adds(seen: seq<nat>, after: seq<nat>, full: multiset<nat>, markers: multiset<nat>) {
    && seen <= after && Distinct(after)
    && full == multiset(after[|seen|..])
    && forall id :: id in markers ==> id in after
  }

  lemma AddsNothing(seen: seq<nat>)
    requires Distinct(seen)
    ensures Adds(seen, seen, multiset{}, multiset{})
  {
  }

  lemma AddsMarker(seen: seq<nat>, id: nat)
    requires Distinct(seen) && id in seen
    ensures Adds(seen, seen, multiset{}, multiset{id})
  {
  }

  lemma AddsBoth(a: seq<nat>, b: seq<nat>, c: seq<nat>,
                 f1: multiset<nat>, m1: multiset<nat>, f2: multiset<nat>, m2: multiset<nat>)
    requires Adds(a, b, f1, m1) && Adds(b, c, f2, m2)
    ensures Adds(a, c, f1 + f2, m1 + m2)
  {
    assert c[|a|..] == b[|a|..] + c[|b|..];
  }

  lemma AddsObject(seen: seq<nat>, id: nat, after: seq<nat>, full: multiset<nat>, markers: multiset<nat>)
    requires Distinct(seen) && id !in seen && Adds(seen + [id], after, full, markers)
    ensures Adds(seen, after, multiset{id} + full, markers)
  {
    assert after[|seen|] == id;
    assert after[|seen|..] == [id] + after[|seen| + 1..];
  }

  /**
   * The tree shows the value, and the objects it adds to those seen are exactly
   * the ones it prints in full, each of them once.
   */
  lemma {:induction false} PrintAdds(h: Heap, v: Value, seen: seq<nat>, path: seq<nat>)
    requires Closed(h) && InHeap(h, v) && Distinct(seen)
    ensures var (t, after) := Print(h, v, seen, path);
            && Distinct(after)
            && (t.Some? ==> Shows(h, v, t.value) && Adds(seen, after, InFull(t.value), Markers(t.value)))
    decreases Unseen(h, seen), Unseen(h, path), 0
  {
    match v
    case Atom(text) => AddsNothing(seen);
    case Refused =>
    case Ref(id) =>
      var (marked, now) := Filter(h, id, seen);
      if marked {
        AddsMarker(seen, id);
      } else if id !in path {
        assert IsTracked(h, id) ==> id in Unseen(h, seen) && id !in Unseen(h, now);
        assert !IsTracked(h, id) ==> id in Unseen(h, path) && id !in Unseen(h, path + [id]);
        PrintAllAdds(h, h[id].slots, now, path + [id]);
        var (kids, after) := PrintAll(h, h[id].slots, now, path + [id]);
        if kids.Some? && IsTracked(h, id) {
          AddsObject(seen, id, after, InFullAll(kids.value), MarkersAll(kids.value));
        }
      }
  }

  lemma {:induction false} PrintAllAdds(h: Heap, slots: seq<Slot>, seen: seq<nat>, path: seq<nat>)
    requires Closed(h) && AllInHeap(h, slots) && Distinct(seen)
    ensures var (kids, after) := PrintAll(h, slots, seen, path);
            && Distinct(after)
            && (kids.Some? ==> ShowsAll(h, slots, kids.value) && Adds(seen, after, InFullAll(kids.value), MarkersAll(kids.value)))
    decreases Unseen(h, seen), Unseen(h, path), 1 + |slots|
  {
    if slots == [] {
      AddsNothing(seen);
    } else {
      var (first, now) := Print(h, slots[0].value, seen, path);
      PrintAdds(h, slots[0].value, seen, path);
      if first.Some? {
        assert Unseen(h, now) <= Unseen(h, seen);
        assert Unseen(h, now) != Unseen(h, seen) ==> Unseen(h, now) < Unseen(h, seen);
        PrintAllAdds(h, slots[1..], now, path);
        var (rest, after) := PrintAll(h, slots[1..], now, path);
        if rest.Some? {
          AddsBoth(seen, now, after, InFull(first.value), Markers(first.value), InFullAll(rest.value), MarkersAll(rest.value));
        }
      }
    }
  }

  // ----- every reachable object is printed, and once -----

  ghost predicate Edge(h: Heap, a: nat, b: nat) {
    a in h && exists i :: 0 <= i < |h[a].slots| && h[a].slots[i].value == Ref(b)
  }

  ghost predicate Walk(h: Heap, p: seq<nat>) {
    forall i :: 0 <= i < |p| - 1 ==> Edge(h, p[i], p[i + 1])
  }

  ghost predicate WalkBetween(h: Heap, p: seq<nat>, a: nat, b: nat) {
    |p| >= 1 && p[0] == a && p[|p| - 1] == b && Walk(h, p)
  }

  ghost predicate Reaches(h: Heap, v: Value, b: nat) {
    v.Ref? && exists p :: WalkBetween(h, p, v.id, b)
  }

  /** All objects printed in full. */
  ghost function Printed(t: Tree): set<nat>
    decreases t
  {
    match t
    case Branch(id, _, kids) => {id} + PrintedAll(kids)
    case _ => {}
  }

  ghost function PrintedAll(kids: seq<Kid>): set<nat>
    decreases kids
  {
    if kids == [] then {} else Printed(kids[0].tree) + PrintedAll(kids[1..])
  }

  lemma {:induction false} InFullIsPrinted(h: Heap, v: Value, t: Tree, x: nat)
    requires Shows(h, v, t)
    ensures x in InFull(t) <==> x in Printed(t) && IsTracked(h, x)
    decreases t
  {
    if t.Branch? { InFullAllIsPrinted(h, h[t.id].slots, t.kids, x); }
  }

  lemma {:induction false} InFullAllIsPrinted(h: Heap, slots: seq<Slot>, kids: seq<Kid>, x: nat)
    requires ShowsAll(h, slots, kids)
    ensures x in InFullAll(kids) <==> x in PrintedAll(kids) && IsTracked(h, x)
    decreases kids
  {
    if kids != [] {
      InFullIsPrinted(h, slots[0].value, kids[0].tree, x);
      InFullAllIsPrinted(h, slots[1..], kids[1..], x);
    }
  }

  /** The tree of a slot's value is among the trees of the slots. */
  lemma {:induction false} SlotShown(h: Heap, slots: seq<Slot>, kids: seq<Kid>, i: nat)
    requires ShowsAll(h, slots, kids) && i < |slots| && slots[i].value.Ref?
    ensures slots[i].value.id in PrintedAll(kids) || slots[i].value.id in MarkersAll(kids)
  {
    if i > 0 { SlotShown(h, slots[1..], kids[1..], i - 1); }
  }

  /** Where an edge of a printed object leads is printed as well, in full or by its marker. */
  lemma {:induction false} EdgeShown(h: Heap, v: Value, t: Tree, x: nat, y: nat)
    requires Shows(h, v, t) && x in Printed(t) && Edge(h, x, y)
    ensures y in Printed(t) || y in Markers(t)
    decreases t
  {
    if x == t.id {
      var i :| 0 <= i < |h[x].slots| && h[x].slots[i].value == Ref(y);
      SlotShown(h, h[x].slots, t.kids, i);
    } else {
      EdgeAllShown(h, h[t.id].slots, t.kids, x, y);
    }
  }

  lemma {:induction false} EdgeAllShown(h: Heap, slots: seq<Slot>, kids: seq<Kid>, x: nat, y: nat)
    requires ShowsAll(h, slots, kids) && x in PrintedAll(kids) && Edge(h, x, y)
    ensures y in PrintedAll(kids) || y in MarkersAll(kids)
    decreases kids
  {
    if x in Printed(kids[0].tree) {
      EdgeShown(h, slots[0].value, kids[0].tree, x, y);
    } else {
      EdgeAllShown(h, slots[1..], kids[1..], x, y);
    }
  }

  /** A walk to a printed object. */
  lemma {:induction false} WalkTo(h: Heap, v: Value, t: Tree, x: nat) returns (p: seq<nat>)
    requires Shows(h, v, t) && x in Printed(t)
    ensures v.Ref? && WalkBetween(h, p, v.id, x)
    decreases t
  {
    p := [t.id];
    if x != t.id {
      var i, q := WalkToSlot(h, h[t.id].slots, t.kids, x);
      p := [t.id] + q;
      assert h[t.id].slots[i].value == Ref(q[0]);
      forall j | 0 <= j < |p| - 1 ensures Edge(h, p[j], p[j + 1]) {
        if j > 0 { assert Edge(h, q[j - 1], q[j]); }
      }
    }
  }

  lemma {:induction false} WalkToSlot(h: Heap, slots: seq<Slot>, kids: seq<Kid>, x: nat) returns (i: nat, p: seq<nat>)
    requires ShowsAll(h, slots, kids) && x in PrintedAll(kids)
    ensures i < |slots| && slots[i].value.Ref? && WalkBetween(h, p, slots[i].value.id, x)
    decreases kids
  {
    if x in Printed(kids[0].tree) {
      i := 0;
      p := WalkTo(h, slots[0].value, kids[0].tree, x);
    } else {
      i, p := WalkToSlot(h, slots[1..], kids[1..], x);
      i := i + 1;
    }
  }

  lemma {:induction false} WalkStaysPrinted(h: Heap, v: Value, t: Tree, p: seq<nat>)
    requires Shows(h, v, t) && |p| >= 1 && p[0] in Printed(t) && Walk(h, p)
    requires forall y :: y in Markers(t) ==> y in Printed(t)
    ensures p[|p| - 1] in Printed(t)
  {
    if |p| > 1 {
      EdgeShown(h, v, t, p[0], p[1]);
      forall i | 0 <= i < |p[1..]| - 1 ensures Edge(h, p[1..][i], p[1..][i + 1]) {
        assert Edge(h, p[i + 1], p[i + 2]);
      }
      WalkStaysPrinted(h, v, t, p[1..]);
    }
  }

  /**
   * On every finite graph, with cycles or without: unless the printer gives up,
   * the objects printed are exactly those reachable, and each object that is
   * remembered is printed in full exactly once.
   */
  lemma PrintsReachableOnce(h: Heap, v: Value, y: nat)
    requires Closed(h) && InHeap(h, v)
    ensures var t := Print(h, v, [], []).0;
            t.Some? ==>
              && (y in Printed(t.value) <==> Reaches(h, v, y))
              && (IsTracked(h, y) && Reaches(h, v, y) ==> InFull(t.value)[y] == 1)
              && (y in Markers(t.value) ==> IsTracked(h, y) && Reaches(h, v, y))
  {
    var (r, after) := Print(h, v, [], []);
    PrintAdds(h, v, [], []);
    if r.Some? {
      var t := r.value;
      assert after[0..] == after;
      forall x | x in Markers(t) ensures x in Printed(t) && IsTracked(h, x) {
        InFullIsPrinted(h, v, t, x);
      }
      InFullIsPrinted(h, v, t, y);
      if y in Printed(t) {
        var _ := WalkTo(h, v, t, y);
      }
      if Reaches(h, v, y) {
        var p :| WalkBetween(h, p, v.id, y);
        RootShown(h, v, t);
        WalkStaysPrinted(h, v, t, p);
      }
      DistinctCounts(after, y);
    }
  }

  lemma RootShown(h: Heap, v: Value, t: Tree)
    requires Shows(h, v, t) && v.Ref?
    ensures v.id in Printed(t) || v.id in Markers(t)
  {
  }

  lemma {:induction false} DistinctCounts(s: seq<nat>, x: nat)
    requires Distinct(s)
    ensures multiset(s)[x] == if x in s then 1 else 0
  {
    if s != [] {
      assert s == s[..|s| - 1] + [s[|s| - 1]];
      DistinctCounts(s[..|s| - 1], x);
    }
  }

  // ----- markers mean sharing -----

  /** How often each remembered object is met when everything is written out, `depth` levels deep. */
  ghost function Met(h: Heap, v: Value, depth: nat): multiset<nat>
    requires Closed(h) && InHeap(h, v)
    decreases depth, 0
  {
    if !v.Ref? || depth == 0 then multiset{}
    else (if h[v.id].Tracked() then multiset{v.id} else multiset{}) + MetAll(h, h[v.id].slots, depth - 1)
  }

  ghost function MetAll(h: Heap, slots: seq<Slot>, depth: nat): multiset<nat>
    requires Closed(h) && AllInHeap(h, slots)
    decreases depth, 1 + |slots|
  {
    if slots == [] then multiset{} else Met(h, slots[0].value, depth) + MetAll(h, slots[1..], depth)
  }

  /** The plain printer, which remembers nothing; `None` where `depth` levels are not enough. */
  ghost function Plain(h: Heap, v: Value, depth: nat): Option<Tree>
    requires Closed(h) && InHeap(h, v)
    decreases depth, 0
  {
    match v
    case Atom(text) => Some(Leaf(text))
    case Refused => None
    case Ref(id) =>
      if depth == 0 then None
      else
        match PlainAll(h, h[id].slots, depth - 1)
        case None => None
        case Some(kids) => Some(Branch(id, h[id].kind, kids))
  }

  ghost function PlainAll(h: Heap, slots: seq<Slot>, depth: nat): Option<seq<Kid>>
    requires Closed(h) && AllInHeap(h, slots)
    decreases depth, 1 + |slots|
  {
    if slots == [] then Some([])
    else
      var first, rest := Plain(h, slots[0].value, depth), PlainAll(h, slots[1..], depth);
      if first.None? || rest.None? then None else Some([Kid(slots[0].key, first.value)] + rest.value)
  }

  ghost function Depth(t: Tree): nat
    decreases t
  {
    match t
    case Leaf(_) => 0
    case Marker(_) => 1
    case Branch(_, _, kids) => 1 + DepthAll(kids)
  }

  ghost function DepthAll(kids: seq<Kid>): nat
    decreases kids
  {
    if kids == [] then 0
    else if Depth(kids[0].tree) < DepthAll(kids[1..]) then DepthAll(kids[1..]) else Depth(kids[0].tree)
  }

  /** Writing everything out meets whatever the tree mentions. */
  lemma {:induction false} MetCovers(h: Heap, v: Value, t: Tree, depth: nat)
    requires Closed(h) && InHeap(h, v) && Shows(h, v, t) && Depth(t) <= depth
    ensures InFull(t) + Markers(t) <= Met(h, v, depth)
    decreases t
  {
    if t.Branch? { MetAllCovers(h, h[t.id].slots, t.kids, depth - 1); }
  }

  lemma {:induction false} MetAllCovers(h: Heap, slots: seq<Slot>, kids: seq<Kid>, depth: nat)
    requires Closed(h) && AllInHeap(h, slots) && ShowsAll(h, slots, kids) && DepthAll(kids) <= depth
    ensures InFullAll(kids) + MarkersAll(kids) <= MetAll(h, slots, depth)
    decreases kids
  {
    if kids != [] {
      MetCovers(h, slots[0].value, kids[0].tree, depth);
      MetAllCovers(h, slots[1..], kids[1..], depth);
    }
  }

  /** Without markers it meets nothing else, and the tree is the plain one. */
  lemma {:induction false} MetWithin(h: Heap, v: Value, t: Tree, depth: nat)
    requires Closed(h) && InHeap(h, v) && Shows(h, v, t) && Markers(t) == multiset{}
    ensures Met(h, v, depth) <= InFull(t)
    ensures Depth(t) <= depth ==> Plain(h, v, depth) == Some(t)
    decreases t
  {
    hide MetAll, PlainAll, InFullAll, MarkersAll, DepthAll, ShowsAll;
    if t.Branch? && depth > 0 { MetAllWithin(h, h[t.id].slots, t.kids, depth - 1); }
  }

  lemma {:induction false} MetAllWithin(h: Heap, slots: seq<Slot>, kids: seq<Kid>, depth: nat)
    requires Closed(h) && AllInHeap(h, slots) && ShowsAll(h, slots, kids) && MarkersAll(kids) == multiset{}
    ensures MetAll(h, slots, depth) <= InFullAll(kids)
    ensures DepthAll(kids) <= depth ==> PlainAll(h, slots, depth) == Some(kids)
    decreases kids
  {
    hide Met, Plain, Markers, InFull, Depth, Shows;
    if kids != [] {
      NothingInSum(Markers(kids[0].tree), MarkersAll(kids[1..]));
      MetWithin(h, slots[0].value, kids[0].tree, depth);
      MetAllWithin(h, slots[1..], kids[1..], depth);
      assert kids == [kids[0]] + kids[1..] && kids[0] == Kid(slots[0].key, kids[0].tree);
    }
  }

  lemma NothingInSum(a: multiset<nat>, b: multiset<nat>)
    requires a + b == multiset{}
    ensures a == multiset{} && b == multiset{}
  {
    forall x ensures a[x] == 0 && b[x] == 0 {
      assert (a + b)[x] == 0;
    }
  }

  /** Writing everything out would come across some remembered object twice. */
  ghost predicate Shared(h: Heap, v: Value)
    requires Closed(h) && InHeap(h, v)
  {
    exists depth, id :: Met(h, v, depth)[id] >= 2
  }

  /** Markers are printed exactly where something is shared; without any, the tree is the plain one. */
  lemma MarkersMeanSharing(h: Heap, v: Value)
    requires Closed(h) && InHeap(h, v)
    ensures var t := Print(h, v, [], []).0;
            t.Some? ==>
              && (Markers(t.value) != multiset{} <==> Shared(h, v))
              && (!Shared(h, v) ==> forall depth :: Depth(t.value) <= depth ==> Plain(h, v, depth) == t)
  {
    var (r, after) := Print(h, v, [], []);
    PrintAdds(h, v, [], []);
    if r.Some? {
      var t := r.value;
      assert after[0..] == after;
      if Markers(t) != multiset{} {
        var id :| id in Markers(t);
        MetCovers(h, v, t, Depth(t));
        assert id in InFull(t);
        assert (InFull(t) + Markers(t))[id] >= 2;
        assert Met(h, v, Depth(t))[id] >= 2;
      } else {
        forall depth, id ensures Met(h, v, depth)[id] <= 1 {
          MetWithin(h, v, t, depth);
          DistinctCounts(after, id);
        }
        forall depth | Depth(t) <= depth ensures Plain(h, v, depth) == Some(t) {
          MetWithin(h, v, t, depth);
        }
      }
    }
  }

  // ----- when the printer gives up -----

  /** A regular expression that is reachable from itself. */
  ghost predicate SelfContained(h: Heap, p: seq<nat>) {
    |p| >= 2 && p[0] == p[|p| - 1] && p[0] in h && !h[p[0]].Tracked() && Walk(h, p)
  }

  /**
   * The order in which a plain depth-first search, which visits every object
   * once, comes across the objects that a value reaches.
   */
  function Discover(h: Heap, v: Value, met: seq<nat>): (r: seq<nat>)
    requires Closed(h) && InHeap(h, v)
    ensures met <= r
    decreases Unseen(h, met), 0
  {
    match v
    case Atom(_) => met
    case Refused => met
    case Ref(id) =>
      if id in met then met
      else
        assert id in Unseen(h, met) && id !in Unseen(h, met + [id]);
        DiscoverAll(h, h[id].slots, met + [id])
  }

  function DiscoverAll(h: Heap, slots: seq<Slot>, met: seq<nat>): (r: seq<nat>)
    requires Closed(h) && AllInHeap(h, slots)
    ensures met <= r
    decreases Unseen(h, met), 1 + |slots|
  {
    if slots == [] then met
    else
      var now := Discover(h, slots[0].value, met);
      assert Unseen(h, now) <= Unseen(h, met);
      assert Unseen(h, now) != Unseen(h, met) ==> Unseen(h, now) < Unseen(h, met);
      DiscoverAll(h, slots[1..], now)
  }

  ghost predicate Before(d: seq<nat>, x: nat, y: nat) {
    exists i, j :: 0 <= i < j < |d| && d[i] == x && d[j] == y
  }

  /** A cycle through a regular expression that is discovered before every remembered object of the cycle. */
  ghost predicate Fatal(h: Heap, d: seq<nat>, p: seq<nat>) {
    && SelfContained(h, p) && p[0] in d
    && forall k :: 0 <= k < |p| && IsTracked(h, p[k]) ==> Before(d, p[0], p[k])
  }

  ghost predicate HasFatal(h: Heap, d: seq<nat>) {
    exists p :: Fatal(h, d, p)
  }

  ghost predicate HasRefusedSlot(h: Heap, x: nat) {
    x in h && exists i :: 0 <= i < |h[x].slots| && h[x].slots[i].value.Refused?
  }

  /** Some object that is discovered contains a value the printer refuses. */
  ghost predicate HasRefused(h: Heap, d: seq<nat>) {
    exists x :: x in d && HasRefusedSlot(h, x)
  }

  ghost predicate Hopeless(h: Heap, d: seq<nat>) {
    HasFatal(h, d) || HasRefused(h, d)
  }

  lemma HopelessGrows(h: Heap, a: seq<nat>, b: seq<nat>)
    requires a <= b && Hopeless(h, a)
    ensures Hopeless(h, b)
  {
    if HasFatal(h, a) {
      FatalGrows(h, a, b);
    } else {
      var x :| x in a && HasRefusedSlot(h, x);
      var i :| 0 <= i < |a| && a[i] == x;
      assert b[i] == x;
    }
  }

  /** Some remembered object of the cycle is discovered before the regular expression it starts with. */
  ghost predicate Preceded(h: Heap, d: seq<nat>, p: seq<nat>)
    requires |p| > 0
  {
    exists k :: 0 <= k < |p| && IsTracked(h, p[k]) && Before(d, p[k], p[0])
  }

  lemma BeforeGrows(a: seq<nat>, b: seq<nat>, x: nat, y: nat)
    requires a <= b
    ensures Before(a, x, y) ==> Before(b, x, y)
  {
    if i, j :| 0 <= i < j < |a| && a[i] == x && a[j] == y {
      assert b[i] == x && b[j] == y;
    }
  }

  lemma BeforeLast(a: seq<nat>, x: nat, y: nat)
    requires x in a
    ensures Before(a + [y], x, y)
  {
    var i :| 0 <= i < |a| && a[i] == x;
    assert (a + [y])[i] == x && (a + [y])[|a|] == y;
  }

  lemma FatalGrows(h: Heap, a: seq<nat>, b: seq<nat>)
    requires a <= b && HasFatal(h, a)
    ensures HasFatal(h, b)
  {
    var p :| Fatal(h, a, p);
    forall k | 0 <= k < |p| && IsTracked(h, p[k]) ensures Before(b, p[0], p[k]) {
      BeforeGrows(a, b, p[0], p[k]);
    }
    assert Fatal(h, b, p);
  }

  lemma PrecededGrows(h: Heap, a: seq<nat>, b: seq<nat>, p: seq<nat>)
    requires |p| > 0 && a <= b && Preceded(h, a, p)
    ensures Preceded(h, b, p)
  {
    var k :| 0 <= k < |p| && IsTracked(h, p[k]) && Before(a, p[k], p[0]);
    BeforeGrows(a, b, p[k], p[0]);
  }

  /**
   * The printer and the search side by side: the same objects have been seen
   * and met; what is being printed is a walk that meets its remembered objects
   * in order; and a regular expression that has been met is being printed or
   * is `done`.
   */
  ghost predicate InStep(h: Heap, seen: seq<nat>, path: seq<nat>, met: seq<nat>, done: set<nat>) {
    && Distinct(seen) && Distinct(met)
    && (forall x :: x in seen <==> x in met && IsTracked(h, x))
    && (forall x :: x in path ==> x in met)
    && (forall x :: x in met && !IsTracked(h, x) ==> x in done || x in path)
    && AllDone(h, met, done)
  }

  ghost predicate PathOrdered(h: Heap, path: seq<nat>, met: seq<nat>) {
    && Walk(h, path)
    && (forall i :: 0 <= i < |path| ==> path[i] in h)
    && (forall i, j :: 0 <= i < j < |path| && IsTracked(h, path[j]) ==> Before(met, path[i], path[j]))
  }

  /** The value has been printed before, with all that it contains. */
  ghost predicate ValueDone(h: Heap, v: Value, met: seq<nat>, done: set<nat>) {
    && !v.Refused?
    && (v.Ref? ==> if IsTracked(h, v.id) then v.id in met else v.id in done)
  }

  ghost predicate SlotsDone(h: Heap, slots: seq<Slot>, met: seq<nat>, done: set<nat>) {
    forall i :: 0 <= i < |slots| ==> ValueDone(h, slots[i].value, met, done)
  }

  ghost predicate AllDone(h: Heap, met: seq<nat>, done: set<nat>) {
    forall x :: x in done ==> x in h && x in met && !IsTracked(h, x) && SlotsDone(h, h[x].slots, met, done)
  }

  ghost predicate Leads(h: Heap, path: seq<nat>, v: Value) {
    v.Ref? && path != [] ==> Edge(h, path[|path| - 1], v.id)
  }

  ghost predicate AllLead(h: Heap, path: seq<nat>, slots: seq<Slot>) {
    forall i :: 0 <= i < |slots| ==> Leads(h, path, slots[i].value)
  }

  lemma WalkSnoc(h: Heap, path: seq<nat>, id: nat)
    requires Walk(h, path) && (path != [] ==> Edge(h, path[|path| - 1], id))
    ensures Walk(h, path + [id])
  {
    var p := path + [id];
    forall i | 0 <= i < |p| - 1 ensures Edge(h, p[i], p[i + 1]) {
      if i + 1 < |path| { assert Edge(h, path[i], path[i + 1]); }
    }
  }

  lemma WalkDrop(h: Heap, path: seq<nat>, i: nat)
    requires Walk(h, path) && i <= |path|
    ensures Walk(h, path[i..])
  {
    forall j | 0 <= j < |path[i..]| - 1 ensures Edge(h, path[i..][j], path[i..][j + 1]) {
      assert Edge(h, path[i + j], path[i + j + 1]);
    }
  }

  /** Meeting again what is being printed closes a fatal cycle. */
  lemma ClosesCycle(h: Heap, path: seq<nat>, met: seq<nat>, id: nat)
    requires PathOrdered(h, path, met) && Leads(h, path, Ref(id)) && id in path && id in met && !IsTracked(h, id)
    ensures HasFatal(h, met)
  {
    var i :| 0 <= i < |path| && path[i] == id;
    var p := (path + [id])[i..];
    WalkSnoc(h, path, id);
    WalkDrop(h, path + [id], i);
    forall k | 0 <= k < |p| && IsTracked(h, p[k]) ensures Before(met, p[0], p[k]) {
      assert p[k] == path[i + k];
    }
    assert Fatal(h, met, p);
  }

  /** Going one object deeper. */
  lemma Deeper(h: Heap, path: seq<nat>, met: seq<nat>, now: seq<nat>, id: nat)
    requires Closed(h) && PathOrdered(h, path, met) && Leads(h, path, Ref(id)) && id in h && met <= now
    requires IsTracked(h, id) ==> now == met + [id] && forall x :: x in path ==> x in met
    ensures PathOrdered(h, path + [id], now) && AllLead(h, path + [id], h[id].slots)
  {
    var p := path + [id];
    WalkSnoc(h, path, id);
    forall i, j | 0 <= i < j < |p| && IsTracked(h, p[j]) ensures Before(now, p[i], p[j]) {
      if j < |path| {
        BeforeGrows(met, now, path[i], path[j]);
      } else {
        BeforeLast(met, path[i], id);
      }
    }
  }

  /** Printing again what is done meets nothing new, and gives up only on a fatal cycle. */
  lemma {:induction false} Again(h: Heap, v: Value, seen: seq<nat>, path: seq<nat>, met: seq<nat>, done: set<nat>)
    requires Closed(h) && InHeap(h, v) && InStep(h, seen, path, met, done) && PathOrdered(h, path, met)
    requires Leads(h, path, v) && ValueDone(h, v, met, done)
    ensures var (t, after) := Print(h, v, seen, path);
            && (t.Some? ==> after == seen)
            && (t.None? ==> HasFatal(h, met))
    decreases Unseen(h, seen), Unseen(h, path), 0
  {
    if v.Ref? && !IsTracked(h, v.id) {
      var id := v.id;
      if id in path {
        ClosesCycle(h, path, met, id);
      } else {
        assert id in Unseen(h, path) && id !in Unseen(h, path + [id]);
        Deeper(h, path, met, met, id);
        AgainAll(h, h[id].slots, seen, path + [id], met, done);
      }
    }
  }

  lemma {:induction false} AgainAll(h: Heap, slots: seq<Slot>, seen: seq<nat>, path: seq<nat>, met: seq<nat>, done: set<nat>)
    requires Closed(h) && AllInHeap(h, slots) && InStep(h, seen, path, met, done) && PathOrdered(h, path, met)
    requires AllLead(h, path, slots) && SlotsDone(h, slots, met, done)
    ensures var (ks, after) := PrintAll(h, slots, seen, path);
            && (ks.Some? ==> after == seen)
            && (ks.None? ==> HasFatal(h, met))
    decreases Unseen(h, seen), Unseen(h, path), 1 + |slots|
  {
    if slots != [] {
      Again(h, slots[0].value, seen, path, met, done);
      if Print(h, slots[0].value, seen, path).0.Some? {
        AgainAll(h, slots[1..], seen, path, met, done);
      }
    }
  }

  // ----- a cycle that is met at its regular expression is not survived -----

  lemma {:induction false} AvoidsPath(h: Heap, v: Value, seen: seq<nat>, path: seq<nat>, x: nat)
    requires Closed(h) && InHeap(h, v) && x in path && !IsTracked(h, x)
    ensures var t := Print(h, v, seen, path).0; t.Some? ==> x !in Printed(t.value)
    decreases Unseen(h, seen), Unseen(h, path), 0
  {
    if v.Ref? {
      var id := v.id;
      var (marked, now) := Filter(h, id, seen);
      if !marked && id !in path {
        assert IsTracked(h, id) ==> id in Unseen(h, seen) && id !in Unseen(h, now);
        assert !IsTracked(h, id) ==> id in Unseen(h, path) && id !in Unseen(h, path + [id]);
        AllAvoidPath(h, h[id].slots, now, path + [id], x);
      }
    }
  }

  lemma {:induction false} AllAvoidPath(h: Heap, slots: seq<Slot>, seen: seq<nat>, path: seq<nat>, x: nat)
    requires Closed(h) && AllInHeap(h, slots) && x in path && !IsTracked(h, x)
    ensures var ks := PrintAll(h, slots, seen, path).0; ks.Some? ==> x !in PrintedAll(ks.value)
    decreases Unseen(h, seen), Unseen(h, path), 1 + |slots|
  {
    if slots != [] {
      var (first, now) := Print(h, slots[0].value, seen, path);
      AvoidsPath(h, slots[0].value, seen, path, x);
      if first.Some? {
        assert Unseen(h, now) <= Unseen(h, seen);
        assert Unseen(h, now) != Unseen(h, seen) ==> Unseen(h, now) < Unseen(h, seen);
        AllAvoidPath(h, slots[1..], now, path, x);
      }
    }
  }

  lemma {:induction false} MarkersAreTracked(h: Heap, v: Value, t: Tree, x: nat)
    requires Shows(h, v, t) && x in Markers(t)
    ensures IsTracked(h, x)
    decreases t
  {
    if t.Branch? { AllMarkersAreTracked(h, h[t.id].slots, t.kids, x); }
  }

  lemma {:induction false} AllMarkersAreTracked(h: Heap, slots: seq<Slot>, kids: seq<Kid>, x: nat)
    requires ShowsAll(h, slots, kids) && x in MarkersAll(kids)
    ensures IsTracked(h, x)
    decreases kids
  {
    if x in Markers(kids[0].tree) {
      MarkersAreTracked(h, slots[0].value, kids[0].tree, x);
    } else {
      AllMarkersAreTracked(h, slots[1..], kids[1..], x);
    }
  }

  /** Objects on a walk through unseen objects are printed in full. */
  lemma {:induction false} WalkIsPrinted(h: Heap, v: Value, t: Tree, seen: seq<nat>, after: seq<nat>, p: seq<nat>, k: nat)
    requires Shows(h, v, t) && Adds(seen, after, InFull(t), Markers(t))
    requires k < |p| && Walk(h, p) && p[0] in Printed(t)
    requires forall i :: 0 <= i < |p| && IsTracked(h, p[i]) ==> p[i] !in seen
    ensures p[k] in Printed(t)
  {
    if k > 0 {
      WalkIsPrinted(h, v, t, seen, after, p, k - 1);
      assert Edge(h, p[k - 1], p[k]);
      EdgeShown(h, v, t, p[k - 1], p[k]);
      if p[k] in Markers(t) {
        MarkersAreTracked(h, v, t, p[k]);
        assert after == seen + after[|seen|..];
        InFullIsPrinted(h, v, t, p[k]);
      }
    }
  }

  lemma WhiteCycle(h: Heap, seen: seq<nat>, path: seq<nat>, p: seq<nat>)
    requires Closed(h) && Distinct(seen) && SelfContained(h, p)
    requires forall i :: 0 <= i < |p| && IsTracked(h, p[i]) ==> p[i] !in seen
    ensures Print(h, Ref(p[0]), seen, path).0.None?
  {
    var id, n := p[0], |p| - 2;
    var (r, after) := Print(h, Ref(id), seen, path);
    PrintAdds(h, Ref(id), seen, path);
    if r.Some? {
      var kids := r.value.kids;
      WalkIsPrinted(h, Ref(id), r.value, seen, after, p, n);
      assert Edge(h, p[n], id);
      AllAvoidPath(h, h[id].slots, seen, path + [id], id);
      if p[n] == id {
        var i :| 0 <= i < |h[id].slots| && h[id].slots[i].value == Ref(id);
        SlotShown(h, h[id].slots, kids, i);
      } else {
        EdgeAllShown(h, h[id].slots, kids, p[n], id);
      }
      AllMarkersAreTracked(h, h[id].slots, kids, id);
    }
  }

  // ----- the printer and the search in step -----

  ghost predicate Synced(h: Heap, seen: seq<nat>, path: seq<nat>, met: seq<nat>, done: set<nat>,
                         after: seq<nat>, now: seq<nat>, done': set<nat>, p: seq<nat>)
  {
    && InStep(h, after, path, now, done') && done <= done'
    && (SelfContained(h, p) && p[0] in now && p[0] !in met ==> Preceded(h, now, p))
  }

  lemma {:induction false} Sync(h: Heap, v: Value, seen: seq<nat>, path: seq<nat>, met: seq<nat>, done: set<nat>, p: seq<nat>)
    returns (done': set<nat>)
    requires Closed(h) && InHeap(h, v) && InStep(h, seen, path, met, done) && PathOrdered(h, path, met)
    requires Leads(h, path, v)
    ensures var (t, after) := Print(h, v, seen, path); var now := Discover(h, v, met);
            && (t.Some? ==> Synced(h, seen, path, met, done, after, now, done', p) && ValueDone(h, v, now, done'))
            && (t.None? ==> v.Refused? || Hopeless(h, now))
    decreases Unseen(h, seen), Unseen(h, path), 1
  {
    done' := done;
    if v.Ref? {
      if v.id in met {
        KnownInStep(h, v.id, seen, path, met, done);
      } else {
        done' := NewInStep(h, v.id, seen, path, met, done, p);
      }
    }
  }

  lemma KnownInStep(h: Heap, id: nat, seen: seq<nat>, path: seq<nat>, met: seq<nat>, done: set<nat>)
    requires Closed(h) && id in h && InStep(h, seen, path, met, done) && PathOrdered(h, path, met)
    requires Leads(h, path, Ref(id)) && id in met
    ensures var (t, after) := Print(h, Ref(id), seen, path);
            && (t.Some? ==> after == seen && ValueDone(h, Ref(id), met, done))
            && (t.None? ==> HasFatal(h, met))
  {
    if !IsTracked(h, id) {
      if id in path {
        ClosesCycle(h, path, met, id);
      } else {
        Again(h, Ref(id), seen, path, met, done);
      }
    }
  }

  lemma {:induction false} NewInStep(h: Heap, id: nat, seen: seq<nat>, path: seq<nat>, met: seq<nat>, done: set<nat>, p: seq<nat>)
    returns (done': set<nat>)
    requires Closed(h) && id in h && InStep(h, seen, path, met, done) && PathOrdered(h, path, met)
    requires Leads(h, path, Ref(id)) && id !in met
    ensures var (t, after) := Print(h, Ref(id), seen, path); var now := Discover(h, Ref(id), met);
            && (t.Some? ==> Synced(h, seen, path, met, done, after, now, done', p) && ValueDone(h, Ref(id), now, done'))
            && (t.None? ==> Hopeless(h, now))
    decreases Unseen(h, seen), Unseen(h, path), 0
  {
    var seen1 := Filter(h, id, seen).1;
    var met1, path1 := met + [id], path + [id];
    assert IsTracked(h, id) ==> id in Unseen(h, seen) && id !in Unseen(h, seen1);
    assert !IsTracked(h, id) ==> id in Unseen(h, path) && id !in Unseen(h, path1);
    Deeper(h, path, met, met1, id);
    DoneGrows(h, met, met1, done);
    done' := SyncAll(h, h[id].slots, seen1, path1, met1, done, p);
    var (ks, after) := PrintAll(h, h[id].slots, seen1, path1);
    var now := DiscoverAll(h, h[id].slots, met1);
    assert (met + [id])[|met|] == id && now[|met|] == id;
    assert (exists i :: 0 <= i < |h[id].slots| && h[id].slots[i].value.Refused?) ==> HasRefusedSlot(h, id);
    if ks.Some? {
      if !IsTracked(h, id) {
        assert SlotsDone(h, h[id].slots, now, done' + {id});
        MoreDone(h, now, done', id);
        done' := done' + {id};
      }
      if SelfContained(h, p) && p[0] == id {
        StartPreceded(h, seen, path, met, p);
        PrecededGrows(h, met1, now, p);
      }
    }
  }

  lemma DoneGrows(h: Heap, met: seq<nat>, now: seq<nat>, done: set<nat>)
    requires AllDone(h, met, done) && met <= now
    ensures AllDone(h, now, done)
  {
    forall x | x in done ensures SlotsDone(h, h[x].slots, now, done) {
      assert SlotsDone(h, h[x].slots, met, done);
      forall i | 0 <= i < |h[x].slots| ensures ValueDone(h, h[x].slots[i].value, now, done) {
        assert ValueDone(h, h[x].slots[i].value, met, done);
      }
    }
  }

  lemma MoreDone(h: Heap, met: seq<nat>, done: set<nat>, id: nat)
    requires AllDone(h, met, done) && id in h && id in met && !IsTracked(h, id) && SlotsDone(h, h[id].slots, met, done + {id})
    ensures AllDone(h, met, done + {id})
  {
    forall x | x in done ensures SlotsDone(h, h[x].slots, met, done + {id}) {
      forall i | 0 <= i < |h[x].slots| ensures ValueDone(h, h[x].slots[i].value, met, done + {id}) {
        assert ValueDone(h, h[x].slots[i].value, met, done);
      }
    }
  }

  /** A regular expression whose printing succeeds has on each of its cycles an object that was met before it. */
  lemma StartPreceded(h: Heap, seen: seq<nat>, path: seq<nat>, met: seq<nat>, p: seq<nat>)
    requires Closed(h) && Distinct(seen) && SelfContained(h, p) && Print(h, Ref(p[0]), seen, path).0.Some?
    requires forall x :: x in seen ==> x in met
    ensures Preceded(h, met + [p[0]], p)
  {
    if forall i :: 0 <= i < |p| && IsTracked(h, p[i]) ==> p[i] !in seen {
      WhiteCycle(h, seen, path, p);
    } else {
      var i :| 0 <= i < |p| && IsTracked(h, p[i]) && p[i] in seen;
      BeforeLast(met, p[i], p[0]);
    }
  }

  lemma {:induction false} SyncAll(h: Heap, slots: seq<Slot>, seen: seq<nat>, path: seq<nat>, met: seq<nat>, done: set<nat>, p: seq<nat>)
    returns (done': set<nat>)
    requires Closed(h) && AllInHeap(h, slots) && InStep(h, seen, path, met, done) && PathOrdered(h, path, met)
    requires AllLead(h, path, slots)
    ensures var (ks, after) := PrintAll(h, slots, seen, path); var now := DiscoverAll(h, slots, met);
            && (ks.Some? ==> Synced(h, seen, path, met, done, after, now, done', p) && SlotsDone(h, slots, now, done'))
            && (ks.None? ==> Hopeless(h, now) || exists i :: 0 <= i < |slots| && slots[i].value.Refused?)
    decreases Unseen(h, seen), Unseen(h, path), 1 + |slots|
  {
    done' := done;
    if slots != [] {
      var (first, seen1) := Print(h, slots[0].value, seen, path);
      var met1 := Discover(h, slots[0].value, met);
      var done1 := Sync(h, slots[0].value, seen, path, met, done, p);
      var now := DiscoverAll(h, slots[1..], met1);
      if first.None? {
        if !slots[0].value.Refused? { HopelessGrows(h, met1, now); }
      } else {
        assert Unseen(h, seen1) <= Unseen(h, seen);
        assert Unseen(h, seen1) != Unseen(h, seen) ==> Unseen(h, seen1) < Unseen(h, seen);
        OrderGrows(h, path, met, met1);
        done' := SyncAll(h, slots[1..], seen1, path, met1, done1, p);
        if i :| 0 <= i < |slots[1..]| && slots[1..][i].value.Refused? { assert slots[i + 1].value.Refused?; }
        if SelfContained(h, p) && Preceded(h, met1, p) {
          PrecededGrows(h, met1, now, p);
        }
      }
    }
  }

  lemma OrderGrows(h: Heap, path: seq<nat>, met: seq<nat>, now: seq<nat>)
    requires PathOrdered(h, path, met) && met <= now
    ensures PathOrdered(h, path, now)
  {
    forall i, j | 0 <= i < j < |path| && IsTracked(h, path[j]) ensures Before(now, path[i], path[j]) {
      BeforeGrows(met, now, path[i], path[j]);
    }
  }

  // ----- the search finds what is reachable -----

  lemma {:induction false} DiscoverCloses(h: Heap, v: Value, met: seq<nat>, x: nat, y: nat)
    requires Closed(h) && InHeap(h, v)
    ensures var now := Discover(h, v, met);
            && (v.Ref? ==> v.id in now)
            && (x in now && x !in met && Edge(h, x, y) ==> y in now)
            && (x in now && x !in met ==> Reaches(h, v, x))
    decreases Unseen(h, met), 0
  {
    if v.Ref? && v.id !in met {
      var id := v.id;
      assert id in Unseen(h, met) && id !in Unseen(h, met + [id]);
      AllDiscoverCloses(h, h[id].slots, met + [id], x, y);
      var now := DiscoverAll(h, h[id].slots, met + [id]);
      assert (met + [id])[|met|] == id;
      assert WalkBetween(h, [id], id, id);
      if x in now && x !in met && x != id {
        var i :| 0 <= i < |h[id].slots| && Reaches(h, h[id].slots[i].value, x);
        var q :| WalkBetween(h, q, h[id].slots[i].value.id, x);
        var p := [id] + q;
        assert Edge(h, id, q[0]);
        forall j | 0 <= j < |p| - 1 ensures Edge(h, p[j], p[j + 1]) {
          if j > 0 { assert Edge(h, q[j - 1], q[j]); }
        }
        assert WalkBetween(h, p, id, x);
      }
    }
  }

  lemma {:induction false} AllDiscoverCloses(h: Heap, slots: seq<Slot>, met: seq<nat>, x: nat, y: nat)
    requires Closed(h) && AllInHeap(h, slots)
    ensures var now := DiscoverAll(h, slots, met);
            && (forall i :: 0 <= i < |slots| && slots[i].value.Ref? ==> slots[i].value.id in now)
            && (x in now && x !in met && Edge(h, x, y) ==> y in now)
            && (x in now && x !in met ==> exists i :: 0 <= i < |slots| && Reaches(h, slots[i].value, x))
    decreases Unseen(h, met), 1 + |slots|
  {
    if slots != [] {
      var met1 := Discover(h, slots[0].value, met);
      assert Unseen(h, met1) <= Unseen(h, met);
      assert Unseen(h, met1) != Unseen(h, met) ==> Unseen(h, met1) < Unseen(h, met);
      DiscoverCloses(h, slots[0].value, met, x, y);
      AllDiscoverCloses(h, slots[1..], met1, x, y);
      var now := DiscoverAll(h, slots, met);
      forall i | 0 <= i < |slots| && slots[i].value.Ref? ensures slots[i].value.id in now {
        if i > 0 { assert slots[i] == slots[1..][i - 1]; }
      }
      if x in now && x !in met {
        if x in met1 {
          assert Reaches(h, slots[0].value, x);
        } else {
          var i :| 0 <= i < |slots[1..]| && Reaches(h, slots[1..][i].value, x);
          assert Reaches(h, slots[i + 1].value, x);
        }
      }
    }
  }

  lemma {:induction false} WalkIsDiscovered(h: Heap, v: Value, p: seq<nat>)
    requires Closed(h) && InHeap(h, v) && |p| >= 1 && Walk(h, p) && p[0] in Discover(h, v, [])
    ensures p[|p| - 1] in Discover(h, v, [])
  {
    if |p| > 1 {
      assert Edge(h, p[0], p[1]);
      DiscoverCloses(h, v, [], p[0], p[1]);
      WalkDrop(h, p, 1);
      WalkIsDiscovered(h, v, p[1..]);
    }
  }

  /** The search comes across exactly the objects that the value reaches. */
  lemma DiscoversReachable(h: Heap, v: Value, x: nat)
    requires Closed(h) && InHeap(h, v)
    ensures x in Discover(h, v, []) <==> Reaches(h, v, x)
  {
    DiscoverCloses(h, v, [], x, x);
    if Reaches(h, v, x) {
      var p :| WalkBetween(h, p, v.id, x);
      WalkIsDiscovered(h, v, p);
    }
  }

  /** A cycle made of regular expressions only. */
  ghost predicate RegExpCycle(h: Heap, p: seq<nat>) {
    SelfContained(h, p) && forall i :: 0 <= i < |p| ==> !IsTracked(h, p[i])
  }

  /** An object that is printed in full contains nothing the printer refuses. */
  lemma {:induction false} PrintedHasNoRefused(h: Heap, v: Value, t: Tree, x: nat)
    requires Shows(h, v, t) && x in Printed(t)
    ensures !HasRefusedSlot(h, x)
    decreases t
  {
    if x == t.id {
      AllShown(h, h[x].slots, t.kids);
    } else {
      AllPrintedHaveNoRefused(h, h[t.id].slots, t.kids, x);
    }
  }

  lemma {:induction false} AllPrintedHaveNoRefused(h: Heap, slots: seq<Slot>, kids: seq<Kid>, x: nat)
    requires ShowsAll(h, slots, kids) && x in PrintedAll(kids)
    ensures !HasRefusedSlot(h, x)
    decreases kids
  {
    if x in Printed(kids[0].tree) {
      PrintedHasNoRefused(h, slots[0].value, kids[0].tree, x);
    } else {
      AllPrintedHaveNoRefused(h, slots[1..], kids[1..], x);
    }
  }

  lemma {:induction false} AllShown(h: Heap, slots: seq<Slot>, kids: seq<Kid>)
    requires ShowsAll(h, slots, kids)
    ensures forall i :: 0 <= i < |slots| ==> !slots[i].value.Refused?
    decreases kids
  {
    if kids != [] {
      AllShown(h, slots[1..], kids[1..]);
      assert forall i :: 0 < i < |slots| ==> slots[i] == slots[1..][i - 1];
    }
  }

  /**
   * When exactly the printer gives up: if the value is one it refuses, or reaches
   * an object that contains one, or reaches a cycle on which a regular
   * expression comes first, in the order in which a depth-first search meets the
   * objects. So it gives up on every value that reaches a cycle of regular
   * expressions only; and where it refuses nothing that is reached, only on
   * values that reach a regular expression that contains itself.
   */
  lemma GivesUp(h: Heap, v: Value)
    requires Closed(h) && InHeap(h, v)
    ensures Print(h, v, [], []).0.None? <==> v.Refused? || Hopeless(h, Discover(h, v, []))
    ensures (exists p :: RegExpCycle(h, p) && Reaches(h, v, p[0])) ==> Print(h, v, [], []).0.None?
    ensures Print(h, v, [], []).0.None? ==>
              || v.Refused? || (exists x :: Reaches(h, v, x) && HasRefusedSlot(h, x))
              || (exists p :: SelfContained(h, p) && Reaches(h, v, p[0]))
  {
    var d := Discover(h, v, []);
    var r := Print(h, v, [], []).0;
    forall p | Fatal(h, d, p) ensures r.None? && Reaches(h, v, p[0]) {
      var done := Sync(h, v, [], [], [], {}, p);
      DiscoversReachable(h, v, p[0]);
      if r.Some? { NotBoth(h, d, p); }
    }
    forall x | x in d && HasRefusedSlot(h, x) ensures r.None? && Reaches(h, v, x) {
      DiscoversReachable(h, v, x);
      PrintsReachableOnce(h, v, x);
      PrintAdds(h, v, [], []);
      if r.Some? { PrintedHasNoRefused(h, v, r.value, x); }
    }
    var _ := Sync(h, v, [], [], [], {}, []);
    if p :| RegExpCycle(h, p) && Reaches(h, v, p[0]) {
      DiscoversReachable(h, v, p[0]);
      assert Fatal(h, d, p);
    }
  }

  /** Without any cycle, the printer gives up on an array that holds a BigInt. */
  lemma BigIntGivesUp(error: string)
    ensures var h: Heap := map[0 := Node(ArrayKind, [Slot("0", Refused)])];
            && Closed(h)
            && (forall x, y :: !Edge(h, x, y))
            && SafeToString(h, Ref(0), error) == CannotInspect(error)
  {
    var h: Heap := map[0 := Node(ArrayKind, [Slot("0", Refused)])];
    assert h[0].slots[0].value.Refused?;
    assert HasRefusedSlot(h, 0);
    assert 0 in Discover(h, Ref(0), []) by {
      DiscoverCloses(h, Ref(0), [], 0, 0);
    }
    GivesUp(h, Ref(0));
  }

  lemma NotBoth(h: Heap, d: seq<nat>, p: seq<nat>)
    requires Distinct(d) && Fatal(h, d, p)
    ensures !Preceded(h, d, p)
  {
  }

  // ----- the text -----

  function Quote(s: string): string {
    "\"" + s + "\""
  }

  function Render(t: Tree): string
    decreases t
  {
    match t
    case Leaf(text) => text
    case Marker(_) => Quote("[Circular]")
    case Branch(_, kind, kids) =>
      if kind.ArrayKind? then "[" + RenderAll(kids, true) + "]" else "{" + RenderAll(kids, false) + "}"
  }

  function RenderAll(kids: seq<Kid>, bare: bool): string
    decreases kids
  {
    if kids == [] then ""
    else
      (if bare then "" else Quote(kids[0].key) + ":")
      + Render(kids[0].tree)
      + (if |kids| == 1 then "" else "," + RenderAll(kids[1..], bare))
  }

  // ----- reading the text -----

  /** The structure a tree shows; a marker is the string it prints. */
  function Structure(t: Tree): Json
    decreases t
  {
    match t
    case Leaf(text) => Scalar(text)
    case Marker(_) => Scalar("\"[Circular]\"")
    case Branch(_, kind, kids) =>
      if kind.ArrayKind? then List(Items(kids)) else Record(Members(kids))
  }

  function Items(kids: seq<Kid>): seq<Json>
    decreases kids
  {
    if kids == [] then [] else [Structure(kids[0].tree)] + Items(kids[1..])
  }

  function Members(kids: seq<Kid>): seq<Member>
    decreases kids
  {
    if kids == [] then [] else [Member(kids[0].key, Structure(kids[0].tree))] + Members(kids[1..])
  }

  /** Leaves are spelled as JSON scalars, and keys need no escapes. */
  predicate Readable(t: Tree)
    decreases t
  {
    match t
    case Leaf(text) => ScalarText(text)
    case Marker(_) => true
    case Branch(_, _, kids) => AllReadable(kids)
  }

  predicate AllReadable(kids: seq<Kid>)
    decreases kids
  {
    kids != [] ==> PlainKey(kids[0].key) && Readable(kids[0].tree) && AllReadable(kids[1..])
  }

  lemma MarkerIsScalar()
    ensures ScalarText("\"[Circular]\"") && Quote("[Circular]") == "\"[Circular]\""
  {
    KeyEnds("[Circular]", "");
    assert "\"[Circular]\""[1..] == "[Circular]" + "\"" + "";
  }

  /**
   * The text of a tree reads as its structure: nothing of arrays, objects, keys
   * and leaves is lost, added or moved, a marker reads as its string, and reading
   * stops where the text does.
   */
  lemma {:induction false} ReadsBack(t: Tree, rest: string)
    requires Readable(t) && Ends(rest)
    ensures ReadValue(Render(t) + rest) == Got(Structure(t), rest)
    decreases t, 1
  {
    match t
    case Leaf(text) => ScalarReads(text, rest);
    case Marker(_) =>
      MarkerIsScalar();
      ScalarReads("\"[Circular]\"", rest);
    case Branch(id, kind, kids) =>
      if kids == [] {
        EmptyReads(t, rest);
      } else if kind.ArrayKind? {
        ItemsReadBack(kids, rest);
        ArrayReads(kids, rest);
      } else {
        MembersReadBack(kids, rest);
        ObjectReads(kids, rest);
      }
  }

  lemma EmptyReads(t: Tree, rest: string)
    requires t.Branch? && t.kids == []
    ensures ReadValue(Render(t) + rest) == Got(Structure(t), rest)
  {
    var s := Render(t) + rest;
    assert Render(t) == if t.kind.ArrayKind? then "[]" else "{}";
    assert s[2..] == rest;
  }

  /** A text of kids begins with no closing bracket. */
  lemma StartsInside(t: Tree)
    requires Readable(t)
    ensures Render(t) != "" && !Delimiter(Render(t)[0])
  {
    MarkerIsScalar();
  }

  lemma ArrayReads(kids: seq<Kid>, rest: string)
    requires kids != [] && AllReadable(kids)
    requires ReadItems(RenderAll(kids, true) + "]" + rest) == Got(Items(kids), rest)
    ensures ReadValue("[" + RenderAll(kids, true) + "]" + rest) == Got(List(Items(kids)), rest)
  {
    StartsInside(kids[0].tree);
    var inner := RenderAll(kids, true);
    assert inner[0] == Render(kids[0].tree)[0];
    var s := "[" + inner + "]" + rest;
    hide ReadItems, Render, RenderAll, Items;
    assert s[1] == inner[0] && s[1..] == inner + "]" + rest;
  }

  lemma ObjectReads(kids: seq<Kid>, rest: string)
    requires kids != []
    requires ReadMembers(RenderAll(kids, false) + "}" + rest) == Got(Members(kids), rest)
    ensures ReadValue("{" + RenderAll(kids, false) + "}" + rest) == Got(Record(Members(kids)), rest)
  {
    var inner := RenderAll(kids, false);
    assert inner[0] == '"';
    var s := "{" + inner + "}" + rest;
    hide ReadMembers, Render, RenderAll, Members;
    assert s[1] == inner[0] && s[1..] == inner + "}" + rest;
  }

  lemma Regroup(a: string, b: string, c: string, rest: string)
    ensures a + b + c + rest == a + (b + c + rest)
    ensures a + ("," + b) + c + rest == a + ("," + (b + c + rest))
    ensures a + (c + rest) == a + c + rest
  {
  }

  /** The text of one kid, and of several. */
  lemma RenderParts(kids: seq<Kid>, bare: bool)
    requires kids != []
    ensures var first := (if bare then "" else Quote(kids[0].key) + ":") + Render(kids[0].tree);
            RenderAll(kids, bare) == if |kids| == 1 then first else first + ("," + RenderAll(kids[1..], bare))
  {
    hide Render, Quote;
  }

  lemma {:induction false} ItemsReadBack(kids: seq<Kid>, rest: string)
    requires kids != [] && AllReadable(kids)
    ensures ReadItems(RenderAll(kids, true) + "]" + rest) == Got(Items(kids), rest)
    decreases kids, 0
  {
    var text, v := Render(kids[0].tree), Structure(kids[0].tree);
    RenderParts(kids, true);
    ItemsParts(kids);
    assert Readable(kids[0].tree) && AllReadable(kids[1..]);
    assert "" + text == text;
    hide ReadValue, ReadItems, Render, RenderAll, Items, Structure, Readable, AllReadable;
    if |kids| == 1 {
      ReadsBack(kids[0].tree, "]" + rest);
      Regroup(text, "", "]", rest);
      LastItem(text + ("]" + rest), v, rest);
    } else {
      var inner := RenderAll(kids[1..], true);
      var tail := inner + "]" + rest;
      ItemsReadBack(kids[1..], rest);
      ReadsBack(kids[0].tree, "," + tail);
      Regroup(text, inner, "]", rest);
      NextItem(text + ("," + tail), v, tail, Items(kids[1..]), rest);
    }
  }

  lemma ItemsParts(kids: seq<Kid>)
    requires kids != []
    ensures Items(kids) == if |kids| == 1 then [Structure(kids[0].tree)] else [Structure(kids[0].tree)] + Items(kids[1..])
  {
    hide Structure;
    if |kids| == 1 { assert kids[1..] == []; }
  }

  lemma {:induction false} MembersReadBack(kids: seq<Kid>, rest: string)
    requires kids != [] && AllReadable(kids)
    ensures ReadMembers(RenderAll(kids, false) + "}" + rest) == Got(Members(kids), rest)
    decreases kids, 0
  {
    var key, text, v := kids[0].key, Render(kids[0].tree), Structure(kids[0].tree);
    var first := Quote(key) + ":" + text;
    RenderParts(kids, false);
    MembersParts(kids);
    assert Readable(kids[0].tree) && AllReadable(kids[1..]) && PlainKey(key);
    FirstMember(key, text);
    hide ReadValue, ReadMember, ReadMembers, Render, RenderAll, Members, Structure, Readable, AllReadable, Quote, PlainKey;
    if |kids| == 1 {
      ReadsBack(kids[0].tree, "}" + rest);
      MemberReads(key, text, v, "}" + rest);
      Regroup(first, "", "}", rest);
      LastMember(first + ("}" + rest), Member(key, v), rest);
    } else {
      var inner := RenderAll(kids[1..], false);
      var tail := inner + "}" + rest;
      MembersReadBack(kids[1..], rest);
      ReadsBack(kids[0].tree, "," + tail);
      MemberReads(key, text, v, "," + tail);
      Regroup(first, inner, "}", rest);
      NextMember(first + ("," + tail), Member(key, v), tail, Members(kids[1..]), rest);
    }
  }

  lemma FirstMember(key: string, text: string)
    ensures Quote(key) + ":" + text == "\"" + key + "\":" + text
  {
    assert Quote(key) + ":" == "\"" + key + "\":";
  }

  lemma MembersParts(kids: seq<Kid>)
    requires kids != []
    ensures var m := Member(kids[0].key, Structure(kids[0].tree));
            Members(kids) == if |kids| == 1 then [m] else [m] + Members(kids[1..])
  {
    hide Structure;
    if |kids| == 1 { assert kids[1..] == []; }
  }

  const TOO_LONG := "Output omitted for a large object that exceeds the limits"

  function CannotInspect(error: string): string {
    "Output omitted for an object that cannot be inspected ('" + error + "')"
  }

  /** `error` is the printer's message for the value it gives up on. */
  function SafeToString(h: Heap, v: Value, error: string): string
    requires Closed(h) && InHeap(h, v)
  {
    match Print(h, v, [], []).0
    case None => CannotInspect(error)
    case Some(t) => if |Render(t)| > MAX_LENGTH then TOO_LONG else Render(t)
  }

  /**
   * A value in which nothing is shared and nothing is refused, and on whose cycles
   * no regular expression comes first, is printed as the plain printer prints
   * it, unless that is too long. What else there is in the heap does not matter.
   */
  lemma PlainUnlessShared(h: Heap, v: Value, error: string)
    requires Closed(h) && InHeap(h, v)
    requires !Shared(h, v) && !v.Refused? && !Hopeless(h, Discover(h, v, []))
    ensures exists depth ::
              && Plain(h, v, depth).Some?
              && var t := Plain(h, v, depth).value; var text := Render(t);
                 && SafeToString(h, v, error) == (if |text| > 100000 then TOO_LONG else text)
                 && (WellSpelled(h, v) ==> ReadValue(text) == Got(Structure(t), ""))
  {
    GivesUp(h, v);
    MarkersMeanSharing(h, v);
    PrintAdds(h, v, [], []);
    var t := Print(h, v, [], []).0.value;
    assert Plain(h, v, Depth(t)) == Some(t);
    if WellSpelled(h, v) {
      ShownIsReadable(h, v, t);
      ReadsBack(t, "");
      assert Render(t) + "" == Render(t);
    }
  }

  /** The atoms are spelled as JSON scalars, and the keys need no escapes. */
  ghost predicate WellSpelled(h: Heap, v: Value) {
    && (v.Atom? ==> ScalarText(v.text))
    && forall id :: id in h ==> SlotsSpelled(h[id].slots)
  }

  ghost predicate SlotsSpelled(slots: seq<Slot>) {
    forall i :: 0 <= i < |slots| ==>
      PlainKey(slots[i].key) && (slots[i].value.Atom? ==> ScalarText(slots[i].value.text))
  }

  lemma {:induction false} ShownIsReadable(h: Heap, v: Value, t: Tree)
    requires Shows(h, v, t) && WellSpelled(h, v)
    ensures Readable(t)
    decreases t
  {
    if t.Branch? { AllShownAreReadable(h, h[t.id].slots, t.kids); }
  }

  lemma {:induction false} AllShownAreReadable(h: Heap, slots: seq<Slot>, kids: seq<Kid>)
    requires ShowsAll(h, slots, kids) && SlotsSpelled(slots) && forall id :: id in h ==> SlotsSpelled(h[id].slots)
    ensures AllReadable(kids)
    decreases kids
  {
    if kids != [] {
      ShownIsReadable(h, slots[0].value, kids[0].tree);
      AllShownAreReadable(h, slots[1..], kids[1..]);
    }
  }

  /**
   * Whatever is shared, the text that is printed for a value that is not too long
   * reads as the structure of the tree that shows it, with `[Circular]` in
   * place of what has been seen.
   */
  lemma TextReadsBack(h: Heap, v: Value, error: string)
    requires Closed(h) && InHeap(h, v) && WellSpelled(h, v)
    ensures var t := Print(h, v, [], []).0;
            if t.None? then
              SafeToString(h, v, error) == "Output omitted for an object that cannot be inspected ('" + error + "')"
            else
              && Shows(h, v, t.value)
              && ReadValue(Render(t.value)) == Got(Structure(t.value), "")
              && SafeToString(h, v, error) ==
                   if |Render(t.value)| > 100000 then "Output omitted for a large object that exceeds the limits"
                   else Render(t.value)
  {
    PrintAdds(h, v, [], []);
    var t := Print(h, v, [], []).0;
    if t.Some? {
      ShownIsReadable(h, v, t.value);
      ReadsBack(t.value, "");
      assert Render(t.value) + "" == Render(t.value);
    }
  }

  // ----- the walk in place -----

  class Inspector {
    const heap: Heap
    var seen: seq<nat>

    constructor (heap: Heap)
      ensures this.heap == heap && seen == []
    {
      this.heap, seen := heap, [];
    }

    /** The filter, called for every value before it is printed. */
    method Replace(id: nat) returns (marked: bool)
      modifies this
      ensures (marked, seen) == Filter(heap, id, old(seen))
    {
      if IsTracked(heap, id) {
        if id in seen { return true; }
        seen := seen + [id];
      }
      return false;
    }

    method Stringify(v: Value, path: seq<nat>) returns (t: Option<Tree>)
      requires Closed(heap) && InHeap(heap, v)
      modifies this
      ensures (t, seen) == Print(heap, v, old(seen), path)
      decreases Unseen(heap, seen), Unseen(heap, path), 0
    {
      if v.Atom? { return Some(Leaf(v.text)); }
      if v.Refused? { return None; }
      var id := v.id;
      var marked := Replace(id);
      if marked { return Some(Marker(id)); }
      if id in path { return None; }
      assert IsTracked(heap, id) ==> id in Unseen(heap, old(seen)) && id !in Unseen(heap, seen);
      assert !IsTracked(heap, id) ==> id in Unseen(heap, path) && id !in Unseen(heap, path + [id]);
      var kids := StringifyAll(heap[id].slots, path + [id]);
      return if kids.None? then None else Some(Branch(id, heap[id].kind, kids.value));
    }

    method StringifyAll(slots: seq<Slot>, path: seq<nat>) returns (r: Option<seq<Kid>>)
      requires Closed(heap) && AllInHeap(heap, slots)
      modifies this
      ensures (r, seen) == PrintAll(heap, slots, old(seen), path)
      decreases Unseen(heap, seen), Unseen(heap, path), 1 + |slots|
    {
      var kids: seq<Kid> := [];
      ghost var start := seen;
      assert slots[0..] == slots && Prepend([], PrintAll(heap, slots, start, path)) == PrintAll(heap, slots, start, path) by {
        ghost var r := PrintAll(heap, slots, start, path).0;
        if r.Some? { assert [] + r.value == r.value; }
      }
      for i := 0 to |slots|
        invariant start <= seen && |kids| == i
        invariant PrintAll(heap, slots, start, path) == Prepend(kids, PrintAll(heap, slots[i..], seen, path))
      {
        assert Unseen(heap, seen) <= Unseen(heap, start);
        assert Unseen(heap, seen) != Unseen(heap, start) ==> Unseen(heap, seen) < Unseen(heap, start);
        var kid := Stringify(slots[i].value, path);
        if kid.None? { return None; }
        assert slots[i..][0] == slots[i] && slots[i..][1..] == slots[i + 1..];
        PrependTwice(kids, Kid(slots[i].key, kid.value), PrintAll(heap, slots[i + 1..], seen, path));
        kids := kids + [Kid(slots[i].key, kid.value)];
      }
      assert kids + [] == kids;
      return Some(kids);
    }

    static ghost function Prepend(kids: seq<Kid>, r: (Option<seq<Kid>>, seq<nat>)): (Option<seq<Kid>>, seq<nat>) {
      match r.0
      case None => r
      case Some(ks) => (Some(kids + ks), r.1)
    }

    static lemma PrependTwice(kids: seq<Kid>, kid: Kid, r: (Option<seq<Kid>>, seq<nat>))
      ensures Prepend(kids, Prepend([kid], r)) == Prepend(kids + [kid], r)
    {
      if r.0.Some? { assert kids + ([kid] + r.0.value) == kids + [kid] + r.0.value; }
    }

    method Inspect(v: Value, error: string) returns (text: string)
      requires Closed(heap) && InHeap(heap, v) && seen == []
      modifies this
      ensures text == SafeToString(heap, v, error)
    {
      var t := Stringify(v, []);
      if t.None? { return CannotInspect(error); }
      var res := Render(t.value);
      return if |res| > MAX_LENGTH then TOO_LONG else res;
    }
  }
}
