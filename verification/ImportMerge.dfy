/**
 * Merging the imports of a file by module. A line is either a named import of
 * a module, of types or of values, or any other text; names are trimmed and
 * not empty.
 */
module ImportMerge {
  import opened Common

  datatype Line =
    | Import(isType: bool, names: seq<string>, mod_: string)
    | Plain(text: string)

  const PLACEHOLDER := "__IMPORT_PLACEHOLDER__"
  const TYPE_PREFIX := "type "

  /** What has been collected for a module, in order and with repetitions. */
  datatype Entry = Entry(types: seq<string>, values: seq<string>)

  const NoNames := Entry([], [])

  function Add(e: Entry, l: Line): Entry
    requires l.Import?
  {
    if l.isType then e.(types := e.types + l.names) else e.(values := e.values + l.names)
  }

  /** The elements of a sequence in the order in which they first occur. */
  function Unique(names: seq<string>): (u: seq<string>) {
    if names == [] then []
    else
      var u := Unique(names[..|names| - 1]);
      var last := names[|names| - 1];
      if last in u then u else u + [last]
  }

  function Prefix(names: seq<string>): (p: seq<string>)
    ensures |p| == |names| && forall i :: 0 <= i < |p| ==> p[i] == TYPE_PREFIX + names[i]
  {
    seq(|names|, i requires 0 <= i < |names| => TYPE_PREFIX + names[i])
  }

  /** The one import line a module gets. */
  function Render(e: Entry, mod_: string): Line {
    var types, values := Unique(e.types), Unique(e.values);
    if values != [] && types != [] then Import(false, values + Prefix(types), mod_)
    else if values != [] then Import(false, values, mod_)
    else Import(true, types, mod_)
  }

  // ---- reference definitions -------------------------------------------------------

  /** All that the lines import from a module. */
  function Collected(lines: seq<Line>, mod_: string): Entry {
    if lines == [] then NoNames
    else
      var e := Collected(lines[..|lines| - 1], mod_);
      var l := lines[|lines| - 1];
      if l.Import? && l.mod_ == mod_ then Add(e, l) else e
  }

  predicate Mentions(lines: seq<Line>, mod_: string) {
    exists i :: 0 <= i < |lines| && lines[i].Import? && lines[i].mod_ == mod_
  }

  /** The lines without the imports of a module that an earlier line already imports from. */
  function FirstOccurrences(lines: seq<Line>): seq<Line> {
    if lines == [] then []
    else
      var before := lines[..|lines| - 1];
      var l := lines[|lines| - 1];
      if l.Import? && Mentions(before, l.mod_) then FirstOccurrences(before) else FirstOccurrences(before) + [l]
  }

  predicate IsPlaceholder(l: Line) {
    l.Plain? && PLACEHOLDER <= l.text
  }

  /** What becomes of a kept line. A text that looks like a placeholder is taken for one. */
  function Replace(lines: seq<Line>, kept: Line): Option<Line> {
    if kept.Import? then Some(Render(Collected(lines, kept.mod_), kept.mod_))
    else if IsPlaceholder(kept) then
      var mod_ := kept.text[|PLACEHOLDER|..];
      if Mentions(lines, mod_) then Some(Render(Collected(lines, mod_), mod_)) else None
    else Some(kept)
  }

  function ReplaceAll(lines: seq<Line>, kept: seq<Line>): Option<seq<Line>> {
    if kept == [] then Some([])
    else
      match (ReplaceAll(lines, kept[..|kept| - 1]), Replace(lines, kept[|kept| - 1]))
      case (Some(out), Some(l)) => Some(out + [l])
      case _ => None
  }

  /** None stands for the exception at a placeholder of an unknown module. */
  function Merge(lines: seq<Line>): Option<seq<Line>> {
    ReplaceAll(lines, FirstOccurrences(lines))
  }

  // ---- the two passes of the original ------------------------------------------------

  datatype Slot = Place(mod_: string) | Text(text: string)

  function SlotOf(l: Line): Slot {
    if l.Import? then Place(l.mod_) else Text(l.text)
  }

  function Slots(lines: seq<Line>): (s: seq<Slot>)
    ensures |s| == |lines| && forall i :: 0 <= i < |s| ==> s[i] == SlotOf(lines[i])
  {
    seq(|lines|, i requires 0 <= i < |lines| => SlotOf(lines[i]))
  }

  lemma Snoc<T>(s: seq<T>, i: nat)
    requires i < |s|
    ensures s[..i + 1][..i] == s[..i] && s[..i + 1][i] == s[i] && |s[..i + 1]| == i + 1
  {
  }

  lemma MentionsNext(lines: seq<Line>, i: nat, m: string)
    requires i < |lines|
    ensures Mentions(lines[..i + 1], m) <==> Mentions(lines[..i], m) || (lines[i].Import? && lines[i].mod_ == m)
  {
    if Mentions(lines[..i], m) {
      var k :| 0 <= k < i && lines[..i][k].Import? && lines[..i][k].mod_ == m;
      assert lines[..i + 1][k] == lines[..i][k];
    }
    if Mentions(lines[..i + 1], m) {
      var k :| 0 <= k < i + 1 && lines[..i + 1][k].Import? && lines[..i + 1][k].mod_ == m;
      if k < i { assert lines[..i][k] == lines[..i + 1][k]; }
    }
    assert lines[..i + 1][i] == lines[i];
  }

  lemma SlotsNext(lines: seq<Line>, i: nat)
    requires i < |lines|
    ensures FirstOccurrences(lines[..i + 1]) ==
              if lines[i].Import? && Mentions(lines[..i], lines[i].mod_) then FirstOccurrences(lines[..i])
              else FirstOccurrences(lines[..i]) + [lines[i]]
    ensures Slots(FirstOccurrences(lines[..i]) + [lines[i]]) == Slots(FirstOccurrences(lines[..i])) + [SlotOf(lines[i])]
    ensures forall m :: Collected(lines[..i + 1], m) ==
              if lines[i].Import? && lines[i].mod_ == m then Add(Collected(lines[..i], m), lines[i])
              else Collected(lines[..i], m)
  {
    Snoc(lines, i);
  }

  method MergeDuplicateImports(lines: seq<Line>) returns (out: Option<seq<Line>>)
    ensures out == Merge(lines)
  {
    var importsByModule: map<string, Entry> := map[];
    var otherLines: seq<Slot> := [];
    hide FirstOccurrences, Collected, Mentions;
    Beginnings();
    assert lines[..0] == [];
    for i := 0 to |lines|
      invariant forall m :: m in importsByModule <==> Mentions(lines[..i], m)
      invariant forall m :: m in importsByModule ==> importsByModule[m] == Collected(lines[..i], m)
      invariant forall m :: m !in importsByModule ==> Collected(lines[..i], m) == NoNames
      invariant otherLines == Slots(FirstOccurrences(lines[..i]))
    {
      var line := lines[i];
      SlotsNext(lines, i);
      forall m ensures Mentions(lines[..i + 1], m) <==> Mentions(lines[..i], m) || (line.Import? && line.mod_ == m) {
        MentionsNext(lines, i, m);
      }
      if line.Import? {
        var entry := if line.mod_ in importsByModule then importsByModule[line.mod_] else NoNames;
        if line.mod_ !in importsByModule {
          otherLines := otherLines + [Place(line.mod_)];
        }
        importsByModule := importsByModule[line.mod_ := Add(entry, line)];
      } else {
        otherLines := otherLines + [Text(line.text)];
      }
    }
    assert lines[..|lines|] == lines;
    out := FillIn(lines, importsByModule, otherLines);
  }

  method FillIn(ghost lines: seq<Line>, importsByModule: map<string, Entry>, otherLines: seq<Slot>)
    returns (out: Option<seq<Line>>)
    requires forall m :: m in importsByModule <==> Mentions(lines, m)
    requires forall m :: m in importsByModule ==> importsByModule[m] == Collected(lines, m)
    requires otherLines == Slots(FirstOccurrences(lines))
    ensures out == Merge(lines)
  {
    hide FirstOccurrences, Collected, Mentions, ReplaceAll, Render;
    ghost var kept := FirstOccurrences(lines);
    var result := [];
    ReplaceNone(lines, kept);
    KeptMentioned(lines);
    for i := 0 to |otherLines|
      invariant ReplaceAll(lines, kept[..i]) == Some(result)
    {
      ReplaceNext(lines, kept, i);
      var slot := otherLines[i];
      assert slot == SlotOf(kept[i]);
      var isPlace := slot.Place? || PLACEHOLDER <= slot.text;
      if isPlace {
        var mod_ := if slot.Place? then slot.mod_ else slot.text[|PLACEHOLDER|..];
        if mod_ !in importsByModule {
          ReplaceFails(lines, kept, i + 1);
          return None;
        }
        result := result + [Render(importsByModule[mod_], mod_)];
      } else {
        result := result + [Plain(slot.text)];
      }
    }
    assert kept[..|otherLines|] == kept;
    out := Some(result);
  }

  lemma Beginnings()
    ensures FirstOccurrences([]) == [] && Slots([]) == []
    ensures forall m :: !Mentions([], m) && Collected([], m) == NoNames
  {
  }

  lemma ReplaceNone(lines: seq<Line>, kept: seq<Line>)
    ensures ReplaceAll(lines, kept[..0]) == Some([])
  {
  }

  lemma ReplaceNext(lines: seq<Line>, kept: seq<Line>, i: nat)
    requires i < |kept|
    ensures ReplaceAll(lines, kept[..i + 1]) ==
              match (ReplaceAll(lines, kept[..i]), Replace(lines, kept[i]))
              case (Some(out), Some(l)) => Some(out + [l])
              case _ => None
  {
    Snoc(kept, i);
  }

  lemma {:induction false} ReplaceFails(lines: seq<Line>, kept: seq<Line>, i: nat)
    requires i <= |kept| && ReplaceAll(lines, kept[..i]) == None
    ensures ReplaceAll(lines, kept) == None
    decreases |kept| - i
  {
    if i == |kept| {
      assert kept[..i] == kept;
    } else {
      ReplaceNext(lines, kept, i);
      ReplaceFails(lines, kept, i + 1);
    }
  }

  // ---- structure: one line per module, at its first occurrence --------------------------

  predicate DistinctModules(lines: seq<Line>) {
    forall j, k :: 0 <= j < k < |lines| && lines[j].Import? && lines[k].Import? ==> lines[j].mod_ != lines[k].mod_
  }

  lemma FirstNext(lines: seq<Line>)
    requires lines != []
    ensures var before, l := lines[..|lines| - 1], lines[|lines| - 1];
            FirstOccurrences(lines) ==
              if l.Import? && Mentions(before, l.mod_) then FirstOccurrences(before) else FirstOccurrences(before) + [l]
  {
  }

  lemma SplitLast(lines: seq<Line>)
    requires lines != []
    ensures lines == lines[..|lines| - 1] + [lines[|lines| - 1]]
  {
  }

  lemma MentionsSnoc(kept: seq<Line>, l: Line, m: string)
    ensures Mentions(kept + [l], m) <==> Mentions(kept, m) || (l.Import? && l.mod_ == m)
  {
    var all := kept + [l];
    assert all[..|kept|] == kept && all[..|kept| + 1] == all;
    MentionsNext(all, |kept|, m);
  }

  /** A kept line is a line of the file, and every line that is not an import is kept. */
  lemma {:induction false} KeptIn(lines: seq<Line>, l: Line)
    ensures l in FirstOccurrences(lines) ==> l in lines
    ensures l.Plain? && l in lines ==> l in FirstOccurrences(lines)
  {
    if lines != [] {
      var before, last := lines[..|lines| - 1], lines[|lines| - 1];
      KeptIn(before, l);
      FirstNext(lines);
      SplitLast(lines);
      hide FirstOccurrences, Mentions;
      assert l in lines <==> l in before || l == last;
    }
  }

  /** The kept lines import from the same modules. */
  lemma {:induction false} KeptMentions(lines: seq<Line>, m: string)
    ensures Mentions(FirstOccurrences(lines), m) <==> Mentions(lines, m)
  {
    if lines != [] {
      var before, last := lines[..|lines| - 1], lines[|lines| - 1];
      KeptMentions(before, m);
      FirstNext(lines);
      SplitLast(lines);
      hide FirstOccurrences, Mentions;
      MentionsSnoc(before, last, m);
      MentionsSnoc(FirstOccurrences(before), last, m);
    }
  }

  lemma {:induction false} KeptDistinct(lines: seq<Line>)
    ensures DistinctModules(FirstOccurrences(lines))
  {
    if lines != [] {
      var before, last := lines[..|lines| - 1], lines[|lines| - 1];
      KeptDistinct(before);
      FirstNext(lines);
      hide FirstOccurrences;
      if last.Import? { KeptMentions(before, last.mod_); }
    }
  }

  lemma KeptMentioned(lines: seq<Line>)
    ensures forall k :: 0 <= k < |FirstOccurrences(lines)| && FirstOccurrences(lines)[k].Import? ==>
              Mentions(lines, FirstOccurrences(lines)[k].mod_)
  {
    hide FirstOccurrences;
    var kept := FirstOccurrences(lines);
    forall k | 0 <= k < |kept| && kept[k].Import? ensures Mentions(lines, kept[k].mod_) {
      KeptMentions(lines, kept[k].mod_);
    }
  }

  /** No other line is mistaken for a placeholder. */
  predicate NoPlaceholders(lines: seq<Line>) {
    forall i :: 0 <= i < |lines| ==> !IsPlaceholder(lines[i])
  }

  /** What a line of the file stands for: a text that spells a placeholder stands for an import. */
  function Stands(l: Line): Slot {
    if IsPlaceholder(l) then Place(l.text[|PLACEHOLDER|..]) else SlotOf(l)
  }

  lemma {:induction false} ReplaceAllLines(lines: seq<Line>, kept: seq<Line>)
    requires ReplaceAll(lines, kept).Some?
    ensures |ReplaceAll(lines, kept).value| == |kept|
    ensures forall k :: 0 <= k < |kept| ==> Replace(lines, kept[k]) == Some(ReplaceAll(lines, kept).value[k])
  {
    if kept != [] {
      var n := |kept| - 1;
      ReplaceAllLines(lines, kept[..n]);
      forall k | 0 <= k < |kept| ensures Replace(lines, kept[k]) == Some(ReplaceAll(lines, kept).value[k]) {
        if k < n { assert kept[k] == kept[..n][k]; }
      }
    }
  }

  /** What one kept line becomes. */
  predicate Became(lines: seq<Line>, kept: Line, l: Line) {
    && SlotOf(l) == Stands(kept) && !IsPlaceholder(l)
    && (l.Import? ==> l == Render(Collected(lines, l.mod_), l.mod_) && Mentions(lines, l.mod_))
  }

  lemma ReplacedLine(lines: seq<Line>, kept: Line, l: Line)
    requires Replace(lines, kept) == Some(l)
    requires kept.Import? ==> Mentions(lines, kept.mod_)
    ensures Became(lines, kept, l)
  {
    hide Collected;
    if kept.Import? {
      RenderShape(Collected(lines, kept.mod_), kept.mod_);
    } else if IsPlaceholder(kept) {
      var m := kept.text[|PLACEHOLDER|..];
      RenderShape(Collected(lines, m), m);
    }
  }

  /**
   * The merged file has one line for each kept line: other lines are kept as
   * they are and in order, and every module imported from has its import line
   * where it was first imported. A text line that spells the placeholder of an
   * imported module becomes another import line, so modules have one line each
   * exactly if there is no such line.
   */
  lemma OneLinePerModule(lines: seq<Line>)
    requires Merge(lines).Some?
    ensures var out, kept := Merge(lines).value, FirstOccurrences(lines);
            && |out| == |kept|
            && (forall k :: 0 <= k < |out| ==> SlotOf(out[k]) == Stands(kept[k]))
            && (forall k :: 0 <= k < |out| && out[k].Import? ==>
                  out[k] == Render(Collected(lines, out[k].mod_), out[k].mod_))
            && (forall m :: Mentions(out, m) <==> Mentions(lines, m))
            && NoPlaceholders(out)
            && (DistinctModules(out) <==> NoPlaceholders(lines))
  {
    var kept := FirstOccurrences(lines);
    ReplaceAllLines(lines, kept);
    KeptDistinct(lines);
    KeptMentioned(lines);
    var out := Merge(lines).value;
    hide FirstOccurrences, Collected, ReplaceAll, Replace, Render, Merge, Became, Mentions, IsPlaceholder;
    forall k | 0 <= k < |out| ensures Became(lines, kept[k], out[k]) {
      ReplacedLine(lines, kept[k], out[k]);
    }
    forall m ensures Mentions(kept, m) <==> Mentions(lines, m) {
      KeptMentions(lines, m);
    }
    BecameFacts(lines, kept, out);
    PlaceholdersKept(lines, kept);
  }

  lemma BecameFacts(lines: seq<Line>, kept: seq<Line>, out: seq<Line>)
    requires |kept| == |out| && forall k :: 0 <= k < |out| ==> Became(lines, kept[k], out[k])
    requires forall m :: Mentions(kept, m) <==> Mentions(lines, m)
    requires DistinctModules(kept)
    ensures forall k :: 0 <= k < |out| ==> SlotOf(out[k]) == Stands(kept[k])
    ensures forall k :: 0 <= k < |out| && out[k].Import? ==> out[k] == Render(Collected(lines, out[k].mod_), out[k].mod_)
    ensures forall m :: Mentions(out, m) <==> Mentions(lines, m)
    ensures NoPlaceholders(out)
    ensures DistinctModules(out) <==> NoPlaceholders(kept)
  {
    hide Collected, Render;
    forall m ensures Mentions(out, m) <==> Mentions(lines, m) {
      SameMentions(lines, kept, out, m);
    }
    DistinctUnlessPlaceholder(lines, kept, out);
  }

  lemma SameMentions(lines: seq<Line>, kept: seq<Line>, out: seq<Line>, m: string)
    requires |kept| == |out| && forall k :: 0 <= k < |out| ==> Became(lines, kept[k], out[k])
    requires Mentions(kept, m) <==> Mentions(lines, m)
    ensures Mentions(out, m) <==> Mentions(lines, m)
  {
    hide Collected, Render;
    if Mentions(kept, m) {
      var k :| 0 <= k < |kept| && kept[k].Import? && kept[k].mod_ == m;
      assert Became(lines, kept[k], out[k]);
    }
    if Mentions(out, m) {
      var k :| 0 <= k < |out| && out[k].Import? && out[k].mod_ == m;
      assert Became(lines, kept[k], out[k]);
    }
  }

  lemma PlaceholdersKept(lines: seq<Line>, kept: seq<Line>)
    requires kept == FirstOccurrences(lines)
    ensures NoPlaceholders(kept) <==> NoPlaceholders(lines)
  {
    hide FirstOccurrences;
    forall k | 0 <= k < |kept| && IsPlaceholder(kept[k]) ensures !NoPlaceholders(lines) {
      KeptIn(lines, kept[k]);
      var i :| 0 <= i < |lines| && lines[i] == kept[k];
    }
    forall i | 0 <= i < |lines| && IsPlaceholder(lines[i]) ensures !NoPlaceholders(kept) {
      KeptIn(lines, lines[i]);
      var k :| 0 <= k < |kept| && kept[k] == lines[i];
    }
  }

  lemma DistinctUnlessPlaceholder(lines: seq<Line>, kept: seq<Line>, out: seq<Line>)
    requires |kept| == |out| && forall k :: 0 <= k < |out| ==> Became(lines, kept[k], out[k])
    requires forall m :: Mentions(kept, m) <==> Mentions(lines, m)
    requires DistinctModules(kept)
    ensures DistinctModules(out) <==> NoPlaceholders(kept)
  {
    hide Collected, Render;
    if k :| 0 <= k < |kept| && IsPlaceholder(kept[k]) {
      assert Became(lines, kept[k], out[k]);
      var m := out[k].mod_;
      assert Mentions(kept, m);
      var j :| 0 <= j < |kept| && kept[j].Import? && kept[j].mod_ == m;
      assert Became(lines, kept[j], out[j]);
      if j < k { assert out[j].mod_ == out[k].mod_; } else { assert out[k].mod_ == out[j].mod_; }
    } else {
      forall j, k | 0 <= j < k < |out| && out[j].Import? && out[k].Import? ensures out[j].mod_ != out[k].mod_ {
        assert Became(lines, kept[j], out[j]) && Became(lines, kept[k], out[k]);
        assert kept[j].Import? && kept[k].Import?;
      }
    }
  }

  lemma RenderShape(e: Entry, m: string)
    ensures Render(e, m).Import? && Render(e, m).mod_ == m
  {
  }

  // ---- meaning: what is imported ----------------------------------------------------------

  /** A line imports `name` of the module as a type, by itself or inline. */
  predicate LineBindsType(l: Line, m: string, name: string) {
    l.Import? && l.mod_ == m && if l.isType then name in l.names else TYPE_PREFIX + name in l.names
  }

  predicate LineBindsValue(l: Line, m: string, name: string) {
    l.Import? && l.mod_ == m && !l.isType && name in l.names && !(TYPE_PREFIX <= name)
  }

  predicate BindsType(lines: seq<Line>, m: string, name: string) {
    exists i :: 0 <= i < |lines| && LineBindsType(lines[i], m, name)
  }

  predicate BindsValue(lines: seq<Line>, m: string, name: string) {
    exists i :: 0 <= i < |lines| && LineBindsValue(lines[i], m, name)
  }

  /** The lines have no inline `type` specifiers. */
  predicate NoInline(lines: seq<Line>) {
    forall i, n :: 0 <= i < |lines| && lines[i].Import? && !lines[i].isType && n in lines[i].names ==>
      !(TYPE_PREFIX <= n)
  }

  lemma {:induction false} UniqueFacts(names: seq<string>)
    ensures var u := Unique(names);
            && (forall n :: n in u <==> n in names)
            && (forall i, j :: 0 <= i < j < |u| ==> u[i] != u[j])
            && (u == names <==> forall i, j :: 0 <= i < j < |names| ==> names[i] != names[j])
            && (u == [] <==> names == [])
  {
    if names != [] {
      var n := |names| - 1;
      UniqueFacts(names[..n]);
      assert names == names[..n] + [names[n]];
      var u := Unique(names[..n]);
      if names[n] in u {
        var i :| 0 <= i < n && names[..n][i] == names[n];
        assert names[i] == names[n];
        UniqueShorter(names[..n]);
      }
    }
  }

  lemma {:induction false} UniqueShorter(names: seq<string>)
    ensures |Unique(names)| <= |names|
  {
    if names != [] { UniqueShorter(names[..|names| - 1]); }
  }

  /** What a collection binds: its types, the types spelled inline among its values, and the other values. */
  predicate EntryBindsType(e: Entry, name: string) {
    name in e.types || TYPE_PREFIX + name in e.values
  }

  predicate EntryBindsValue(e: Entry, name: string) {
    name in e.values && !(TYPE_PREFIX <= name)
  }

  lemma {:induction false} CollectedBinds(lines: seq<Line>, m: string, name: string)
    ensures EntryBindsType(Collected(lines, m), name) <==> BindsType(lines, m, name)
    ensures EntryBindsValue(Collected(lines, m), name) <==> BindsValue(lines, m, name)
  {
    if lines != [] {
      CollectedBinds(lines[..|lines| - 1], m, name);
      BindsNext(lines, m, name);
    }
  }

  lemma BindsNext(lines: seq<Line>, m: string, name: string)
    requires lines != []
    ensures var before, l := lines[..|lines| - 1], lines[|lines| - 1];
            && (BindsType(lines, m, name) <==> BindsType(before, m, name) || LineBindsType(l, m, name))
            && (BindsValue(lines, m, name) <==> BindsValue(before, m, name) || LineBindsValue(l, m, name))
  {
    var n := |lines| - 1;
    var before := lines[..n];
    forall i | 0 <= i < n ensures before[i] == lines[i] {
    }
    if BindsType(before, m, name) {
      var i :| 0 <= i < n && LineBindsType(before[i], m, name);
      assert LineBindsType(lines[i], m, name);
    }
    if BindsValue(before, m, name) {
      var i :| 0 <= i < n && LineBindsValue(before[i], m, name);
      assert LineBindsValue(lines[i], m, name);
    }
  }

  lemma PrefixMember(names: seq<string>, name: string)
    ensures TYPE_PREFIX + name in Prefix(names) <==> name in names
    ensures name in Prefix(names) ==> TYPE_PREFIX <= name
  {
    if name in names {
      var i :| 0 <= i < |names| && names[i] == name;
      assert Prefix(names)[i] == TYPE_PREFIX + name;
    }
    if TYPE_PREFIX + name in Prefix(names) {
      var i :| 0 <= i < |names| && Prefix(names)[i] == TYPE_PREFIX + name;
      assert (TYPE_PREFIX + names[i])[|TYPE_PREFIX|..] == names[i];
      assert (TYPE_PREFIX + name)[|TYPE_PREFIX|..] == name;
    }
  }

  /** The rendered line binds exactly what was collected. */
  lemma RenderBinds(e: Entry, m: string, name: string)
    ensures LineBindsType(Render(e, m), m, name) <==> EntryBindsType(e, name)
    ensures LineBindsValue(Render(e, m), m, name) <==> EntryBindsValue(e, name)
  {
    UniqueFacts(e.types);
    UniqueFacts(e.values);
    var types, values := Unique(e.types), Unique(e.values);
    hide Unique;
    PrefixMember(types, name);
    if values != [] && types != [] {
      assert forall x :: x in values + Prefix(types) <==> x in values || x in Prefix(types);
    }
  }

  /**
   * Merging changes neither the types nor the values that are imported from any
   * module, with or without inline `type` specifiers, and also where a module
   * gets more than one line.
   */
  lemma MergePreservesBindings(lines: seq<Line>, m: string, name: string)
    requires Merge(lines).Some?
    ensures BindsType(Merge(lines).value, m, name) <==> BindsType(lines, m, name)
    ensures BindsValue(Merge(lines).value, m, name) <==> BindsValue(lines, m, name)
  {
    OneLinePerModule(lines);
    var out := Merge(lines).value;
    var r := Render(Collected(lines, m), m);
    CollectedBinds(lines, m, name);
    RenderBinds(Collected(lines, m), m, name);
    if !Mentions(lines, m) { CollectedUnmentioned(lines, m); }
    hide Merge, Collected, Render;
    assert forall k :: 0 <= k < |out| && out[k].Import? && out[k].mod_ == m ==> out[k] == r;
    SameLines(out, m, name, r);
  }

  lemma SameLines(out: seq<Line>, m: string, name: string, r: Line)
    requires forall k :: 0 <= k < |out| && out[k].Import? && out[k].mod_ == m ==> out[k] == r
    ensures BindsType(out, m, name) <==> Mentions(out, m) && LineBindsType(r, m, name)
    ensures BindsValue(out, m, name) <==> Mentions(out, m) && LineBindsValue(r, m, name)
  {
    if Mentions(out, m) {
      var k :| 0 <= k < |out| && out[k].Import? && out[k].mod_ == m;
      assert out[k] == r;
    }
  }

  // ---- when merging throws ---------------------------------------------------------------

  /** A text line that reads as the placeholder of a module nothing is imported from. */
  predicate Dangling(lines: seq<Line>, l: Line) {
    && l.Plain? && "__IMPORT_PLACEHOLDER__" <= l.text
    && !Mentions(lines, l.text[|"__IMPORT_PLACEHOLDER__"|..])
  }

  lemma {:induction false} ReplaceAllFails(lines: seq<Line>, kept: seq<Line>)
    ensures ReplaceAll(lines, kept).None? <==> exists k :: 0 <= k < |kept| && Dangling(lines, kept[k])
  {
    if kept != [] {
      var n := |kept| - 1;
      ReplaceAllFails(lines, kept[..n]);
      assert forall k :: 0 <= k < n ==> kept[..n][k] == kept[k];
    }
  }

  /** Merging throws exactly on files with such a line. */
  lemma ThrowsOnDangling(lines: seq<Line>)
    ensures Merge(lines).None? <==> exists l :: l in lines && Dangling(lines, l)
  {
    var kept := FirstOccurrences(lines);
    ReplaceAllFails(lines, kept);
    hide FirstOccurrences, ReplaceAll;
    if k :| 0 <= k < |kept| && Dangling(lines, kept[k]) {
      KeptIn(lines, kept[k]);
    }
    if l :| l in lines && Dangling(lines, l) {
      KeptIn(lines, l);
      var k :| 0 <= k < |kept| && kept[k] == l;
      assert Dangling(lines, kept[k]);
    }
  }

  // ---- merging twice -------------------------------------------------------------------------

  /** A value name spells the inline form of a type that is also imported from the module. */
  predicate Clash(lines: seq<Line>, m: string) {
    var e := Collected(lines, m);
    exists n :: n in e.types && TYPE_PREFIX + n in e.values
  }

  /** Every import line of a file without duplicates is left as it is, if its names are distinct. */
  predicate Settled(l: Line) {
    l.Import? ==>
      && (forall i, j :: 0 <= i < j < |l.names| ==> l.names[i] != l.names[j])
      && (!l.isType ==> l.names != [])
  }

  lemma RenderAlone(l: Line)
    requires l.Import?
    ensures Render(Add(NoNames, l), l.mod_) == l <==> Settled(l)
  {
    UniqueFacts(l.names);
    UniqueFacts([]);
    assert [] + l.names == l.names;
  }

  lemma {:induction false} CollectedAlone(lines: seq<Line>, k: nat)
    requires k < |lines| && lines[k].Import?
    requires DistinctModules(lines)
    ensures Collected(lines, lines[k].mod_) == Add(NoNames, lines[k])
  {
    var n := |lines| - 1;
    var before := lines[..n];
    if k == n {
      CollectedNothing(before, lines[k].mod_);
    } else {
      assert before[k] == lines[k];
      CollectedAlone(before, k);
    }
  }

  lemma {:induction false} CollectedNothing(lines: seq<Line>, m: string)
    requires forall i :: 0 <= i < |lines| && lines[i].Import? ==> lines[i].mod_ != m
    ensures Collected(lines, m) == NoNames
  {
    if lines != [] { CollectedNothing(lines[..|lines| - 1], m); }
  }

  lemma {:induction false} KeepsAll(lines: seq<Line>)
    requires DistinctModules(lines)
    ensures FirstOccurrences(lines) == lines
  {
    if lines != [] {
      var n := |lines| - 1;
      KeepsAll(lines[..n]);
      assert lines == lines[..n] + [lines[n]];
      assert forall i :: 0 <= i < n ==> lines[..n][i] == lines[i];
    }
  }

  /** A file with one line per module is changed by merging exactly if some line is not settled. */
  lemma MergeAgain(lines: seq<Line>)
    requires NoPlaceholders(lines) && DistinctModules(lines)
    ensures Merge(lines) == Some(lines) <==> forall k :: 0 <= k < |lines| ==> Settled(lines[k])
  {
    KeepsAll(lines);
    ThrowsOnDangling(lines);
    OneLinePerModule(lines);
    var out := Merge(lines).value;
    forall k | 0 <= k < |lines| ensures out[k] == lines[k] <==> Settled(lines[k]) {
      assert SlotOf(out[k]) == SlotOf(lines[k]);
      if lines[k].Import? {
        CollectedAlone(lines, k);
        RenderAlone(lines[k]);
      }
    }
    if forall k :: 0 <= k < |lines| ==> Settled(lines[k]) {
      assert out == lines;
    }
  }

  lemma RenderSettled(e: Entry, m: string)
    ensures Settled(Render(e, m)) <==> !exists n :: n in e.types && TYPE_PREFIX + n in e.values
  {
    UniqueFacts(e.types);
    UniqueFacts(e.values);
    var types, values := Unique(e.types), Unique(e.values);
    hide Unique;
    if values != [] && types != [] {
      ConcatDistinct(values, types);
    } else if types == [] {
      assert forall n :: n !in e.types;
    } else {
      assert forall n :: n !in e.values;
    }
  }

  lemma ConcatDistinct(values: seq<string>, types: seq<string>)
    requires forall i, j :: 0 <= i < j < |values| ==> values[i] != values[j]
    requires forall i, j :: 0 <= i < j < |types| ==> types[i] != types[j]
    ensures var all := values + Prefix(types);
            (forall i, j :: 0 <= i < j < |all| ==> all[i] != all[j]) <==>
            !exists n :: n in types && TYPE_PREFIX + n in values
  {
    var all := values + Prefix(types);
    if n :| n in types && TYPE_PREFIX + n in values {
      var i :| 0 <= i < |values| && values[i] == TYPE_PREFIX + n;
      var j :| 0 <= j < |types| && types[j] == n;
      assert all[i] == all[|values| + j];
    } else {
      forall i, j | 0 <= i < j < |all| ensures all[i] != all[j] {
        if i < |values| <= j {
          assert all[j] == TYPE_PREFIX + types[j - |values|];
          assert types[j - |values|] in types && values[i] in values;
        } else if |values| <= i {
          var a, b := types[i - |values|], types[j - |values|];
          assert a != b && (TYPE_PREFIX + a)[|TYPE_PREFIX|..] == a && (TYPE_PREFIX + b)[|TYPE_PREFIX|..] == b;
        }
      }
    }
  }

  /**
   * A second pass changes nothing if and only if no text line was taken for a
   * placeholder and no module has a value name that spells the inline form of
   * one of its type names.
   */
  lemma IdempotentUnlessClash(lines: seq<Line>)
    requires Merge(lines).Some?
    ensures Merge(Merge(lines).value) == Merge(lines) <==> NoPlaceholders(lines) && forall m :: !Clash(lines, m)
  {
    OneLinePerModule(lines);
    var out := Merge(lines).value;
    ThrowsOnDangling(out);
    OneLinePerModule(out);
    if NoPlaceholders(lines) {
      MergeAgain(out);
      SettledUnlessClash(lines, out);
    }
  }

  lemma SettledUnlessClash(lines: seq<Line>, out: seq<Line>)
    requires forall k :: 0 <= k < |out| && out[k].Import? ==> out[k] == Render(Collected(lines, out[k].mod_), out[k].mod_)
    requires forall m :: Mentions(out, m) <==> Mentions(lines, m)
    ensures (forall k :: 0 <= k < |out| ==> Settled(out[k])) <==> forall m :: !Clash(lines, m)
  {
    hide Render, Settled, Collected;
    forall k | 0 <= k < |out| && out[k].Import? ensures Settled(out[k]) <==> !Clash(lines, out[k].mod_) {
      RenderSettled(Collected(lines, out[k].mod_), out[k].mod_);
    }
    forall k | 0 <= k < |out| && !out[k].Import? ensures Settled(out[k]) { PlainSettled(out[k]); }
    forall m | Clash(lines, m) ensures Mentions(out, m) {
      if !Mentions(lines, m) { CollectedUnmentioned(lines, m); }
    }
    if m :| Clash(lines, m) {
      var k :| 0 <= k < |out| && out[k].Import? && out[k].mod_ == m;
      assert !Settled(out[k]);
    }
  }

  lemma PlainSettled(l: Line)
    requires l.Plain?
    ensures Settled(l)
  {
  }

  lemma CollectedUnmentioned(lines: seq<Line>, m: string)
    requires !Mentions(lines, m)
    ensures Collected(lines, m) == NoNames
  {
    CollectedNothing(lines, m);
  }

  /** Without inline specifiers no collected value spells one. */
  lemma {:induction false} ValuesAreNames(lines: seq<Line>, m: string, x: string)
    requires NoInline(lines)
    ensures x in Collected(lines, m).values ==> !(TYPE_PREFIX <= x)
  {
    if lines != [] {
      var n := |lines| - 1;
      assert forall i :: 0 <= i < n ==> lines[..n][i] == lines[i];
      ValuesAreNames(lines[..n], m, x);
    }
  }

  lemma IdempotentWithoutInline(lines: seq<Line>)
    requires Merge(lines).Some? && NoInline(lines)
    ensures Merge(Merge(lines).value) == Merge(lines) <==> NoPlaceholders(lines)
  {
    forall m ensures !Clash(lines, m) {
      var e := Collected(lines, m);
      forall n | n in e.types ensures TYPE_PREFIX + n !in e.values {
        ValuesAreNames(lines, m, TYPE_PREFIX + n);
        assert TYPE_PREFIX <= TYPE_PREFIX + n;
      }
    }
    IdempotentUnlessClash(lines);
  }

  // ---- all other lines stay where they are ---------------------------------------------

  /** The lines that do not stand for an import. */
  function Texts(lines: seq<Line>): seq<string> {
    if lines == [] then []
    else
      var slot := Stands(lines[|lines| - 1]);
      Texts(lines[..|lines| - 1]) + if slot.Text? then [slot.text] else []
  }

  lemma {:induction false} SameSlotsSameTexts(out: seq<Line>, kept: seq<Line>)
    requires |out| == |kept| && forall k :: 0 <= k < |out| ==> Stands(out[k]) == Stands(kept[k])
    ensures Texts(out) == Texts(kept)
  {
    if out != [] {
      var n := |out| - 1;
      assert Stands(out[n]) == Stands(kept[n]);
      assert forall k :: 0 <= k < n ==> out[..n][k] == out[k] && kept[..n][k] == kept[k];
      SameSlotsSameTexts(out[..n], kept[..n]);
    }
  }

  lemma TextsSnoc(lines: seq<Line>, l: Line)
    ensures Texts(lines + [l]) == Texts(lines) + if Stands(l).Text? then [Stands(l).text] else []
  {
    assert (lines + [l])[..|lines|] == lines;
  }

  lemma {:induction false} KeptTexts(lines: seq<Line>)
    ensures Texts(FirstOccurrences(lines)) == Texts(lines)
  {
    if lines != [] {
      var before, last := lines[..|lines| - 1], lines[|lines| - 1];
      KeptTexts(before);
      FirstNext(lines);
      SplitLast(lines);
      hide FirstOccurrences, Texts;
      TextsSnoc(before, last);
      TextsSnoc(FirstOccurrences(before), last);
    }
  }

  /** A kept line comes from the file, with the same texts before it; an import is its module's first. */
  lemma {:induction false} KeptAt(lines: seq<Line>, k: nat) returns (i: nat)
    requires k < |FirstOccurrences(lines)|
    ensures i < |lines| && lines[i] == FirstOccurrences(lines)[k]
    ensures lines[i].Import? ==> !Mentions(lines[..i], lines[i].mod_)
    ensures Texts(FirstOccurrences(lines)[..k]) == Texts(lines[..i])
  {
    var n := |lines| - 1;
    var kept, all := FirstOccurrences(lines[..n]), FirstOccurrences(lines);
    FirstNext(lines);
    if k < |kept| {
      i := KeptAt(lines[..n], k);
      assert lines[..n][..i] == lines[..i] && all[..k] == kept[..k] && all[k] == kept[k];
    } else {
      i := n;
      assert all[..k] == kept;
      KeptTexts(lines[..n]);
    }
  }

  /** The k-th line of `out` comes from the i-th of `lines`. */
  ghost predicate ComesFrom(lines: seq<Line>, out: seq<Line>, k: nat, i: nat)
    requires k < |out|
  {
    && i < |lines| && SlotOf(out[k]) == Stands(lines[i])
    && (lines[i].Import? ==> !Mentions(lines[..i], lines[i].mod_))
    && Texts(out[..k]) == Texts(lines[..i])
  }

  ghost predicate HasPlace(lines: seq<Line>, out: seq<Line>, k: nat)
    requires k < |out|
  {
    exists i :: ComesFrom(lines, out, k, i)
  }

  lemma PlaceOf(lines: seq<Line>, kept: seq<Line>, out: seq<Line>, k: nat)
    requires kept == FirstOccurrences(lines) && |out| == |kept| && k < |out|
    requires forall j :: 0 <= j < |out| ==> SlotOf(out[j]) == Stands(kept[j]) && Stands(out[j]) == Stands(kept[j])
    ensures HasPlace(lines, out, k)
  {
    hide Texts, FirstOccurrences, Mentions, Stands, SlotOf;
    var i := KeptAt(lines, k);
    assert forall j :: 0 <= j < k ==> out[..k][j] == out[j] && kept[..k][j] == kept[j];
    SameSlotsSameTexts(out[..k], kept[..k]);
    assert ComesFrom(lines, out, k, i);
  }

  /**
   * Merging keeps every line that does not stand for an import, in order, and
   * puts an import where the file first imports from the module, or where a
   * line spells its placeholder: the same texts come before.
   */
  lemma OtherLinesStay(lines: seq<Line>)
    requires Merge(lines).Some?
    ensures var out := Merge(lines).value;
            && Texts(out) == Texts(lines)
            && forall k :: 0 <= k < |out| ==> HasPlace(lines, out, k)
  {
    OneLinePerModule(lines);
    var out, kept := Merge(lines).value, FirstOccurrences(lines);
    KeptTexts(lines);
    hide Merge, Texts, FirstOccurrences, Mentions, Collected, Render, IsPlaceholder, HasPlace;
    forall j | 0 <= j < |out| ensures SlotOf(out[j]) == Stands(kept[j]) && Stands(out[j]) == Stands(kept[j]) {
      assert !IsPlaceholder(out[j]);
    }
    SameSlotsSameTexts(out, kept);
    forall k | 0 <= k < |out| ensures HasPlace(lines, out, k) {
      PlaceOf(lines, kept, out, k);
    }
  }

  // ---- what a rendered line lists, in order -------------------------------------------

  /** The names that the lines import from a module by imports of values, or of types, in the order of the file. */
  function NamesOf(lines: seq<Line>, m: string, isType: bool): seq<string> {
    if lines == [] then [] else NamesIn(lines[0], m, isType) + NamesOf(lines[1..], m, isType)
  }

  function NamesIn(l: Line, m: string, isType: bool): seq<string> {
    if l.Import? && l.mod_ == m && l.isType == isType then l.names else []
  }

  lemma {:induction false} NamesOfSnoc(lines: seq<Line>, l: Line, m: string, isType: bool)
    ensures NamesOf(lines + [l], m, isType) ==
              NamesOf(lines, m, isType) + NamesIn(l, m, isType)
  {
    hide NamesIn;
    if lines == [] {
      assert [l][1..] == [];
    } else {
      assert (lines + [l])[0] == lines[0] && (lines + [l])[1..] == lines[1..] + [l];
      NamesOfSnoc(lines[1..], l, m, isType);
      var a, b, c := NamesIn(lines[0], m, isType), NamesOf(lines[1..], m, isType), NamesIn(l, m, isType);
      assert a + (b + c) == (a + b) + c;
    }
  }

  lemma {:induction false} CollectedIs(lines: seq<Line>, m: string)
    ensures Collected(lines, m) == Entry(NamesOf(lines, m, true), NamesOf(lines, m, false))
  {
    if lines != [] {
      var before, l := lines[..|lines| - 1], lines[|lines| - 1];
      CollectedIs(before, m);
      SplitLast(lines);
      NamesOfSnoc(before, l, m, true);
      NamesOfSnoc(before, l, m, false);
    }
  }

  /** Where a name occurs first. */
  function FirstAt(names: seq<string>, n: string): nat {
    if names == [] || names[0] == n then 0 else 1 + FirstAt(names[1..], n)
  }

  /** The names of `names`, in the order in which each occurs first; there is only one such `u`. */
  ghost predicate Firsts(u: seq<string>, names: seq<string>) {
    && (forall n :: n in u <==> n in names)
    && (forall i, j :: 0 <= i < j < |u| ==> FirstAt(names, u[i]) < FirstAt(names, u[j]))
  }

  lemma {:induction false} FirstAtSnoc(names: seq<string>, x: string, n: string)
    ensures n in names ==> FirstAt(names + [x], n) == FirstAt(names, n) < |names|
    ensures n !in names ==> FirstAt(names, n) == |names| && FirstAt(names + [x], n) == |names| + if x == n then 0 else 1
  {
    if names == [] {
      assert [x][1..] == [];
    } else {
      assert (names + [x])[0] == names[0] && (names + [x])[1..] == names[1..] + [x];
      FirstAtSnoc(names[1..], x, n);
      assert n in names <==> names[0] == n || n in names[1..];
    }
  }

  lemma {:induction false} UniqueInOrder(names: seq<string>)
    ensures Firsts(Unique(names), names)
  {
    if names != [] {
      var k := |names| - 1;
      var before, x := names[..k], names[k];
      UniqueInOrder(before);
      assert names == before + [x];
      var u, v := Unique(before), Unique(names);
      forall n ensures n in v <==> n in names {
        assert n in names <==> n in before || n == x;
      }
      forall i, j | 0 <= i < j < |v| ensures FirstAt(names, v[i]) < FirstAt(names, v[j]) {
        FirstAtSnoc(before, x, v[i]);
        FirstAtSnoc(before, x, v[j]);
        assert v[i] == u[i] && u[i] in u;
        if j < |u| { assert v[j] == u[j] && u[j] in u; }
      }
    }
  }

  /**
   * A line lists the values in the order in which they are first imported, and
   * then the types in theirs, marked as such; it is an import of types if there
   * are no values.
   */
  ghost predicate Lists(l: Line, values: seq<string>, types: seq<string>) {
    && l.Import?
    && if values == [] then l.isType && Firsts(l.names, types)
       else
         && !l.isType
         && exists v, t :: Firsts(v, values) && Firsts(t, types) && Joins(l.names, v, t)
  }

  predicate Joins(names: seq<string>, v: seq<string>, t: seq<string>) {
    && |names| == |v| + |t| && names[..|v|] == v
    && forall i :: 0 <= i < |t| ==> names[|v| + i] == "type " + t[i]
  }

  lemma JoinsPrefix(v: seq<string>, t: seq<string>)
    ensures Joins(v + Prefix(t), v, t)
    ensures Joins(v, v, [])
  {
  }

  lemma RenderLists(e: Entry, m: string)
    ensures Lists(Render(e, m), e.values, e.types)
  {
    var l := Render(e, m);
    UniqueInOrder(e.values);
    UniqueInOrder(e.types);
    UniqueFacts(e.values);
    UniqueFacts(e.types);
    var v, t := Unique(e.values), Unique(e.types);
    hide Unique, Firsts, Joins, Prefix;
    JoinsPrefix(v, t);
    if v != [] { assert Joins(l.names, v, t); }
  }

  /** Every import line of the merged file lists exactly what the file imports from its module, values before types. */
  lemma ListsInOrder(lines: seq<Line>)
    requires Merge(lines).Some?
    ensures var out := Merge(lines).value;
            forall k :: 0 <= k < |out| && out[k].Import? ==>
              Lists(out[k], NamesOf(lines, out[k].mod_, false), NamesOf(lines, out[k].mod_, true))
  {
    OneLinePerModule(lines);
    var out := Merge(lines).value;
    hide Merge, Render, Collected, Lists, NamesOf;
    forall k | 0 <= k < |out| && out[k].Import?
      ensures Lists(out[k], NamesOf(lines, out[k].mod_, false), NamesOf(lines, out[k].mod_, true))
    {
      CollectedIs(lines, out[k].mod_);
      RenderLists(Collected(lines, out[k].mod_), out[k].mod_);
    }
  }
}
