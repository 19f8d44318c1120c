/** Applying a formatter's edits to a text in place, from the last to the first. */
module TextEdits {
  import opened Common

  /** Replace `len` characters at offset `start` of the original text. */
  datatype Edit<T> = Edit(start: nat, len: nat, text: seq<T>)

  /** What the formatter guarantees: in bounds, sorted and disjoint. */
  predicate Applicable<T>(n: nat, edits: seq<Edit<T>>) {
    && (forall i :: 0 <= i < |edits| ==> edits[i].start + edits[i].len <= n)
    && (forall i, j :: 0 <= i < j < |edits| ==> edits[i].start + edits[i].len <= edits[j].start)
  }

  /** All edits at once, by offsets into the original text, from position `pos` on. */
  function Simultaneous<T>(content: seq<T>, edits: seq<Edit<T>>, pos: nat): seq<T>
    requires Applicable(|content|, edits) && pos <= |content|
    requires edits != [] ==> pos <= edits[0].start
    decreases |edits|
  {
    if edits == [] then content[pos..]
    else
      var e := edits[0];
      assert forall i, j :: 0 <= i < j < |edits[1..]| ==> edits[1..][i] == edits[i + 1] && edits[1..][j] == edits[j + 1];
      content[pos..e.start] + e.text + Simultaneous(content, edits[1..], e.start + e.len)
  }

  lemma RestApplicable<T>(n: nat, edits: seq<Edit<T>>, i: nat)
    requires Applicable(n, edits) && i <= |edits|
    ensures Applicable(n, edits[i..])
  {
  }

  lemma FirstEdit<T>(content: seq<T>, edits: seq<Edit<T>>, pos: nat)
    requires Applicable(|content|, edits) && pos <= |content| && edits != [] && pos <= edits[0].start
    ensures Applicable(|content|, edits[1..])
    ensures var e := edits[0];
            && e.start <= e.start + e.len <= |content|
            && (edits[1..] != [] ==> e.start + e.len <= edits[1..][0].start)
            && Simultaneous(content, edits, pos)
               == content[pos..e.start] + e.text + Simultaneous(content, edits[1..], e.start + e.len)
  {
    RestApplicable(|content|, edits, 1);
  }

  lemma SplitFront<T>(s: seq<T>, q: nat, n: nat, c: seq<T>, d: seq<T>)
    requires q <= n <= |s|
    ensures s[0..n] + c + d == s[..q] + (s[q..n] + c + d)
  {
    assert s[0..n] == s[..q] + s[q..n];
  }

  lemma NoEdits<T>(content: seq<T>, q: nat)
    requires q <= |content|
    ensures Simultaneous(content, [], 0) == content[..q] + Simultaneous(content, [], q)
  {
    assert content == content[..q] + content[q..];
  }

  /** Text before the first edit is left alone. */
  lemma Untouched<T>(content: seq<T>, edits: seq<Edit<T>>, q: nat)
    requires Applicable(|content|, edits) && q <= |content| && (edits != [] ==> q <= edits[0].start)
    ensures Simultaneous(content, edits, 0) == content[..q] + Simultaneous(content, edits, q)
  {
    hide Simultaneous, Applicable;
    if edits == [] {
      NoEdits(content, q);
    } else {
      var e := edits[0];
      FirstEdit(content, edits, 0);
      FirstEdit(content, edits, q);
      var rest := Simultaneous(content, edits[1..], e.start + e.len);
      calc {
        Simultaneous(content, edits, 0);
        content[0..e.start] + e.text + rest;
        { SplitFront(content, q, e.start, e.text, rest); }
        content[..q] + (content[q..e.start] + e.text + rest);
        content[..q] + Simultaneous(content, edits, q);
      }
    }
  }

  lemma Unedited<T>(content: seq<T>)
    ensures Simultaneous(content, [], 0) == content
  {
  }

  lemma Front<T>(s: seq<T>, start: nat, end: nat, rest: seq<T>)
    requires start <= end <= |s|
    ensures (s[..end] + rest)[..start] == s[0..start] && (s[..end] + rest)[end..] == rest
  {
  }

  /** The loop of the original: substring, replacement, substring, from the last edit to the first. */
  method ApplyEdits<T>(original: seq<T>, edits: seq<Edit<T>>) returns (content: seq<T>)
    requires Applicable(|original|, edits)
    ensures content == Simultaneous(original, edits, 0)
  {
    hide Simultaneous;
    content := original;
    assert edits[|edits|..] == [];
    Unedited(original);
    for i := |edits| downto 0
      invariant Applicable(|original|, edits[i..])
      invariant content == Simultaneous(original, edits[i..], 0)
    {
      var e := edits[i];
      var later := edits[i + 1..];
      RestApplicable(|original|, edits, i);
      RestApplicable(|original|, edits, i + 1);
      var end := e.start + e.len;
      Untouched(original, later, end);
      Front(original, e.start, end, Simultaneous(original, later, end));
      assert edits[i..][0] == e && edits[i..][1..] == later;
      FirstEdit(original, edits[i..], 0);
      content := content[..e.start] + e.text + content[end..];
    }
    assert edits[0..] == edits;
  }

  // ---- which characters survive ---------------------------------------------------------

  /** A character of the result, with where it comes from. */
  datatype Traced<T> = Kept(pos: nat) | Inserted(value: T)

  function Trace(n: nat): (t: seq<Traced<char>>)
    ensures |t| == n && forall i :: 0 <= i < n ==> t[i] == Kept(i)
  {
    seq(n, i requires 0 <= i < n => Kept(i))
  }

  function TraceText(text: string): (t: seq<Traced<char>>)
    ensures |t| == |text| && forall i :: 0 <= i < |text| ==> t[i] == Inserted(text[i])
  {
    seq(|text|, i requires 0 <= i < |text| => Inserted(text[i]))
  }

  function TraceEdits(edits: seq<Edit<char>>): (t: seq<Edit<Traced<char>>>)
    ensures |t| == |edits|
    ensures forall i :: 0 <= i < |t| ==> t[i] == Edit(edits[i].start, edits[i].len, TraceText(edits[i].text))
  {
    seq(|edits|, i requires 0 <= i < |edits| => Edit(edits[i].start, edits[i].len, TraceText(edits[i].text)))
  }

  predicate InRange(t: seq<Traced<char>>, n: nat) {
    forall i :: 0 <= i < |t| && t[i].Kept? ==> t[i].pos < n
  }

  /** The text a trace stands for. */
  function Show(content: string, t: seq<Traced<char>>): (s: string)
    requires InRange(t, |content|)
    ensures |s| == |t|
  {
    seq(|t|, i requires 0 <= i < |t| => if t[i].Kept? then content[t[i].pos] else t[i].value)
  }

  /** The positions kept in a trace, in the order in which they appear. */
  function KeptIn(t: seq<Traced<char>>): seq<nat> {
    if t == [] then [] else (if t[0].Kept? then [t[0].pos] else []) + KeptIn(t[1..])
  }

  function InsertedIn(t: seq<Traced<char>>): string {
    if t == [] then [] else (if t[0].Inserted? then [t[0].value] else []) + InsertedIn(t[1..])
  }

  predicate Outside(edits: seq<Edit<char>>, i: nat) {
    forall k :: 0 <= k < |edits| ==> !(edits[k].start <= i < edits[k].start + edits[k].len)
  }

  /** The positions from `lo` up to `hi`. */
  function Positions(lo: nat, hi: nat): (p: seq<nat>)
    requires lo <= hi
    ensures |p| == hi - lo && forall i :: 0 <= i < |p| ==> p[i] == lo + i
  {
    seq(hi - lo, i requires 0 <= i < hi - lo => lo + i)
  }

  /** The positions from `pos` on that no edit covers, in ascending order. */
  function Gaps(n: nat, edits: seq<Edit<char>>, pos: nat): seq<nat>
    requires Applicable(n, edits) && pos <= n && (edits != [] ==> pos <= edits[0].start)
    decreases |edits|
  {
    if edits == [] then Positions(pos, n)
    else
      RestApplicable(n, edits, 1);
      Positions(pos, edits[0].start) + Gaps(n, edits[1..], edits[0].start + edits[0].len)
  }

  lemma {:induction false} GapsAreOutside(n: nat, edits: seq<Edit<char>>, pos: nat)
    requires Applicable(n, edits) && pos <= n && (edits != [] ==> pos <= edits[0].start)
    ensures var g := Gaps(n, edits, pos);
            && (forall i, j :: 0 <= i < j < |g| ==> g[i] < g[j])
            && (forall i :: 0 <= i < |g| ==> pos <= g[i] < n && Outside(edits, g[i]))
            && (forall x :: pos <= x < n && Outside(edits, x) ==> x in g)
    decreases |edits|
  {
    if edits == [] {
      forall x | pos <= x < n ensures x in Gaps(n, edits, pos) {
        assert Positions(pos, n)[x - pos] == x;
      }
    } else {
      var e, rest := edits[0], edits[1..];
      var end := e.start + e.len;
      RestApplicable(n, edits, 1);
      GapsAreOutside(n, rest, end);
      var head := Positions(pos, e.start);
      var tail := Gaps(n, rest, end);
      var g := Gaps(n, edits, pos);
      assert g == head + tail;
      forall i | 0 <= i < |g| ensures pos <= g[i] < n && Outside(edits, g[i]) {
        if i < |head| {
          assert g[i] == head[i];
        } else {
          assert g[i] == tail[i - |head|];
          OutsideRest(edits, g[i]);
        }
      }
      forall x | pos <= x < n && Outside(edits, x) ensures x in g {
        if x < e.start {
          assert head[x - pos] == x && g[x - pos] == x;
        } else {
          assert x >= end by { assert !(edits[0].start <= x < edits[0].start + edits[0].len); }
          OutsideRest(edits, x);
          assert x in tail;
        }
      }
    }
  }

  lemma OutsideRest(edits: seq<Edit<char>>, x: nat)
    requires edits != [] && x >= edits[0].start + edits[0].len
    ensures Outside(edits, x) <==> Outside(edits[1..], x)
  {
    if Outside(edits[1..], x) {
      forall k | 0 <= k < |edits| ensures !(edits[k].start <= x < edits[k].start + edits[k].len) {
        if k > 0 { assert edits[k] == edits[1..][k - 1]; }
      }
    }
    if Outside(edits, x) {
      forall k | 0 <= k < |edits[1..]| ensures !(edits[1..][k].start <= x < edits[1..][k].start + edits[1..][k].len) {
        assert edits[1..][k] == edits[k + 1];
      }
    }
  }

  lemma {:induction false} KeptConcat(a: seq<Traced<char>>, b: seq<Traced<char>>)
    ensures KeptIn(a + b) == KeptIn(a) + KeptIn(b)
  {
    if a == [] {
      assert a + b == b;
    } else {
      assert (a + b)[0] == a[0] && (a + b)[1..] == a[1..] + b;
      KeptConcat(a[1..], b);
    }
  }

  lemma {:induction false} InsertedConcat(a: seq<Traced<char>>, b: seq<Traced<char>>)
    ensures InsertedIn(a + b) == InsertedIn(a) + InsertedIn(b)
  {
    if a == [] {
      assert a + b == b;
    } else {
      assert (a + b)[0] == a[0] && (a + b)[1..] == a[1..] + b;
      InsertedConcat(a[1..], b);
    }
  }

  lemma {:induction false} KeptOfTrace(n: nat, lo: nat, hi: nat)
    requires lo <= hi <= n
    ensures KeptIn(Trace(n)[lo..hi]) == Positions(lo, hi) && InsertedIn(Trace(n)[lo..hi]) == []
    decreases hi - lo
  {
    if lo < hi {
      var t := Trace(n)[lo..hi];
      assert t[0] == Kept(lo) && t[1..] == Trace(n)[lo + 1..hi];
      KeptOfTrace(n, lo + 1, hi);
      assert Positions(lo, hi) == [lo] + Positions(lo + 1, hi);
    }
  }

  lemma {:induction false} KeptOfText(text: string)
    ensures KeptIn(TraceText(text)) == [] && InsertedIn(TraceText(text)) == text
  {
    if text != [] {
      assert TraceText(text)[1..] == TraceText(text[1..]);
      KeptOfText(text[1..]);
    }
  }

  function Texts(edits: seq<Edit<char>>): (t: seq<string>) {
    if edits == [] then [] else [edits[0].text] + Texts(edits[1..])
  }

  lemma TraceApplicable(n: nat, edits: seq<Edit<char>>)
    requires Applicable(n, edits)
    ensures Applicable(|Trace(n)|, TraceEdits(edits))
  {
  }

  lemma KeptParts(n: nat, lo: nat, hi: nat, text: string, rest: seq<Traced<char>>)
    requires lo <= hi <= n
    ensures var t := Trace(n)[lo..hi] + TraceText(text) + rest;
            KeptIn(t) == Positions(lo, hi) + KeptIn(rest) && InsertedIn(t) == text + InsertedIn(rest)
  {
    hide KeptIn, InsertedIn;
    var gap, traced := Trace(n)[lo..hi], TraceText(text);
    KeptOfTrace(n, lo, hi);
    KeptOfText(text);
    KeptConcat(gap, traced);
    KeptConcat(gap + traced, rest);
    InsertedConcat(gap, traced);
    InsertedConcat(gap + traced, rest);
  }

  lemma TraceTail(edits: seq<Edit<char>>)
    requires edits != []
    ensures TraceEdits(edits)[1..] == TraceEdits(edits[1..])
  {
  }

  lemma TextsTail(edits: seq<Edit<char>>)
    requires edits != []
    ensures Flatten(Texts(edits)) == edits[0].text + Flatten(Texts(edits[1..]))
  {
    assert Texts(edits)[1..] == Texts(edits[1..]);
  }

  lemma GapsTail(n: nat, edits: seq<Edit<char>>, pos: nat)
    requires Applicable(n, edits) && pos <= n && edits != [] && pos <= edits[0].start
    ensures Applicable(n, edits[1..])
    ensures var end := edits[0].start + edits[0].len;
            && end <= n && (edits[1..] != [] ==> end <= edits[1..][0].start)
            && Gaps(n, edits, pos) == Positions(pos, edits[0].start) + Gaps(n, edits[1..], end)
  {
    RestApplicable(n, edits, 1);
  }

  /** One step of the traced application. */
  lemma TracedStep(n: nat, edits: seq<Edit<char>>, pos: nat)
    requires Applicable(n, edits) && pos <= n && edits != [] && pos <= edits[0].start
    ensures Applicable(n, edits[1..])
    ensures Applicable(|Trace(n)|, TraceEdits(edits)) && Applicable(|Trace(n)|, TraceEdits(edits[1..]))
    ensures var e := edits[0];
            && e.start <= e.start + e.len <= n && (edits[1..] != [] ==> e.start + e.len <= edits[1..][0].start)
            && Simultaneous(Trace(n), TraceEdits(edits), pos)
               == Trace(n)[pos..e.start] + TraceText(e.text)
                  + Simultaneous(Trace(n), TraceEdits(edits[1..]), e.start + e.len)
  {
    hide Simultaneous, Trace, TraceText, TraceEdits;
    RestApplicable(n, edits, 1);
    TraceApplicable(n, edits);
    TraceApplicable(n, edits[1..]);
    TraceTail(edits);
    FirstEdit(Trace(n), TraceEdits(edits), pos);
  }

  lemma TraceKeepsNone(n: nat, pos: nat)
    requires pos <= n
    ensures var t := Simultaneous(Trace(n), TraceEdits([]), pos);
            KeptIn(t) == Gaps(n, [], pos) && InsertedIn(t) == Flatten(Texts([]))
  {
    assert Trace(n)[pos..] == Trace(n)[pos..n];
    KeptOfTrace(n, pos, n);
  }

  lemma {:induction false} TraceKeeps(n: nat, edits: seq<Edit<char>>, pos: nat)
    requires Applicable(n, edits) && pos <= n && (edits != [] ==> pos <= edits[0].start)
    ensures Applicable(|Trace(n)|, TraceEdits(edits))
    ensures KeptIn(Simultaneous(Trace(n), TraceEdits(edits), pos)) == Gaps(n, edits, pos)
    ensures InsertedIn(Simultaneous(Trace(n), TraceEdits(edits), pos)) == Flatten(Texts(edits))
    decreases |edits|
  {
    hide Simultaneous, Gaps, Applicable, KeptIn, InsertedIn, Texts, Flatten, Trace, TraceEdits, TraceText, Positions;
    TraceApplicable(n, edits);
    if edits == [] {
      TraceKeepsNone(n, pos);
    } else {
      var e := edits[0];
      var end := e.start + e.len;
      TracedStep(n, edits, pos);
      TraceKeeps(n, edits[1..], end);
      GapsTail(n, edits, pos);
      TextsTail(edits);
      KeptParts(n, pos, e.start, e.text, Simultaneous(Trace(n), TraceEdits(edits[1..]), end));
    }
  }

  lemma ShowParts(content: string, lo: nat, hi: nat, text: string, rest: seq<Traced<char>>)
    requires lo <= hi <= |content| && InRange(rest, |content|)
    ensures var t := Trace(|content|)[lo..hi] + TraceText(text) + rest;
            InRange(t, |content|) && Show(content, t) == content[lo..hi] + text + Show(content, rest)
  {
  }

  /** Tracing changes nothing but the labels: the traced result stands for the real one. */
  lemma {:induction false} TraceShows(content: string, edits: seq<Edit<char>>, pos: nat)
    requires Applicable(|content|, edits) && pos <= |content| && (edits != [] ==> pos <= edits[0].start)
    ensures Applicable(|Trace(|content|)|, TraceEdits(edits))
    ensures var t := Simultaneous(Trace(|content|), TraceEdits(edits), pos);
            InRange(t, |content|) && Show(content, t) == Simultaneous(content, edits, pos)
    decreases |edits|
  {
    hide Simultaneous, Applicable, Show, InRange, Trace, TraceText, TraceEdits;
    TraceApplicable(|content|, edits);
    if edits == [] {
      TraceShowsNone(content, pos);
    } else {
      var e := edits[0];
      var end := e.start + e.len;
      FirstEdit(content, edits, pos);
      TracedStep(|content|, edits, pos);
      TraceShows(content, edits[1..], end);
      ShowParts(content, pos, e.start, e.text, Simultaneous(Trace(|content|), TraceEdits(edits[1..]), end));
    }
  }

  lemma TraceShowsNone(content: string, pos: nat)
    requires pos <= |content|
    ensures var t := Simultaneous(Trace(|content|), TraceEdits([]), pos);
            InRange(t, |content|) && Show(content, t) == Simultaneous(content, [], pos)
  {
    assert Show(content, Trace(|content|)[pos..]) == content[pos..];
  }

  /**
   * Survival: label every character of the text by its position. The labelled
   * result spells the result; its labels are exactly the positions outside
   * all edits, each once and in order; what is inserted is exactly the edits'
   * texts, in order.
   */
  lemma EverythingElseSurvives(content: string, edits: seq<Edit<char>>)
    requires Applicable(|content|, edits)
    ensures Applicable(|Trace(|content|)|, TraceEdits(edits))
    ensures var t := Simultaneous(Trace(|content|), TraceEdits(edits), 0); var kept := KeptIn(t);
            && InRange(t, |content|) && Show(content, t) == Simultaneous(content, edits, 0)
            && (forall i, j :: 0 <= i < j < |kept| ==> kept[i] < kept[j])
            && (forall x :: 0 <= x < |content| ==> (x in kept <==> Outside(edits, x)))
            && InsertedIn(t) == Flatten(Texts(edits))
  {
    TraceShows(content, edits, 0);
    TraceKeeps(|content|, edits, 0);
    GapsAreOutside(|content|, edits, 0);
  }
}
