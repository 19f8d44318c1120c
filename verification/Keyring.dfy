/**
 * Storing a sealed credential in a keyring whose entries are limited in size:
 * the string is split into numbered entries, and every entry but the last ends
 * with a marker that says that more follows.
 */
module Keyring {
  const CONTINUE_MARKER := "<MORE>"

  /** The entries of the keyring that belong to this application, by number. */
  type Slots = map<nat, string>

  datatype ReadResult = Value(s: string) | NoEntry | Failed

  /** The entry limit of the platform's keyring, in characters. */
  function EntryLimit(windows: bool): nat {
    if windows then 1024 else 128 * 1024
  }

  function StepSize(windows: bool): nat {
    EntryLimit(windows) - |CONTINUE_MARKER|
  }

  predicate EndsWith(s: string, suffix: string) {
    |suffix| <= |s| && s[|s| - |suffix|..] == suffix
  }

  function StripMarker(s: string): string
    requires EndsWith(s, CONTINUE_MARKER)
  {
    s[..|s| - |CONTINUE_MARKER|]
  }

  function Prefixed(p: string, r: ReadResult): ReadResult {
    match r
    case Value(s) => Value(p + s)
    case _ => r
  }

  function After(slots: Slots, k: nat): set<nat> {
    set j | j in slots && k <= j
  }

  /** Reading on from entry `k`; entries in `broken` report an error. */
  function ReadFrom(slots: Slots, broken: set<nat>, k: nat): ReadResult
    decreases After(slots, k)
  {
    if k in broken then Failed
    else if k !in slots then NoEntry
    else if EndsWith(slots[k], CONTINUE_MARKER) then
      assert k in After(slots, k) && k !in After(slots, k + 1);
      Prefixed(StripMarker(slots[k]), ReadFrom(slots, broken, k + 1))
    else Value(slots[k])
  }

  /** How far reading on from `k` looks: one past the last entry it asks for. */
  function Asked(slots: Slots, broken: set<nat>, k: nat): (n: nat)
    ensures k < n
    decreases After(slots, k)
  {
    if k in broken || k !in slots || !EndsWith(slots[k], CONTINUE_MARKER) then k + 1
    else
      assert k in After(slots, k) && k !in After(slots, k + 1);
      Asked(slots, broken, k + 1)
  }

  /** Storing `rest` from entry `k` on; stops at the first entry that reports an error. */
  function StoreFrom(slots: Slots, broken: set<nat>, rest: string, k: nat, step: nat): (r: (Slots, bool))
    requires step > 0
    decreases |rest|
  {
    if rest == [] then (slots, true)
    else if k in broken then (slots, false)
    else if step <= |rest| then
      StoreFrom(slots[k := rest[..step] + CONTINUE_MARKER], broken, rest[step..], k + 1, step)
    else (slots[k := rest], true)
  }

  /** How far storing from `k` on looks: one past the last entry it asks for, if any. */
  function Wanted(broken: set<nat>, rest: string, k: nat, step: nat): nat
    requires step > 0
    decreases |rest|
  {
    if rest == [] then k
    else if k in broken || |rest| < step then k + 1
    else Wanted(broken, rest[step..], k + 1, step)
  }

  /** How many entries a string takes. */
  function Chunks(s: string, step: nat): nat
    requires step > 0
    decreases |s|
  {
    if s == [] then 0 else if step <= |s| then 1 + Chunks(s[step..], step) else 1
  }

  /**
   * The stored string leaves its end open: its length is a multiple of the
   * step size, so that even its last entry carries the marker, or its last
   * piece itself ends like the marker.
   */
  predicate LeavesOpen(s: string, step: nat)
    requires step > 0
  {
    |s| % step == 0 || EndsWith(s[|s| - |s| % step..], CONTINUE_MARKER)
  }

  /** What is read back of an open string before reading runs past its end. */
  function Front(s: string, step: nat): string
    requires step > 0
  {
    if |s| % step != 0 && EndsWith(s, CONTINUE_MARKER) then StripMarker(s) else s
  }

  // ---- the codec ------------------------------------------------------------------

  lemma {:induction false} StoreTouches(slots: Slots, rest: string, k: nat, step: nat, j: nat)
    requires step > 0 && (j < k || k + Chunks(rest, step) <= j)
    ensures var r := StoreFrom(slots, {}, rest, k, step).0;
            (j in r <==> j in slots) && (j in slots ==> r[j] == slots[j])
    decreases |rest|
  {
    if rest != [] && step <= |rest| {
      StoreTouches(slots[k := rest[..step] + CONTINUE_MARKER], rest[step..], k + 1, step, j);
    }
  }

  lemma {:induction false} ReadDepends(a: Slots, b: Slots, k: nat)
    requires forall j :: k <= j ==> (j in a <==> j in b) && (j in a ==> a[j] == b[j])
    ensures ReadFrom(a, {}, k) == ReadFrom(b, {}, k)
    decreases After(a, k)
  {
    if k in a && EndsWith(a[k], CONTINUE_MARKER) {
      assert k in After(a, k) && k !in After(a, k + 1);
      ReadDepends(a, b, k + 1);
    }
  }

  lemma MarkedChunk(part: string)
    ensures EndsWith(part + CONTINUE_MARKER, CONTINUE_MARKER)
    ensures StripMarker(part + CONTINUE_MARKER) == part
  {
  }

  lemma CutRemainder(s: string, step: nat)
    requires 0 < step <= |s|
    ensures |s[step..]| % step == |s| % step
    ensures LeavesOpen(s[step..], step) == LeavesOpen(s, step)
  {
    ModStep(|s|, step);
    var r := |s| % step;
    assert s[step..][|s| - step - r..] == s[|s| - r..];
  }

  lemma StripBehind(p: string, t: string)
    requires EndsWith(t, CONTINUE_MARKER)
    ensures EndsWith(p + t, CONTINUE_MARKER) && StripMarker(p + t) == p + StripMarker(t)
  {
    assert (p + t)[|p + t| - |CONTINUE_MARKER|..] == t[|t| - |CONTINUE_MARKER|..];
  }

  lemma OpenEnd(s: string, step: nat)
    requires step > 0 && LeavesOpen(s, step) && |s| % step != 0
    ensures EndsWith(s, CONTINUE_MARKER)
  {
    SuffixOfSuffix(s, |s| - |s| % step, CONTINUE_MARKER);
  }

  /** Cutting one full step off the front changes neither the remainder nor how the string ends. */
  lemma CutStep(s: string, step: nat)
    requires 0 < step <= |s|
    ensures LeavesOpen(s[step..], step) == LeavesOpen(s, step)
    ensures LeavesOpen(s, step) ==> Front(s, step) == s[..step] + Front(s[step..], step)
  {
    var p, t := s[..step], s[step..];
    CutRemainder(s, step);
    assert s == p + t;
    if LeavesOpen(s, step) && |s| % step != 0 {
      OpenEnd(t, step);
      hide LeavesOpen, EndsWith;
      StripBehind(p, t);
    }
  }

  lemma SuffixOfSuffix(s: string, i: nat, suffix: string)
    requires i <= |s| && EndsWith(s[i..], suffix)
    ensures EndsWith(s, suffix)
  {
    assert s[|s| - |suffix|..] == s[i..][|s[i..]| - |suffix|..];
  }

  lemma ModStep(n: nat, step: nat)
    requires 0 < step <= n
    ensures (n - step) % step == n % step
  {
    var q, r := n / step, n % step;
    assert n == q * step + r;
    assert n - step == (q - 1) * step + r;
    ModUnique(n - step, step, q - 1, r);
  }

  lemma ModUnique(n: int, d: nat, q: int, r: nat)
    requires d > 0 && n == q * d + r && r < d
    ensures n % d == r
  {
    var q', r' := n / d, n % d;
    assert n == q' * d + r';
    assert (q - q') * d == r' - r && (q' - q) * d == r - r';
    if q > q' {
      MulAtLeast(q - q', d);
    } else if q < q' {
      MulAtLeast(q' - q, d);
    }
  }

  lemma MulAtLeast(a: int, d: nat)
    requires a >= 1
    ensures a * d >= d
  {
  }

  lemma ReadOne(slots: Slots, k: nat)
    requires k in slots && EndsWith(slots[k], CONTINUE_MARKER)
    ensures ReadFrom(slots, {}, k) == Prefixed(StripMarker(slots[k]), ReadFrom(slots, {}, k + 1))
  {
  }

  lemma StoreOne(slots: Slots, s: string, k: nat, step: nat)
    requires 0 < step <= |s|
    ensures StoreFrom(slots, {}, s, k, step)
         == StoreFrom(slots[k := s[..step] + CONTINUE_MARKER], {}, s[step..], k + 1, step)
    ensures Chunks(s, step) == 1 + Chunks(s[step..], step)
  {
  }

  /** A full chunk carries the marker, so reading goes on behind it. */
  lemma FullChunk(slots: Slots, s: string, k: nat, step: nat)
    requires 0 < step <= |s|
    ensures var slots1 := slots[k := s[..step] + CONTINUE_MARKER];
            var r := StoreFrom(slots, {}, s, k, step).0;
            ReadFrom(r, {}, k) == Prefixed(s[..step], ReadFrom(StoreFrom(slots1, {}, s[step..], k + 1, step).0, {}, k + 1))
  {
    var part := s[..step];
    var slots1 := slots[k := part + CONTINUE_MARKER];
    StoreOne(slots, s, k, step);
    hide StoreFrom, ReadFrom;
    StoreTouches(slots1, s[step..], k + 1, step, k);
    MarkedChunk(part);
    ReadOne(StoreFrom(slots, {}, s, k, step).0, k);
  }

  ghost predicate ReadsBack(slots: Slots, s: string, k: nat, step: nat)
    requires step > 0
  {
    ReadFrom(StoreFrom(slots, {}, s, k, step).0, {}, k) ==
      if LeavesOpen(s, step) then Prefixed(Front(s, step), ReadFrom(slots, {}, k + Chunks(s, step)))
      else Value(s)
  }

  lemma StoreNothing(slots: Slots, k: nat, step: nat)
    requires step > 0
    ensures StoreFrom(slots, {}, [], k, step).0 == slots && Chunks([], step) == 0
    ensures ReadsBack(slots, [], k, step)
  {
    var r := ReadFrom(slots, {}, k);
    if r.Value? { assert [] + r.s == r.s; }
  }

  lemma FullChunkReadsBack(slots: Slots, s: string, k: nat, step: nat)
    requires 0 < step <= |s|
    requires ReadsBack(slots[k := s[..step] + CONTINUE_MARKER], s[step..], k + 1, step)
    ensures ReadsBack(slots, s, k, step)
  {
    hide StoreFrom, ReadFrom, Chunks, LeavesOpen, Front, EndsWith;
    var part, t := s[..step], s[step..];
    var slots1 := slots[k := part + CONTINUE_MARKER];
    var n := k + 1 + Chunks(t, step);
    var later := ReadFrom(StoreFrom(slots1, {}, t, k + 1, step).0, {}, k + 1);
    assert ReadFrom(StoreFrom(slots, {}, s, k, step).0, {}, k) == Prefixed(part, later) by {
      FullChunk(slots, s, k, step);
    }
    assert k + Chunks(s, step) == n by { StoreOne(slots, s, k, step); }
    if LeavesOpen(s, step) {
      var next := ReadFrom(slots, {}, n);
      assert next == ReadFrom(slots1, {}, n) by { ReadDepends(slots1, slots, n); }
      assert LeavesOpen(t, step) && Front(s, step) == part + Front(t, step) by { CutStep(s, step); }
      PrefixedTwice(part, Front(t, step), next);
    } else {
      assert !LeavesOpen(t, step) by { CutStep(s, step); }
      assert part + t == s;
    }
  }

  /**
   * Reading after storing, for every string and every earlier content of the
   * keyring: the string itself, or, if it leaves its end open, its front
   * followed by whatever the next entries happen to hold.
   */
  lemma {:induction false} ReadAfterStore(slots: Slots, s: string, k: nat, step: nat)
    requires step > 0
    ensures ReadsBack(slots, s, k, step)
    decreases |s|
  {
    if s == [] {
      StoreNothing(slots, k, step);
    } else if step <= |s| {
      ReadAfterStore(slots[k := s[..step] + CONTINUE_MARKER], s[step..], k + 1, step);
      FullChunkReadsBack(slots, s, k, step);
    } else {
      LastChunk(slots, s, k, step);
    }
  }

  lemma LastChunk(slots: Slots, s: string, k: nat, step: nat)
    requires 0 < |s| < step
    ensures ReadsBack(slots, s, k, step)
  {
    var r := slots[k := s];
    assert StoreFrom(slots, {}, s, k, step).0 == r && Chunks(s, step) == 1;
    ModUnique(|s|, step, 0, |s|);
    assert s[|s| - |s|..] == s;
    ReadDepends(r, slots, k + 1);
  }

  lemma PrefixedTwice(p: string, q: string, r: ReadResult)
    ensures Prefixed(p, Prefixed(q, r)) == Prefixed(p + q, r)
  {
    if r.Value? { assert p + (q + r.s) == (p + q) + r.s; }
  }

  /**
   * The round trip, exactly: a credential is read back unchanged whatever the
   * keyring held before, unless it leaves its end open; then it is read back
   * only if what comes after it happens to complete it, and from a keyring
   * without a next entry nothing is read at all.
   */
  lemma RoundTrip(slots: Slots, s: string, step: nat)
    requires step > 0
    ensures var read := ReadFrom(StoreFrom(slots, {}, s, 0, step).0, {}, 0); var n := Chunks(s, step);
            && (!LeavesOpen(s, step) ==> read == Value(s))
            && (LeavesOpen(s, step) && n !in slots ==> read == NoEntry)
            && (LeavesOpen(s, step) && n in slots && !EndsWith(slots[n], CONTINUE_MARKER) ==>
                  read == Value(Front(s, step) + slots[n]))
            && (read == Value(s) <==>
                  !LeavesOpen(s, step) || ReadFrom(slots, {}, n) == Value(s[|Front(s, step)|..]))
  {
    ReadAfterStore(slots, s, 0, step);
    hide StoreFrom, ReadFrom, Chunks, LeavesOpen;
    var next := ReadFrom(slots, {}, Chunks(s, step));
    NextEntryRead(slots, Chunks(s, step));
    var f := Front(s, step);
    assert s == f + s[|f|..];
    if next.Value? && f + next.s == s { assert (f + next.s)[|f|..] == next.s; }
  }

  lemma NextEntryRead(slots: Slots, n: nat)
    ensures n !in slots ==> ReadFrom(slots, {}, n) == NoEntry
    ensures n in slots && !EndsWith(slots[n], CONTINUE_MARKER) ==> ReadFrom(slots, {}, n) == Value(slots[n])
  {
  }

  /** No entry is longer than the platform allows, and only the first Chunks(s) entries are written. */
  lemma {:induction false} EntriesFit(slots: Slots, broken: set<nat>, s: string, k: nat, windows: bool, j: nat)
    requires j in StoreFrom(slots, broken, s, k, StepSize(windows)).0
    ensures (j in slots && StoreFrom(slots, broken, s, k, StepSize(windows)).0[j] == slots[j])
         || (k <= j < k + Chunks(s, StepSize(windows))
             && |StoreFrom(slots, broken, s, k, StepSize(windows)).0[j]| <= if windows then 1024 else 131072)
    decreases |s|
  {
    var step := StepSize(windows);
    if s != [] && k !in broken && step <= |s| {
      EntriesFit(slots[k := s[..step] + CONTINUE_MARKER], broken, s[step..], k + 1, windows, j);
    }
  }

  // ---- what is written and what is read, entry by entry ------------------------------

  /** Entry `j` of a string: a full piece and the marker, or the rest. */
  function Piece(s: string, step: nat, j: nat): string
    requires j * step <= |s|
  {
    var rest := s[j * step..];
    if step <= |rest| then rest[..step] + "<MORE>" else rest
  }

  /** No entry up to the one at distance `j` from `k` reports an error. */
  predicate Sound(broken: set<nat>, k: nat, j: nat) {
    forall i :: k <= i <= k + j ==> i !in broken
  }

  lemma NextPiece(s: string, step: nat, j: nat)
    requires 0 < step <= |s| && j > 0
    ensures j * step < |s| <==> (j - 1) * step < |s[step..]|
    ensures j * step <= |s| ==> (j - 1) * step <= |s[step..]| && Piece(s[step..], step, j - 1) == Piece(s, step, j)
  {
    assert j * step == (j - 1) * step + step;
    assert 0 <= (j - 1) * step;
    if j * step <= |s| {
      assert s[step..][(j - 1) * step..] == s[j * step..];
    }
  }

  /** Storing from `k` on changes exactly the entries of the pieces before the first error, and says so. */
  lemma {:induction false} StoreEntry(slots: Slots, broken: set<nat>, s: string, k: nat, step: nat, j: nat)
    requires step > 0
    ensures var r := StoreFrom(slots, broken, s, k, step).0;
            && (j * step < |s| && Sound(broken, k, j) ==> k + j in r && r[k + j] == Piece(s, step, j))
            && (j * step >= |s| || !Sound(broken, k, j) ==>
                  (k + j in r <==> k + j in slots) && (k + j in slots ==> r[k + j] == slots[k + j]))
    decreases |s|
  {
    if s != [] && k !in broken && step <= |s| {
      var slots1 := slots[k := s[..step] + CONTINUE_MARKER];
      if j == 0 {
        StoreBehind(slots1, broken, s[step..], k + 1, step, k);
        assert s[0 * step..] == s;
      } else {
        StoreEntry(slots1, broken, s[step..], k + 1, step, j - 1);
        NextPiece(s, step, j);
        assert Sound(broken, k, j) <==> Sound(broken, k + 1, j - 1);
      }
    } else if s != [] {
      StoreLast(slots, broken, s, k, step, j);
    } else {
      assert j * step >= 0;
    }
  }

  lemma StoreLast(slots: Slots, broken: set<nat>, s: string, k: nat, step: nat, j: nat)
    requires step > 0 && s != [] && (k in broken || |s| < step)
    ensures var r := StoreFrom(slots, broken, s, k, step).0;
            && (j * step < |s| && Sound(broken, k, j) ==> k + j in r && r[k + j] == Piece(s, step, j))
            && (j * step >= |s| || !Sound(broken, k, j) ==>
                  (k + j in r <==> k + j in slots) && (k + j in slots ==> r[k + j] == slots[k + j]))
  {
    if j > 0 { MulAtLeast(j, step); } else { assert s[0 * step..] == s; }
  }

  lemma {:induction false} StoreBehind(slots: Slots, broken: set<nat>, s: string, k: nat, step: nat, i: nat)
    requires step > 0 && i < k
    ensures var r := StoreFrom(slots, broken, s, k, step).0;
            (i in r <==> i in slots) && (i in slots ==> r[i] == slots[i])
    decreases |s|
  {
    if s != [] && k !in broken && step <= |s| {
      StoreBehind(slots[k := s[..step] + CONTINUE_MARKER], broken, s[step..], k + 1, step, i);
    }
  }

  /** None of the entries that a string needs from `k` on reports an error. */
  ghost predicate AllSound(broken: set<nat>, s: string, k: nat, step: nat) {
    forall j: nat :: j * step < |s| ==> k + j !in broken
  }

  lemma {:induction false} StoreSucceeds(slots: Slots, broken: set<nat>, s: string, k: nat, step: nat)
    requires step > 0
    ensures StoreFrom(slots, broken, s, k, step).1 <==> AllSound(broken, s, k, step)
    decreases |s|
  {
    if s == [] {
      forall j: nat ensures j * step >= |s| {
      }
    } else {
      assert 0 * step < |s|;
      if step <= |s| {
        StoreSucceeds(slots[k := s[..step] + CONTINUE_MARKER], broken, s[step..], k + 1, step);
        SoundSplits(broken, s, k, step);
      } else {
        forall j: nat | j > 0 ensures j * step >= |s| {
          MulAtLeast(j, step);
        }
      }
    }
  }

  lemma SoundSplits(broken: set<nat>, s: string, k: nat, step: nat)
    requires 0 < step <= |s|
    ensures AllSound(broken, s, k, step) <==> k !in broken && AllSound(broken, s[step..], k + 1, step)
  {
    assert 0 * step < |s|;
    if AllSound(broken, s, k, step) {
      forall j: nat | j * step < |s[step..]| ensures k + 1 + j !in broken {
        NextPiece(s, step, j + 1);
        assert k + (j + 1) !in broken;
      }
    }
    if k !in broken && AllSound(broken, s[step..], k + 1, step) {
      forall j: nat | j * step < |s| ensures k + j !in broken {
        if j > 0 {
          NextPiece(s, step, j);
          assert k + 1 + (j - 1) !in broken;
        }
      }
    }
  }

  /**
   * Storing, entry by entry: it succeeds exactly if none of the entries it
   * needs reports an error; every piece before the first error is in its
   * entry, marked if it is a full one; and all other entries are as before.
   */
  lemma StoreContents(slots: Slots, broken: set<nat>, s: string, windows: bool)
    ensures var step := if windows then 1018 else 131066;
            var (r, ok) := StoreFrom(slots, broken, s, 0, StepSize(windows));
            && (ok <==> forall j: nat :: j * step < |s| ==> j !in broken)
            && (forall j: nat :: j * step < |s| && Sound(broken, 0, j) ==> j in r && r[j] == Piece(s, step, j))
            && (forall j: nat :: j * step >= |s| || !Sound(broken, 0, j) ==>
                  (j in r <==> j in slots) && (j in slots ==> r[j] == slots[j]))
  {
    var step := StepSize(windows);
    assert step == if windows then 1018 else 131066;
    StoreSucceeds(slots, broken, s, 0, step);
    if AllSound(broken, s, 0, step) {
      forall j: nat | j * step < |s| ensures j !in broken {
        assert 0 + j !in broken;
      }
    }
    hide StoreFrom, Piece;
    forall j: nat
      ensures var r := StoreFrom(slots, broken, s, 0, step).0;
              && (j * step < |s| && Sound(broken, 0, j) ==> j in r && r[j] == Piece(s, step, j))
              && (j * step >= |s| || !Sound(broken, 0, j) ==>
                    (j in r <==> j in slots) && (j in slots ==> r[j] == slots[j]))
    {
      StoreEntry(slots, broken, s, 0, step, j);
    }
  }

  /** Entry `i` is there and says that more follows. */
  predicate Goes(slots: Slots, i: nat) {
    i in slots && EndsWith(slots[i], "<MORE>")
  }

  /** The entries from `k` up to `n`, without their markers. */
  function Joined(slots: Slots, k: nat, n: nat): string
    requires forall i :: k <= i < n ==> Goes(slots, i)
    decreases n - k
  {
    if k >= n then ""
    else
      assert Goes(slots, k) && |"<MORE>"| == 6;
      slots[k][..|slots[k]| - 6] + Joined(slots, k + 1, n)
  }

  /**
   * Reading, exactly: it goes on up to the first entry that does not say that
   * more follows; if that one reports an error reading fails, if it is missing
   * there is nothing, and otherwise the value is all these entries joined.
   */
  lemma {:induction false} ReadContents(slots: Slots, broken: set<nat>, k: nat) returns (n: nat)
    ensures k <= n && n + 1 == Asked(slots, broken, k)
    ensures (forall i :: k <= i < n ==> Goes(slots, i) && i !in broken) && (n in broken || !Goes(slots, n))
    ensures ReadFrom(slots, broken, k) ==
              if n in broken then Failed
              else if n !in slots then NoEntry
              else Value(Joined(slots, k, n) + slots[n])
    decreases After(slots, k)
  {
    n := k;
    if k !in broken && Goes(slots, k) {
      assert k in After(slots, k) && k !in After(slots, k + 1);
      n := ReadContents(slots, broken, k + 1);
      if n !in broken && n in slots {
        assert StripMarker(slots[k]) + (Joined(slots, k + 1, n) + slots[n]) == Joined(slots, k, n) + slots[n];
      }
    } else if k in slots {
      assert "" + slots[k] == slots[k];
    }
  }

  // ---- the storage object ------------------------------------------------------------

  /** The keyring itself, shared with everything else that runs. */
  class KeyringService {
    var slots: Slots

    constructor (slots: Slots)
      ensures this.slots == slots
    {
      this.slots := slots;
    }
  }

  predicate Present(slots: Slots, broken: set<nat>, n: nat) {
    forall i :: 0 <= i < n ==> i in slots && i !in broken
  }

  /** Deleting got as far as entry `i`, which it could not delete. */
  ghost predicate StoppedAt(before: Slots, broken: set<nat>, after: Slots, i: nat) {
    && (i !in before || i in broken)
    && Present(before, broken, i)
    && after == map j | j in before && i <= j :: before[j]
  }

  class KeyringStorage {
    const service: KeyringService
    const step: nat
    /** Handles obtained so far; the i-th one is for entry i. */
    var entries: seq<nat>

    ghost predicate Valid()
      reads this
    {
      step > 0 && forall i :: 0 <= i < |entries| ==> entries[i] == i
    }

    constructor (service: KeyringService, step: nat)
      requires step > 0
      ensures Valid() && this.service == service && this.step == step && entries == []
    {
      this.service, this.step, entries := service, step, [];
    }

    method NextEntry(i: nat) returns (entry: nat)
      requires Valid() && i <= |entries|
      modifies this
      ensures Valid() && entry == i
      ensures |entries| == if i < |old(entries)| then |old(entries)| else i + 1
    {
      if i == |entries| {
        entries := entries + [i];
      }
      entry := entries[i];
    }

    method Read(broken: set<nat>) returns (r: ReadResult)
      requires Valid()
      modifies this
      ensures Valid()
      ensures r == ReadFrom(service.slots, broken, 0)
      ensures var n := Asked(service.slots, broken, 0);
              |entries| == if |old(entries)| < n then n else |old(entries)|
    {
      var s := "";
      var i := 0;
      while true
        invariant Valid() && i <= |entries|
        invariant ReadFrom(service.slots, broken, 0) == Prefixed(s, ReadFrom(service.slots, broken, i))
        invariant Asked(service.slots, broken, 0) == Asked(service.slots, broken, i)
        invariant |entries| == if |old(entries)| < i then i else |old(entries)|
        decreases After(service.slots, i)
      {
        var entry := NextEntry(i);
        if entry in broken { return Failed; }
        if entry !in service.slots { return NoEntry; }
        var chunk := service.slots[entry];
        if EndsWith(chunk, CONTINUE_MARKER) {
          assert i in After(service.slots, i) && i !in After(service.slots, i + 1);
          PrefixedTwice(s, StripMarker(chunk), ReadFrom(service.slots, broken, i + 1));
          s := s + chunk[..|chunk| - |CONTINUE_MARKER|];
        } else {
          return Value(s + chunk);
        }
        i := i + 1;
      }
    }

    method Store(sealed: string, broken: set<nat>) returns (ok: bool)
      requires Valid()
      modifies this, service
      ensures Valid()
      ensures (service.slots, ok) == StoreFrom(old(service.slots), broken, sealed, 0, step)
      ensures var n := Wanted(broken, sealed, 0, step);
              |entries| == if |old(entries)| < n then n else |old(entries)|
    {
      var i, k := 0, 0;
      while i < |sealed|
        invariant Valid() && 0 <= i && k <= |entries|
        invariant StoreFrom(old(service.slots), broken, sealed, 0, step)
               == StoreFrom(service.slots, broken, if i < |sealed| then sealed[i..] else [], k, step)
        invariant Wanted(broken, sealed, 0, step) == Wanted(broken, if i < |sealed| then sealed[i..] else [], k, step)
        invariant |entries| == if |old(entries)| < k then k else |old(entries)|
        decreases |sealed| - i
      {
        var entry := NextEntry(k);
        if entry in broken { return false; }
        var cutoff := i + step;
        if cutoff <= |sealed| {
          assert sealed[i..][..step] == sealed[i..cutoff];
          assert sealed[i..][step..] == (if cutoff < |sealed| then sealed[cutoff..] else []);
          service.slots := service.slots[entry := sealed[i..cutoff] + CONTINUE_MARKER];
        } else {
          service.slots := service.slots[entry := sealed[i..]];
        }
        i, k := cutoff, k + 1;
      }
      return true;
    }

    /**
     * Clearing reads first, to get hold of the entries; that also gets hold of
     * the missing entry at which reading stops. Deleting a missing entry is an
     * error, so clearing succeeds exactly when every entry it knows exists.
     */
    method Clear(broken: set<nat>) returns (ok: bool)
      requires Valid()
      modifies this, service
      ensures Valid()
      ensures var asked := Asked(old(service.slots), broken, 0);
              var n := if |old(entries)| < asked then asked else |old(entries)|;
              && ok == Present(old(service.slots), broken, n)
              && (ok ==> entries == [] && service.slots == map j | j in old(service.slots) && n <= j :: old(service.slots)[j])
              && (!ok ==> exists i :: StoppedAt(old(service.slots), broken, service.slots, i))
    {
      var _ := Read(broken);
      ghost var before, n := service.slots, |entries|;
      var i := 0;
      while i < |entries|
        invariant Valid() && 0 <= i <= |entries| == n
        invariant Present(before, broken, i)
        invariant service.slots == map j | j in before && i <= j :: before[j]
      {
        var entry := entries[i];
        if entry in broken || entry !in service.slots {
          assert StoppedAt(before, broken, service.slots, i);
          return false;
        }
        service.slots := service.slots - {entry};
        i := i + 1;
      }
      entries := [];
      return true;
    }
  }
}
