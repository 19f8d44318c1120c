/**
 * A directory of downloads and the list of its most recently used entries. The
 * list decides what is evicted, so it has to know every directory there is, also
 * after evictions, renames and writes of the list have failed.
 *
 * Operations do not overlap. What the file system answers is a parameter of
 * every operation.
 */
module DownloadCache {
  import opened Common
  import opened PersistedState

  const KEEP_LRU := 5
  const STAGING_SUFFIX := ".staging"
  const RENAME_ATTEMPTS := 20

  type Names = seq<string>

  datatype State = State(dirs: set<string>, store: Store<Names>)

  const Empty := State({}, Store(None, None))

  function List(s: State): Names {
    Held(s.store, [])
  }

  predicate IsStaging(name: string) {
    |STAGING_SUFFIX| <= |name| && name[|name| - |STAGING_SUFFIX|..] == STAGING_SUFFIX
  }

  function StagingOf(name: string): string {
    name + STAGING_SUFFIX
  }

  /** The list without the first occurrence of `name`. */
  function RemoveFirst(l: Names, name: string): Names {
    if l == [] then []
    else if l[0] == name then l[1..]
    else [l[0]] + RemoveFirst(l[1..], name)
  }

  /** The list without any occurrence of `name`. */
  function Retain(l: Names, name: string): Names {
    if l == [] then []
    else (if l[0] == name then [] else [l[0]]) + Retain(l[1..], name)
  }

  function ToFront(l: Names, name: string): Names {
    [name] + RemoveFirst(l, name)
  }

  function Last(l: Names): string
    requires l != []
  {
    l[|l| - 1]
  }

  /** Whether the last entry of an overlong list goes: its directory is gone already or can be removed. */
  predicate Evicts(dirs: set<string>, l: Names, evict: bool) {
    |l| > KEEP_LRU && (Last(l) !in dirs || evict)
  }

  function AfterTouch(s: State, name: string, evict: bool, write: Write): State {
    var l := ToFront(List(s), name);
    if Evicts(s.dirs, l, evict) then
      State(s.dirs - {Last(l)}, Saved(s.store, l[..|l| - 1], write))
    else
      State(s.dirs, Saved(s.store, l, write))
  }

  /** What the file system answers while an entry is created. */
  datatype Creation = Creation(
    cleaned: bool,
    made: bool,
    filled: bool,
    evict: bool,
    write: Write,
    renames: seq<bool>)

  datatype Op =
    | Exists(name: string, evict: bool, write: Write)
    | Delete(name: string, removed: bool, write: Write)
    | Create(name: string, c: Creation)
    | Reopen(readable: bool)

  datatype Reply = Found | Absent | Done | RemoveFailed | SaveFailed | MakeFailed | FillFailed | RenameFailed

  /** One of the attempts to rename is let through. */
  predicate Renames(attempts: seq<bool>) {
    exists i :: 0 <= i <= RENAME_ATTEMPTS && i < |attempts| && attempts[i]
  }

  /** The directories while the staging directory is being filled. */
  function Staged(s: State, name: string, c: Creation): State {
    s.(dirs := (if c.cleaned then s.dirs - {StagingOf(name)} else s.dirs) + {StagingOf(name)})
  }

  function AfterCreate(s: State, name: string, c: Creation): (State, Reply) {
    if name in s.dirs then (s, Done)
    else if !c.made then (s.(dirs := if c.cleaned then s.dirs - {StagingOf(name)} else s.dirs), MakeFailed)
    else
      var staged := Staged(s, name, c);
      if !c.filled then (staged, FillFailed)
      else
        var t := AfterTouch(staged, name, c.evict, c.write);
        if StagingOf(name) in t.dirs && Renames(c.renames) then
          (t.(dirs := t.dirs - {StagingOf(name)} + {name}), Done)
        else
          (t, RenameFailed)
  }

  function AfterDelete(s: State, name: string, removed: bool, write: Write): (State, Reply) {
    if name in s.dirs && !removed then (s, RemoveFailed)
    else
      (State(s.dirs - {name}, Saved(s.store, Retain(List(s), name), write)),
       if write.Written? then Done else SaveFailed)
  }

  function Do(s: State, op: Op): (State, Reply) {
    match op
    case Exists(name, evict, write) =>
      if name in s.dirs then (AfterTouch(s, name, evict, write), Found) else (s, Absent)
    case Delete(name, removed, write) => AfterDelete(s, name, removed, write)
    case Create(name, c) => AfterCreate(s, name, c)
    case Reopen(readable) => (s.(store := Reopened(s.store, readable, [])), Done)
  }

  function Run(s: State, ops: seq<Op>): State {
    if ops == [] then s else Do(Run(s, ops[..|ops| - 1]), ops[|ops| - 1]).0
  }

  /** The state in which an operation marks its name as used, if it gets that far. */
  function Touching(s: State, op: Op): Option<State> {
    match op
    case Exists(name, _, _) => if name in s.dirs then Some(s) else None
    case Create(name, c) => if name !in s.dirs && c.made && c.filled then Some(Staged(s, name, c)) else None
    case _ => None
  }

  function EvictAnswer(op: Op): bool {
    match op
    case Exists(_, evict, _) => evict
    case Create(_, c) => c.evict
    case _ => true
  }

  /** The operation had an entry to evict and could not remove its directory. */
  predicate EvictionFails(s: State, op: Op) {
    match Touching(s, op)
    case None => false
    case Some(t) =>
      var l := ToFront(List(t), op.name);
      |l| > KEEP_LRU && Last(l) in t.dirs && !EvictAnswer(op)
  }

  function FailedEvictions(s: State, ops: seq<Op>): nat {
    if ops == [] then 0
    else
      var n := |ops| - 1;
      FailedEvictions(s, ops[..n]) + if EvictionFails(Run(s, ops[..n]), ops[n]) then 1 else 0
  }

  /** The names marked as used, in order. */
  function Touches(s: State, ops: seq<Op>): Names {
    if ops == [] then []
    else
      var n := |ops| - 1;
      Touches(s, ops[..n]) + if Touching(Run(s, ops[..n]), ops[n]).Some? then [ops[n].name] else []
  }

  /** When `name` was last used, counting from 0; -1 for never. */
  function LastUse(history: Names, name: string): int {
    if history == [] then -1
    else if Last(history) == name then |history| - 1
    else LastUse(history[..|history| - 1], name)
  }

  // ----- lists -----

  lemma {:induction false} RemoveFirstHas(l: Names, name: string, x: string)
    ensures x in RemoveFirst(l, name) ==> x in l
    ensures x in l && x != name ==> x in RemoveFirst(l, name)
    ensures |RemoveFirst(l, name)| == if name in l then |l| - 1 else |l|
  {
    if l != [] {
      RemoveFirstHas(l[1..], name, x);
    }
  }

  lemma {:induction false} RetainHas(l: Names, name: string, x: string)
    ensures x in Retain(l, name) <==> x in l && x != name
    ensures |Retain(l, name)| <= |l|
  {
    if l != [] {
      RetainHas(l[1..], name, x);
    }
  }

  /** Every entry was used, and more recently than the entries after it. */
  ghost predicate ByRecency(l: Names, history: Names) {
    && (forall i :: 0 <= i < |l| ==> LastUse(history, l[i]) >= 0)
    && (forall i, j :: 0 <= i < j < |l| ==> LastUse(history, l[i]) > LastUse(history, l[j]))
  }

  lemma ByRecencyCons(x: string, l: Names, history: Names)
    requires ByRecency(l, history)
    requires LastUse(history, x) >= 0
    requires forall y :: y in l ==> LastUse(history, x) > LastUse(history, y)
    ensures ByRecency([x] + l, history)
  {
  }

  lemma ByRecencyTail(l: Names, history: Names)
    requires ByRecency(l, history) && l != []
    ensures ByRecency(l[1..], history)
    ensures forall y :: y in l[1..] ==> LastUse(history, l[0]) > LastUse(history, y)
  {
  }

  lemma {:induction false} RemoveFirstOrdered(l: Names, name: string, history: Names)
    requires ByRecency(l, history)
    ensures ByRecency(RemoveFirst(l, name), history) && name !in RemoveFirst(l, name)
  {
    if l != [] {
      ByRecencyTail(l, history);
      RemoveFirstOrdered(l[1..], name, history);
      if l[0] != name {
        forall y | y in RemoveFirst(l[1..], name) ensures LastUse(history, l[0]) > LastUse(history, y) {
          RemoveFirstHas(l[1..], name, y);
        }
        ByRecencyCons(l[0], RemoveFirst(l[1..], name), history);
      }
    }
  }

  lemma {:induction false} RetainOrdered(l: Names, name: string, history: Names)
    requires ByRecency(l, history)
    ensures ByRecency(Retain(l, name), history)
  {
    if l != [] {
      ByRecencyTail(l, history);
      RetainOrdered(l[1..], name, history);
      if l[0] != name {
        forall y | y in Retain(l[1..], name) ensures LastUse(history, l[0]) > LastUse(history, y) {
          RetainHas(l[1..], name, y);
        }
        ByRecencyCons(l[0], Retain(l[1..], name), history);
      }
    }
  }

  lemma {:induction false} LastUseBound(history: Names, x: string)
    ensures -1 <= LastUse(history, x) < |history|
    ensures LastUse(history, x) >= 0 <==> x in history
  {
    if history != [] {
      var before := history[..|history| - 1];
      assert history == before + [Last(history)];
      LastUseBound(before, x);
    }
  }

  lemma UseAgain(history: Names, name: string, x: string)
    ensures LastUse(history + [name], x) == if x == name then |history| else LastUse(history, x)
  {
    assert (history + [name])[..|history|] == history;
  }

  /** Marking a name as used keeps the order, with respect to the longer history. */
  lemma ToFrontOrdered(l: Names, name: string, history: Names)
    requires ByRecency(l, history)
    ensures ByRecency(ToFront(l, name), history + [name])
  {
    var rest, later := RemoveFirst(l, name), history + [name];
    RemoveFirstOrdered(l, name, history);
    UseAgain(history, name, name);
    forall i | 0 <= i < |rest| ensures LastUse(later, rest[i]) == LastUse(history, rest[i]) < |history| {
      UseAgain(history, name, rest[i]);
      LastUseBound(history, rest[i]);
    }
    ByRecencyCons(name, rest, later);
  }

  /** The list that a new process would find in the file. */
  function FileList(s: State): Names {
    Held(Reopened(s.store, true, []), [])
  }

  /** The list with which a restart goes on. */
  function ReadBack(s: State, op: Op): Names
    requires op.Reopen?
  {
    if op.readable then FileList(s) else []
  }

  /** The list an operation leaves behind. */
  lemma ListAfter(s: State, op: Op)
    ensures
      var before, after := List(s), List(Do(s, op).0);
      match Touching(s, op) {
        case Some(t) =>
          var l := ToFront(before, op.name);
          after == if Evicts(t.dirs, l, EvictAnswer(op)) then l[..|l| - 1] else l
        case None =>
          if op.Delete? && Do(s, op).1 != RemoveFailed then after == Retain(before, op.name)
          else if op.Reopen? then after == ReadBack(s, op)
          else after == before
      }
  {
  }

  // ----- the runs -----

  lemma RunNext(s: State, ops: seq<Op>, k: nat)
    requires k < |ops|
    ensures Run(s, ops[..k + 1]) == Do(Run(s, ops[..k]), ops[k]).0
    ensures Touches(s, ops[..k + 1])
         == Touches(s, ops[..k]) + if Touching(Run(s, ops[..k]), ops[k]).Some? then [ops[k].name] else []
    ensures FailedEvictions(s, ops[..k + 1])
         == FailedEvictions(s, ops[..k]) + if EvictionFails(Run(s, ops[..k]), ops[k]) then 1 else 0
  {
    hide Do;
    assert ops[..k + 1][..k] == ops[..k];
  }

  lemma RunStart()
    ensures Run(Empty, []) == Empty && Touches(Empty, []) == [] && List(Empty) == []
  {
  }

  // ----- the lists in memory and in the file -----

  ghost predicate NoneTwice(l: Names) {
    forall i, j :: 0 <= i < j < |l| ==> l[i] != l[j]
  }

  lemma {:induction false} RemoveFirstUnique(l: Names, name: string)
    requires NoneTwice(l)
    ensures NoneTwice(RemoveFirst(l, name)) && name !in RemoveFirst(l, name)
  {
    if l != [] {
      RemoveFirstUnique(l[1..], name);
      var rest := RemoveFirst(l[1..], name);
      if l[0] == name {
        assert name !in l[1..];
      } else {
        RemoveFirstHas(l[1..], name, l[0]);
        assert forall k :: 0 <= k < |rest| ==> ([l[0]] + rest)[k + 1] == rest[k];
      }
    }
  }

  lemma {:induction false} RetainUnique(l: Names, name: string)
    requires NoneTwice(l)
    ensures NoneTwice(Retain(l, name))
  {
    if l != [] {
      RetainUnique(l[1..], name);
      RetainHas(l[1..], name, l[0]);
    }
  }

  lemma ToFrontUnique(l: Names, name: string)
    requires NoneTwice(l)
    ensures NoneTwice(ToFront(l, name)) && |l| <= |ToFront(l, name)| <= |l| + 1
  {
    RemoveFirstUnique(l, name);
    RemoveFirstHas(l, name, name);
  }

  ghost predicate SoundList(l: Names, bound: nat) {
    NoneTwice(l) && |l| <= bound
  }

  ghost predicate SoundLists(s: State, bound: nat) {
    && SoundList(List(s), bound)
    && (s.store.disk.Some? ==> SoundList(s.store.disk.value, bound))
  }

  /** An operation leaves the file alone, empties it, or writes to it what is then in memory. */
  lemma DiskAfter(s: State, op: Op)
    ensures var disk := Do(s, op).0.store.disk;
            disk == s.store.disk || disk == None || disk == Some(List(Do(s, op).0))
  {
  }

  lemma ToFrontSound(s: State, op: Op, bound: nat)
    requires SoundLists(s, bound) && bound >= KEEP_LRU
    ensures Touching(s, op).Some? ==>
              var l := ToFront(List(s), op.name);
              var after := if Evicts(Touching(s, op).value.dirs, l, EvictAnswer(op)) then l[..|l| - 1] else l;
              SoundList(after, bound + if EvictionFails(s, op) then 1 else 0)
  {
    if Touching(s, op).Some? {
      ToFrontUnique(List(s), op.name);
    }
  }

  lemma StepKeepsSound(s: State, op: Op, bound: nat)
    requires SoundLists(s, bound) && bound >= KEEP_LRU
    ensures SoundLists(Do(s, op).0, bound + if EvictionFails(s, op) then 1 else 0)
  {
    ListAfter(s, op);
    DiskAfter(s, op);
    ToFrontSound(s, op, bound);
    if op.Delete? {
      RetainUnique(List(s), op.name);
      RetainHas(List(s), op.name, op.name);
    }
  }

  /**
   * In every run, with failed evictions, failed writes and restarts: the list in
   * memory and the list in the file hold no name twice, and they outgrow the
   * bound by no more than the evictions that failed.
   */
  lemma {:induction false} LengthBound(ops: seq<Op>)
    ensures SoundLists(Run(Empty, ops), 5 + FailedEvictions(Empty, ops))
  {
    hide Do, Run, SoundLists, EvictionFails, FailedEvictions;
    if ops == [] {
      LengthStart();
    } else {
      var n := |ops| - 1;
      assert ops[..n + 1] == ops;
      LengthBound(ops[..n]);
      RunNext(Empty, ops, n);
      StepKeepsSound(Run(Empty, ops[..n]), ops[n], KEEP_LRU + FailedEvictions(Empty, ops[..n]));
    }
  }

  lemma LengthStart()
    ensures SoundLists(Run(Empty, []), KEEP_LRU + FailedEvictions(Empty, []))
  {
  }

  // ----- the order of the list -----

  /** The list is sorted by recency after every operation of the run. */
  ghost predicate SortedThroughout(ops: seq<Op>) {
    forall k :: 0 <= k <= |ops| ==> ByRecency(List(Run(Empty, ops[..k])), Touches(Empty, ops[..k]))
  }

  /** Every restart goes on with a list that is sorted by recency. */
  ghost predicate RestartsSorted(ops: seq<Op>) {
    forall k :: 0 <= k < |ops| && ops[k].Reopen? ==>
      ByRecency(ReadBack(Run(Empty, ops[..k]), ops[k]), Touches(Empty, ops[..k]))
  }

  /** The list after an operation that marks its name as used. */
  lemma ListAfterTouch(s: State, op: Op)
    requires Touching(s, op).Some?
    ensures !op.Reopen? && !op.Delete?
    ensures var l := ToFront(List(s), op.name);
            List(Do(s, op).0) == if Evicts(Touching(s, op).value.dirs, l, EvictAnswer(op)) then l[..|l| - 1] else l
  {
    ListAfter(s, op);
  }

  /** The list after any other operation. */
  lemma ListOtherwise(s: State, op: Op)
    requires Touching(s, op).None?
    ensures op.Reopen? ==> List(Do(s, op).0) == ReadBack(s, op)
    ensures op.Delete? ==> List(Do(s, op).0) == List(s) || List(Do(s, op).0) == Retain(List(s), op.name)
    ensures !op.Reopen? && !op.Delete? ==> List(Do(s, op).0) == List(s)
  {
    ListAfter(s, op);
  }

  lemma StepKeepsSorted(s: State, op: Op, h: Names)
    requires ByRecency(List(s), h)
    ensures ByRecency(List(Do(s, op).0), h + if Touching(s, op).Some? then [op.name] else [])
       <==> (op.Reopen? ==> ByRecency(ReadBack(s, op), h))
  {
    hide Do, Touching, List, ReadBack, ToFront, ByRecency;
    if Touching(s, op).Some? {
      ListAfterTouch(s, op);
      var l, h' := ToFront(List(s), op.name), h + [op.name];
      ToFrontOrdered(List(s), op.name, h);
      FrontOrdered(l, h');
    } else {
      assert h + [] == h;
      ListOtherwise(s, op);
      if op.Delete? { RetainOrdered(List(s), op.name, h); }
    }
  }

  lemma FrontOrdered(l: Names, h: Names)
    requires ByRecency(l, h)
    ensures l != [] ==> ByRecency(l[..|l| - 1], h)
  {
  }

  lemma {:induction false} SortedUpTo(ops: seq<Op>, k: nat)
    requires k <= |ops| && RestartsSorted(ops)
    ensures ByRecency(List(Run(Empty, ops[..k])), Touches(Empty, ops[..k]))
  {
    hide Do, Run, Touches, ByRecency, ReadBack, Touching;
    if k == 0 {
      assert ops[..0] == [];
      RunStart();
      NothingSorted([]);
    } else {
      SortedUpTo(ops, k - 1);
      RunNext(Empty, ops, k - 1);
      StepKeepsSorted(Run(Empty, ops[..k - 1]), ops[k - 1], Touches(Empty, ops[..k - 1]));
    }
  }

  lemma NothingSorted(h: Names)
    ensures ByRecency([], h)
  {
  }

  /**
   * The list is sorted by recency throughout a run, so that the last entry, which
   * is the one to evict, is the one unused for longest, if and only if every
   * restart goes on with a sorted list. A list that is out of date need not be:
   * names may have been used again after the write that failed.
   */
  lemma SortedByRecency(ops: seq<Op>)
    ensures SortedThroughout(ops) <==> RestartsSorted(ops)
  {
    hide Do, Run, Touches, ByRecency, ReadBack, Touching;
    if RestartsSorted(ops) {
      forall k | 0 <= k <= |ops| ensures ByRecency(List(Run(Empty, ops[..k])), Touches(Empty, ops[..k])) {
        SortedUpTo(ops, k);
      }
    }
    if SortedThroughout(ops) {
      forall k | 0 <= k < |ops| && ops[k].Reopen?
        ensures ByRecency(ReadBack(Run(Empty, ops[..k]), ops[k]), Touches(Empty, ops[..k]))
      {
        assert ByRecency(List(Run(Empty, ops[..k])), Touches(Empty, ops[..k]));
        assert ByRecency(List(Run(Empty, ops[..k + 1])), Touches(Empty, ops[..k + 1]));
        RunNext(Empty, ops, k);
        StepKeepsSorted(Run(Empty, ops[..k]), ops[k], Touches(Empty, ops[..k]));
      }
    }
  }

  /** A run that deletes nothing and whose evictions all succeed. */
  ghost predicate Undisturbed(s: State, ops: seq<Op>) {
    forall k :: 0 <= k < |ops| ==> !ops[k].Delete? && !EvictionFails(Run(s, ops[..k]), ops[k])
  }

  /** The most recently used names of the history, in order: at most five, and short of five only if there are no more. */
  ghost predicate Latest(l: Names, h: Names) {
    && ByRecency(l, h) && |l| <= 5
    && (forall x :: x in h && x !in l ==> |l| == 5 && LastUse(h, x) < LastUse(h, Last(l)))
  }

  ghost predicate LatestThroughout(ops: seq<Op>) {
    forall k :: 0 <= k <= |ops| ==> Latest(List(Run(Empty, ops[..k])), Touches(Empty, ops[..k]))
  }

  ghost predicate RestartsLatest(ops: seq<Op>) {
    forall k :: 0 <= k < |ops| && ops[k].Reopen? ==>
      Latest(ReadBack(Run(Empty, ops[..k]), ops[k]), Touches(Empty, ops[..k]))
  }

  lemma StepKeepsLatest(s: State, op: Op, h: Names)
    requires Latest(List(s), h) && !op.Delete? && !EvictionFails(s, op)
    ensures Latest(List(Do(s, op).0), h + if Touching(s, op).Some? then [op.name] else [])
       <==> (op.Reopen? ==> Latest(ReadBack(s, op), h))
  {
    SucceedsOrNot(s, op);
    hide Do, Touching, List, ReadBack, Evicts, ToFront, Latest, EvictionFails;
    if Touching(s, op).Some? {
      ListAfterTouch(s, op);
      TouchKeepsLatest(List(s), Touching(s, op).value.dirs, op.name, EvictAnswer(op), h);
    } else {
      assert h + [] == h;
      ListOtherwise(s, op);
    }
  }

  lemma SucceedsOrNot(s: State, op: Op)
    requires !EvictionFails(s, op)
    ensures Touching(s, op).Some? ==>
              var m := ToFront(List(s), op.name);
              |m| > KEEP_LRU ==> Last(m) !in Touching(s, op).value.dirs || EvictAnswer(op)
  {
  }

  lemma TouchKeepsLatest(l: Names, dirs: set<string>, name: string, evict: bool, h: Names)
    requires Latest(l, h)
    requires var m := ToFront(l, name); |m| > KEEP_LRU ==> Last(m) !in dirs || evict
    ensures var m := ToFront(l, name); Latest(if Evicts(dirs, m, evict) then m[..|m| - 1] else m, h + [name])
  {
    var m, h' := ToFront(l, name), h + [name];
    ToFrontOrdered(l, name, h);
    ToFrontLength(l, name);
    forall x ensures var after := if Evicts(dirs, m, evict) then m[..|m| - 1] else m;
                     x in h' && x !in after ==> |after| == KEEP_LRU && LastUse(h', x) < LastUse(h', Last(after))
    {
      LatestAfterTouch(l, dirs, name, evict, h, x);
    }
  }

  lemma {:induction false} LatestUpTo(ops: seq<Op>, k: nat)
    requires k <= |ops| && Undisturbed(Empty, ops) && RestartsLatest(ops)
    ensures Latest(List(Run(Empty, ops[..k])), Touches(Empty, ops[..k]))
  {
    hide Do, Run, Touches, Latest, ReadBack, Touching, EvictionFails;
    if k == 0 {
      assert ops[..0] == [];
      RunStart();
      NothingLatest();
    } else {
      LatestUpTo(ops, k - 1);
      RunNext(Empty, ops, k - 1);
      StepKeepsLatest(Run(Empty, ops[..k - 1]), ops[k - 1], Touches(Empty, ops[..k - 1]));
    }
  }

  lemma NothingLatest()
    ensures Latest([], [])
  {
  }

  /**
   * If nothing is deleted and evictions succeed, whatever else fails: the list is
   * throughout the most recently used names of the history and nothing else, if
   * and only if that is what every restart goes on with.
   */
  lemma KeepsTheLatest(ops: seq<Op>)
    requires Undisturbed(Empty, ops)
    ensures LatestThroughout(ops) <==> RestartsLatest(ops)
  {
    hide Do, Run, Touches, Latest, ReadBack, Touching, EvictionFails;
    if RestartsLatest(ops) {
      forall k | 0 <= k <= |ops| ensures Latest(List(Run(Empty, ops[..k])), Touches(Empty, ops[..k])) {
        LatestUpTo(ops, k);
      }
    }
    if LatestThroughout(ops) {
      forall k | 0 <= k < |ops| && ops[k].Reopen?
        ensures Latest(ReadBack(Run(Empty, ops[..k]), ops[k]), Touches(Empty, ops[..k]))
      {
        assert Latest(List(Run(Empty, ops[..k])), Touches(Empty, ops[..k]));
        assert Latest(List(Run(Empty, ops[..k + 1])), Touches(Empty, ops[..k + 1]));
        RunNext(Empty, ops, k);
        StepKeepsLatest(Run(Empty, ops[..k]), ops[k], Touches(Empty, ops[..k]));
      }
    }
  }

  lemma ToFrontLength(l: Names, name: string)
    ensures |l| <= |ToFront(l, name)| <= |l| + 1
    ensures name !in l ==> |ToFront(l, name)| == |l| + 1
  {
    RemoveFirstHas(l, name, name);
  }

  lemma LatestAfterTouch(l: Names, dirs: set<string>, name: string, evict: bool, h: Names, x: string)
    requires ByRecency(l, h) && |l| <= KEEP_LRU
    requires x in h && x !in l ==> |l| == KEEP_LRU && LastUse(h, x) < LastUse(h, Last(l))
    requires var m := ToFront(l, name); |m| > KEEP_LRU ==> Last(m) !in dirs || evict
    ensures var m, h' := ToFront(l, name), h + [name];
            var after := if Evicts(dirs, m, evict) then m[..|m| - 1] else m;
            x in h' && x !in after ==> |after| == KEEP_LRU && LastUse(h', x) < LastUse(h', Last(after))
  {
    var m, h' := ToFront(l, name), h + [name];
    ToFrontOrdered(l, name, h);
    ToFrontLength(l, name);
    UseAgain(h, name, x);
    if x != name && x in h' {
      RemoveFirstHas(l, name, x);
      if x in l {
        assert x in m;
      } else {
        assert m == [name] + RemoveFirst(l, name);
        forall y | y in m ensures LastUse(h', y) > LastUse(h', x) {
          UseAgain(h, name, y);
          LastUseBound(h, x);
          RemoveFirstHas(l, name, y);
        }
      }
    }
  }

  // ----- the list and the directory -----

  /** Every completed directory is listed: a name dropped from the list has no directory. */
  ghost predicate Covered(s: State) {
    forall d :: d in s.dirs && !IsStaging(d) ==> d in List(s)
  }

  lemma StagingIsStaging(name: string)
    ensures IsStaging(StagingOf(name)) && StagingOf(name) != name
  {
    assert StagingOf(name)[|name|..] == STAGING_SUFFIX;
  }

  lemma TouchKeepsCovered(s: State, name: string, evict: bool, write: Write)
    requires Covered(s)
    ensures Covered(AfterTouch(s, name, evict, write))
  {
    var l := ToFront(List(s), name);
    forall d | d in AfterTouch(s, name, evict, write).dirs && !IsStaging(d)
      ensures d in List(AfterTouch(s, name, evict, write))
    {
      RemoveFirstHas(List(s), name, d);
      assert d in l;
    }
  }

  /** The name just used is listed after the touch, and its directory is not the one evicted. */
  lemma TouchedStays(s: State, name: string, evict: bool, write: Write)
    requires NoneTwice(List(s))
    ensures var t := AfterTouch(s, name, evict, write);
            && name in List(t)
            && (name in s.dirs ==> name in t.dirs)
            && t.dirs <= s.dirs
  {
    var l := ToFront(List(s), name);
    RemoveFirstUnique(List(s), name);
    assert l[0] == name && l[1..] == RemoveFirst(List(s), name);
    if |l| > KEEP_LRU {
      assert l[..|l| - 1][0] == name;
      assert Last(l) == l[1..][|l| - 2];
    }
  }

  /** A list has every completed directory. */
  ghost predicate Covers(l: Names, s: State) {
    forall d :: d in s.dirs && !IsStaging(d) ==> d in l
  }

  lemma FrontIsListed(s: State, name: string, evict: bool, write: Write)
    ensures name in List(AfterTouch(s, name, evict, write))
    ensures AfterTouch(s, name, evict, write).dirs <= s.dirs
  {
    var l := ToFront(List(s), name);
    assert l[0] == name;
    if |l| > KEEP_LRU { assert l[..|l| - 1][0] == name; }
  }

  /** Only a restart can lose coverage, and it does so exactly if what it reads lacks a directory. */
  lemma StepKeepsCovered(s: State, op: Op)
    requires Covered(s)
    ensures Covered(Do(s, op).0) <==> (op.Reopen? ==> Covers(ReadBack(s, op), s))
  {
    match op
    case Exists(name, evict, write) =>
      TouchKeepsCovered(s, name, evict, write);
    case Delete(name, removed, write) =>
      forall d | d in s.dirs && d != name && !IsStaging(d) ensures d in Retain(List(s), name) {
        RetainHas(List(s), name, d);
      }
    case Create(name, c) =>
      StagingIsStaging(name);
      if name !in s.dirs && c.made && c.filled {
        var staged := Staged(s, name, c);
        assert Covered(staged);
        TouchKeepsCovered(staged, name, c.evict, c.write);
        FrontIsListed(staged, name, c.evict, c.write);
      }
    case Reopen(_) =>
  }

  /** The index agrees with the directory after every operation of the run. */
  ghost predicate CoveredThroughout(s: State, ops: seq<Op>) {
    forall k :: 0 <= k <= |ops| ==> Covered(Run(s, ops[..k]))
  }

  /** Every restart goes on with a list of every completed directory. */
  ghost predicate RestartsCovered(s: State, ops: seq<Op>) {
    forall k :: 0 <= k < |ops| && ops[k].Reopen? ==> Covers(ReadBack(Run(s, ops[..k]), ops[k]), Run(s, ops[..k]))
  }

  /**
   * The index agrees with the directory throughout a run, whatever fails in it,
   * if and only if every restart reads a list of every completed directory.
   * In particular a run without restarts keeps the agreement.
   */
  lemma IndexCoversDirectories(ops: seq<Op>)
    ensures CoveredThroughout(Empty, ops) <==> RestartsCovered(Empty, ops)
  {
    hide Do, Run, Covered, Covers, ReadBack;
    if RestartsCovered(Empty, ops) {
      forall k | 0 <= k <= |ops| ensures Covered(Run(Empty, ops[..k])) {
        CoveredUpTo(ops, k);
      }
    }
    if CoveredThroughout(Empty, ops) {
      forall k | 0 <= k < |ops| && ops[k].Reopen? ensures Covers(ReadBack(Run(Empty, ops[..k]), ops[k]), Run(Empty, ops[..k])) {
        assert Covered(Run(Empty, ops[..k])) && Covered(Run(Empty, ops[..k + 1]));
        RunNext(Empty, ops, k);
        StepKeepsCovered(Run(Empty, ops[..k]), ops[k]);
      }
    }
  }

  lemma {:induction false} CoveredUpTo(ops: seq<Op>, k: nat)
    requires k <= |ops| && RestartsCovered(Empty, ops)
    ensures Covered(Run(Empty, ops[..k]))
  {
    if k == 0 {
      assert Run(Empty, ops[..0]) == Empty;
    } else {
      CoveredUpTo(ops, k - 1);
      RunNext(Empty, ops, k - 1);
      StepKeepsCovered(Run(Empty, ops[..k - 1]), ops[k - 1]);
    }
  }

  /** How writing the list ended, for an operation that got as far as writing it. */
  function WriteOf(s: State, op: Op): Option<Write> {
    match op
    case Exists(name, _, write) => if name in s.dirs then Some(write) else None
    case Create(_, c) => if Touching(s, op).Some? then Some(c.write) else None
    case Delete(name, removed, write) => if name in s.dirs && !removed then None else Some(write)
    case Reopen(_) => None
  }

  /**
   * What a restart will read, in terms of how the last write ended: the list in
   * memory after a good write, what was there before if the file could not be
   * opened, and nothing after a torn one.
   */
  lemma FileAfterWrite(s: State, op: Op)
    ensures var after := Do(s, op).0;
            FileList(after) ==
              match WriteOf(s, op)
              case None => FileList(s)
              case Some(Written) => List(after)
              case Some(NotOpened) => FileList(s)
              case Some(Torn) => []
  {
  }

  /** The k-th operation is the last one that wrote to the file or broke off in it. */
  ghost predicate LastWrite(ops: seq<Op>, k: nat) {
    && k < |ops|
    && Reaches(ops, k)
    && (forall j :: k < j < |ops| ==> !Reaches(ops, j))
  }

  /** The k-th operation truncated the file. */
  ghost predicate Reaches(ops: seq<Op>, k: nat)
    requires k < |ops|
  {
    var write := WriteOf(Run(Empty, ops[..k]), ops[k]);
    write == Some(Written) || write == Some(Torn)
  }

  /**
   * In every run the file holds the list as it was in memory after the last
   * operation that reached the file, if its write was good; if that write broke
   * off, or there was none, a restart reads nothing.
   */
  lemma {:induction false} FileIsLastWrite(ops: seq<Op>, k: nat)
    ensures LastWrite(ops, k) ==>
              FileList(Run(Empty, ops)) ==
                if WriteOf(Run(Empty, ops[..k]), ops[k]) == Some(Written) then List(Run(Empty, ops[..k + 1])) else []
    ensures (forall j :: 0 <= j < |ops| ==> !Reaches(ops, j)) ==> FileList(Run(Empty, ops)) == []
  {
    hide Do, Run, WriteOf, List, FileList;
    if ops == [] {
      NothingInFile();
    } else {
      var n := |ops| - 1;
      var before := ops[..n];
      assert ops[..n + 1] == ops;
      RunNext(Empty, ops, n);
      FileAfterWrite(Run(Empty, before), ops[n]);
      forall j | 0 <= j < n ensures Reaches(before, j) <==> Reaches(ops, j) {
        assert before[..j] == ops[..j];
      }
      FileIsLastWrite(before, k);
      var reached := Reaches(ops, n);
      assert !reached ==> FileList(Run(Empty, ops)) == FileList(Run(Empty, before));
      assert !reached && LastWrite(ops, k) ==> LastWrite(before, k);
      assert reached && LastWrite(ops, k) ==> k == n;
      if k < n { assert before[..k] == ops[..k] && before[..k + 1] == ops[..k + 1]; }
    }
  }

  lemma NothingInFile()
    ensures FileList(Run(Empty, [])) == []
  {
  }

  /**
   * Agreement can be lost by a restart after a failed write: the new process
   * does not know of the directory, and it will never be evicted.
   */
  lemma RestartCanLoseDirectories()
    ensures var c := Creation(true, true, true, true, Torn, [true]);
            var s := Run(Empty, [Create("a", c), Reopen(true)]);
            "a" in s.dirs && !IsStaging("a") && List(s) == [] && !Covered(s)
  {
    var c := Creation(true, true, true, true, Torn, [true]);
    var ops := [Create("a", c), Reopen(true)];
    assert ops[..1] == [Create("a", c)] && ops[..1][..0] == [];
    assert Renames(c.renames) by { assert c.renames[0]; }
    StagingIsStaging("a");
    assert !IsStaging("a");
    var t := AfterTouch(Staged(Empty, "a", c), "a", true, c.write);
    assert List(Empty) == [] && ToFront([], "a") == ["a"];
    assert StagingOf("a") in t.dirs;
    assert Run(Empty, ops[..1]) == Do(Empty, ops[0]).0;
    assert "a" in Run(Empty, ops[..1]).dirs;
  }

  // ----- what callers are told -----

  /** The staging directory itself is what marking `name` as used evicts. */
  predicate LosesStaging(l: Names, name: string, evict: bool) {
    var m := ToFront(l, name);
    |m| > 5 && m[|m| - 1] == name + ".staging" && evict
  }

  /**
   * Deleting, exactly: it fails before anything has changed if the directory
   * cannot be removed, and with everything done but the list not written if
   * that fails; otherwise it succeeds.
   */
  lemma DeletesExactly(s: State, name: string, removed: bool, write: Write)
    ensures
      var (after, reply) := Do(s, Delete(name, removed, write));
      && (reply == RemoveFailed <==> name in s.dirs && !removed)
      && (reply == RemoveFailed ==> after == s)
      && (reply == Done <==> (name in s.dirs ==> removed) && write.Written?)
      && (reply == SaveFailed <==> (name in s.dirs ==> removed) && !write.Written?)
      && (reply != RemoveFailed ==>
            && after.dirs == s.dirs - {name}
            && forall x :: x in List(after) <==> x in List(s) && x != name)
  {
    forall x ensures x in Retain(List(s), name) <==> x in List(s) && x != name {
      RetainHas(List(s), name, x);
    }
  }

  lemma TouchDirs(s: State, name: string, evict: bool, write: Write, d: string)
    ensures d in AfterTouch(s, name, evict, write).dirs <==>
              d in s.dirs && !(var m := ToFront(List(s), name); |m| > 5 && m[|m| - 1] == d && evict)
  {
  }

  /**
   * Creating, exactly: every reply with the answers of the file system that lead
   * to it, twenty-one of them for the renaming, and what is left of the staging
   * directory then.
   */
  lemma CreatesExactly(s: State, name: string, c: Creation)
    ensures
      var (after, reply) := Do(s, Create(name, c));
      var temp := name + ".staging";
      var started := name !in s.dirs && c.made && c.filled;
      var ready := !LosesStaging(List(s), name, c.evict);
      var renamed := exists i :: 0 <= i < 21 && i < |c.renames| && c.renames[i];
      && (name in s.dirs ==> after == s)
      && (reply == MakeFailed <==> name !in s.dirs && !c.made)
      && (reply == FillFailed <==> name !in s.dirs && c.made && !c.filled)
      && (reply == RenameFailed <==> started && !(ready && renamed))
      && (reply == Done <==> name in s.dirs || (started && ready && renamed))
      && (reply == MakeFailed ==> (temp in after.dirs <==> temp in s.dirs && !c.cleaned))
      && (reply == FillFailed ==> temp in after.dirs)
      && (reply == RenameFailed ==> (temp in after.dirs <==> ready))
      && (reply == Done && name !in s.dirs ==> name in after.dirs && temp !in after.dirs)
      && after.dirs <= s.dirs + {name, temp}
  {
    StagingIsStaging(name);
    if name !in s.dirs && c.made && c.filled {
      TouchDirs(Staged(s, name, c), name, c.evict, c.write, StagingOf(name));
      FrontIsListed(Staged(s, name, c), name, c.evict, c.write);
    }
    assert Renames(c.renames) <==> exists i :: 0 <= i < 21 && i < |c.renames| && c.renames[i];
    hide AfterTouch, Evicts, ToFront, Renames;
  }

  /**
   * What the replies say about the directory once the operation is over, in
   * every reachable state: a path that is handed out exists, also after the
   * eviction that the same call may have made, and an entry that could not be
   * created has no directory, although it may be listed.
   */
  lemma RepliesAreTrue(ops: seq<Op>, op: Op)
    ensures
      var s := Run(Empty, ops);
      var (after, reply) := Do(s, op);
      match op {
        case Exists(name, _, _) =>
          (reply == Found <==> name in s.dirs) && (reply == Found <==> name in after.dirs) && (reply == Found ==> name in List(after) && List(after)[0] == name)
        case Create(name, _) =>
          (reply == Done <==> name in after.dirs) && (reply == RenameFailed ==> name in List(after))
        case Delete(name, _, _) =>
          (reply == RemoveFailed <==> name in after.dirs) && (reply != RemoveFailed ==> name !in List(after))
        case Reopen(_) => after.dirs == s.dirs
      }
  {
    LengthBound(ops);
    var s := Run(Empty, ops);
    assert NoneTwice(List(s));
    hide Run;
    match op
    case Exists(name, evict, write) => TouchedStays(s, name, evict, write);
    case Create(name, c) =>
      if name !in s.dirs && c.made && c.filled {
        TouchedStays(Staged(s, name, c), name, c.evict, c.write);
      }
      StagingIsStaging(name);
    case Delete(name, _, _) => RetainHas(List(s), name, name);
    case Reopen(_) =>
  }

  /**
   * In every run: apart from deleting, no operation takes away a completed
   * directory, unless the list was full and nothing but the operation's own name
   * came after it. Where the list is sorted, it is the one unused for longest.
   */
  lemma OnlyTheOldestGoes(ops: seq<Op>, op: Op, d: string)
    requires var s := Run(Empty, ops); d in s.dirs && d !in Do(s, op).0.dirs && !IsStaging(d)
    ensures
      var l, h := List(Run(Empty, ops)), Touches(Empty, ops);
      || (op.Delete? && d == op.name)
      || (!op.Delete? && !op.Reopen? && d in l && d != op.name
          && (if op.name in l then |l| > 5 else |l| >= 5)
          && (forall i, j :: 0 <= i < j < |l| && l[i] == d ==> l[j] == op.name)
          && (ByRecency(l, h) ==> forall x :: x in l && x != d && x != op.name ==> LastUse(h, x) > LastUse(h, d)))
  {
    var s, h := Run(Empty, ops), Touches(Empty, ops);
    LengthBound(ops);
    var l := List(s);
    if !op.Delete? {
      DroppedByTouch(s, op, d);
      assert NoneTwice(l);
      hide *;
      LastAfterTouch(l, op.name);
      if ByRecency(l, h) {
        OldestAfterTouch(l, op.name, h);
      }
    }
  }

  lemma DroppedByTouch(s: State, op: Op, d: string)
    requires d in s.dirs && d !in Do(s, op).0.dirs && !IsStaging(d) && !op.Delete?
    ensures !op.Reopen? && |ToFront(List(s), op.name)| > KEEP_LRU && d == Last(ToFront(List(s), op.name))
  {
    if !op.Reopen? { StagingIsStaging(op.name); }
  }

  /** The last entry once `name` has been moved to the front: only `name` came after it. */
  lemma LastAfterTouch(l: Names, name: string)
    requires NoneTwice(l) && |ToFront(l, name)| > KEEP_LRU
    ensures var d := Last(ToFront(l, name));
            && d != name && d in l
            && (if name in l then |l| > KEEP_LRU else |l| >= KEEP_LRU)
            && (forall i, j :: 0 <= i < j < |l| && l[i] == d ==> l[j] == name)
  {
    var rest := RemoveFirst(l, name);
    RemoveFirstUnique(l, name);
    RemoveFirstHas(l, name, name);
    var d := Last(ToFront(l, name));
    assert d == Last(rest);
    RemoveFirstHas(l, name, d);
    LastIsLast(l, name);
  }

  lemma {:induction false} LastIsLast(l: Names, name: string)
    requires NoneTwice(l) && RemoveFirst(l, name) != []
    ensures var d := Last(RemoveFirst(l, name)); forall i, j :: 0 <= i < j < |l| && l[i] == d ==> l[j] == name
  {
    if l[0] != name {
      if RemoveFirst(l[1..], name) == [] {
        RemoveFirstEmpty(l[1..], name);
        assert forall j :: 0 < j < |l| ==> l[j] == l[1..][j - 1];
      } else {
        LastIsLast(l[1..], name);
        var d := Last(RemoveFirst(l[1..], name));
        RemoveFirstHas(l[1..], name, d);
        forall i, j | 0 <= i < j < |l| && l[i] == d ensures l[j] == name {
          assert d in l[1..];
          assert l[1..][i - 1] == d && l[1..][j - 1] == l[j];
        }
      }
    }
  }

  lemma RemoveFirstEmpty(l: Names, name: string)
    requires RemoveFirst(l, name) == []
    ensures forall i :: 0 <= i < |l| ==> l[i] == name
  {
    if l != [] && l[0] == name { assert l == [l[0]] + l[1..]; }
  }

  /** Where the list is sorted, it is the one unused for longest. */
  lemma OldestAfterTouch(l: Names, name: string, h: Names)
    requires ByRecency(l, h) && |ToFront(l, name)| > KEEP_LRU
    ensures var d := Last(ToFront(l, name));
            forall x :: x in l && x != d && x != name ==> LastUse(h, x) > LastUse(h, d)
  {
    var rest := RemoveFirst(l, name);
    var d := Last(ToFront(l, name));
    RemoveFirstOrdered(l, name, h);
    assert d == rest[|rest| - 1];
    forall x | x in l && x != d && x != name ensures LastUse(h, x) > LastUse(h, d) {
      RemoveFirstHas(l, name, x);
    }
  }

  /** The first occurrence is the one that goes. */
  lemma {:induction false} RemoveAt(l: Names, name: string, index: nat)
    requires index < |l| && l[index] == name && name !in l[..index]
    ensures RemoveFirst(l, name) == l[..index] + l[index + 1..]
  {
    if index > 0 {
      assert l[..index][0] == l[0] && l[..index][1..] == l[1..][..index - 1];
      RemoveAt(l[1..], name, index - 1);
      assert l[1..][..index - 1] + l[1..][index..] == (l[..index] + l[index + 1..])[1..];
    }
  }

  lemma RetainNone(name: string)
    ensures Retain([], name) == []
  {
  }

  lemma {:induction false} RetainSnoc(l: Names, x: string, name: string)
    ensures Retain(l + [x], name) == Retain(l, name) + if x == name then [] else [x]
  {
    if l == [] {
      assert ([] + [x])[1..] == [];
    } else {
      assert (l + [x])[0] == l[0] && (l + [x])[1..] == l[1..] + [x];
      RetainSnoc(l[1..], x, name);
    }
  }

  lemma {:induction false} RemoveAbsent(l: Names, name: string)
    requires name !in l
    ensures RemoveFirst(l, name) == l
  {
    if l != [] {
      RemoveAbsent(l[1..], name);
    }
  }

  // ----- the operations in place -----

  class Cache {
    var dirs: set<string>
    const state: Container<Names>

    ghost function View(): State
      reads this, state
    {
      State(dirs, state.View())
    }

    constructor (dirs: set<string>, disk: Option<Names>, readable: bool)
      ensures fresh(state) && state.default_ == []
      ensures View() == State(dirs, Reopened(Store(None, disk), readable, []))
    {
      this.dirs := dirs;
      this.state := new Container([], disk, readable);
    }

    static method WithoutFirst(l: Names, name: string) returns (r: Names)
      ensures r == RemoveFirst(l, name)
    {
      hide RemoveFirst;
      var index := 0;
      while index < |l| && l[index] != name
        invariant 0 <= index <= |l|
        invariant name !in l[..index]
      {
        assert l[..index + 1] == l[..index] + [l[index]];
        index := index + 1;
      }
      if index == |l| {
        assert l[..index] == l;
        RemoveAbsent(l, name);
        return l;
      }
      RemoveAt(l, name, index);
      return l[..index] + l[index + 1..];
    }

    static method Retained(l: Names, name: string) returns (r: Names)
      ensures r == Retain(l, name)
    {
      hide Retain;
      r := [];
      RetainNone(name);
      for i := 0 to |l|
        invariant r == Retain(l[..i], name)
      {
        assert l[..i + 1] == l[..i] + [l[i]];
        RetainSnoc(l[..i], l[i], name);
        if l[i] != name { r := r + [l[i]]; }
      }
      assert l[..|l|] == l;
    }

    method Touch(name: string, evict: bool, write: Write) returns (ok: bool)
      requires state.default_ == []
      modifies this, state
      ensures View() == AfterTouch(old(View()), name, evict, write)
      ensures ok == write.Written?
    {
      var l := state.LoadOrGet();
      l := WithoutFirst(l, name);
      l := [name] + l;
      if |l| > KEEP_LRU {
        var f := l[|l| - 1];
        if f !in dirs {
          l := l[..|l| - 1];
        } else if evict {
          dirs := dirs - {f};
          l := l[..|l| - 1];
        }
      }
      ok := state.Save(l, write);
      assert View() == AfterTouch(old(View()), name, evict, write);
    }

    method Find(name: string, evict: bool, write: Write) returns (reply: Reply)
      requires state.default_ == []
      modifies this, state
      ensures (View(), reply) == Do(old(View()), Exists(name, evict, write))
    {
      if name !in dirs { return Absent; }
      var _ := Touch(name, evict, write);
      return Found;
    }

    method Remove(name: string, removed: bool, write: Write) returns (reply: Reply)
      requires state.default_ == []
      modifies this, state
      ensures (View(), reply) == Do(old(View()), Delete(name, removed, write))
    {
      ghost var before := View();
      if name in dirs {
        if !removed { return RemoveFailed; }
        dirs := dirs - {name};
      }
      assert dirs == before.dirs - {name};
      var l := state.LoadOrGet();
      l := Retained(l, name);
      var ok := state.Save(l, write);
      return if ok then Done else SaveFailed;
    }

    /** The path is only handed out once the staging directory has been renamed. */
    method Make(name: string, c: Creation) returns (reply: Reply)
      requires state.default_ == []
      modifies this, state
      ensures (View(), reply) == Do(old(View()), Create(name, c))
    {
      ghost var before := View();
      if name in dirs { return Done; }
      var temp := name + STAGING_SUFFIX;
      if c.cleaned { dirs := dirs - {temp}; }
      if !c.made { return MakeFailed; }
      dirs := dirs + {temp};
      assert View() == Staged(before, name, c);
      if !c.filled { return FillFailed; }
      var _ := Touch(name, c.evict, c.write);
      var attempt := 0;
      while true
        invariant 0 <= attempt <= RENAME_ATTEMPTS
        invariant View() == AfterTouch(Staged(before, name, c), name, c.evict, c.write)
        invariant forall i :: 0 <= i < attempt && i < |c.renames| && temp in dirs ==> !c.renames[i]
        decreases RENAME_ATTEMPTS - attempt
      {
        if temp in dirs && attempt < |c.renames| && c.renames[attempt] {
          dirs := dirs - {temp} + {name};
          assert Renames(c.renames);
          return Done;
        }
        if attempt == RENAME_ATTEMPTS {
          return RenameFailed;
        }
        attempt := attempt + 1;
      }
    }
  }
}
