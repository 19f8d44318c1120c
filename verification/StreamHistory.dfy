/**
 * What the histories of StreamProtocol mean: each is what the events of the run
 * say about the stream, and for every stream, failed writes or not, it is known
 * how much of each accepted buffer has been written.
 */
module StreamHistory {
  import opened Common
  import opened StreamProtocol

  // ---- events that concern a stream ---------------------------------------------

  /** A remove that finds the record of `h`. */
  ghost predicate RemovesFor(s: State, h: Half, e: Event) {
    e.Remove? && e.id in s.recs && s.recs[e.id].home == h
  }

  ghost predicate FailsFor(s: State, h: Half, e: Event) {
    e.WriteItem? && !e.ok && HeldByTask(s, h, e.t)
  }

  ghost predicate ShutsDown(s: State, h: Half, e: Event) {
    e.Shutdown? && HeldByTask(s, h, e.t)
  }

  /** The buffer that the step hands to stream `h`. */
  ghost function Given(s: State, h: Half, e: Event): seq<Bytes> {
    if WritesTo(s, h, e) then [e.buf] else []
  }

  /**
   * How much the step decides to write of the next accepted buffers: all of the
   * one written, or the part before the failure and nothing of the others in
   * that batch.
   */
  ghost function CutsBy(s: State, h: Half, e: Event): seq<nat>
    requires Enabled(s, e)
  {
    if !e.WriteItem? || !HeldByTask(s, h, e.t) then []
    else
      var items := s.tasks[e.t].items;
      if e.ok then [|items[0]|] else [e.partial] + seq(|items| - 1, _ => 0)
  }

  ghost function Writes(s: State, h: Half, es: seq<Event>): seq<Bytes>
    requires IsRun(s, es)
    decreases |es|
  {
    if es == [] then [] else Given(s, h, es[0]) + Writes(Next(s, es[0]), h, es[1..])
  }

  ghost function Cuts(s: State, h: Half, es: seq<Event>): seq<nat>
    requires IsRun(s, es)
    decreases |es|
  {
    if es == [] then [] else CutsBy(s, h, es[0]) + Cuts(Next(s, es[0]), h, es[1..])
  }

  ghost predicate EverFails(s: State, h: Half, es: seq<Event>)
    requires IsRun(s, es)
    decreases |es|
  {
    es != [] && (FailsFor(s, h, es[0]) || EverFails(Next(s, es[0]), h, es[1..]))
  }

  ghost predicate EverRemoved(s: State, h: Half, es: seq<Event>)
    requires IsRun(s, es)
    decreases |es|
  {
    es != [] && (RemovesFor(s, h, es[0]) || EverRemoved(Next(s, es[0]), h, es[1..]))
  }

  ghost function Shutdowns(s: State, h: Half, es: seq<Event>): nat
    requires IsRun(s, es)
    decreases |es|
  {
    if es == [] then 0 else (if ShutsDown(s, h, es[0]) then 1 else 0) + Shutdowns(Next(s, es[0]), h, es[1..])
  }

  function InsertedIds(es: seq<Event>): seq<u32> {
    if es == [] then [] else (if es[0].Insert? then [es[0].id] else []) + InsertedIds(es[1..])
  }

  /** The first `cuts[i]` bytes of each buffer, joined. */
  function CutEach(bufs: seq<Bytes>, cuts: seq<nat>): Bytes
    requires |cuts| == |bufs| && forall i :: 0 <= i < |bufs| ==> cuts[i] <= |bufs[i]|
  {
    if bufs == [] then [] else bufs[0][..cuts[0]] + CutEach(bufs[1..], cuts[1..])
  }

  lemma {:induction false} CutEachSnoc(bufs: seq<Bytes>, cuts: seq<nat>, buf: Bytes, cut: nat)
    requires |cuts| == |bufs| && forall i :: 0 <= i < |bufs| ==> cuts[i] <= |bufs[i]|
    requires cut <= |buf|
    ensures CutEach(bufs + [buf], cuts + [cut]) == CutEach(bufs, cuts) + buf[..cut]
  {
    if bufs == [] {
      assert [buf][1..] == [] && [cut][1..] == [];
    } else {
      assert (bufs + [buf])[1..] == bufs[1..] + [buf] && (cuts + [cut])[1..] == cuts[1..] + [cut];
      CutEachSnoc(bufs[1..], cuts[1..], buf, cut);
    }
  }

  // ---- one step --------------------------------------------------------------------

  /** The half that the step is about, if it is about one in the table. */
  ghost function Touched(s: State, e: Event): Option<Half>
    requires Enabled(s, e)
  {
    match e
    case Insert(_) => None
    case Write(id, _) => if id in s.recs then Some(s.recs[id].home) else None
    case Remove(id) => if id in s.recs then Some(s.recs[id].home) else None
    case Lock(t) => Some(s.tasks[t].half)
    case WriteItem(t, _, _) => Some(s.tasks[t].half)
    case Shutdown(t) => Some(s.tasks[t].half)
  }

  lemma TouchedConcerns(s: State, e: Event)
    requires Inv(s) && Enabled(s, e) && Fresh(s, e) && Touched(s, e).Some?
    ensures Touched(s, e).value < |s.streams| && StreamOk(s, Touched(s, e).value)
    ensures Concerns(s, Next(s, e), Touched(s, e).value)
  {
    var w := Touched(s, e).value;
    assert StreamOk(s, w);
    HeldOnlyBy(s, w);
    if e.Write? || e.Remove? { assert RecOk(s, e.id); }
    hide Inv, Flatten;
    match e
    case Write(id, buf) => WriteConcerns(s, id, buf);
    case Remove(id) => RemoveTouches(s, id);
    case Lock(t) => LockConcerns(s, t);
    case WriteItem(_, _, _) =>
    case Shutdown(_) =>
  }

  /** A step about another stream leaves this one alone. */
  lemma Untouched(s: State, e: Event, h: Half)
    requires Inv(s) && Enabled(s, e) && Fresh(s, e) && h < |s.streams| && Touched(s, e) != Some(h)
    ensures h < |Next(s, e).streams| && SameFor(s, Next(s, e), h)
  {
    assert StreamOk(s, h);
    if Touched(s, e).Some? {
      TouchedConcerns(s, e);
      var holder := s.streams[h].holder;
      if holder.InTask? { assert !HeldByTask(s, Touched(s, e).value, holder.t); }
      hide Inv, Next, Flatten;
    }
  }

  /** What the step does to the histories of stream `h`. */
  ghost predicate Told(s: State, r: State, h: Half, e: Event)
    requires h < |s.streams| && h < |r.streams|
  {
    && r.streams[h].id == s.streams[h].id
    && r.streams[h].accepted == s.streams[h].accepted + Given(s, h, e)
    && (r.streams[h].failed <==> s.streams[h].failed || FailsFor(s, h, e))
    && r.streams[h].shutdowns == s.streams[h].shutdowns + (if ShutsDown(s, h, e) then 1 else 0)
    && (Removed(r, h) <==> Removed(s, h) || RemovesFor(s, h, e))
  }

  lemma TouchedTold(s: State, e: Event, h: Half)
    requires WF(s) && Enabled(s, e) && Touched(s, e) == Some(h) && h < |s.streams| && StreamOk(s, h)
    requires (e.Write? || e.Remove?) && e.id in s.recs ==> RecOk(s, e.id)
    ensures h < |Next(s, e).streams| && Told(s, Next(s, e), h, e)
  {
    TouchedRemoved(s, e, h);
    hide Flatten, StreamOk, RecOk, Removed;
  }

  lemma TouchedRemoved(s: State, e: Event, h: Half)
    requires WF(s) && Enabled(s, e) && Touched(s, e) == Some(h) && h < |s.streams| && StreamOk(s, h)
    requires (e.Write? || e.Remove?) && e.id in s.recs ==> RecOk(s, e.id)
    ensures Removed(Next(s, e), h) <==> Removed(s, h) || RemovesFor(s, h, e)
  {
    if e.Write? || e.Remove? { CallRemoved(s, e, h); } else { TaskRemoved(s, e, h); }
    hide Flatten, Next, StreamOk, RecOk, Removed, Touched;
  }

  lemma CallRemoved(s: State, e: Event, h: Half)
    requires WF(s) && (e.Write? || e.Remove?) && Touched(s, e) == Some(h) && h < |s.streams| && RecOk(s, e.id)
    ensures Removed(Next(s, e), h) <==> Removed(s, h) || RemovesFor(s, h, e)
  {
    hide Flatten;
  }

  lemma TaskRemoved(s: State, e: Event, h: Half)
    requires WF(s) && Enabled(s, e) && !e.Write? && !e.Remove? && Touched(s, e) == Some(h)
    requires h < |s.streams| && StreamOk(s, h)
    ensures Removed(Next(s, e), h) <==> Removed(s, h)
  {
    hide Flatten;
  }

  lemma StepTold(s: State, e: Event, h: Half)
    requires Inv(s) && Enabled(s, e) && Fresh(s, e) && h < |s.streams|
    ensures h < |Next(s, e).streams| && Told(s, Next(s, e), h, e)
  {
    InvFor(s, e, h);
    hide Inv, Next, StreamOk, RecOk, Enabled, Told;
    if Touched(s, e) == Some(h) {
      TouchedTold(s, e, h);
    } else {
      Untouched(s, e, h);
      UntouchedTold(s, Next(s, e), e, h);
    }
  }

  lemma InvFor(s: State, e: Event, h: Half)
    requires Inv(s) && h < |s.streams|
    ensures WF(s) && StreamOk(s, h) && ((e.Write? || e.Remove?) && e.id in s.recs ==> RecOk(s, e.id))
    ensures forall t :: 0 <= t < |s.tasks| && !s.tasks[t].Finished? ==> s.streams[s.tasks[t].half].holder == InTask(t)
  {
  }

  lemma UntouchedTold(s: State, r: State, e: Event, h: Half)
    requires Enabled(s, e) && h < |s.streams| && h < |r.streams| && SameFor(s, r, h) && Touched(s, e) != Some(h)
    ensures Told(s, r, h, e)
  {
  }

  /** Each accepted buffer is cut by `cuts`, or waits; what is delivered is the cut ones, joined. */
  predicate CutInto(accepted: seq<Bytes>, delivered: Bytes, waiting: seq<Bytes>, cuts: seq<nat>) {
    && |cuts| <= |accepted|
    && accepted[|cuts|..] == waiting
    && (forall i :: 0 <= i < |cuts| ==> cuts[i] <= |accepted[i]|)
    && delivered == CutEach(accepted[..|cuts|], cuts)
  }

  ghost predicate CutOk(s: State, h: Half, cuts: seq<nat>)
    requires h < |s.streams|
  {
    CutInto(s.streams[h].accepted, s.streams[h].delivered, Batch(s, h) + Queue(s, h), cuts)
  }

  lemma OneMore(accepted: seq<Bytes>, delivered: Bytes, waiting: seq<Bytes>, cuts: seq<nat>, buf: Bytes)
    requires CutInto(accepted, delivered, waiting, cuts)
    ensures CutInto(accepted + [buf], delivered, waiting + [buf], cuts)
  {
    assert (accepted + [buf])[..|cuts|] == accepted[..|cuts|];
    assert (accepted + [buf])[|cuts|..] == accepted[|cuts|..] + [buf];
  }

  lemma CutNext(accepted: seq<Bytes>, delivered: Bytes, waiting: seq<Bytes>, cuts: seq<nat>, cut: nat)
    requires CutInto(accepted, delivered, waiting, cuts) && waiting != [] && cut <= |waiting[0]|
    ensures CutInto(accepted, delivered + waiting[0][..cut], waiting[1..], cuts + [cut])
  {
    var n := |cuts|;
    assert accepted[n] == waiting[0];
    assert accepted[..n + 1] == accepted[..n] + [waiting[0]];
    CutEachSnoc(accepted[..n], cuts, waiting[0], cut);
  }

  lemma {:induction false} CutNone(accepted: seq<Bytes>, delivered: Bytes, items: seq<Bytes>, q: seq<Bytes>, cuts: seq<nat>)
    requires CutInto(accepted, delivered, items + q, cuts)
    ensures CutInto(accepted, delivered, q, cuts + seq(|items|, _ => 0))
    decreases |items|
  {
    var zeros := seq(|items|, _ => 0);
    if items == [] {
      assert items + q == q && cuts + zeros == cuts;
    } else {
      hide CutInto;
      CutNext(accepted, delivered, items + q, cuts, 0);
      assert (items + q)[1..] == items[1..] + q && delivered + (items + q)[0][..0] == delivered;
      CutNone(accepted, delivered, items[1..], q, cuts + [0]);
      assert cuts + [0] + seq(|items[1..]|, _ => 0) == cuts + zeros;
    }
  }

  lemma UntouchedCut(s: State, r: State, e: Event, h: Half, cuts: seq<nat>)
    requires Enabled(s, e) && h < |s.streams| && h < |r.streams| && SameFor(s, r, h) && Touched(s, e) != Some(h)
    requires CutOk(s, h, cuts)
    ensures CutOk(r, h, cuts + CutsBy(s, h, e))
  {
    assert cuts + [] == cuts;
  }

  lemma WriteParts(s: State, id: u32, buf: Bytes, h: Half)
    requires WF(s) && h < |s.streams| && StreamOk(s, h)
    requires id in s.recs && s.recs[id].home == h && RecOk(s, id)
    ensures var r := NextWrite(s, id, buf);
            && h < |r.streams| && r.streams[h].accepted == s.streams[h].accepted + [buf]
            && r.streams[h].delivered == s.streams[h].delivered
            && Batch(r, h) == Batch(s, h) && Queue(r, h) == Queue(s, h) + [buf]
  {
    hide Flatten;
  }

  lemma WriteCut(s: State, id: u32, buf: Bytes, h: Half, cuts: seq<nat>)
    requires WF(s) && h < |s.streams| && StreamOk(s, h) && CutOk(s, h, cuts)
    requires id in s.recs && s.recs[id].home == h && RecOk(s, id)
    ensures var r := NextWrite(s, id, buf); h < |r.streams| && CutOk(r, h, cuts)
  {
    WriteParts(s, id, buf, h);
    hide WF, StreamOk, RecOk, NextWrite, Batch, Queue, CutInto;
    OneMore(s.streams[h].accepted, s.streams[h].delivered, Batch(s, h) + Queue(s, h), cuts, buf);
    assert Batch(s, h) + (Queue(s, h) + [buf]) == (Batch(s, h) + Queue(s, h)) + [buf];
  }

  lemma RemoveCut(s: State, id: u32, h: Half, cuts: seq<nat>)
    requires WF(s) && h < |s.streams| && StreamOk(s, h) && CutOk(s, h, cuts)
    requires id in s.recs && s.recs[id].home == h && RecOk(s, id)
    ensures var r := NextRemove(s, id); h < |r.streams| && CutOk(r, h, cuts)
  {
    hide Flatten, CutEach;
    var r := NextRemove(s, id);
    assert Batch(r, h) == Batch(s, h) && Queue(r, h) == Queue(s, h);
  }

  lemma LockCut(s: State, t: nat, h: Half, cuts: seq<nat>)
    requires WF(s) && Enabled(s, Lock(t)) && s.tasks[t].half == h < |s.streams|
    requires StreamOk(s, h) && s.streams[h].holder == InTask(t) && CutOk(s, h, cuts)
    ensures h < |NextLock(s, t).streams| && CutOk(NextLock(s, t), h, cuts)
  {
    hide Flatten, CutEach;
    var r := NextLock(s, t);
    assert Batch(s, h) == [] && Batch(r, h) + Queue(r, h) == Queue(s, h);
  }

  lemma WriteItemParts(s: State, t: nat, ok: bool, partial: nat, h: Half)
    requires WF(s) && Enabled(s, WriteItem(t, ok, partial)) && s.tasks[t].half == h < |s.streams|
    requires StreamOk(s, h) && s.streams[h].holder == InTask(t)
    ensures Batch(s, h) == s.tasks[t].items
    ensures var r := NextWriteItem(s, t, ok, partial); var items := s.tasks[t].items;
            && h < |r.streams| && r.streams[h].accepted == s.streams[h].accepted
            && r.streams[h].delivered == s.streams[h].delivered + (if ok then items[0] else items[0][..partial])
            && Batch(r, h) == (if ok then items[1..] else []) && Queue(r, h) == Queue(s, h)
  {
    hide Flatten;
  }

  lemma WriteItemCut(s: State, t: nat, ok: bool, partial: nat, h: Half, cuts: seq<nat>)
    requires var e := WriteItem(t, ok, partial);
             WF(s) && Enabled(s, e) && s.tasks[t].half == h < |s.streams|
    requires StreamOk(s, h) && s.streams[h].holder == InTask(t) && CutOk(s, h, cuts)
    ensures var r := NextWriteItem(s, t, ok, partial);
            h < |r.streams| && CutOk(r, h, cuts + CutsBy(s, h, WriteItem(t, ok, partial)))
  {
    WriteItemParts(s, t, ok, partial, h);
    hide Flatten, CutInto, WF, StreamOk, NextWriteItem, Batch, Queue;
    var items, q, st := s.tasks[t].items, Queue(s, h), s.streams[h];
    var cut := if ok then |items[0]| else partial;
    CutNext(st.accepted, st.delivered, items + q, cuts, cut);
    assert (items + q)[1..] == items[1..] + q && items[0][..|items[0]|] == items[0];
    if !ok {
      CutNone(st.accepted, st.delivered + items[0][..partial], items[1..], q, cuts + [partial]);
      assert cuts + [partial] + seq(|items[1..]|, _ => 0) == cuts + CutsBy(s, h, WriteItem(t, ok, partial));
      assert [] + q == q;
    }
  }

  lemma ShutdownCut(s: State, t: nat, h: Half, cuts: seq<nat>)
    requires WF(s) && Enabled(s, Shutdown(t)) && s.tasks[t].half == h < |s.streams|
    requires StreamOk(s, h) && s.streams[h].holder == InTask(t) && CutOk(s, h, cuts)
    ensures h < |NextShutdown(s, t).streams| && CutOk(NextShutdown(s, t), h, cuts)
  {
    hide Flatten, CutEach;
  }

  lemma StepCut(s: State, e: Event, h: Half, cuts: seq<nat>)
    requires Inv(s) && Enabled(s, e) && Fresh(s, e) && h < |s.streams| && CutOk(s, h, cuts)
    ensures h < |Next(s, e).streams| && CutOk(Next(s, e), h, cuts + CutsBy(s, h, e))
  {
    InvFor(s, e, h);
    if Touched(s, e) != Some(h) { Untouched(s, e, h); }
    hide Inv, StreamOk, RecOk, CutOk, NextInsert, NextWrite, NextRemove, NextLock, NextWriteItem, NextShutdown;
    assert !e.WriteItem? ==> cuts + CutsBy(s, h, e) == cuts;
    if Touched(s, e) != Some(h) {
      UntouchedCut(s, Next(s, e), e, h, cuts);
    } else {
      match e
      case Write(id, buf) => WriteCut(s, id, buf, h, cuts);
      case Remove(id) => RemoveCut(s, id, h, cuts);
      case Lock(t) => LockCut(s, t, h, cuts);
      case WriteItem(t, ok, partial) => WriteItemCut(s, t, ok, partial, h, cuts);
      case Shutdown(t) => ShutdownCut(s, t, h, cuts);
    }
  }

  // ---- whole runs ------------------------------------------------------------------

  lemma {:induction false} CutsOfRun(s: State, h: Half, es: seq<Event>, cuts: seq<nat>)
    requires Inv(s) && IsRun(s, es) && h < |s.streams| && CutOk(s, h, cuts)
    ensures h < |Run(s, es).streams| && CutOk(Run(s, es), h, cuts + Cuts(s, h, es))
    decreases |es|
  {
    hide Inv, Next, CutOk, CutsBy;
    if es == [] {
      assert cuts + [] == cuts;
    } else {
      StepKeepsInv(s, es[0]);
      StepCut(s, es[0], h, cuts);
      CutsOfRun(Next(s, es[0]), h, es[1..], cuts + CutsBy(s, h, es[0]));
      assert cuts + (CutsBy(s, h, es[0]) + Cuts(Next(s, es[0]), h, es[1..])) ==
             (cuts + CutsBy(s, h, es[0])) + Cuts(Next(s, es[0]), h, es[1..]);
    }
  }

  /** What a run does to the histories of stream `h`. */
  ghost predicate ToldBy(s: State, r: State, h: Half, es: seq<Event>)
    requires IsRun(s, es) && h < |s.streams| && h < |r.streams|
  {
    && r.streams[h].id == s.streams[h].id
    && r.streams[h].accepted == s.streams[h].accepted + Writes(s, h, es)
    && (r.streams[h].failed <==> s.streams[h].failed || EverFails(s, h, es))
    && r.streams[h].shutdowns == s.streams[h].shutdowns + Shutdowns(s, h, es)
    && (Removed(r, h) <==> Removed(s, h) || EverRemoved(s, h, es))
  }

  lemma {:induction false} RunTold(s: State, h: Half, es: seq<Event>)
    requires Inv(s) && IsRun(s, es) && h < |s.streams|
    ensures h < |Run(s, es).streams| && ToldBy(s, Run(s, es), h, es)
    decreases |es|
  {
    hide Inv, Next, Given, FailsFor, ShutsDown, RemovesFor, Removed;
    if es != [] {
      StepKeepsInv(s, es[0]);
      StepTold(s, es[0], h);
      RunTold(Next(s, es[0]), h, es[1..]);
    }
  }

  lemma InsertSplits(s: State, es: seq<Event>)
    requires WF(s) && es != [] && Enabled(s, es[0])
    ensures |Next(s, es[0]).streams| == |s.streams| + if es[0].Insert? then 1 else 0
    ensures es[0].Insert? ==> Next(s, es[0]).streams[|s.streams|] == Stream(es[0].id, [], [], 0, false, InRecord)
  {
  }

  /** Before its insert nothing concerns the stream. */
  lemma NotYet(s: State, h: Half, e: Event)
    requires WF(s) && Enabled(s, e) && h >= |s.streams|
    ensures Given(s, h, e) == [] && CutsBy(s, h, e) == []
    ensures !FailsFor(s, h, e) && !ShutsDown(s, h, e) && !RemovesFor(s, h, e)
  {
  }

  /** What the events of a run say about stream `h`, the one brought in by insert number `h`. */
  ghost predicate Histories(s: State, r: State, h: Half, es: seq<Event>)
    requires IsRun(s, es) && h < |r.streams|
  {
    && r.streams[h].accepted == Writes(s, h, es)
    && (r.streams[h].failed <==> EverFails(s, h, es))
    && r.streams[h].shutdowns == Shutdowns(s, h, es)
    && (Removed(r, h) <==> EverRemoved(s, h, es))
    && CutOk(r, h, Cuts(s, h, es))
  }

  lemma Inserted(s: State, id: u32, es: seq<Event>)
    requires Inv(s) && IsRun(s, es) && |s.streams| > 0
    requires var h := |s.streams| - 1; s.streams[h] == Stream(id, [], [], 0, false, InRecord)
    ensures var h := |s.streams| - 1;
            h < |Run(s, es).streams| && Run(s, es).streams[h].id == id && Histories(s, Run(s, es), h, es)
  {
    var h := |s.streams| - 1;
    assert StreamOk(s, h) && RecOk(s, id);
    RunTold(s, h, es);
    CutsOfRun(s, h, es, []);
    assert [] + Cuts(s, h, es) == Cuts(s, h, es);
    assert [] + Writes(s, h, es) == Writes(s, h, es);
  }

  lemma {:induction false} HistoriesFrom(s: State, h: Half, es: seq<Event>)
    requires Inv(s) && IsRun(s, es) && |s.streams| <= h < |s.streams| + |InsertedIds(es)|
    ensures h < |Run(s, es).streams| == |s.streams| + |InsertedIds(es)|
    ensures Run(s, es).streams[h].id == InsertedIds(es)[h - |s.streams|]
    ensures Histories(s, Run(s, es), h, es)
    decreases |es|
  {
    hide Inv, WF, Next, Enabled, Histories, Given, CutsBy, FailsFor, ShutsDown, RemovesFor;
    var s1, rest := Next(s, es[0]), es[1..];
    StepKeepsInv(s, es[0]);
    NotYet(s, h, es[0]);
    InsertSplits(s, es);
    InsertCount(s1, rest);
    if es[0].Insert? && h == |s.streams| {
      Inserted(s1, es[0].id, rest);
    } else {
      HistoriesFrom(s1, h, rest);
    }
    Later(s, Run(s, es), h, es);
  }

  lemma Later(s: State, r: State, h: Half, es: seq<Event>)
    requires IsRun(s, es) && es != [] && h < |r.streams| && Histories(Next(s, es[0]), r, h, es[1..])
    requires Given(s, h, es[0]) == [] && CutsBy(s, h, es[0]) == []
    requires !FailsFor(s, h, es[0]) && !ShutsDown(s, h, es[0]) && !RemovesFor(s, h, es[0])
    ensures Histories(s, r, h, es)
  {
    hide Next, CutOk, Given, CutsBy, FailsFor, ShutsDown, RemovesFor, Removed;
    assert Cuts(s, h, es) == Cuts(Next(s, es[0]), h, es[1..]);
  }

  lemma {:induction false} InsertCount(s: State, es: seq<Event>)
    requires IsRun(s, es)
    ensures |Run(s, es).streams| == |s.streams| + |InsertedIds(es)|
    decreases |es|
  {
    hide Next, Enabled;
    if es != [] {
      InsertSplits(s, es);
      InsertCount(Next(s, es[0]), es[1..]);
    }
  }

  lemma EmptyInv()
    ensures Inv(Empty) && Empty.streams == []
  {
  }

  /**
   * Every insert makes a stream, and over every run: what it has accepted is
   * what the writes that found its record gave it; it has failed exactly if a
   * write of its half did; it is shut down as often as its half was; it counts
   * as removed exactly if a remove found its record. And in every stream,
   * failed or not, each accepted buffer is written whole, or up to where its
   * write failed, or, after a failure in its batch, not at all, in order; all
   * others are in the batch in hand and in the queue.
   */
  lemma HistoriesAreEvents(es: seq<Event>, h: Half)
    requires IsRun(Empty, es)
    ensures |Run(Empty, es).streams| == |InsertedIds(es)|
    ensures h < |InsertedIds(es)| ==>
              && Run(Empty, es).streams[h].id == InsertedIds(es)[h]
              && Histories(Empty, Run(Empty, es), h, es)
  {
    hide Next, Enabled, Histories, WF;
    InsertCount(Empty, es);
    EmptyInv();
    if h < |InsertedIds(es)| { HistoriesFrom(Empty, h, es); }
  }
}
