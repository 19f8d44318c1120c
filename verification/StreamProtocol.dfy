/**
 * The stream table of the RPC layer as a transition system.
 *
 * A step is one lock region or one await of the original: insert, write and
 * remove hold the mutex once; a write loop alternates between a lock region
 * (Lock) and writes outside the lock (WriteItem); a half that has left the
 * table is shut down outside the lock (Shutdown). Steps of all tasks
 * interleave freely, and a write may fail after any number of bytes.
 */
module StreamProtocol {
  import opened Common

  /** A write half is named by the position of the insert that brought it in. */
  type Half = nat

  /** A table record. `home` is history: the half the record was inserted with. */
  datatype Rec = Rec(write: Option<Half>, q: seq<Bytes>, ended: bool, home: Half)

  /** A spawned task. A loop with no items left is about to take the lock. */
  datatype Task =
    | Loop(id: u32, half: Half, items: seq<Bytes>)
    | Closing(half: Half)
    | Finished

  /** Where a write half is: in its record, with a task, or shut down. */
  datatype Holder = InRecord | InTask(t: nat) | Shut

  /** What has happened to one inserted stream so far. */
  datatype Stream = Stream(
    id: u32,
    accepted: seq<Bytes>,
    delivered: Bytes,
    shutdowns: nat,
    failed: bool,
    holder: Holder)

  datatype State = State(recs: map<u32, Rec>, tasks: seq<Task>, streams: seq<Stream>)

  datatype Event =
    | Insert(id: u32)
    | Write(id: u32, buf: Bytes)
    | Remove(id: u32)
    | Lock(t: nat)
    | WriteItem(t: nat, ok: bool, partial: nat)
    | Shutdown(t: nat)

  const Empty := State(map[], [], [])

  /** Every half mentioned anywhere has been inserted. */
  ghost predicate WF(s: State) {
    && (forall id :: id in s.recs ==>
          && s.recs[id].home < |s.streams|
          && (s.recs[id].write.Some? ==> s.recs[id].write.value < |s.streams|))
    && (forall t :: 0 <= t < |s.tasks| && !s.tasks[t].Finished? ==> s.tasks[t].half < |s.streams|)
  }

  predicate Enabled(s: State, e: Event) {
    match e
    case Insert(_) => true
    case Write(_, _) => true
    case Remove(_) => true
    case Lock(t) => t < |s.tasks| && s.tasks[t].Loop? && s.tasks[t].items == []
    case WriteItem(t, ok, partial) =>
      t < |s.tasks| && s.tasks[t].Loop? && s.tasks[t].items != [] && partial <= |s.tasks[t].items[0]|
    case Shutdown(t) => t < |s.tasks| && s.tasks[t].Closing?
  }

  ghost function Next(s: State, e: Event): (r: State)
    requires WF(s) && Enabled(s, e)
    ensures WF(r)
  {
    match e
    case Insert(id) => NextInsert(s, id)
    case Write(id, buf) => NextWrite(s, id, buf)
    case Remove(id) => NextRemove(s, id)
    case Lock(t) => NextLock(s, t)
    case WriteItem(t, ok, partial) => NextWriteItem(s, t, ok, partial)
    case Shutdown(t) => NextShutdown(s, t)
  }

  ghost function NextInsert(s: State, id: u32): (r: State)
    requires WF(s)
    ensures WF(r)
  {
    var h := |s.streams|;
    s.(recs := s.recs[id := Rec(Some(h), [], false, h)],
       streams := s.streams + [Stream(id, [], [], 0, false, InRecord)])
  }

  ghost function NextWrite(s: State, id: u32, buf: Bytes): (r: State)
    requires WF(s)
    ensures WF(r)
  {
    if id !in s.recs then s
    else
      var rec := s.recs[id];
      var st := s.streams[rec.home];
      var s1 := s.(streams := s.streams[rec.home := st.(accepted := st.accepted + [buf])]);
      match rec.write
      case None => s1.(recs := s.recs[id := rec.(q := rec.q + [buf])])
      case Some(w) =>
        s1.(recs := s.recs[id := rec.(q := rec.q + [buf], write := None)],
            tasks := s.tasks + [Loop(id, w, [])],
            streams := s1.streams[w := s1.streams[w].(holder := InTask(|s.tasks|))])
  }

  ghost function NextRemove(s: State, id: u32): (r: State)
    requires WF(s)
    ensures WF(r)
  {
    if id !in s.recs then s
    else
      var rec := s.recs[id];
      match rec.write
      case None => s.(recs := s.recs[id := rec.(ended := true)])
      case Some(w) =>
        s.(recs := s.recs - {id},
           tasks := s.tasks + [Closing(w)],
           streams := s.streams[w := s.streams[w].(holder := InTask(|s.tasks|))])
  }

  ghost function NextLock(s: State, t: nat): (r: State)
    requires WF(s) && Enabled(s, Lock(t))
    ensures WF(r)
  {
    var Loop(id, w, _) := s.tasks[t];
    if id !in s.recs then
      s.(tasks := s.tasks[t := Closing(w)])
    else
      var rec := s.recs[id];
      if rec.q != [] then
        s.(tasks := s.tasks[t := Loop(id, w, rec.q)], recs := s.recs[id := rec.(q := [])])
      else if rec.ended then
        s.(tasks := s.tasks[t := Closing(w)], recs := s.recs - {id})
      else
        s.(tasks := s.tasks[t := Finished],
           recs := s.recs[id := rec.(write := Some(w))],
           streams := s.streams[w := s.streams[w].(holder := InRecord)])
  }

  /** A failed write leaves the loop, and draining drops the rest of the batch. */
  ghost function NextWriteItem(s: State, t: nat, ok: bool, partial: nat): (r: State)
    requires WF(s) && Enabled(s, WriteItem(t, ok, partial))
    ensures WF(r)
  {
    var Loop(id, w, items) := s.tasks[t];
    var st := s.streams[w];
    if ok then
      s.(tasks := s.tasks[t := Loop(id, w, items[1..])],
         streams := s.streams[w := st.(delivered := st.delivered + items[0])])
    else
      s.(tasks := s.tasks[t := Loop(id, w, [])],
         streams := s.streams[w := st.(delivered := st.delivered + items[0][..partial], failed := true)])
  }

  ghost function NextShutdown(s: State, t: nat): (r: State)
    requires WF(s) && Enabled(s, Shutdown(t))
    ensures WF(r)
  {
    var w := s.tasks[t].half;
    var st := s.streams[w];
    s.(tasks := s.tasks[t := Finished],
       streams := s.streams[w := st.(shutdowns := st.shutdowns + 1, holder := Shut)])
  }

  // ---- runs ----------------------------------------------------------------

  /** An id is inserted only while the table has no record of it. FreshIsNeeded shows why. */
  ghost predicate Fresh(s: State, e: Event) {
    e.Insert? ==> e.id !in s.recs
  }

  ghost predicate IsRun(s: State, es: seq<Event>)
    decreases |es|
  {
    && WF(s)
    && (es != [] ==> Enabled(s, es[0]) && Fresh(s, es[0]) && IsRun(Next(s, es[0]), es[1..]))
  }

  ghost function Run(s: State, es: seq<Event>): (r: State)
    requires IsRun(s, es)
    ensures WF(r)
    decreases |es|
  {
    if es == [] then s else Run(Next(s, es[0]), es[1..])
  }

  ghost predicate HeldByRecord(s: State, h: Half, id: u32) {
    id in s.recs && s.recs[id].write == Some(h)
  }

  ghost predicate HeldByTask(s: State, h: Half, t: nat) {
    t < |s.tasks| && !s.tasks[t].Finished? && s.tasks[t].half == h
  }

  ghost predicate ShutOnce(s: State, h: Half) {
    h < |s.streams| && s.streams[h].shutdowns == 1
  }

  // ---- the invariant ---------------------------------------------------------

  /** The record that `h` was inserted with, while it is in the table. */
  ghost function OwnRec(s: State, h: Half): Option<Rec>
    requires h < |s.streams|
  {
    var id := s.streams[h].id;
    if id in s.recs && s.recs[id].home == h then Some(s.recs[id]) else None
  }

  ghost predicate RecOk(s: State, id: u32)
    requires WF(s) && id in s.recs
  {
    var rec := s.recs[id];
    var st := s.streams[rec.home];
    && st.id == id
    && match rec.write
       case Some(w) => w == rec.home && st.holder == InRecord && rec.q == [] && !rec.ended
       case None =>
         && st.holder.InTask? && st.holder.t < |s.tasks|
         && s.tasks[st.holder.t].Loop? && s.tasks[st.holder.t].half == rec.home
  }

  ghost predicate StreamOk(s: State, h: Half)
    requires h < |s.streams|
  {
    var st := s.streams[h];
    match st.holder
    case InRecord =>
      && st.shutdowns == 0
      && OwnRec(s, h).Some? && OwnRec(s, h).value.write == Some(h)
      && (st.failed || Flatten(st.accepted) == st.delivered)
    case InTask(t) =>
      && st.shutdowns == 0
      && t < |s.tasks|
      && (match s.tasks[t]
          case Loop(id, half, items) =>
            && half == h && id == st.id
            && OwnRec(s, h).Some? && OwnRec(s, h).value.write.None?
            && (st.failed || Flatten(st.accepted) == st.delivered + Flatten(items) + Flatten(OwnRec(s, h).value.q))
          case Closing(half) =>
            half == h && OwnRec(s, h).None? && (st.failed || Flatten(st.accepted) == st.delivered)
          case Finished => false)
    case Shut =>
      && st.shutdowns == 1
      && OwnRec(s, h).None?
      && (st.failed || Flatten(st.accepted) == st.delivered)
  }

  ghost predicate Inv(s: State) {
    && WF(s)
    && (forall id :: id in s.recs ==> RecOk(s, id))
    && (forall t :: 0 <= t < |s.tasks| && !s.tasks[t].Finished? ==> s.streams[s.tasks[t].half].holder == InTask(t))
    && (forall h :: 0 <= h < |s.streams| ==> StreamOk(s, h))
  }

  /** A stream whose history, record and task a step leaves alone stays in order. */
  lemma StreamFrame(s: State, r: State, h: Half)
    requires h < |s.streams| && h < |r.streams| && StreamOk(s, h)
    requires r.streams[h] == s.streams[h]
    requires OwnRec(r, h) == OwnRec(s, h)
    requires s.streams[h].holder.InTask? ==>
               var t := s.streams[h].holder.t; t < |r.tasks| && r.tasks[t] == s.tasks[t]
    ensures StreamOk(r, h)
  {
  }

  lemma RecFrame(s: State, r: State, id: u32)
    requires WF(s) && WF(r) && id in s.recs && id in r.recs && RecOk(s, id)
    requires r.recs[id] == s.recs[id]
    requires var h := s.recs[id].home;
             h < |r.streams| && r.streams[h].id == id && r.streams[h].holder == s.streams[h].holder
    requires var holder := s.streams[s.recs[id].home].holder;
             holder.InTask? ==>
               && holder.t < |r.tasks| && r.tasks[holder.t].Loop? == s.tasks[holder.t].Loop?
               && (r.tasks[holder.t].Loop? ==> r.tasks[holder.t].half == s.tasks[holder.t].half)
    ensures RecOk(r, id)
  {
  }

  lemma InsertKeepsInv(s: State, id: u32)
    requires Inv(s) && Fresh(s, Insert(id))
    ensures Inv(NextInsert(s, id))
  {
    var r := NextInsert(s, id);
    forall h | 0 <= h < |r.streams| ensures StreamOk(r, h) {
      if h < |s.streams| { StreamFrame(s, r, h); }
    }
    forall k | k in r.recs ensures RecOk(r, k) {
      if k != id { RecFrame(s, r, k); }
    }
  }

  /** From `s` to `r` nothing changes but half `w`, its record and its task. */
  ghost predicate Concerns(s: State, r: State, w: Half) {
    && w < |s.streams| == |r.streams|
    && r.streams[w].id == s.streams[w].id
    && (forall h :: 0 <= h < |s.streams| && h != w ==> r.streams[h] == s.streams[h] && OwnRec(r, h) == OwnRec(s, h))
    && (forall k :: k != s.streams[w].id ==>
          (k in r.recs <==> k in s.recs) && (k in s.recs ==> r.recs[k] == s.recs[k]))
    && |s.tasks| <= |r.tasks|
    && (forall t :: 0 <= t < |s.tasks| && !HeldByTask(s, w, t) ==> r.tasks[t] == s.tasks[t])
    && (forall t :: 0 <= t < |r.tasks| && (|s.tasks| <= t || HeldByTask(s, w, t)) ==>
          r.tasks[t].Finished? || (r.tasks[t].half == w && r.streams[w].holder == InTask(t)))
  }

  /** A step that only concerns half `w`, its record and its task needs checking only there. */
  lemma OneStreamStep(s: State, r: State, w: Half)
    requires Inv(s) && WF(r) && Concerns(s, r, w)
    requires StreamOk(r, w)
    requires s.streams[w].id in r.recs ==> RecOk(r, s.streams[w].id)
    ensures Inv(r)
  {
    forall h | 0 <= h < |r.streams| ensures StreamOk(r, h) {
      if h != w {
        assert StreamOk(s, h);
        if s.streams[h].holder.InTask? { assert !HeldByTask(s, w, s.streams[h].holder.t); }
        StreamFrame(s, r, h);
      }
    }
    forall k | k in r.recs ensures RecOk(r, k) {
      if k != s.streams[w].id {
        assert RecOk(s, k);
        var holder := s.streams[s.recs[k].home].holder;
        if holder.InTask? { assert !HeldByTask(s, w, holder.t); }
        RecFrame(s, r, k);
      }
    }
    forall t | 0 <= t < |r.tasks| && !r.tasks[t].Finished?
      ensures r.streams[r.tasks[t].half].holder == InTask(t)
    {
      if t < |s.tasks| && !HeldByTask(s, w, t) { assert r.tasks[t] == s.tasks[t]; }
    }
  }

  /** No task but the one named by its holder has half `w`. */
  lemma HeldOnlyBy(s: State, w: Half)
    requires Inv(s) && w < |s.streams|
    ensures forall t :: HeldByTask(s, w, t) ==> s.streams[w].holder == InTask(t)
  {
  }

  lemma WriteTouches(s: State, id: u32, buf: Bytes)
    requires WF(s) && id in s.recs && RecOk(s, id) && StreamOk(s, s.recs[id].home)
    ensures var r := NextWrite(s, id, buf);
            StreamOk(r, s.recs[id].home) && RecOk(r, id)
  {
    var rec := s.recs[id];
    var w := rec.home;
    FlattenSnoc(s.streams[w].accepted, buf);
    FlattenSnoc(rec.q, buf);
    hide Flatten;
    var r := NextWrite(s, id, buf);
    assert r.streams[w].accepted == s.streams[w].accepted + [buf];
    assert OwnRec(r, w) == Some(rec.(q := rec.q + [buf], write := None));
  }

  lemma WriteConcerns(s: State, id: u32, buf: Bytes)
    requires WF(s) && id in s.recs && RecOk(s, id)
    requires forall t :: HeldByTask(s, s.recs[id].home, t) ==> s.streams[s.recs[id].home].holder == InTask(t)
    ensures Concerns(s, NextWrite(s, id, buf), s.recs[id].home)
  {
  }

  lemma WriteKeepsInv(s: State, id: u32, buf: Bytes)
    requires Inv(s)
    ensures Inv(NextWrite(s, id, buf))
  {
    if id !in s.recs { return; }
    var w := s.recs[id].home;
    assert RecOk(s, id) && StreamOk(s, w);
    HeldOnlyBy(s, w);
    hide Inv, RecOk, StreamOk, NextWrite, Concerns;
    WriteTouches(s, id, buf);
    WriteConcerns(s, id, buf);
    OneStreamStep(s, NextWrite(s, id, buf), w);
  }

  lemma RemoveTouches(s: State, id: u32)
    requires WF(s) && id in s.recs && RecOk(s, id) && StreamOk(s, s.recs[id].home)
    requires forall t :: HeldByTask(s, s.recs[id].home, t) ==> s.streams[s.recs[id].home].holder == InTask(t)
    ensures var r := NextRemove(s, id); var w := s.recs[id].home;
            Concerns(s, r, w) && StreamOk(r, w) && (id in r.recs ==> RecOk(r, id))
  {
    hide Flatten;
  }

  lemma RemoveKeepsInv(s: State, id: u32)
    requires Inv(s)
    ensures Inv(NextRemove(s, id))
  {
    if id !in s.recs { return; }
    var w := s.recs[id].home;
    assert RecOk(s, id) && StreamOk(s, w);
    assert s.streams[w].id == id;
    HeldOnlyBy(s, w);
    hide Inv, RecOk, StreamOk, NextRemove, Concerns;
    RemoveTouches(s, id);
    OneStreamStep(s, NextRemove(s, id), w);
  }

  lemma LockTouches(s: State, t: nat)
    requires WF(s) && Enabled(s, Lock(t))
    requires s.streams[s.tasks[t].half].holder == InTask(t)
    requires StreamOk(s, s.tasks[t].half)
    ensures var r := NextLock(s, t); var w := s.tasks[t].half;
            StreamOk(r, w) && (s.streams[w].id in r.recs ==> RecOk(r, s.streams[w].id))
  {
    var rec := s.recs[s.tasks[t].id];
    assert Flatten(s.tasks[t].items) == [];
    if rec.q == [] {
      assert Flatten(rec.q) == [];
    }
  }

  lemma LockConcerns(s: State, t: nat)
    requires WF(s) && Enabled(s, Lock(t)) && StreamOk(s, s.tasks[t].half)
    requires forall u :: HeldByTask(s, s.tasks[t].half, u) ==> s.streams[s.tasks[t].half].holder == InTask(u)
    ensures Concerns(s, NextLock(s, t), s.tasks[t].half)
  {
    assert HeldByTask(s, s.tasks[t].half, t);
    hide Flatten;
  }

  lemma LockKeepsInv(s: State, t: nat)
    requires Inv(s) && Enabled(s, Lock(t))
    ensures Inv(NextLock(s, t))
  {
    var w := s.tasks[t].half;
    assert StreamOk(s, w);
    HeldOnlyBy(s, w);
    assert s.streams[w].holder == InTask(t);
    hide Inv, RecOk, StreamOk, NextLock, Concerns, HeldByTask;
    LockTouches(s, t);
    LockConcerns(s, t);
    OneStreamStep(s, NextLock(s, t), w);
  }

  lemma WriteItemTouches(s: State, t: nat, ok: bool, partial: nat)
    requires WF(s) && Enabled(s, WriteItem(t, ok, partial))
    requires s.streams[s.tasks[t].half].holder == InTask(t)
    requires StreamOk(s, s.tasks[t].half)
    ensures var r := NextWriteItem(s, t, ok, partial); var w := s.tasks[t].half;
            StreamOk(r, w) && RecOk(r, s.streams[w].id)
  {
  }

  lemma WriteItemKeepsInv(s: State, t: nat, ok: bool, partial: nat)
    requires Inv(s) && Enabled(s, WriteItem(t, ok, partial))
    ensures Inv(NextWriteItem(s, t, ok, partial))
  {
    var w := s.tasks[t].half;
    assert StreamOk(s, w);
    HeldOnlyBy(s, w);
    WriteItemTouches(s, t, ok, partial);
    OneStreamStep(s, NextWriteItem(s, t, ok, partial), w);
  }

  lemma ShutdownKeepsInv(s: State, t: nat)
    requires Inv(s) && Enabled(s, Shutdown(t))
    ensures Inv(NextShutdown(s, t))
  {
    var r, w := NextShutdown(s, t), s.tasks[t].half;
    assert StreamOk(s, w);
    HeldOnlyBy(s, w);
    var id := s.streams[w].id;
    if id in s.recs {
      assert RecOk(s, id);
      RecFrame(s, r, id);
    }
    OneStreamStep(s, r, w);
  }

  lemma StepKeepsInv(s: State, e: Event)
    requires Inv(s) && Enabled(s, e) && Fresh(s, e)
    ensures Inv(Next(s, e))
  {
    match e
    case Insert(id) => InsertKeepsInv(s, id);
    case Write(id, buf) => WriteKeepsInv(s, id, buf);
    case Remove(id) => RemoveKeepsInv(s, id);
    case Lock(t) => LockKeepsInv(s, t);
    case WriteItem(t, ok, partial) => WriteItemKeepsInv(s, t, ok, partial);
    case Shutdown(t) => ShutdownKeepsInv(s, t);
  }

  /** Every state of every interleaving satisfies the invariant. */
  lemma {:induction false} RunKeepsInv(s: State, es: seq<Event>)
    requires Inv(s) && IsRun(s, es)
    ensures Inv(Run(s, es))
    decreases |es|
  {
    if es != [] {
      StepKeepsInv(s, es[0]);
      RunKeepsInv(Next(s, es[0]), es[1..]);
    }
  }

  // ---- main results ----------------------------------------------------------

  /** The rest of the batch a running write loop of `h` has in hand. */
  ghost function Batch(s: State, h: Half): seq<Bytes>
    requires h < |s.streams|
  {
    var holder := s.streams[h].holder;
    if holder.InTask? && holder.t < |s.tasks| && s.tasks[holder.t].Loop? then s.tasks[holder.t].items else []
  }

  /** The buffers still queued in the record of `h`. */
  ghost function Queue(s: State, h: Half): seq<Bytes>
    requires h < |s.streams|
  {
    match OwnRec(s, h)
    case None => []
    case Some(rec) => rec.q
  }

  /** FIFO without loss or duplication, in every state of every interleaving. */
  lemma Fifo(es: seq<Event>, h: Half)
    requires IsRun(Empty, es) && h < |Run(Empty, es).streams|
    ensures var s := Run(Empty, es); var st := s.streams[h];
            !st.failed ==> Flatten(st.accepted) == st.delivered + Flatten(Batch(s, h)) + Flatten(Queue(s, h))
  {
    RunKeepsInv(Empty, es);
    var s := Run(Empty, es);
    assert StreamOk(s, h);
    if s.streams[h].holder.InRecord? {
      assert RecOk(s, s.streams[h].id);
    }
  }

  /** A write half is with its record, with one task, or shut down: never two of these, never none. */
  lemma SingleOwner(es: seq<Event>, h: Half)
    requires IsRun(Empty, es) && h < |Run(Empty, es).streams|
    ensures var s := Run(Empty, es); var id := s.streams[h].id;
            && s.streams[h].shutdowns <= 1
            && (HeldByRecord(s, h, id) || ShutOnce(s, h) || exists t :: HeldByTask(s, h, t))
            && !(HeldByRecord(s, h, id) && ShutOnce(s, h))
            && (forall t :: HeldByTask(s, h, t) ==> !HeldByRecord(s, h, id) && !ShutOnce(s, h))
            && (forall t, u :: HeldByTask(s, h, t) && HeldByTask(s, h, u) ==> t == u)
            && (forall k :: HeldByRecord(s, h, k) ==> k == id && s.recs[k].q == [] && !s.recs[k].ended)
  {
    RunKeepsInv(Empty, es);
    var s := Run(Empty, es);
    var st := s.streams[h];
    assert StreamOk(s, h);
    match st.holder {
      case InRecord => assert HeldByRecord(s, h, st.id);
      case InTask(t) => assert HeldByTask(s, h, t);
      case Shut => assert ShutOnce(s, h);
    }
    forall k | HeldByRecord(s, h, k) ensures k == st.id && s.recs[k].q == [] && !s.recs[k].ended {
      assert RecOk(s, k);
    }
  }

  /** `remove` has been called for `h`: its record is gone or marked. */
  ghost predicate Removed(s: State, h: Half) {
    h < |s.streams| && (OwnRec(s, h).Some? ==> OwnRec(s, h).value.ended)
  }

  /** How many steps its task still has to take, at most. */
  ghost function StepsLeft(s: State, h: Half): nat
    requires h < |s.streams|
  {
    match s.streams[h].holder
    case InRecord => 0
    case InTask(t) =>
      if t < |s.tasks| && s.tasks[t].Loop? then
        2 + |s.tasks[t].items| + (if Queue(s, h) == [] then 0 else |Queue(s, h)| + 1)
      else 1
    case Shut => 0
  }

  /** A step of the task that holds `h`. */
  ghost predicate OwnStep(s: State, h: Half, e: Event) {
    (e.Lock? || e.WriteItem? || e.Shutdown?) && HeldByTask(s, h, e.t)
  }

  /** A write that finds the record of `h`; its id may have been given to another stream since. */
  ghost predicate WritesTo(s: State, h: Half, e: Event) {
    e.Write? && e.id in s.recs && s.recs[e.id].home == h
  }

  lemma RemoveMarks(s: State, id: u32)
    requires Inv(s) && id in s.recs
    ensures Removed(NextRemove(s, id), s.recs[id].home)
  {
    assert RecOk(s, id);
  }

  /** What a step of no concern to `h` leaves alone. */
  ghost predicate SameFor(s: State, r: State, h: Half)
    requires h < |s.streams| && h < |r.streams|
  {
    && r.streams[h] == s.streams[h]
    && OwnRec(r, h) == OwnRec(s, h)
    && (s.streams[h].holder.InTask? ==>
          var t := s.streams[h].holder.t;
          t < |s.tasks| && t < |r.tasks| && r.tasks[t] == s.tasks[t])
  }

  lemma OtherCall(s: State, h: Half, e: Event)
    requires WF(s) && Removed(s, h) && StreamOk(s, h) && Fresh(s, e) && !WritesTo(s, h, e)
    requires e.Insert? || (e.Write? && (e.id in s.recs ==> RecOk(s, e.id))) || e.Remove?
    requires e.Remove? && e.id in s.recs ==> RecOk(s, e.id)
    ensures SameFor(s, Next(s, e), h)
  {
  }

  lemma OtherTask(s: State, h: Half, e: Event)
    requires WF(s) && h < |s.streams| && Enabled(s, e) && !OwnStep(s, h, e)
    requires e.Lock? || e.WriteItem? || e.Shutdown?
    requires StreamOk(s, h) && StreamOk(s, s.tasks[e.t].half)
    requires s.streams[s.tasks[e.t].half].holder == InTask(e.t)
    ensures SameFor(s, Next(s, e), h)
  {
  }

  lemma OwnTask(s: State, h: Half, e: Event)
    requires WF(s) && h < |s.streams| && Enabled(s, e) && OwnStep(s, h, e)
    requires StreamOk(s, h) && s.streams[h].holder == InTask(e.t)
    ensures var r := Next(s, e);
            && (Removed(s, h) ==> Removed(r, h))
            && r.streams[h].id == s.streams[h].id && r.streams[h].accepted == s.streams[h].accepted
            && StepsLeft(r, h) < StepsLeft(s, h)
  {
  }

  lemma SameDrain(s: State, r: State, h: Half)
    requires Removed(s, h) && h < |r.streams| && SameFor(s, r, h)
    ensures Removed(r, h) && StepsLeft(r, h) == StepsLeft(s, h)
  {
  }

  /** A step of any other task leaves `h` where it is; a step of its own task brings the end nearer. */
  lemma DrainStep(s: State, h: Half, e: Event)
    requires Inv(s) && Removed(s, h) && Enabled(s, e) && Fresh(s, e) && !WritesTo(s, h, e)
    ensures var r := Next(s, e);
            && Removed(r, h)
            && r.streams[h].id == s.streams[h].id && r.streams[h].accepted == s.streams[h].accepted
            && StepsLeft(r, h) + (if OwnStep(s, h, e) then 1 else 0) <= StepsLeft(s, h)
  {
    assert StreamOk(s, h);
    if e.Insert? || e.Write? || e.Remove? {
      if e.id in s.recs { assert RecOk(s, e.id); }
      OtherCall(s, h, e);
      SameDrain(s, Next(s, e), h);
    } else if OwnStep(s, h, e) {
      OwnTask(s, h, e);
    } else {
      assert StreamOk(s, s.tasks[e.t].half);
      OtherTask(s, h, e);
      SameDrain(s, Next(s, e), h);
    }
  }

  /** Its task is never stuck. */
  lemma DrainProgress(s: State, h: Half)
    requires Inv(s) && Removed(s, h) && StepsLeft(s, h) > 0
    ensures exists e :: OwnStep(s, h, e) && Enabled(s, e)
  {
    assert StreamOk(s, h);
    var t := s.streams[h].holder.t;
    var e := if s.tasks[t].Closing? then Shutdown(t)
             else if s.tasks[t].items == [] then Lock(t) else WriteItem(t, true, 0);
    assert OwnStep(s, h, e) && Enabled(s, e);
  }

  ghost predicate NoWritesTo(s: State, h: Half, es: seq<Event>)
    requires IsRun(s, es)
    decreases |es|
  {
    es != [] ==> !WritesTo(s, h, es[0]) && NoWritesTo(Next(s, es[0]), h, es[1..])
  }

  /** How many events of a run are steps of the task that holds `h`. */
  ghost function OwnSteps(s: State, h: Half, es: seq<Event>): nat
    requires IsRun(s, es)
    decreases |es|
  {
    if es == [] then 0 else (if OwnStep(s, h, es[0]) then 1 else 0) + OwnSteps(Next(s, es[0]), h, es[1..])
  }

  lemma {:induction false} DrainBound(s: State, h: Half, es: seq<Event>)
    requires Inv(s) && Removed(s, h) && IsRun(s, es) && NoWritesTo(s, h, es)
    ensures var r := Run(s, es);
            && Inv(r) && Removed(r, h)
            && r.streams[h].accepted == s.streams[h].accepted
            && OwnSteps(s, h, es) + StepsLeft(r, h) <= StepsLeft(s, h)
    decreases |es|
  {
    if es != [] {
      DrainStep(s, h, es[0]);
      StepKeepsInv(s, es[0]);
      DrainBound(Next(s, es[0]), h, es[1..]);
    }
  }

  /**
   * After `remove` and with no further writes, however the other tasks are
   * scheduled: the stream's own task takes at most StepsLeft steps; as long as
   * any are left one of them can be taken; and when none can be taken any more
   * the half has been shut down exactly once, no record is left and, unless a
   * write failed, every accepted byte has been written.
   */
  lemma DrainsAfterRemove(s: State, h: Half, es: seq<Event>)
    requires Inv(s) && Removed(s, h) && IsRun(s, es) && NoWritesTo(s, h, es)
    ensures var r := Run(s, es);
            && h < |r.streams|
            && OwnSteps(s, h, es) <= StepsLeft(s, h)
            && ((exists e :: OwnStep(r, h, e) && Enabled(r, e)) || (
                && r.streams[h].shutdowns == 1
                && OwnRec(r, h).None?
                && (r.streams[h].failed || r.streams[h].delivered == Flatten(s.streams[h].accepted))))
  {
    DrainBound(s, h, es);
    var r := Run(s, es);
    if StepsLeft(r, h) > 0 {
      DrainProgress(r, h);
    } else {
      assert StreamOk(r, h);
    }
  }

  // ---- inserting over a record -------------------------------------------------

  /** Nobody can reach the half any more, and it has not been shut down. */
  ghost predicate Orphan(s: State, h: Half) {
    && h < |s.streams| && !ShutOnce(s, h)
    && (forall id :: !HeldByRecord(s, h, id))
    && (forall t :: !HeldByTask(s, h, t))
  }

  /** Some continuation, itself without inserts over records, gets a half lost. */
  ghost predicate LosesHalf(s: State)
    requires WF(s)
  {
    exists es, h :: IsRun(s, es) && Orphan(Run(s, es), h)
  }

  lemma NoOrphan(s: State, h: Half)
    requires Inv(s)
    ensures !Orphan(s, h)
  {
    if h < |s.streams| {
      assert StreamOk(s, h);
      match s.streams[h].holder
      case InRecord => assert HeldByRecord(s, h, s.streams[h].id);
      case InTask(t) => assert HeldByTask(s, h, t);
      case Shut => assert ShutOnce(s, h);
    }
  }

  /** Half `g` is in the new record of an id for which a write loop still has half `w`. */
  ghost predicate Overtaken(s: State, t: nat, g: Half) {
    && WF(s) && t < |s.tasks| && s.tasks[t].Loop? && s.tasks[t].half != g
    && s.tasks[t].id in s.recs && s.recs[s.tasks[t].id] == Rec(Some(g), [], false, g)
    && g < |s.streams| && s.streams[g].shutdowns == 0
    && (forall id :: HeldByRecord(s, g, id) ==> id == s.tasks[t].id)
    && (forall u :: !HeldByTask(s, g, u))
  }

  lemma TakeOverStep(s: State, t: nat, g: Half)
    requires Overtaken(s, t, g)
    ensures s.tasks[t].items == [] ==> Orphan(NextLock(s, t), g)
    ensures s.tasks[t].items != [] ==> Overtaken(NextWriteItem(s, t, true, 0), t, g)
  {
    var r := if s.tasks[t].items == [] then NextLock(s, t) else NextWriteItem(s, t, true, 0);
    forall id ensures HeldByRecord(r, g, id) ==> HeldByRecord(s, g, id) {
    }
    forall u ensures HeldByTask(r, g, u) ==> HeldByTask(s, g, u) {
    }
  }

  /** The loop finishes its batch and puts its own half into the new record. */
  lemma {:induction false} LoopTakesOver(s: State, t: nat, g: Half)
    requires Overtaken(s, t, g)
    ensures LosesHalf(s)
    decreases |s.tasks[t].items|
  {
    var e := if s.tasks[t].items == [] then Lock(t) else WriteItem(t, true, 0);
    var r := Next(s, e);
    TakeOverStep(s, t, g);
    if s.tasks[t].items == [] {
      assert [e][1..] == [];
      assert IsRun(r, []) && IsRun(s, [e]) && Run(s, [e]) == r;
    } else {
      LoopTakesOver(r, t, g);
      var es, h :| IsRun(r, es) && Orphan(Run(r, es), h);
      assert ([e] + es)[0] == e && ([e] + es)[1..] == es;
      assert IsRun(s, [e] + es) && Run(s, [e] + es) == Run(r, es);
    }
  }

  /**
   * Exactly when an insert is safe: with no record of the id in the table every
   * half keeps its one owner for ever after; with one, there is a continuation
   * in which a half is neither in the table nor with a task nor shut down. If
   * the record is idle that is the case at once.
   */
  lemma FreshIsNeeded(s: State, id: u32)
    requires Inv(s)
    ensures LosesHalf(NextInsert(s, id)) <==> id in s.recs
    ensures id in s.recs && s.recs[id].write.Some? ==> Orphan(NextInsert(s, id), s.recs[id].home)
  {
    var r := NextInsert(s, id);
    if id in s.recs {
      var w, g := s.recs[id].home, |s.streams|;
      assert RecOk(s, id) && StreamOk(s, w);
      if s.recs[id].write.Some? {
        assert Orphan(r, w);
        assert IsRun(r, []) && Run(r, []) == r;
      } else {
        assert Overtaken(r, s.streams[w].holder.t, g);
        LoopTakesOver(r, s.streams[w].holder.t, g);
      }
    } else {
      InsertKeepsInv(s, id);
      forall es, h | IsRun(r, es) ensures !Orphan(Run(r, es), h) {
        RunKeepsInv(r, es);
        NoOrphan(Run(r, es), h);
      }
    }
  }

  /**
   * Data is lost too: insert an id again while a write loop of its
   * first stream runs, and that loop puts its half into the new record. The
   * accepted buffer is then nowhere, although no write failed.
   */
  lemma ReusedIdLosesData(id: u32, buf: Bytes)
    requires buf != []
    ensures var s := Next(Next(Next(Next(Empty, Insert(id)), Write(id, buf)), Insert(id)), Lock(0));
            && s.recs[id].write == Some(0) && s.recs[id].home == 1
            && !s.streams[0].failed
            && Flatten(s.streams[0].accepted) != s.streams[0].delivered + Flatten(Batch(s, 0)) + Flatten(Queue(s, 0))
  {
    var s1 := Next(Next(Empty, Insert(id)), Write(id, buf));
    assert s1.streams[0].accepted == [buf];
    var s := Next(Next(s1, Insert(id)), Lock(0));
    FlattenOne(buf);
    assert s.streams[0].accepted == [buf];
  }
}
