/**
 * The mutex-guarded stream table and its write loops as objects that are
 * changed in place. Each method is one lock region or one await; its contract
 * says which step of StreamProtocol it takes.
 */
module StreamTable {
  import opened Common
  import P = StreamProtocol

  datatype StreamRec = StreamRec(write: Option<P.Half>, q: seq<Bytes>, ended: bool)

  function Plain(rec: P.Rec): StreamRec {
    StreamRec(rec.write, rec.q, rec.ended)
  }

  class Streams {
    var records: map<u32, StreamRec>
    /** What has been written to each half, and how often it was shut down. */
    var sinks: seq<Bytes>
    var shutdowns: seq<nat>
    ghost var proto: P.State

    ghost predicate Valid()
      reads this
    {
      && P.WF(proto)
      && records.Keys == proto.recs.Keys
      && (forall id :: id in records ==> records[id] == Plain(proto.recs[id]))
      && |sinks| == |shutdowns| == |proto.streams|
      && (forall h :: 0 <= h < |sinks| ==>
            sinks[h] == proto.streams[h].delivered && shutdowns[h] == proto.streams[h].shutdowns)
    }

    constructor ()
      ensures Valid() && proto == P.Empty
    {
      records, sinks, shutdowns, proto := map[], [], [], P.Empty;
    }

    /** As in the original, a record there is for the id is overwritten. */
    method Insert(id: u32) returns (h: P.Half)
      requires Valid()
      modifies this
      ensures Valid() && h == |old(sinks)|
      ensures proto == P.Next(old(proto), P.Insert(id))
    {
      h := |sinks|;
      records := records[id := StreamRec(Some(h), [], false)];
      sinks, shutdowns := sinks + [[]], shutdowns + [0];
      proto := P.Next(proto, P.Insert(id));
    }

    /** Returns the write loop it spawns, if any. */
    method Write(id: u32, buf: Bytes) returns (loop: WriteLoop?)
      requires Valid()
      modifies this
      ensures Valid() && proto == P.Next(old(proto), P.Write(id, buf))
      ensures (loop != null) == (id in old(records) && old(records)[id].write.Some?)
      ensures loop != null ==> fresh(loop) && loop.streams == this && loop.items == [] && loop.Running()
    {
      loop := null;
      if id in records {
        var s := records[id];
        s := s.(q := s.q + [buf]);
        if s.write.Some? {
          loop := new WriteLoop(this, id, s.write.value, |proto.tasks|);
          s := s.(write := None);
        }
        records := records[id := s];
      }
      proto := P.Next(proto, P.Write(id, buf));
    }

    /** The lock region of `remove`; the half it returns is shut down afterwards, outside the lock. */
    method Remove(id: u32) returns (closing: Option<P.Half>)
      requires Valid()
      modifies this
      ensures Valid() && proto == P.Next(old(proto), P.Remove(id))
      ensures closing == if id in old(records) then old(records)[id].write else None
      ensures closing.Some? ==> proto.tasks == old(proto).tasks + [P.Closing(closing.value)]
    {
      closing := None;
      if id in records {
        var s := records[id];
        if s.write.Some? {
          records := records - {id};
          closing := s.write;
        } else {
          records := records[id := s.(ended := true)];
        }
      }
      proto := P.Next(proto, P.Remove(id));
    }

    method Shutdown(h: P.Half, ghost t: nat)
      requires Valid() && P.Enabled(proto, P.Shutdown(t)) && proto.tasks[t].half == h
      modifies this
      ensures Valid() && proto == P.Next(old(proto), P.Shutdown(t))
    {
      shutdowns := shutdowns[h := shutdowns[h] + 1];
      proto := P.Next(proto, P.Shutdown(t));
    }
  }

  /**
   * What a batch writes: each buffer whole, until the i-th write fails after
   * some bytes; the outcome of a write is None or that number.
   */
  function Written(items: seq<Bytes>, outcomes: nat -> Option<nat>, i: nat): Bytes {
    if items == [] then []
    else
      match outcomes(i)
      case None => items[0] + Written(items[1..], outcomes, i + 1)
      case Some(n) => items[0][..Cut(items[0], n)]
  }

  function Cut(item: Bytes, n: nat): nat {
    if n < |item| then n else |item|
  }

  predicate SomeFails(items: seq<Bytes>, outcomes: nat -> Option<nat>, i: nat) {
    items != [] && (outcomes(i).Some? || SomeFails(items[1..], outcomes, i + 1))
  }

  lemma NextWritten(items: seq<Bytes>, outcomes: nat -> Option<nat>, i: nat, done: Bytes)
    requires items != []
    ensures outcomes(i).None? ==>
              && done + Written(items, outcomes, i) == (done + items[0]) + Written(items[1..], outcomes, i + 1)
              && (SomeFails(items, outcomes, i) <==> SomeFails(items[1..], outcomes, i + 1))
    ensures outcomes(i).Some? ==>
              && Written(items, outcomes, i) == items[0][..Cut(items[0], outcomes(i).value)]
              && SomeFails(items, outcomes, i)
  {
    if outcomes(i).None? {
      var rest := Written(items[1..], outcomes, i + 1);
      assert done + (items[0] + rest) == (done + items[0]) + rest;
    }
  }

  lemma NoneLeft(outcomes: nat -> Option<nat>)
    ensures forall i: nat :: Written([], outcomes, i) == [] && !SomeFails([], outcomes, i)
  {
  }

  datatype LockOutcome = Continue | Returned | Break

  /** A spawned write loop: the half it holds and the batch it is writing. */
  class WriteLoop {
    const streams: Streams
    const id: u32
    const half: P.Half
    ghost const t: nat
    var items: seq<Bytes>

    ghost predicate Running()
      reads this, streams
    {
      && streams.Valid()
      && t < |streams.proto.tasks| && streams.proto.tasks[t] == P.Loop(id, half, items)
    }

    constructor (streams: Streams, id: u32, half: P.Half, ghost t: nat)
      ensures this.streams == streams && this.id == id && this.half == half && this.t == t && items == []
    {
      this.streams, this.id, this.half, this.t := streams, id, half, t;
      items := [];
    }

    /** The lock region at the top of the loop. */
    method Lock() returns (outcome: LockOutcome)
      requires Running() && items == []
      modifies this, streams
      ensures streams.Valid() && streams.proto == P.Next(old(streams.proto), P.Lock(t))
      ensures match outcome
              case Continue =>
                && Running() && items != [] && items == old(streams.records)[id].q
                && streams.records == old(streams.records)[id := old(streams.records)[id].(q := [])]
              case Returned =>
                && id in streams.records && streams.records[id] == StreamRec(Some(half), [], false)
                && !streams.proto.tasks[t].Loop?
              case Break => id !in streams.records && streams.proto.tasks[t] == P.Closing(half)
    {
      if id !in streams.records {
        outcome := Break;
      } else {
        var rec := streams.records[id];
        if rec.q == [] {
          if rec.ended {
            streams.records := streams.records - {id};
            outcome := Break;
          } else {
            streams.records := streams.records[id := rec.(write := Some(half))];
            outcome := Returned;
          }
        } else {
          items := rec.q;
          streams.records := streams.records[id := rec.(q := [])];
          outcome := Continue;
        }
      }
      streams.proto := P.Next(streams.proto, P.Lock(t));
    }

    /** One `write_all`; on an error the loop is left and the rest of the batch dropped. */
    method WriteItem(ok: bool, partial: nat)
      requires Running() && items != [] && partial <= |items[0]|
      modifies this, streams
      ensures Running() && streams.proto == P.Next(old(streams.proto), P.WriteItem(t, ok, partial))
      ensures streams.records == old(streams.records)
      ensures items == if ok then old(items)[1..] else []
    {
      var written := if ok then items[0] else items[0][..partial];
      streams.sinks := streams.sinks[half := streams.sinks[half] + written];
      streams.proto := P.Next(streams.proto, P.WriteItem(t, ok, partial));
      items := if ok then items[1..] else [];
    }

    /** The writes between two lock regions. */
    method WriteBatch(outcomes: nat -> Option<nat>)
      requires Running() && P.Inv(streams.proto)
      modifies this, streams
      ensures Running() && P.Inv(streams.proto) && items == [] && streams.records == old(streams.records)
      ensures P.StepsLeft(streams.proto, half) <= P.StepsLeft(old(streams.proto), half)
      ensures Since(old(streams.proto), old(items), outcomes)
    {
      ghost var before, batch := streams.proto, items;
      NoneLeft(outcomes);
      hide Written, SomeFails, P.Inv, Flatten;
      var i := 0;
      while items != []
        invariant Running() && P.Inv(streams.proto) && streams.records == old(streams.records)
        invariant P.StepsLeft(streams.proto, half) <= P.StepsLeft(before, half)
        invariant half < |before.streams| && half < |streams.proto.streams|
        invariant streams.proto.streams[half].accepted == before.streams[half].accepted
        invariant streams.proto.streams[half].delivered + Written(items, outcomes, i)
               == before.streams[half].delivered + Written(batch, outcomes, 0)
        invariant streams.proto.streams[half].failed || SomeFails(items, outcomes, i)
             <==> before.streams[half].failed || SomeFails(batch, outcomes, 0)
        decreases |items|
      {
        var outcome := outcomes(i);
        var partial := if outcome.Some? then Cut(items[0], outcome.value) else 0;
        var e := P.WriteItem(t, outcome.None?, partial);
        OwnStepInfo(streams.proto, half, e);
        NextWritten(items, outcomes, i, streams.proto.streams[half].delivered);
        WriteItem(outcome.None?, partial);
        i := i + 1;
      }
    }

    /** Since `before`, the half has accepted nothing and has been written the batch, as far as that went. */
    ghost predicate Since(before: P.State, batch: seq<Bytes>, outcomes: nat -> Option<nat>)
      reads streams
    {
      && half < |before.streams| && half < |streams.proto.streams|
      && var was, st := before.streams[half], streams.proto.streams[half];
      && st.accepted == was.accepted
      && st.delivered == was.delivered + Written(batch, outcomes, 0)
      && (st.failed <==> was.failed || SomeFails(batch, outcomes, 0))
    }

    ghost predicate AllWritten()
      reads streams
    {
      && half < |streams.proto.streams|
      && (!streams.proto.streams[half].failed ==>
            streams.proto.streams[half].delivered == Flatten(streams.proto.streams[half].accepted))
    }

    /** One turn of the outer loop. */
    method Turn(outcomes: nat -> Option<nat>) returns (outcome: LockOutcome)
      requires Running() && P.Inv(streams.proto) && items == []
      modifies this, streams
      ensures streams.Valid() && P.Inv(streams.proto) && half < |streams.proto.streams|
      ensures id in old(streams.records)
      ensures Since(old(streams.proto), old(streams.records)[id].q, outcomes)
      ensures outcome == Continue <==> old(streams.records)[id].q != []
      ensures match outcome
              case Continue =>
                && Running() && items == []
                && id in streams.records && streams.records[id] == old(streams.records)[id].(q := [])
                && P.StepsLeft(streams.proto, half) < P.StepsLeft(old(streams.proto), half)
              case Returned =>
                && !old(streams.records)[id].ended && AllWritten()
                && id in streams.records && streams.records[id] == StreamRec(Some(half), [], false)
              case Break =>
                && old(streams.records)[id].ended && AllWritten() && id !in streams.records
                && t < |streams.proto.tasks| && streams.proto.tasks[t] == P.Closing(half)
    {
      LoopHasRecord(streams.proto, half, t);
      OwnStepInfo(streams.proto, half, P.Lock(t));
      LockFinishes(streams.proto, t);
      outcome := Lock();
      if outcome == Continue {
        WriteBatch(outcomes);
      }
    }

    /**
     * The whole of `write_loop` when no other task gets in between: the queue
     * is written out, or up to the write that fails; then the half goes back into
     * the record, or, if the stream has ended, the record goes and the half is
     * shut down.
     */
    method RunAlone(outcomes: nat -> Option<nat>)
      requires Running() && P.Inv(streams.proto) && items == []
      modifies this, streams
      ensures streams.Valid() && P.Inv(streams.proto) && half < |old(streams.sinks)| && half < |streams.sinks|
      ensures id in old(streams.records)
      ensures var q := old(streams.records)[id].q;
              && streams.sinks[half] == old(streams.sinks)[half] + Written(q, outcomes, 0)
              && (streams.proto.streams[half].failed <==>
                    old(streams.proto).streams[half].failed || SomeFails(q, outcomes, 0))
      ensures !streams.proto.streams[half].failed ==>
                streams.sinks[half] == Flatten(old(streams.proto.streams[half].accepted))
      ensures if old(streams.records)[id].ended
              then id !in streams.records && streams.shutdowns[half] == 1
              else id in streams.records && streams.records[id] == StreamRec(Some(half), [], false)
    {
      var outcome := Turn(outcomes);
      ghost var q := old(streams.records)[id].q;
      while outcome == Continue
        invariant streams.Valid() && P.Inv(streams.proto) && half < |streams.proto.streams|
        invariant Since(old(streams.proto), q, outcomes)
        invariant match outcome
                  case Continue =>
                    && Running() && items == []
                    && id in streams.records && streams.records[id] == old(streams.records)[id].(q := [])
                  case Returned =>
                    && !old(streams.records)[id].ended && AllWritten()
                    && id in streams.records && streams.records[id] == StreamRec(Some(half), [], false)
                  case Break =>
                    && old(streams.records)[id].ended && AllWritten() && id !in streams.records
                    && t < |streams.proto.tasks| && streams.proto.tasks[t] == P.Closing(half)
        decreases outcome == Continue, P.StepsLeft(streams.proto, half)
      {
        outcome := Turn(outcomes);
      }
      if outcome == Break {
        ClosingIsHeld(streams.proto, half, t);
        OwnStepInfo(streams.proto, half, P.Shutdown(t));
        streams.Shutdown(half, t);
      }
    }
  }

  /** A running loop's record exists: only the loop itself takes it out of the table. */
  lemma LoopHasRecord(s: P.State, h: P.Half, t: nat)
    requires P.Inv(s) && P.HeldByTask(s, h, t) && s.tasks[t].Loop?
    ensures s.tasks[t].id in s.recs && P.HeldByTask(s, h, t)
  {
    assert P.StreamOk(s, h);
  }

  lemma OwnStepInfo(s: P.State, h: P.Half, e: P.Event)
    requires P.Inv(s) && P.OwnStep(s, h, e) && P.Enabled(s, e)
    ensures var r := P.Next(s, e);
            && P.Inv(r) && h < |r.streams|
            && r.streams[h].accepted == s.streams[h].accepted
            && (r.streams[h].failed <==> s.streams[h].failed || (e.WriteItem? && !e.ok))
            && r.streams[h].delivered ==
                 s.streams[h].delivered +
                 (if !e.WriteItem? then []
                  else if e.ok then s.tasks[e.t].items[0] else s.tasks[e.t].items[0][..e.partial])
            && P.StepsLeft(r, h) < P.StepsLeft(s, h)
            && (e.Shutdown? ==> r.recs == s.recs && r.streams[h].shutdowns == 1)
  {
    assert P.StreamOk(s, h);
    P.StepKeepsInv(s, e);
    P.OwnTask(s, h, e);
  }

  lemma ClosingIsHeld(s: P.State, h: P.Half, t: nat)
    requires P.Inv(s) && t < |s.tasks| && s.tasks[t] == P.Closing(h)
    ensures h < |s.streams| && P.HeldByTask(s, h, t)
  {
    assert P.StreamOk(s, h);
  }

  /** A write loop that stops has nothing accepted outstanding. */
  lemma LockFinishes(s: P.State, t: nat)
    requires P.Inv(s) && P.Enabled(s, P.Lock(t))
    ensures var r := P.Next(s, P.Lock(t)); var h := s.tasks[t].half;
            !r.tasks[t].Loop? && !r.streams[h].failed ==>
              r.streams[h].delivered == Flatten(r.streams[h].accepted)
  {
    assert P.StreamOk(s, s.tasks[t].half);
  }
}
