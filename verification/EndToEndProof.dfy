/**
 * Ordering, safety and completeness of the stream traffic, for every
 * interleaving of EndToEnd.
 */
module EndToEndProof {
  import opened Common
  import opened MessagePack
  import opened Framing
  import opened StreamMessages
  import opened EndToEnd
  import P = StreamProtocol

  // ---- projections -----------------------------------------------------------------

  lemma {:induction false} ProjectConcat(a: seq<Msg>, b: seq<Msg>, id: u32)
    ensures Project(a + b, id) == Project(a, id) + Project(b, id)
  {
    if a == [] {
      assert a + b == b;
    } else {
      assert (a + b)[0] == a[0] && (a + b)[1..] == a[1..] + b;
      ProjectConcat(a[1..], b, id);
    }
  }

  lemma ProjectSnoc(a: seq<Msg>, m: Msg, id: u32)
    ensures Project(a + [m], id) == Project(a, id) + ItemsOf(m, id)
  {
    ProjectConcat(a, [m], id);
    assert [m][1..] == [];
  }

  lemma {:induction false} DataOfSnoc(items: seq<Item>, i: Item)
    ensures DataOf(items + [i]) == DataOf(items) + (if i.Segment? then [i.segment] else [])
  {
    if items == [] {
      assert ([] + [i])[1..] == [];
    } else {
      assert (items + [i])[0] == items[0] && (items + [i])[1..] == items[1..] + [i];
      DataOfSnoc(items[1..], i);
    }
  }

  lemma {:induction false} DataOfSegments(segments: seq<Bytes>)
    ensures DataOf(Segments(segments)) == segments
  {
    if segments != [] {
      assert Segments(segments)[1..] == Segments(segments[1..]);
      DataOfSegments(segments[1..]);
    }
  }

  lemma {:induction false} DataOfConcat(a: seq<Item>, b: seq<Item>)
    ensures DataOf(a + b) == DataOf(a) + DataOf(b)
  {
    if a == [] {
      assert a + b == b;
    } else {
      assert (a + b)[0] == a[0] && (a + b)[1..] == a[1..] + b;
      DataOfConcat(a[1..], b);
    }
  }

  // ---- the sender's side of the invariant -----------------------------------------------

  ghost function Sent(s: Sys): seq<Msg> {
    s.log + s.flight + s.chan
  }

  /** What has been put on its way for `id` is exactly what its tasks have sent, in their order. */
  ghost predicate SentFor(sent: seq<Msg>, announced: set<u32>, senders: map<u32, Sender>,
                          read: map<u32, seq<Bytes>>, id: u32)
  {
    Project(sent, id) == SentItems(announced, senders, read, id)
  }

  ghost predicate AllSent(sent: seq<Msg>, announced: set<u32>, senders: map<u32, Sender>, read: map<u32, seq<Bytes>>) {
    forall id :: SentFor(sent, announced, senders, read, id)
  }

  ghost predicate SentOk(s: Sys, id: u32) {
    SentFor(Sent(s), s.announced, s.senders, s.read, id)
  }

  ghost predicate DistinctIds(ms: seq<Msg>) {
    forall m :: m in ms && m.Started? ==> Distinct(m.ids)
  }

  ghost predicate MainOk(main: Main, announced: set<u32>, senders: map<u32, Sender>) {
    && senders.Keys <= announced
    && (main.Announcing? ==> Distinct(main.ids) && forall id :: id in main.ids ==> id !in announced)
    && (main.Spawning? ==>
          Distinct(main.left) && forall id :: id in main.left ==> id in announced && id !in senders)
  }

  ghost predicate SenderInv(s: Sys) {
    && MainOk(s.main, s.announced, s.senders)
    && DistinctIds(s.flight) && DistinctIds(s.chan)
    && AllSent(Sent(s), s.announced, s.senders, s.read)
  }

  lemma SentPush(s: Sys, m: Msg, id: u32)
    ensures Project(s.log + s.flight + (s.chan + [m]), id) == Project(Sent(s), id) + ItemsOf(m, id)
  {
    assert s.log + s.flight + (s.chan + [m]) == Sent(s) + [m];
    ProjectSnoc(Sent(s), m, id);
  }

  lemma MainSent(s: Sys, e: Event, id: u32)
    requires WF(s) && Enabled(s, e) && IsMainStep(e) && SentOk(s, id)
    requires s.main.Announcing? && id in s.main.ids ==> id !in s.announced && id !in s.read
    requires s.main.Spawning? && id in s.main.left ==> id in s.announced && id !in s.read
    ensures SentOk(NextMain(s, e), id)
  {
    hide Project, P.WF;
    if e.SendStarted? {
      SentPush(s, Started(s.main.req, s.main.ids), id);
    } else if e.SendAnswer? {
      SentPush(s, Other(s.main.v), id);
    }
  }

  lemma MainKeepsSenderInv(s: Sys, e: Event)
    requires WF(s) && SenderInv(s) && Enabled(s, e) && IsMainStep(e)
    ensures SenderInv(NextMain(s, e))
  {
    var r := NextMain(s, e);
    forall id ensures SentFor(Sent(r), r.announced, r.senders, r.read, id) {
      assert SentFor(Sent(s), s.announced, s.senders, s.read, id) && s.read.Keys == s.senders.Keys;
      MainSent(s, e, id);
    }
    if e.Spawn? && s.main.left != [] {
      assert s.main.left[0] !in s.main.left[1..];
    }
  }

  /** Reading a segment sends nothing yet; sending it adds it at the end. */
  lemma SegmentItems(announced: bool, segment: Bytes, read: seq<Bytes>)
    ensures SenderItems(announced, Some(Sending(segment)), read + [segment])
         == SenderItems(announced, Some(Reading), read)
    ensures SenderItems(true, Some(Reading), read + [segment])
         == SenderItems(true, Some(Reading), read) + [Segment(segment)]
  {
    assert (read + [segment])[..|read|] == read;
    assert Segments(read + [segment]) == Segments(read) + [Segment(segment)];
  }

  lemma SegmentSent(s: Sys, i: u32, id: u32)
    requires WF(s) && Enabled(s, SendData(i)) && SentOk(s, id) && i in s.announced
    ensures SentOk(NextSender(s, SendData(i)), id)
  {
    var segment := s.senders[i].segment;
    SentPush(s, Data(i, segment), id);
    if i == id {
      var n := |s.read[i]| - 1;
      assert s.read[i] == s.read[i][..n] + [segment];
      SegmentItems(true, segment, s.read[i][..n]);
    }
  }

  lemma EndSent(s: Sys, i: u32, id: u32)
    requires WF(s) && Enabled(s, SendEnd(i)) && SentOk(s, id) && i in s.announced
    ensures SentOk(NextSender(s, SendEnd(i)), id)
  {
    hide Project, P.WF;
    SentPush(s, Ended(i), id);
  }

  lemma TaskSent(s: Sys, e: Event, id: u32)
    requires WF(s) && Enabled(s, e) && SentOk(s, id) && (e.Read? || e.ReadEnd? || e.Reply?)
    ensures SentOk(NextSender(s, e), id)
  {
    match e
    case Read(i, segment) => if i == id { SegmentItems(id in s.announced, segment, s.read[i]); }
    case ReadEnd(_) =>
    case Reply(v) => SentPush(s, Other(v), id);
  }

  lemma TasksKeepSenderInv(s: Sys, e: Event)
    requires WF(s) && SenderInv(s) && Enabled(s, e) && IsSenderStep(e)
    ensures SenderInv(NextSender(s, e))
  {
    var r := NextSender(s, e);
    forall id ensures SentFor(Sent(r), r.announced, r.senders, r.read, id) {
      assert SentFor(Sent(s), s.announced, s.senders, s.read, id);
      if e.SendData? { SegmentSent(s, e.id, id); } else if e.SendEnd? { EndSent(s, e.id, id); } else { TaskSent(s, e, id); }
    }
  }

  lemma NotifySent(log: seq<Msg>, flight: seq<Msg>, chan: seq<Msg>, v: Value, id: u32)
    ensures Project(log + (flight + [Other(v)]) + chan, id) == Project(log + flight + chan, id)
  {
    assert log + (flight + [Other(v)]) == (log + flight) + [Other(v)];
    ProjectConcat(log + flight + [Other(v)], chan, id);
    ProjectSnoc(log + flight, Other(v), id);
    ProjectConcat(log + flight, chan, id);
  }

  lemma TransportKeepsSenderInv(s: Sys, e: Event)
    requires WF(s) && SenderInv(s) && Enabled(s, e) && IsTransportStep(e)
    ensures SenderInv(NextTransport(s, e))
  {
    if e.Notify? {
      forall id ensures SentFor(s.log + (s.flight + [Other(e.v)]) + s.chan, s.announced, s.senders, s.read, id) {
        assert SentFor(Sent(s), s.announced, s.senders, s.read, id);
        NotifySent(s.log, s.flight, s.chan, e.v, id);
      }
    } else if e.Transmit? {
      assert s.log + (s.flight + [s.chan[0]]) + s.chan[1..] == Sent(s);
    }
  }

  // ---- the transport ----------------------------------------------------------------------

  ghost predicate WireInv(s: Sys) {
    && (forall m :: m in s.flight ==> Sendable(m))
    && s.buf + (s.wire + Pending(s.main)) == Wire(s.flight)
    && (s.peer.PeerAtSelect? || s.peer.PeerWriting? ==> Parse(s.buf).Incomplete?)
  }

  lemma BeginWriteKeepsWireInv(s: Sys, m: Msg)
    requires WF(s) && WireInv(s) && Sendable(m) && s.main.AtSelect?
    ensures WireInv(BeginWrite(s, m))
  {
    WireSnoc(s.flight, m);
    assert s.buf + (s.wire + []) == s.buf + s.wire;
    assert s.buf + (s.wire + Bytes1(m)) == (s.buf + s.wire) + Bytes1(m);
  }

  lemma TransportKeepsWireInv(s: Sys, e: Event)
    requires WF(s) && WireInv(s) && Enabled(s, e) && IsTransportStep(e)
    ensures WireInv(NextTransport(s, e))
  {
    hide Wire, Bytes1, Parse, P.WF;
    match e
    case Notify(v) => BeginWriteKeepsWireInv(s, Other(v));
    case Transmit => BeginWriteKeepsWireInv(s, s.chan[0]);
    case Accept(n) => Split(s.wire, s.main.rest, n);
    case Receive(n) => MoveAcross(s.buf, s.wire, Pending(s.main), n);
  }

  lemma Split(wire: Bytes, rest: Bytes, n: nat)
    requires n <= |rest|
    ensures (wire + rest[..n]) + rest[n..] == wire + rest
    ensures n == |rest| ==> rest[n..] == []
  {
  }

  lemma MoveAcross(buf: Bytes, wire: Bytes, pending: Bytes, n: nat)
    requires n <= |wire|
    ensures (buf + wire[..n]) + (wire[n..] + pending) == buf + (wire + pending)
  {
  }

  // ---- the receiver's side of the invariant --------------------------------------------------

  /** Halves and ids of inserted streams match one to one. */
  ghost predicate HalvesOk(table: P.State, halves: map<u32, P.Half>) {
    && (forall h :: 0 <= h < |table.streams| ==>
          table.streams[h].id in halves && halves[table.streams[h].id] == h)
    && (forall id :: id in halves ==> halves[id] < |table.streams| && table.streams[halves[id]].id == id)
  }

  /**
   * The receiver's view of stream `id` once `items` of it have been
   * dispatched: all its data has been accepted by the table, and its record
   * stays until the removal spawned by its end has run.
   */
  ghost predicate PeerAt(table: P.State, halves: map<u32, P.Half>, removing: multiset<u32>, id: u32, items: seq<Item>) {
    if items == [] then id !in halves && id !in removing
    else
      && id in halves && halves[id] < |table.streams|
      && table.streams[halves[id]].accepted == DataOf(items)
      && removing[id] <= 1
      && (id in removing ==> Closed in items)
      && (if Closed in items && id !in removing then P.Removed(table, halves[id])
          else id in table.recs && table.recs[id].home == halves[id] && !table.recs[id].ended)
  }

  ghost predicate PeerAll(table: P.State, halves: map<u32, P.Half>, removing: multiset<u32>, log: seq<Msg>) {
    && HalvesOk(table, halves)
    && forall id :: PeerAt(table, halves, removing, id, Project(log, id))
  }

  ghost predicate PeerInv(s: Sys) {
    P.Inv(s.table) && PeerAll(s.table, s.halves, s.removing, s.log)
  }

  /** A table step that leaves the record and the accepted data of `id` alone. */
  lemma PeerFrame(t: P.State, u: P.State, halves: map<u32, P.Half>, removing: multiset<u32>, id: u32, items: seq<Item>)
    requires HalvesOk(t, halves) && HalvesOk(u, halves) && |t.streams| == |u.streams|
    requires PeerAt(t, halves, removing, id, items)
    requires id in halves ==>
               && u.streams[halves[id]].accepted == t.streams[halves[id]].accepted
               && (id in u.recs ==> id in t.recs && u.recs[id].home == t.recs[id].home)
               && (id in t.recs && !t.recs[id].ended ==> id in u.recs && !u.recs[id].ended)
               && (id in t.recs && t.recs[id].ended && id in u.recs ==> u.recs[id].ended)
    ensures PeerAt(u, halves, removing, id, items)
  {
  }

  lemma TableTaskKeepsPeerInv(s: Sys, e: P.Event)
    requires WF(s) && PeerInv(s) && Enabled(s, TableTask(e))
    ensures PeerInv(NextReceiver(s, TableTask(e)))
  {
    P.StepKeepsInv(s.table, e);
    var u := P.Next(s.table, e);
    TaskKeepsAccepted(s.table, e);
    forall id ensures PeerAt(u, s.halves, s.removing, id, Project(s.log, id)) {
      PeerFrame(s.table, u, s.halves, s.removing, id, Project(s.log, id));
    }
  }

  lemma TaskKeepsAccepted(t: P.State, e: P.Event)
    requires P.WF(t) && P.Enabled(t, e) && (e.Lock? || e.WriteItem? || e.Shutdown?)
    ensures var u := P.Next(t, e);
            && |u.streams| == |t.streams|
            && (forall h :: 0 <= h < |t.streams| ==>
                  u.streams[h].id == t.streams[h].id && u.streams[h].accepted == t.streams[h].accepted)
            && (forall id :: id in u.recs ==>
                  id in t.recs && u.recs[id].home == t.recs[id].home && u.recs[id].ended == t.recs[id].ended)
            && (forall id :: id in t.recs && !t.recs[id].ended ==> id in u.recs)
  {
  }

  lemma RemovalKeepsPeer(t: P.State, halves: map<u32, P.Half>, removing: multiset<u32>, i: u32,
                         id: u32, items: seq<Item>)
    requires P.Inv(t) && HalvesOk(t, halves) && i in removing
    requires i in t.recs && t.recs[i].home < |t.streams| && P.RecOk(t, i)
    requires PeerAt(t, halves, removing, id, items)
    ensures var u := P.NextRemove(t, i);
            HalvesOk(u, halves) && PeerAt(u, halves, removing - multiset{i}, id, items)
  {
    if i == id { P.RemoveMarks(t, i); }
  }

  lemma RemovalKeepsPeerInv(s: Sys, i: u32)
    requires WF(s) && PeerInv(s) && i in s.removing
    ensures PeerInv(NextReceiver(s, RunRemoval(i)))
  {
    assert PeerAt(s.table, s.halves, s.removing, i, Project(s.log, i));
    assert P.RecOk(s.table, i);
    P.RemoveKeepsInv(s.table, i);
    RemovalKeepsPeer(s.table, s.halves, s.removing, i, i, Project(s.log, i));
    forall id
      ensures PeerAt(P.NextRemove(s.table, i), s.halves, s.removing - multiset{i}, id, Project(s.log, id))
    {
      RemovalKeepsPeer(s.table, s.halves, s.removing, i, id, Project(s.log, id));
    }
  }

  /** What a write leaves alone, and what it adds. */
  lemma WriteFacts(t: P.State, i: u32, segment: Bytes)
    requires P.WF(t) && i in t.recs
    ensures var u := P.NextWrite(t, i, segment);
            && |u.streams| == |t.streams| && u.recs.Keys == t.recs.Keys
            && (forall h :: 0 <= h < |t.streams| ==>
                  && u.streams[h].id == t.streams[h].id
                  && u.streams[h].accepted == t.streams[h].accepted + if h == t.recs[i].home then [segment] else [])
            && (forall k :: k in t.recs ==> u.recs[k].home == t.recs[k].home && u.recs[k].ended == t.recs[k].ended)
  {
  }

  lemma WriteKeepsPeer(t: P.State, halves: map<u32, P.Half>, removing: multiset<u32>, i: u32, segment: Bytes,
                       id: u32, items: seq<Item>)
    requires P.Inv(t) && HalvesOk(t, halves) && PeerAt(t, halves, removing, id, items)
    requires i in t.recs
    requires i == id ==> items != [] && Closed !in items
    ensures var u := P.NextWrite(t, i, segment);
            && HalvesOk(u, halves)
            && PeerAt(u, halves, removing, id, if i == id then items + [Segment(segment)] else items)
  {
    assert P.RecOk(t, i);
    WriteFacts(t, i, segment);
    var u := P.NextWrite(t, i, segment);
    assert P.WF(u);
    HalvesFrame(t, u, halves);
    assert id in halves && i != id ==> t.recs[i].home != halves[id];
    hide P.Inv, P.WF, P.RecOk, P.NextWrite, DataOf, HalvesOk;
    if i == id {
      WrittenPeer(t, u, halves, removing, id, segment, items);
    } else {
      PeerFrame(t, u, halves, removing, id, items);
    }
  }

  lemma HalvesFrame(t: P.State, u: P.State, halves: map<u32, P.Half>)
    requires HalvesOk(t, halves) && |u.streams| == |t.streams|
    requires forall h :: 0 <= h < |t.streams| ==> u.streams[h].id == t.streams[h].id
    ensures HalvesOk(u, halves)
  {
  }

  lemma WrittenPeer(t: P.State, u: P.State, halves: map<u32, P.Half>, removing: multiset<u32>, id: u32, segment: Bytes,
                    items: seq<Item>)
    requires PeerAt(t, halves, removing, id, items) && items != [] && Closed !in items
    requires |u.streams| == |t.streams| && id in t.recs && id in u.recs
    requires u.recs[id].home == t.recs[id].home && u.recs[id].ended == t.recs[id].ended
    requires var h := t.recs[id].home;
             h < |t.streams| && u.streams[h].accepted == t.streams[h].accepted + [segment]
    ensures PeerAt(u, halves, removing, id, items + [Segment(segment)])
  {
    hide DataOf;
    DataOfSnoc(items, Segment(segment));
    assert Closed !in items + [Segment(segment)];
  }

  lemma InsertKeepsHalves(t: P.State, halves: map<u32, P.Half>, i: u32)
    requires P.Inv(t) && HalvesOk(t, halves) && i !in halves
    ensures P.Fresh(t, P.Insert(i)) && HalvesOk(P.NextInsert(t, i), halves[i := |t.streams|])
  {
    assert i in t.recs ==> P.RecOk(t, i);
  }

  lemma InsertKeepsPeer(t: P.State, halves: map<u32, P.Half>, removing: multiset<u32>, i: u32,
                        id: u32, items: seq<Item>)
    requires P.WF(t) && HalvesOk(t, halves) && PeerAt(t, halves, removing, id, items)
    requires i !in halves && (i == id ==> items == [])
    ensures PeerAt(P.NextInsert(t, i), halves[i := |t.streams|], removing, id, if i == id then [Opened] else items)
  {
    assert DataOf([Opened]) == [] by { assert [Opened][1..] == []; }
  }

  lemma {:induction false} InsertAllKeepsPeer(t: P.State, halves: map<u32, P.Half>, removing: multiset<u32>,
                                              ids: seq<u32>, id: u32, items: seq<Item>)
    requires P.Inv(t) && HalvesOk(t, halves) && PeerAt(t, halves, removing, id, items)
    requires Distinct(ids) && (forall i :: i in ids ==> i !in halves) && (id in ids ==> items == [])
    ensures var (u, halves') := InsertAll(t, halves, ids);
            && P.Inv(u) && HalvesOk(u, halves')
            && PeerAt(u, halves', removing, id, if id in ids then [Opened] else items)
    decreases |ids|
  {
    if ids != [] {
      var i := ids[0];
      InsertKeepsHalves(t, halves, i);
      P.InsertKeepsInv(t, i);
      InsertKeepsPeer(t, halves, removing, i, id, items);
      assert i !in ids[1..];
      assert Distinct(ids[1..]);
      InsertAllKeepsPeer(P.NextInsert(t, i), halves[i := |t.streams|], removing, ids[1..], id,
                         if i == id then [Opened] else items);
    }
  }

  // ---- dispatching ------------------------------------------------------------------------------

  /** A stream is opened first and once, and nothing follows its end. */
  ghost predicate MayFollow(seen: seq<Item>, i: Item) {
    if i == Opened then seen == [] else seen != [] && Closed !in seen
  }

  ghost predicate Follows(log: seq<Msg>, m: Msg, id: u32) {
    ItemsOf(m, id) != [] ==> MayFollow(Project(log, id), ItemsOf(m, id)[0])
  }

  /** The next message continues what its streams have seen so far, in the order it was sent. */
  lemma ArrivesInOrder(log: seq<Msg>, m: Msg, later: seq<Msg>, id: u32)
    ensures Project(log, id) + ItemsOf(m, id) <= Project(log + ([m] + later), id)
  {
    assert log + ([m] + later) == (log + [m]) + later;
    ProjectConcat(log + [m], later, id);
    ProjectSnoc(log, m, id);
  }

  lemma ShapeOfItems(announced: bool, sender: Option<Sender>, read: seq<Bytes>, seen: seq<Item>, i: Item)
    requires seen + [i] <= SenderItems(announced, sender, read)
    ensures MayFollow(seen, i)
  {
    var all := SenderItems(announced, sender, read);
    assert all[|seen|] == i;
    forall k | 0 <= k < |seen| ensures seen[k] == all[k] && seen[k] != Closed {
      assert (seen + [i])[k] == seen[k];
    }
  }

  lemma SentFollows(log: seq<Msg>, m: Msg, later: seq<Msg>, id: u32,
                    announced: set<u32>, senders: map<u32, Sender>, read: map<u32, seq<Bytes>>)
    requires SentFor(log + ([m] + later), announced, senders, read, id)
    ensures Follows(log, m, id)
  {
    ArrivesInOrder(log, m, later, id);
    if ItemsOf(m, id) != [] {
      assert ItemsOf(m, id) == [ItemsOf(m, id)[0]];
      ShapeOfItems(
        id in announced,
        if id in senders then Some(senders[id]) else None,
        if id in read then read[id] else [],
        Project(log, id), ItemsOf(m, id)[0]);
    }
  }

  lemma NextFollows(s: Sys, id: u32)
    requires SentOk(s, id) && s.flight != []
    ensures Follows(s.log, s.flight[0], id)
  {
    var later := s.flight[1..] + s.chan;
    assert Sent(s) == s.log + ([s.flight[0]] + later);
    SentFollows(s.log, s.flight[0], later, id, s.announced, s.senders, s.read);
  }

  lemma EndedKeepsPeer(t: P.State, halves: map<u32, P.Half>, removing: multiset<u32>, id: u32, items: seq<Item>)
    requires PeerAt(t, halves, removing, id, items) && MayFollow(items, Closed)
    ensures PeerAt(t, halves, removing + multiset{id}, id, items + [Closed])
  {
    DataOfSnoc(items, Closed);
    assert DataOf(items + [Closed]) == DataOf(items);
    assert Closed in items + [Closed];
  }

  lemma DispatchStarted(s: Sys, req: u32, ids: seq<u32>)
    requires WF(s) && PeerInv(s) && Distinct(ids) && (forall id :: Follows(s.log, Started(req, ids), id))
    ensures PeerInv(Dispatch(s, Started(req, ids)))
  {
    var m := Started(req, ids);
    var r := Dispatch(s, m);
    forall id | id in ids ensures id !in s.halves {
      assert Follows(s.log, m, id) && ItemsOf(m, id) == [Opened];
      assert PeerAt(s.table, s.halves, s.removing, id, Project(s.log, id));
    }
    forall id
      ensures P.Inv(r.table) && HalvesOk(r.table, r.halves)
      ensures PeerAt(r.table, r.halves, r.removing, id, Project(r.log, id))
    {
      var items := Project(s.log, id);
      assert Follows(s.log, m, id);
      assert PeerAt(s.table, s.halves, s.removing, id, items);
      ProjectSnoc(s.log, m, id);
      assert items + ItemsOf(m, id) == if id in ids then [Opened] else items;
      InsertAllKeepsPeer(s.table, s.halves, s.removing, ids, id, items);
    }
    assert PeerAt(r.table, r.halves, r.removing, 0, Project(r.log, 0));
  }

  lemma DispatchData(s: Sys, i: u32, segment: Bytes)
    requires WF(s) && PeerInv(s) && Follows(s.log, Data(i, segment), i)
    ensures PeerInv(Dispatch(s, Data(i, segment)))
  {
    var m := Data(i, segment);
    var r := Dispatch(s, m);
    assert PeerAt(s.table, s.halves, s.removing, i, Project(s.log, i));
    P.WriteKeepsInv(s.table, i, segment);
    forall id
      ensures HalvesOk(r.table, r.halves)
      ensures PeerAt(r.table, r.halves, r.removing, id, Project(r.log, id))
    {
      var items := Project(s.log, id);
      assert PeerAt(s.table, s.halves, s.removing, id, items);
      ProjectSnoc(s.log, m, id);
      assert items + ItemsOf(m, id) == if i == id then items + [Segment(segment)] else items;
      WriteKeepsPeer(s.table, s.halves, s.removing, i, segment, id, items);
    }
    assert PeerAt(r.table, r.halves, r.removing, 0, Project(r.log, 0));
  }

  lemma DispatchEnded(s: Sys, i: u32)
    requires WF(s) && PeerInv(s) && Follows(s.log, Ended(i), i)
    ensures PeerInv(Dispatch(s, Ended(i)))
  {
    var m := Ended(i);
    var r := Dispatch(s, m);
    forall id ensures PeerAt(r.table, r.halves, r.removing, id, Project(r.log, id)) {
      var items := Project(s.log, id);
      assert PeerAt(s.table, s.halves, s.removing, id, items);
      ProjectSnoc(s.log, m, id);
      if i == id {
        EndedKeepsPeer(s.table, s.halves, s.removing, id, items);
      } else {
        assert items + ItemsOf(m, id) == items;
      }
    }
  }

  lemma DispatchKeepsPeerInv(s: Sys, m: Msg)
    requires WF(s) && PeerInv(s) && (forall id :: Follows(s.log, m, id))
    requires m.Started? ==> Distinct(m.ids)
    ensures PeerInv(Dispatch(s, m))
  {
    match m {
      case Started(req, ids) => DispatchStarted(s, req, ids);
      case Data(i, segment) =>
        assert Follows(s.log, m, i);
        DispatchData(s, i, segment);
      case Ended(i) =>
        assert Follows(s.log, m, i);
        DispatchEnded(s, i);
      case Other(_) =>
        forall id ensures PeerAt(s.table, s.halves, s.removing, id, Project(s.log + [m], id)) {
          assert PeerAt(s.table, s.halves, s.removing, id, Project(s.log, id));
          ProjectSnoc(s.log, m, id);
          assert Project(s.log, id) + ItemsOf(m, id) == Project(s.log, id);
        }
    }
  }

  // ---- the invariant of the whole ------------------------------------------------------------------

  ghost predicate Inv(s: Sys) {
    WF(s) && SenderInv(s) && WireInv(s) && PeerInv(s)
  }

  /** What dispatching leaves alone. */
  lemma DispatchFrame(s: Sys, m: Msg)
    requires WF(s)
    ensures var r := Dispatch(s, m);
            && r.room == s.room && r.main == s.main && r.back == s.back && r.peerChan == s.peerChan
            && r.announced == s.announced && r.senders == s.senders && r.read == s.read
            && r.chan == s.chan && r.wire == s.wire && r.buf == s.buf
            && r.flight == s.flight && r.log == s.log + [m]
  {
  }

  lemma DecodeKeepsInv(s: Sys, answer: Option<nat>)
    requires Inv(s) && Enabled(s, Decode(answer))
    ensures Inv(NextReceiver(s, Decode(answer)))
  {
    hide Project, Dispatch, Wire, Understand, Follows, P.Inv, PeerAll, P.WF, Parse;
    WireParses(s.buf, s.wire + Pending(s.main), s.flight);
    if Parse(s.buf).Frame? {
      var m, len := s.flight[0], Parse(s.buf).len;
      var s1 := s.(buf := s.buf[len..], flight := s.flight[1..]);
      AllFollow(s);
      DispatchKeepsPeerInv(s1, m);
      DispatchFrame(s1, m);
      MovesToLog(s.log, s.flight, s.chan);
    }
  }

  lemma AllFollow(s: Sys)
    requires SenderInv(s) && s.flight != []
    ensures forall id :: Follows(s.log, s.flight[0], id)
  {
    forall id ensures Follows(s.log, s.flight[0], id) {
      assert SentFor(Sent(s), s.announced, s.senders, s.read, id);
      NextFollows(s, id);
    }
  }

  lemma MovesToLog(log: seq<Msg>, flight: seq<Msg>, chan: seq<Msg>)
    requires flight != []
    ensures log + flight + chan == (log + [flight[0]]) + flight[1..] + chan
  {
  }

  lemma SenderStepKeepsInv(s: Sys, e: Event)
    requires Inv(s) && Enabled(s, e) && IsSenderStep(e)
    ensures Inv(NextSender(s, e))
  {
    TasksKeepSenderInv(s, e);
  }

  lemma MainStepKeepsInv(s: Sys, e: Event)
    requires Inv(s) && Enabled(s, e) && IsMainStep(e)
    ensures Inv(NextMain(s, e))
  {
    MainKeepsSenderInv(s, e);
  }

  lemma TransportStepKeepsInv(s: Sys, e: Event)
    requires Inv(s) && Enabled(s, e) && IsTransportStep(e)
    ensures Inv(NextTransport(s, e))
  {
    TransportKeepsSenderInv(s, e);
    TransportKeepsWireInv(s, e);
  }

  lemma PeerStepKeepsInv(s: Sys, e: Event)
    requires Inv(s) && Enabled(s, e) && IsPeerStep(e)
    ensures Inv(NextPeer(s, e))
  {
    var r := NextPeer(s, e);
    assert Sent(r) == Sent(s);
  }

  lemma ReceiverStepKeepsInv(s: Sys, e: Event)
    requires Inv(s) && Enabled(s, e) && IsReceiverStep(e)
    ensures Inv(NextReceiver(s, e))
  {
    match e
    case Decode(answer) => DecodeKeepsInv(s, answer);
    case RunRemoval(id) => RemovalKeepsPeerInv(s, id);
    case TableTask(t) => TableTaskKeepsPeerInv(s, t);
  }

  lemma StepKeepsInv(s: Sys, e: Event)
    requires Inv(s) && Enabled(s, e)
    ensures Inv(Next(s, e))
  {
    assert WF(s);
    hide Inv, WF, Enabled, NextMain, NextTransport, NextPeer, NextReceiver, NextSender;
    if IsMainStep(e) {
      MainStepKeepsInv(s, e);
    } else if IsTransportStep(e) {
      TransportStepKeepsInv(s, e);
    } else if IsPeerStep(e) {
      PeerStepKeepsInv(s, e);
    } else if IsReceiverStep(e) {
      ReceiverStepKeepsInv(s, e);
    } else {
      SenderStepKeepsInv(s, e);
    }
  }

  lemma StartInv(room: nat)
    requires room > 0
    ensures Inv(Start(room))
  {
    var s := Start(room);
    forall id ensures SentFor(Sent(s), s.announced, s.senders, s.read, id) {
    }
    forall id ensures PeerAt(s.table, s.halves, s.removing, id, Project(s.log, id)) {
    }
  }

  lemma {:induction false} RunKeepsInv(s: Sys, es: seq<Event>)
    requires Inv(s) && IsRun(s, es)
    ensures Inv(Run(s, es))
    decreases |es|
  {
    if es != [] {
      StepKeepsInv(s, es[0]);
      RunKeepsInv(Next(s, es[0]), es[1..]);
    }
  }

  // ---- the history of reads is what the events say ---------------------------------------------------

  function ReadBy(e: Event, id: u32): seq<Bytes> {
    if e.Read? && e.id == id then [e.segment] else []
  }

  /** The segments that a run reads from stream `id`, by its events alone. */
  function SegmentsRead(es: seq<Event>, id: u32): seq<Bytes> {
    if es == [] then [] else ReadBy(es[0], id) + SegmentsRead(es[1..], id)
  }

  ghost function ReadOf(s: Sys, id: u32): seq<Bytes> {
    if id in s.read then s.read[id] else []
  }

  /** All that has been read from the stream is read; `ReadEnd` comes after that. */
  ghost predicate Over(s: Sys, id: u32) {
    id in s.senders && (s.senders[id].Ending? || s.senders[id].Done?)
  }

  lemma ReadStep(s: Sys, e: Event, id: u32)
    requires WF(s) && MainOk(s.main, s.announced, s.senders) && Enabled(s, e)
    ensures ReadOf(Next(s, e), id) == ReadOf(s, id) + ReadBy(e, id)
    ensures Over(Next(s, e), id) <==> Over(s, id) || e == ReadEnd(id)
  {
    hide WF, Enabled, NextMain, NextTransport, NextPeer, NextReceiver, NextSender, ReadOf, Over;
    if IsMainStep(e) {
      MainReads(s, e, id);
    } else if IsSenderStep(e) {
      TaskReads(s, e, id);
    } else {
      OthersKeepSenders(s, e);
      SameReads(s, Next(s, e), id);
    }
  }

  lemma MainReads(s: Sys, e: Event, id: u32)
    requires WF(s) && MainOk(s.main, s.announced, s.senders) && Enabled(s, e) && IsMainStep(e)
    ensures ReadOf(NextMain(s, e), id) == ReadOf(s, id) && (Over(NextMain(s, e), id) <==> Over(s, id))
  {
    assert s.senders.Keys == s.read.Keys;
    hide WF;
  }

  lemma TaskReads(s: Sys, e: Event, id: u32)
    requires WF(s) && Enabled(s, e) && IsSenderStep(e)
    ensures ReadOf(NextSender(s, e), id) == ReadOf(s, id) + ReadBy(e, id)
    ensures Over(NextSender(s, e), id) <==> Over(s, id) || e == ReadEnd(id)
  {
    assert s.senders.Keys == s.read.Keys;
    TaskEnds(s, e, id);
    hide WF, Over;
  }

  lemma TaskEnds(s: Sys, e: Event, id: u32)
    requires WF(s) && Enabled(s, e) && IsSenderStep(e)
    ensures Over(NextSender(s, e), id) <==> Over(s, id) || e == ReadEnd(id)
  {
    hide WF;
  }

  lemma SameReads(s: Sys, r: Sys, id: u32)
    requires r.senders == s.senders && r.read == s.read
    ensures ReadOf(r, id) == ReadOf(s, id) && (Over(r, id) <==> Over(s, id))
  {
  }

  lemma OthersKeepSenders(s: Sys, e: Event)
    requires WF(s) && Enabled(s, e) && !IsMainStep(e) && !IsSenderStep(e)
    ensures Next(s, e).senders == s.senders && Next(s, e).read == s.read
  {
    hide Dispatch, Bytes1, WF, Parse, Understand;
    if e.Decode? { DecodeFrame(s, e.answer); }
  }

  lemma InvReads(s: Sys, e: Event, id: u32)
    requires Inv(s) && Enabled(s, e)
    ensures WF(s) && ReadOf(Next(s, e), id) == ReadOf(s, id) + ReadBy(e, id)
    ensures Over(Next(s, e), id) <==> Over(s, id) || e == ReadEnd(id)
  {
    ReadStep(s, e, id);
  }

  lemma {:induction false} ReadsOfRun(s: Sys, es: seq<Event>, id: u32)
    requires Inv(s) && IsRun(s, es)
    ensures ReadOf(Run(s, es), id) == ReadOf(s, id) + SegmentsRead(es, id)
    ensures Over(Run(s, es), id) <==> Over(s, id) || ReadEnd(id) in es
    decreases |es|
  {
    hide WF, Inv, Next, Enabled, ReadOf, Over, ReadBy;
    if es != [] {
      InvReads(s, es[0], id);
      StepKeepsInv(s, es[0]);
      ReadsOfRun(Next(s, es[0]), es[1..], id);
      assert ReadEnd(id) in es <==> es[0] == ReadEnd(id) || ReadEnd(id) in es[1..];
    }
  }

  /** What the state remembers of the reads of a stream is exactly the events of the run, in order. */
  lemma ReadsAreEvents(room: nat, es: seq<Event>, id: u32)
    requires IsRun(Start(room), es)
    ensures ReadOf(Run(Start(room), es), id) == SegmentsRead(es, id)
    ensures Over(Run(Start(room), es), id) <==> ReadEnd(id) in es
  {
    StartInv(room);
    ReadsOfRun(Start(room), es, id);
  }

  // ---- main results ------------------------------------------------------------------------------------

  /** A segment that has been read and is waiting for room in the channel. */
  ghost function InHand(s: Sys, id: u32): seq<Bytes> {
    if id in s.senders && s.senders[id].Sending? then [s.senders[id].segment] else []
  }

  lemma Reachable(room: nat, es: seq<Event>)
    requires IsRun(Start(room), es)
    ensures Inv(Run(Start(room), es))
  {
    StartInv(room);
    RunKeepsInv(Start(room), es);
  }

  lemma ItemsArePrefix(announced: bool, sender: Option<Sender>, read: seq<Bytes>)
    ensures SenderItems(announced, sender, read) <= [Opened] + Segments(read) + [Closed]
  {
    if announced && sender.Some? && sender.value.Sending? && read != [] {
      assert Segments(read) == Segments(read[..|read| - 1]) + [Segment(read[|read| - 1])];
    }
  }

  lemma InOrder(s: Sys, id: u32)
    requires SentOk(s, id)
    ensures Project(s.log, id) <= [Opened] + Segments(ReadOf(s, id)) + [Closed]
  {
    hide SenderItems;
    assert Sent(s) == s.log + (s.flight + s.chan);
    ProjectConcat(s.log, s.flight + s.chan, id);
    ItemsArePrefix(id in s.announced, if id in s.senders then Some(s.senders[id]) else None, ReadOf(s, id));
  }

  /**
   * Order, for every interleaving and every fragmentation: the receiver sees
   * the announcement, then the segments as read, in order, then the end, and
   * at any moment it has seen some front part of that.
   */
  lemma ReceivedInOrder(room: nat, es: seq<Event>, id: u32)
    requires IsRun(Start(room), es)
    ensures var s := Run(Start(room), es);
            Project(s.log, id) <= [Opened] + Segments(SegmentsRead(es, id)) + [Closed]
  {
    ReadsAreEvents(room, es, id);
    Reachable(room, es);
    var s := Run(Start(room), es);
    assert SentFor(Sent(s), s.announced, s.senders, s.read, id);
    InOrder(s, id);
  }

  lemma DataOfParts(segments: seq<Bytes>, tail: seq<Item>)
    requires tail == [] || tail == [Closed]
    ensures DataOf([Opened] + Segments(segments) + tail) == segments
  {
    DataOfConcat([Opened] + Segments(segments), tail);
    DataOfConcat([Opened], Segments(segments));
    DataOfSegments(segments);
    assert DataOf([Opened]) == [] by { assert [Opened][1..] == []; }
    assert DataOf(tail) == [] by { if tail != [] { assert tail[1..] == []; } }
  }

  lemma DataSent(sender: Option<Sender>, read: seq<Bytes>)
    requires sender.Some? && sender.value.Sending? ==> read != [] && read[|read| - 1] == sender.value.segment
    ensures DataOf(SenderItems(true, sender, read))
         + (if sender.Some? && sender.value.Sending? then [sender.value.segment] else []) == read
  {
    hide DataOf, Segments;
    var holding := sender.Some? && sender.value.Sending?;
    var sent := if holding then read[..|read| - 1] else read;
    DataOfParts(sent, if sender == Some(Done) then [Closed] else []);
    assert sent + (if holding then [sender.value.segment] else []) == read;
  }

  lemma SentData(s: Sys, id: u32)
    requires WF(s) && SentOk(s, id) && s.senders.Keys <= s.announced
    ensures DataOf(Project(Sent(s), id)) + InHand(s, id) == ReadOf(s, id)
  {
    hide Project, DataOf, SenderItems;
    if id in s.announced {
      DataSent(if id in s.senders then Some(s.senders[id]) else None, ReadOf(s, id));
    } else {
      assert SenderItems(false, None, []) == [] by { NothingSent([]); }
      NoData();
    }
  }

  lemma NothingSent(read: seq<Bytes>)
    ensures SenderItems(false, None, read) == []
  {
  }

  lemma NoData()
    ensures DataOf([]) == []
  {
  }

  /** What has been read at the sender, `read`, wherever its bytes are now. */
  ghost predicate FifoAt(s: Sys, id: u32, read: seq<Bytes>) {
    && id in s.halves && s.halves[id] < |s.table.streams|
    && var h := s.halves[id];
    && (!s.table.streams[h].failed ==>
          Flatten(read) ==
            s.table.streams[h].delivered
            + Flatten(P.Batch(s.table, h)) + Flatten(P.Queue(s.table, h))
            + Flatten(DataOf(Project(s.flight + s.chan, id)))
            + Flatten(InHand(s, id)))
  }

  lemma FifoFromInv(s: Sys, id: u32)
    requires Inv(s) && id in s.halves
    ensures FifoAt(s, id, ReadOf(s, id))
  {
    var h := s.halves[id];
    var way := s.flight + s.chan;
    assert SentFor(Sent(s), s.announced, s.senders, s.read, id);
    assert PeerAt(s.table, s.halves, s.removing, id, Project(s.log, id));
    TableFifo(s.table, h);
    SentData(s, id);
    hide Project, DataOf;
    assert Sent(s) == s.log + way;
    ProjectConcat(s.log, way, id);
    DataOfConcat(Project(s.log, id), Project(way, id));
    var accepted := DataOf(Project(s.log, id));
    FlattenConcat(accepted + DataOf(Project(way, id)), InHand(s, id));
    FlattenConcat(accepted, DataOf(Project(way, id)));
  }

  /**
   * End-to-end FIFO, in every state of every interleaving: what has been read
   * at the sender is what has been written at the receiver, then what its
   * write loop and its queue hold, then what is on the way, then the segment
   * in hand.
   */
  lemma EndToEndFifo(room: nat, es: seq<Event>, id: u32)
    requires IsRun(Start(room), es) && id in Run(Start(room), es).halves
    ensures FifoAt(Run(Start(room), es), id, SegmentsRead(es, id))
  {
    ReadsAreEvents(room, es, id);
    Reachable(room, es);
    FifoFromInv(Run(Start(room), es), id);
  }

  lemma TableFifo(t: P.State, h: P.Half)
    requires P.Inv(t) && h < |t.streams|
    ensures !t.streams[h].failed ==>
              Flatten(t.streams[h].accepted)
              == t.streams[h].delivered + Flatten(P.Batch(t, h)) + Flatten(P.Queue(t, h))
  {
    assert P.StreamOk(t, h);
    if t.streams[h].holder.InRecord? { assert P.RecOk(t, t.streams[h].id); }
  }

  /** The sender's select task waits for room in a full channel that only it empties. */
  ghost predicate SenderBlocked(s: Sys) {
    (s.main.Announcing? || s.main.Replying?) && |s.chan| == 8
  }

  /** So does the receiver's. */
  ghost predicate ReceiverBlocked(s: Sys) {
    s.peer.PeerReplying? && |s.peerChan| == 8
  }

  /** Both select tasks are writing to a full transport, which only the other one's reading would empty. */
  ghost predicate BothWriting(s: Sys) {
    s.main.Writing? && s.peer.PeerWriting? && |s.wire| == s.room && s.back == s.room
  }

  /** The steps that need nothing from outside: no new request, no more data, no reply of another task. */
  predicate Quiet(e: Event) {
    match e
    case Answer(_) => false
    case Announce(_, _) => false
    case Read(_, _) => false
    case ReadEnd(_) => false
    case Reply(_) => false
    case Notify(_) => false
    case PeerReply(_) => false
    case PeerNotify(_) => false
    case _ => true
  }

  /** No step is left of the select tasks, of sender tasks with something to send, the transport or the table. */
  ghost predicate AtRest(s: Sys) {
    forall e :: Quiet(e) ==> !Enabled(s, e)
  }

  lemma RestingMain(s: Sys)
    requires WF(s) && AtRest(s) && !SenderBlocked(s)
    ensures (s.main.AtSelect? && s.chan == [] && s.back == 0) || (s.main.Writing? && |s.wire| == s.room)
  {
    assert !Enabled(s, EndBurst) && !Enabled(s, SendAnswer) && !Enabled(s, SendStarted) && !Enabled(s, Spawn);
    assert !Enabled(s, Transmit) && !Enabled(s, StartBurst(s.back)) && !Enabled(s, Accept(1));
  }

  lemma RestingPeer(s: Sys)
    requires WF(s) && AtRest(s) && !ReceiverBlocked(s)
    ensures (s.peer.PeerAtSelect? && s.wire == []) || (s.peer.PeerWriting? && s.back == s.room)
  {
    assert !Enabled(s, Decode(None)) && !Enabled(s, PeerSend) && !Enabled(s, PeerTransmit);
    assert !Enabled(s, Receive(|s.wire|)) && !Enabled(s, PeerAccept(1));
  }

  /** The receiver will dispatch nothing any more. */
  ghost predicate Deaf(s: Sys) {
    || ReceiverBlocked(s) || BothWriting(s)
    || (SenderBlocked(s) && s.peer.PeerWriting? && s.back == s.room)
  }

  /**
   * The end of the stream has not been dispatched, and it never will be: the
   * receiver has stopped, or the sender has before it gave the end to the
   * transport.
   */
  ghost predicate Stuck(s: Sys, id: u32) {
    || (Deaf(s) && Ended(id) !in s.log)
    || (SenderBlocked(s) && Ended(id) !in s.log + s.flight)
  }

  /** At rest, and with the receiver listening, nothing is left on the transport. */
  lemma NothingOnTheWay(s: Sys)
    requires Inv(s) && AtRest(s) && !Deaf(s)
    ensures s.flight == []
    ensures !SenderBlocked(s) ==> s.main.AtSelect? && s.chan == []
  {
    if !SenderBlocked(s) { RestingMain(s); }
    RestingPeer(s);
    assert s.wire == [] && Pending(s.main) == [];
    WireParses(s.buf, s.wire + Pending(s.main), s.flight);
  }

  lemma RemovedStreamIsDone(t: P.State, h: P.Half)
    requires P.Inv(t) && P.Removed(t, h)
    requires forall e :: P.OwnStep(t, h, e) ==> !P.Enabled(t, e)
    ensures t.streams[h].shutdowns == 1 && P.OwnRec(t, h).None?
    ensures t.streams[h].failed || t.streams[h].delivered == Flatten(t.streams[h].accepted)
  {
    if P.StepsLeft(t, h) > 0 { P.DrainProgress(t, h); }
    assert P.StreamOk(t, h);
  }

  /** The stream is shut down and forgotten, and what has been read at the sender, `read`, is written. */
  ghost predicate DeliveredAt(s: Sys, id: u32, read: seq<Bytes>) {
    && id in s.halves && s.halves[id] < |s.table.streams|
    && var st := s.table.streams[s.halves[id]];
    && st.shutdowns == 1 && id !in s.table.recs
    && (st.failed || st.delivered == Flatten(read))
  }

  lemma InvParts(s: Sys, id: u32)
    requires Inv(s)
    ensures WF(s) && SentOk(s, id) && s.senders.Keys <= s.announced
    ensures P.Inv(s.table) && HalvesOk(s.table, s.halves)
    ensures PeerAt(s.table, s.halves, s.removing, id, Project(s.log, id))
  {
    assert SentFor(Sent(s), s.announced, s.senders, s.read, id);
  }

  lemma EndIsSent(s: Sys, id: u32)
    requires SentOk(s, id) && s.senders.Keys <= s.announced && id in s.senders && s.senders[id].Done?
    ensures Closed in Project(Sent(s), id)
  {
    var items := Project(Sent(s), id);
    assert items[|items| - 1] == Closed;
  }

  lemma TableAtRest(s: Sys, id: u32, items: seq<Item>)
    requires P.Inv(s.table) && HalvesOk(s.table, s.halves) && PeerAt(s.table, s.halves, s.removing, id, items)
    requires Closed in items && WF(s) && AtRest(s)
    ensures id in s.halves && s.halves[id] < |s.table.streams|
    ensures var st := s.table.streams[s.halves[id]];
            && st.shutdowns == 1 && id !in s.table.recs
            && (st.failed || st.delivered == Flatten(DataOf(items)))
  {
    hide P.Inv, P.Enabled, P.OwnStep;
    assert Quiet(RunRemoval(id)) && !Enabled(s, RunRemoval(id));
    var h := s.halves[id];
    forall e | P.OwnStep(s.table, h, e) ensures !P.Enabled(s.table, e) {
      OwnStepIsTask(s.table, h, e);
      assert Quiet(TableTask(e)) && !Enabled(s, TableTask(e));
    }
    RemovedStreamIsDone(s.table, h);
    if id in s.table.recs { RecordIsOwn(s.table, s.halves, id); }
  }

  /** Ids are not used twice here, so the record of an id is that of its one stream. */
  lemma RecordIsOwn(t: P.State, halves: map<u32, P.Half>, id: u32)
    requires P.Inv(t) && HalvesOk(t, halves) && id in halves && id in t.recs
    ensures P.OwnRec(t, halves[id]) == Some(t.recs[id])
  {
    assert P.RecOk(t, id);
  }

  lemma OwnStepIsTask(t: P.State, h: P.Half, e: P.Event)
    requires P.OwnStep(t, h, e)
    ensures e.Lock? || e.WriteItem? || e.Shutdown?
  {
  }

  /** The end of a stream is the last that is sent for it. */
  lemma EndIsLast(announced: bool, sender: Option<Sender>, read: seq<Bytes>, seen: seq<Item>, later: seq<Item>)
    requires seen + later == SenderItems(announced, sender, read) && Closed in seen
    ensures sender == Some(Done) && later == []
  {
    var all := SenderItems(announced, sender, read);
    var k :| 0 <= k < |seen| && seen[k] == Closed;
    assert all[k] == Closed;
    assert k == |all| - 1;
  }

  lemma {:induction false} ClosedMeansEnded(ms: seq<Msg>, id: u32)
    ensures Closed in Project(ms, id) <==> Ended(id) in ms
  {
    if ms != [] {
      ClosedMeansEnded(ms[1..], id);
      assert Ended(id) in ms <==> ms[0] == Ended(id) || Ended(id) in ms[1..];
    }
  }

  /** Once the end has been dispatched, everything has been. */
  lemma AllDispatched(s: Sys, id: u32)
    requires Inv(s) && Ended(id) in s.log
    ensures id in s.senders && s.senders[id].Done? && Ended(id) !in s.flight + s.chan
    ensures DataOf(Project(s.log, id)) == ReadOf(s, id)
  {
    InvParts(s, id);
    var way := s.flight + s.chan;
    SentData(s, id);
    ClosedMeansEnded(s.log, id);
    ClosedMeansEnded(way, id);
    hide Project, DataOf, SenderItems, Inv, WF;
    assert Sent(s) == s.log + way;
    ProjectConcat(s.log, way, id);
    EndIsLast(id in s.announced, if id in s.senders then Some(s.senders[id]) else None, ReadOf(s, id),
              Project(s.log, id), Project(way, id));
    assert Project(s.log, id) + [] == Project(s.log, id);
    assert DataOf(Project(s.log, id)) + [] == DataOf(Project(s.log, id));
  }

  /** Delivery needs the end to be dispatched. */
  lemma DeliveredNeedsEnd(s: Sys, id: u32, read: seq<Bytes>)
    requires Inv(s) && DeliveredAt(s, id, read)
    ensures Ended(id) in s.log
  {
    InvParts(s, id);
    ClosedMeansEnded(s.log, id);
  }

  /** At rest it is enough. */
  lemma EndDelivers(s: Sys, id: u32)
    requires Inv(s) && AtRest(s) && Ended(id) in s.log
    ensures DeliveredAt(s, id, ReadOf(s, id))
  {
    InvParts(s, id);
    AllDispatched(s, id);
    ClosedMeansEnded(s.log, id);
    hide Inv, P.Inv, HalvesOk, PeerAt, AtRest, Sent, SentOk, Project, DataOf;
    TableAtRest(s, id, Project(s.log, id));
  }

  /** At rest, the end of a stream that is over has been dispatched unless something is stuck. */
  lemma EndDispatched(s: Sys, id: u32)
    requires Inv(s) && AtRest(s) && id in s.senders && (s.senders[id].Done? || s.senders[id].Ending?)
    ensures Ended(id) in s.log || Stuck(s, id)
  {
    if !Deaf(s) {
      NothingOnTheWay(s);
      assert s.log + s.flight == s.log;
      if !SenderBlocked(s) {
        assert Quiet(SendEnd(id)) && !Enabled(s, SendEnd(id));
        InvParts(s, id);
        EndIsSent(s, id);
        SentIsLog(s);
        ClosedMeansEnded(s.log, id);
      }
    }
  }

  lemma SentIsLog(s: Sys)
    requires s.flight == [] && s.chan == []
    ensures s.log == Sent(s)
  {
  }

  /**
   * When exactly a stream is delivered. When it is over at the sender and nothing
   * more can move, the receiver has shut it down exactly once, has no record
   * of it left and, without a write error, has written exactly the bytes
   * read, if and only if its end has been dispatched; that is, unless its end
   * is still waiting to be sent, in the sender's channel or on the transport;
   * and that is so exactly if it is stuck.
   */
  lemma DeliversEverything(room: nat, es: seq<Event>, id: u32)
    requires IsRun(Start(room), es)
    requires AtRest(Run(Start(room), es)) && ReadEnd(id) in es
    ensures var s := Run(Start(room), es);
            && id in s.senders
            && (DeliveredAt(s, id, SegmentsRead(es, id)) <==> Ended(id) in s.log)
            && (DeliveredAt(s, id, SegmentsRead(es, id)) <==> s.senders[id].Done? && Ended(id) !in s.flight + s.chan)
            && (DeliveredAt(s, id, SegmentsRead(es, id)) <==> !Stuck(s, id))
  {
    ReadsAreEvents(room, es, id);
    Reachable(room, es);
    var s := Run(Start(room), es);
    EndDispatched(s, id);
    if Ended(id) in s.log {
      EndDelivers(s, id);
      AllDispatched(s, id);
    } else {
      if DeliveredAt(s, id, ReadOf(s, id)) { DeliveredNeedsEnd(s, id, ReadOf(s, id)); }
      if s.senders[id].Done? { EndIsSomewhere(s, id); }
    }
  }

  lemma EndIsSomewhere(s: Sys, id: u32)
    requires Inv(s) && id in s.senders && s.senders[id].Done?
    ensures Ended(id) in s.log || Ended(id) in s.flight + s.chan
  {
    InvParts(s, id);
    hide Inv, WF, P.Inv, HalvesOk, PeerAt, SentOk, Project;
    EndIsSent(s, id);
    ClosedMeansEnded(Sent(s), id);
    SomePart(s.log, s.flight, s.chan, Ended(id));
  }

  lemma SomePart(a: seq<Msg>, b: seq<Msg>, c: seq<Msg>, m: Msg)
    requires m in a + b + c
    ensures m in a || m in b + c
  {
  }

  // ---- being stuck is for ever -----------------------------------------------------------

  lemma DeafStep(s: Sys, e: Event)
    requires WF(s) && Enabled(s, e) && Deaf(s)
    ensures Deaf(Next(s, e)) && Next(s, e).log == s.log
  {
    if ReceiverBlocked(s) {
      ReceiverStays(s, e);
    } else if BothWriting(s) {
      BothStay(s, e);
    } else {
      SenderStays(s, e);
      StarvedStays(s, e);
    }
  }

  lemma StarvedStays(s: Sys, e: Event)
    requires WF(s) && Enabled(s, e) && SenderBlocked(s) && s.peer.PeerWriting? && s.back == s.room
    ensures var r := Next(s, e); r.peer == s.peer && r.back == s.back && r.room == s.room && r.log == s.log
  {
    hide Dispatch, Bytes1, WF, Parse, Understand;
  }

  /** While the sender is blocked, what it gave to the transport is all that can be dispatched. */
  lemma MuteStep(s: Sys, e: Event)
    requires Inv(s) && Enabled(s, e) && SenderBlocked(s)
    ensures SenderBlocked(Next(s, e)) && Next(s, e).log + Next(s, e).flight == s.log + s.flight
  {
    assert WF(s);
    SenderStays(s, e);
    if e.Decode? { DecodeMoves(s, e.answer); }
    hide Dispatch, Bytes1, WF, Parse, Understand, Inv;
  }

  lemma DecodeMoves(s: Sys, answer: Option<nat>)
    requires Inv(s) && Enabled(s, Decode(answer))
    ensures var r := NextReceiver(s, Decode(answer)); r.log + r.flight == s.log + s.flight
  {
    WireParses(s.buf, s.wire + Pending(s.main), s.flight);
    if Parse(s.buf).Frame? {
      var m := s.flight[0];
      DispatchFrame(s.(buf := s.buf[Parse(s.buf).len..], flight := s.flight[1..]), m);
      assert (s.log + [m]) + s.flight[1..] == s.log + s.flight;
    }
  }

  lemma StuckStep(s: Sys, e: Event, id: u32)
    requires Inv(s) && Enabled(s, e) && Stuck(s, id)
    ensures Stuck(Next(s, e), id)
  {
    assert WF(s);
    if Deaf(s) && Ended(id) !in s.log {
      DeafStep(s, e);
    } else {
      MuteStep(s, e);
    }
  }

  /** A stream that is stuck is never delivered, whatever else happens. */
  lemma {:induction false} StuckForever(s: Sys, es: seq<Event>, id: u32)
    requires Inv(s) && IsRun(s, es) && Stuck(s, id)
    ensures Stuck(Run(s, es), id) && forall read :: !DeliveredAt(Run(s, es), id, read)
    decreases |es|
  {
    hide Stuck, Next, Enabled, Inv, WF, DeliveredAt;
    if es == [] {
      StuckIsUndelivered(s, id);
    } else {
      StuckStep(s, es[0], id);
      StepKeepsInv(s, es[0]);
      StuckForever(Next(s, es[0]), es[1..], id);
    }
  }

  lemma StuckIsUndelivered(s: Sys, id: u32)
    requires Inv(s) && Stuck(s, id)
    ensures forall read :: !DeliveredAt(s, id, read)
  {
    forall read ensures !DeliveredAt(s, id, read) {
      if DeliveredAt(s, id, read) { DeliveredNeedsEnd(s, id, read); }
    }
  }

  /**
   * Each of the three ways to be blocked is for ever, whatever else happens:
   * the task or tasks concerned stay where they are, with their channel or
   * transport as full as it is. A blocked receiver dispatches nothing any more.
   */
  lemma {:induction false} BlockedForever(s: Sys, es: seq<Event>)
    requires IsRun(s, es)
    ensures var r := Run(s, es);
            && (SenderBlocked(s) ==> r.main == s.main && r.chan == s.chan)
            && (ReceiverBlocked(s) ==> r.peer == s.peer && r.peerChan == s.peerChan && r.log == s.log)
            && (BothWriting(s) ==> r.main == s.main && r.peer == s.peer && BothWriting(r) && r.log == s.log)
    decreases |es|
  {
    if es != [] {
      if SenderBlocked(s) { SenderStays(s, es[0]); }
      if ReceiverBlocked(s) { ReceiverStays(s, es[0]); }
      if BothWriting(s) { BothStay(s, es[0]); }
      BlockedForever(Next(s, es[0]), es[1..]);
    }
  }

  lemma SenderStays(s: Sys, e: Event)
    requires WF(s) && Enabled(s, e) && SenderBlocked(s)
    ensures Next(s, e).main == s.main && Next(s, e).chan == s.chan
  {
    hide Dispatch, Bytes1, WF, Parse, Understand;
    if e.Decode? { DecodeFrame(s, e.answer); }
  }

  lemma ReceiverStays(s: Sys, e: Event)
    requires WF(s) && Enabled(s, e) && ReceiverBlocked(s)
    ensures Next(s, e).peer == s.peer && Next(s, e).peerChan == s.peerChan && Next(s, e).log == s.log
  {
    hide Dispatch, Bytes1, WF, Parse, Understand;
  }

  lemma BothStay(s: Sys, e: Event)
    requires WF(s) && Enabled(s, e) && BothWriting(s)
    ensures var r := Next(s, e); r.main == s.main && r.peer == s.peer && BothWriting(r) && r.log == s.log
  {
    hide Dispatch, Bytes1, WF, Parse, Understand;
  }

  /** Decoding changes the receiver only. */
  lemma DecodeFrame(s: Sys, answer: Option<nat>)
    requires WF(s) && Enabled(s, Decode(answer))
    ensures var r := NextReceiver(s, Decode(answer));
            && r.room == s.room && r.main == s.main && r.senders == s.senders && r.read == s.read
            && r.announced == s.announced && r.chan == s.chan && r.wire == s.wire && r.back == s.back
            && r.peerChan == s.peerChan
  {
    if Parse(s.buf).Frame? {
      var m := Understand(Parse(s.buf).value);
      DispatchFrame(s.(buf := s.buf[Parse(s.buf).len..], flight := if s.flight == [] then [] else s.flight[1..]), m);
    }
  }
}
