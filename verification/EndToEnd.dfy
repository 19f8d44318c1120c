/**
 * One direction of the stream traffic between two peers, from the duplex
 * streams read at the sender to the write halves at the receiver.
 *
 * Each peer has one select task, which alternates between reading a burst of
 * messages and writing one message out. The sender's announces and registers
 * streams and answers synchronous requests inside a burst, and moves channel
 * messages to the transport outside of one; one spawned task per stream reads
 * segments and sends them into the bounded channel; other tasks send replies.
 * The receiver's decodes and dispatches inside a burst; stream data is written
 * to the stream table at once, the end of a stream is handled by a future
 * spawned for it; the table's own tasks are those of StreamProtocol. It has its
 * own bounded channel for the answers it sends back.
 *
 * Transport: a byte stream each way, read in any pieces, that takes no more
 * than `room` unread bytes. Of the traffic back only the amount matters.
 */
module EndToEnd {
  import opened Common
  import opened MessagePack
  import opened Framing
  import opened StreamMessages
  import P = StreamProtocol

  const CHANNEL_CAPACITY := 8
  const READ_BUFFER := 4096

  /** A spawned sender task, between two of its awaits. */
  datatype Sender = Reading | Sending(segment: Bytes) | Ending | Done

  /**
   * The sender's select task: at `select!`, between two messages of a read
   * burst, sending an answer, inside `register_stream`, or in `write_all`.
   */
  datatype Main =
    | AtSelect
    | InBurst
    | Replying(v: Value)
    | Announcing(req: u32, ids: seq<u32>)
    | Spawning(left: seq<u32>)
    | Writing(rest: Bytes)

  /** The receiver's select task; of what it sends back only lengths are kept. */
  datatype Peer =
    | PeerAtSelect
    | PeerDecoding
    | PeerReplying(len: nat)
    | PeerWriting(left: nat)

  /**
   * `announced`, `read`, `flight`, `log` and `halves` are history: ids whose
   * announcement has been sent, segments read from each stream, messages
   * given to the transport, messages dispatched at the receiver, and the
   * receiver's half for each id.
   */
  datatype Sys = Sys(
    room: nat,
    main: Main,
    senders: map<u32, Sender>,
    chan: seq<Msg>,
    wire: Bytes,
    back: nat,
    buf: Bytes,
    peer: Peer,
    peerChan: seq<nat>,
    removing: multiset<u32>,
    table: P.State,
    announced: set<u32>,
    read: map<u32, seq<Bytes>>,
    flight: seq<Msg>,
    log: seq<Msg>,
    halves: map<u32, P.Half>)

  function Start(room: nat): Sys {
    Sys(room, AtSelect, map[], [], [], 0, [], PeerAtSelect, [], multiset{}, P.Empty, {}, map[], [], [], map[])
  }

  datatype Event =
    | StartBurst(n: nat)
    | EndBurst
    | Answer(v: Value)
    | SendAnswer
    | Announce(req: u32, ids: seq<u32>)
    | SendStarted
    | Spawn
    | Read(id: u32, segment: Bytes)
    | ReadEnd(id: u32)
    | SendData(id: u32)
    | SendEnd(id: u32)
    | Reply(v: Value)
    | Notify(v: Value)
    | Transmit
    | Accept(n: nat)
    | Receive(n: nat)
    | Decode(answer: Option<nat>)
    | PeerSend
    | PeerReply(len: nat)
    | PeerNotify(len: nat)
    | PeerTransmit
    | PeerAccept(n: nat)
    | RunRemoval(id: u32)
    | TableTask(e: P.Event)

  predicate Distinct(ids: seq<u32>) {
    forall i, j :: 0 <= i < j < |ids| ==> ids[i] != ids[j]
  }

  /**
   * Ids of streams come from the message counter, so no id is announced twice
   * (CallTable.NoIdTwice, for fewer than 2^32 draws).
   */
  predicate Enabled(s: Sys, e: Event) {
    match e
    case StartBurst(n) => s.main.AtSelect? && 0 < n <= s.back
    case EndBurst => s.main.InBurst?
    case Answer(v) => s.main.InBurst? && Sendable(Other(v))
    case SendAnswer => s.main.Replying? && |s.chan| < CHANNEL_CAPACITY
    case Announce(_, ids) =>
      s.main.InBurst? && |ids| < 0x1_0000_0000 && Distinct(ids) && forall id :: id in ids ==> id !in s.announced
    case SendStarted => s.main.Announcing? && |s.chan| < CHANNEL_CAPACITY
    case Spawn => s.main.Spawning?
    case Read(id, segment) =>
      id in s.senders && s.senders[id].Reading? && 0 < |segment| <= READ_BUFFER
    case ReadEnd(id) => id in s.senders && s.senders[id].Reading?
    case SendData(id) => id in s.senders && s.senders[id].Sending? && |s.chan| < CHANNEL_CAPACITY
    case SendEnd(id) => id in s.senders && s.senders[id].Ending? && |s.chan| < CHANNEL_CAPACITY
    case Reply(v) => |s.chan| < CHANNEL_CAPACITY && Sendable(Other(v))
    case Notify(v) => s.main.AtSelect? && Sendable(Other(v))
    case Transmit => s.main.AtSelect? && s.chan != []
    case Accept(n) => s.main.Writing? && 0 < n <= |s.main.rest| && |s.wire| + n <= s.room
    case Receive(n) => s.peer.PeerAtSelect? && 0 < n <= |s.wire|
    case Decode(answer) => s.peer.PeerDecoding? && (answer.Some? ==> answer.value > 0)
    case PeerSend => s.peer.PeerReplying? && |s.peerChan| < CHANNEL_CAPACITY
    case PeerReply(len) => len > 0 && |s.peerChan| < CHANNEL_CAPACITY
    case PeerNotify(len) => len > 0 && s.peer.PeerAtSelect?
    case PeerTransmit => s.peer.PeerAtSelect? && s.peerChan != []
    case PeerAccept(n) => s.peer.PeerWriting? && 0 < n <= s.peer.left && s.back + n <= s.room
    case RunRemoval(id) => id in s.removing
    case TableTask(e) => (e.Lock? || e.WriteItem? || e.Shutdown?) && P.Enabled(s.table, e)
  }

  predicate IsMainStep(e: Event) {
    e.StartBurst? || e.EndBurst? || e.Answer? || e.SendAnswer? || e.Announce? || e.SendStarted? || e.Spawn?
  }

  predicate IsSenderStep(e: Event) {
    e.Read? || e.ReadEnd? || e.SendData? || e.SendEnd? || e.Reply?
  }

  predicate IsTransportStep(e: Event) {
    e.Notify? || e.Transmit? || e.Accept? || e.Receive?
  }

  predicate IsPeerStep(e: Event) {
    e.PeerSend? || e.PeerReply? || e.PeerNotify? || e.PeerTransmit? || e.PeerAccept?
  }

  predicate IsReceiverStep(e: Event) {
    e.Decode? || e.RunRemoval? || e.TableTask?
  }

  /** What the sender's select task still has to write of the message it is writing. */
  function Pending(main: Main): Bytes {
    if main.Writing? then main.rest else []
  }

  /** What makes every step total: channels and transport are bounded, and `read` ends with the segment in hand. */
  ghost predicate WF(s: Sys) {
    && P.WF(s.table)
    && s.room > 0 && |s.wire| <= s.room && s.back <= s.room
    && (forall m :: m in s.chan ==> Sendable(m))
    && |s.chan| <= CHANNEL_CAPACITY
    && MainWF(s.main)
    && PeerWF(s.peer, s.peerChan)
    && s.senders.Keys == s.read.Keys
    && (forall id :: id in s.senders && s.senders[id].Sending? ==>
          && |s.senders[id].segment| <= READ_BUFFER
          && s.read[id] != [] && s.read[id][|s.read[id]| - 1] == s.senders[id].segment)
  }

  ghost predicate MainWF(main: Main) {
    match main
    case Replying(v) => Sendable(Other(v))
    case Announcing(_, ids) => |ids| < 0x1_0000_0000
    case Writing(rest) => rest != []
    case _ => true
  }

  ghost predicate PeerWF(peer: Peer, peerChan: seq<nat>) {
    && |peerChan| <= CHANNEL_CAPACITY
    && (forall i :: 0 <= i < |peerChan| ==> peerChan[i] > 0)
    && (peer.PeerReplying? ==> peer.len > 0)
    && (peer.PeerWriting? ==> peer.left > 0)
  }

  ghost function Next(s: Sys, e: Event): (r: Sys)
    requires WF(s) && Enabled(s, e)
    ensures WF(r)
  {
    if IsMainStep(e) then NextMain(s, e)
    else if IsTransportStep(e) then NextTransport(s, e)
    else if IsPeerStep(e) then NextPeer(s, e)
    else if IsReceiverStep(e) then NextReceiver(s, e)
    else NextSender(s, e)
  }

  ghost function Push(s: Sys, m: Msg): (r: Sys)
    requires WF(s) && Sendable(m) && |s.chan| < CHANNEL_CAPACITY
    ensures WF(r)
  {
    s.(chan := s.chan + [m])
  }

  /** The sender's select task inside a read burst. */
  ghost function NextMain(s: Sys, e: Event): (r: Sys)
    requires WF(s) && Enabled(s, e) && IsMainStep(e)
    ensures WF(r)
  {
    match e
    case StartBurst(n) => s.(main := InBurst, back := s.back - n)
    case EndBurst => s.(main := AtSelect)
    case Answer(v) => s.(main := Replying(v))
    case SendAnswer => Push(s, Other(s.main.v)).(main := InBurst)
    case Announce(req, ids) => s.(main := Announcing(req, ids))
    case SendStarted =>
      var ids := s.main.ids;
      Push(s, Started(s.main.req, ids)).(main := Spawning(ids), announced := s.announced + set id | id in ids)
    case Spawn =>
      if s.main.left == [] then s.(main := InBurst)
      else
        var id := s.main.left[0];
        s.(main := Spawning(s.main.left[1..]),
           senders := s.senders[id := Reading],
           read := s.read[id := []])
  }

  /** The spawned tasks of the sender. */
  ghost function NextSender(s: Sys, e: Event): (r: Sys)
    requires WF(s) && Enabled(s, e) && IsSenderStep(e)
    ensures WF(r)
  {
    match e
    case Read(id, segment) =>
      s.(senders := s.senders[id := Sending(segment)], read := s.read[id := s.read[id] + [segment]])
    case ReadEnd(id) => s.(senders := s.senders[id := Ending])
    case SendData(id) =>
      Push(s, Data(id, s.senders[id].segment)).(senders := s.senders[id := Reading])
    case SendEnd(id) => Push(s, Ended(id)).(senders := s.senders[id := Done])
    case Reply(v) => Push(s, Other(v))
  }

  /** The sender's select task begins to write a message. */
  ghost function BeginWrite(s: Sys, m: Msg): (r: Sys)
    requires WF(s) && Sendable(m)
    ensures WF(r)
  {
    Bytes1NotEmpty(m);
    s.(main := Writing(Bytes1(m)), flight := s.flight + [m])
  }

  /** The select task's writes to the transport, and the receiver's reads from it. */
  ghost function NextTransport(s: Sys, e: Event): (r: Sys)
    requires WF(s) && Enabled(s, e) && IsTransportStep(e)
    ensures WF(r)
  {
    match e
    case Notify(v) => BeginWrite(s, Other(v))
    case Transmit => BeginWrite(s, s.chan[0]).(chan := s.chan[1..])
    case Accept(n) =>
      s.(wire := s.wire + s.main.rest[..n],
         main := if n == |s.main.rest| then AtSelect else Writing(s.main.rest[n..]))
    case Receive(n) => s.(buf := s.buf + s.wire[..n], wire := s.wire[n..], peer := PeerDecoding)
  }

  /** What the receiver sends back. */
  ghost function NextPeer(s: Sys, e: Event): (r: Sys)
    requires WF(s) && Enabled(s, e) && IsPeerStep(e)
    ensures WF(r)
  {
    match e
    case PeerSend => s.(peer := PeerDecoding, peerChan := s.peerChan + [s.peer.len])
    case PeerReply(len) => s.(peerChan := s.peerChan + [len])
    case PeerNotify(len) => s.(peer := PeerWriting(len))
    case PeerTransmit => s.(peer := PeerWriting(s.peerChan[0]), peerChan := s.peerChan[1..])
    case PeerAccept(n) =>
      s.(back := s.back + n, peer := if n == s.peer.left then PeerAtSelect else PeerWriting(s.peer.left - n))
  }

  /** Only a message that is not a stream notification can make the receiver's select task answer. */
  function AfterDispatch(m: Msg, answer: Option<nat>): Peer {
    if m.Other? && answer.Some? then PeerReplying(answer.value) else PeerDecoding
  }

  ghost function NextReceiver(s: Sys, e: Event): (r: Sys)
    requires WF(s) && Enabled(s, e) && IsReceiverStep(e)
    ensures WF(r)
  {
    match e
    case Decode(answer) =>
      (match Parse(s.buf)
       case Incomplete => s.(peer := PeerAtSelect)
       case Invalid => s
       case Frame(v, len) =>
         var m := Understand(v);
         Dispatch(s.(buf := s.buf[len..], flight := if s.flight == [] then [] else s.flight[1..]), m)
           .(peer := AfterDispatch(m, answer)))
    case RunRemoval(id) =>
      s.(removing := s.removing - multiset{id}, table := P.NextRemove(s.table, id))
    case TableTask(e) => s.(table := P.Next(s.table, e))
  }

  /**
   * What the receiver does with one message. Streams a peer announces are
   * registered by its handler before anything else is dispatched.
   */
  ghost function Dispatch(s: Sys, m: Msg): (r: Sys)
    requires WF(s)
    ensures WF(r)
  {
    var s1 := s.(log := s.log + [m]);
    match m
    case Started(_, ids) =>
      var (table, halves) := InsertAll(s.table, s.halves, ids);
      s1.(table := table, halves := halves)
    case Data(id, segment) => s1.(table := P.NextWrite(s.table, id, segment))
    case Ended(id) => s1.(removing := s.removing + multiset{id})
    case Other(_) => s1
  }

  ghost function InsertAll(table: P.State, halves: map<u32, P.Half>, ids: seq<u32>)
    : (r: (P.State, map<u32, P.Half>))
    requires P.WF(table)
    ensures P.WF(r.0)
    decreases |ids|
  {
    if ids == [] then (table, halves)
    else InsertAll(P.NextInsert(table, ids[0]), halves[ids[0] := |table.streams|], ids[1..])
  }

  ghost predicate IsRun(s: Sys, es: seq<Event>)
    decreases |es|
  {
    WF(s) && (es != [] ==> Enabled(s, es[0]) && IsRun(Next(s, es[0]), es[1..]))
  }

  ghost function Run(s: Sys, es: seq<Event>): Sys
    requires IsRun(s, es)
    decreases |es|
  {
    if es == [] then s else Run(Next(s, es[0]), es[1..])
  }

  // ---- what one stream sees ------------------------------------------------------

  datatype Item = Opened | Segment(segment: Bytes) | Closed

  function ItemsOf(m: Msg, id: u32): seq<Item> {
    match m
    case Started(_, ids) => if id in ids then [Opened] else []
    case Data(i, segment) => if i == id then [Segment(segment)] else []
    case Ended(i) => if i == id then [Closed] else []
    case Other(_) => []
  }

  /** The messages of `ms` that concern stream `id`. */
  function Project(ms: seq<Msg>, id: u32): seq<Item> {
    if ms == [] then [] else ItemsOf(ms[0], id) + Project(ms[1..], id)
  }

  function Segments(segments: seq<Bytes>): (items: seq<Item>)
    ensures |items| == |segments|
    ensures forall i :: 0 <= i < |items| ==> items[i] == Segment(segments[i])
  {
    seq(|segments|, i requires 0 <= i < |segments| => Segment(segments[i]))
  }

  /** The data among the items. */
  function DataOf(items: seq<Item>): seq<Bytes> {
    if items == [] then []
    else (if items[0].Segment? then [items[0].segment] else []) + DataOf(items[1..])
  }

  /**
   * All that has been sent for a stream whose task is in state `sender` and
   * has read `read`: the announcement first, then the segments in order, the
   * end last. The segment in hand has not been sent yet.
   */
  function SenderItems(announced: bool, sender: Option<Sender>, read: seq<Bytes>): seq<Item> {
    if !announced then []
    else
      [Opened] +
      Segments(if sender.Some? && sender.value.Sending? && read != [] then read[..|read| - 1] else read) +
      (if sender == Some(Done) then [Closed] else [])
  }

  function SentItems(announced: set<u32>, senders: map<u32, Sender>, read: map<u32, seq<Bytes>>, id: u32): seq<Item> {
    SenderItems(
      id in announced,
      if id in senders then Some(senders[id]) else None,
      if id in read then read[id] else [])
  }
}
