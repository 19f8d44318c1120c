/**
 * Conservation in EndToEnd, over whole runs: every message that a step has
 * brought in is, as often as that happened, with the task that sends it, in the
 * channel, on the transport or dispatched, and no other message is; and the
 * same for streams and for the bytes on the way back.
 */
module EndToEndLedger {
  import opened Common
  import opened MessagePack
  import opened Framing
  import opened StreamMessages
  import opened EndToEnd
  import opened EndToEndProof

  // ---- messages ------------------------------------------------------------------

  /** The message that a step brings in. */
  function OfferedBy(e: Event): Option<Msg> {
    match e
    case Answer(v) => Some(Other(v))
    case Reply(v) => Some(Other(v))
    case Notify(v) => Some(Other(v))
    case Announce(req, ids) => Some(Started(req, ids))
    case Read(id, segment) => Some(Data(id, segment))
    case ReadEnd(id) => Some(Ended(id))
    case _ => None
  }

  function Times(ms: seq<Msg>, m: Msg): nat {
    multiset(ms)[m]
  }

  function Brings(e: Event, m: Msg): nat {
    if OfferedBy(e) == Some(m) then 1 else 0
  }

  /** How many steps of a run bring in the message. */
  function TimesOffered(es: seq<Event>, m: Msg): nat {
    if es == [] then 0 else Brings(es[0], m) + TimesOffered(es[1..], m)
  }

  function HeldByMain(main: Main, m: Msg): nat {
    match main
    case Replying(v) => if m == Other(v) then 1 else 0
    case Announcing(req, ids) => if m == Started(req, ids) then 1 else 0
    case _ => 0
  }

  function HeldByTask(senders: map<u32, Sender>, m: Msg): nat {
    match m
    case Data(id, segment) => if id in senders && senders[id] == Sending(segment) then 1 else 0
    case Ended(id) => if id in senders && senders[id] == Ending then 1 else 0
    case _ => 0
  }

  /** How often the message is with a task, in the channel, on the transport or dispatched. */
  ghost function Present(s: Sys, m: Msg): nat {
    HeldByMain(s.main, m) + HeldByTask(s.senders, m) + Times(s.log + s.flight + s.chan, m)
  }

  lemma SentGrows(s: Sys, k: Msg, m: Msg)
    ensures Times(s.log + s.flight + (s.chan + [k]), m)
         == Times(s.log + s.flight + s.chan, m) + if k == m then 1 else 0
  {
    assert s.log + s.flight + (s.chan + [k]) == s.log + s.flight + s.chan + [k];
  }

  lemma FlightGrows(s: Sys, k: Msg, m: Msg)
    ensures Times(s.log + (s.flight + [k]) + s.chan, m)
         == Times(s.log + s.flight + s.chan, m) + if k == m then 1 else 0
  {
    assert s.log + (s.flight + [k]) + s.chan == (s.log + s.flight) + [k] + s.chan;
  }

  lemma MainConserves(s: Sys, e: Event, m: Msg)
    requires WF(s) && Enabled(s, e) && IsMainStep(e)
    requires s.main.Spawning? ==> forall id :: id in s.main.left ==> id !in s.senders
    ensures Present(NextMain(s, e), m) == Present(s, m) + Brings(e, m)
  {
    hide WF, Times, HeldByTask;
    if e.SendAnswer? {
      SentGrows(s, Other(s.main.v), m);
    } else if e.SendStarted? {
      SentGrows(s, Started(s.main.req, s.main.ids), m);
    } else if e.Spawn? && s.main.left != [] {
      NewTaskHolds(s.senders, s.main.left[0], m);
    }
  }

  lemma NewTaskHolds(senders: map<u32, Sender>, id: u32, m: Msg)
    requires id !in senders
    ensures HeldByTask(senders[id := Reading], m) == HeldByTask(senders, m)
  {
  }

  lemma TaskConserves(s: Sys, e: Event, m: Msg)
    requires WF(s) && Enabled(s, e) && IsSenderStep(e)
    ensures Present(NextSender(s, e), m) == Present(s, m) + Brings(e, m)
  {
    hide WF, Times, HeldByMain, HeldByTask;
    match e
    case Read(id, segment) => TaskHolds(s.senders, id, Sending(segment), m);
    case ReadEnd(id) => TaskHolds(s.senders, id, Ending, m);
    case SendData(id) =>
      SentGrows(s, Data(id, s.senders[id].segment), m);
      TaskHolds(s.senders, id, Reading, m);
    case SendEnd(id) =>
      SentGrows(s, Ended(id), m);
      TaskHolds(s.senders, id, Done, m);
    case Reply(v) => SentGrows(s, Other(v), m);
  }

  /** The message that a task waits to send. */
  function InHandOf(id: u32, sender: Sender): Option<Msg> {
    match sender
    case Sending(segment) => Some(Data(id, segment))
    case Ending => Some(Ended(id))
    case _ => None
  }

  /** A task that changes holds its own message and no other. */
  lemma TaskHolds(senders: map<u32, Sender>, id: u32, sender: Sender, m: Msg)
    requires id in senders
    ensures HeldByTask(senders[id := sender], m) + (if InHandOf(id, senders[id]) == Some(m) then 1 else 0)
         == HeldByTask(senders, m) + (if InHandOf(id, sender) == Some(m) then 1 else 0)
  {
  }

  lemma TransportConserves(s: Sys, e: Event, m: Msg)
    requires WF(s) && Enabled(s, e) && IsTransportStep(e)
    ensures Present(NextTransport(s, e), m) == Present(s, m) + Brings(e, m)
  {
    hide WF, Bytes1, Times, HeldByTask;
    if e.Notify? {
      FlightGrows(s, Other(e.v), m);
    } else if e.Transmit? {
      assert s.log + (s.flight + [s.chan[0]]) + s.chan[1..] == s.log + s.flight + s.chan;
    }
  }

  lemma OthersConserve(s: Sys, e: Event, m: Msg)
    requires Inv(s) && Enabled(s, e) && (IsPeerStep(e) || IsReceiverStep(e))
    ensures Present(Next(s, e), m) == Present(s, m) + Brings(e, m)
  {
    hide WF, Inv, Dispatch, Parse, Understand, Bytes1, Times;
    InvWF(s);
    OthersKeepSenders(s, e);
    if e.Decode? {
      DecodeMoves(s, e.answer);
      DecodeFrame(s, e.answer);
    }
  }

  lemma InvWF(s: Sys)
    requires Inv(s)
    ensures WF(s)
  {
  }

  lemma StepConserves(s: Sys, e: Event, m: Msg)
    requires Inv(s) && Enabled(s, e)
    ensures WF(s) && Present(Next(s, e), m) == Present(s, m) + Brings(e, m)
  {
    hide Inv, WF, Enabled, NextMain, NextTransport, NextPeer, NextReceiver, NextSender, Present, Brings;
    SpawnsAreNew(s);
    if IsMainStep(e) {
      MainConserves(s, e, m);
    } else if IsTransportStep(e) {
      TransportConserves(s, e, m);
    } else if IsSenderStep(e) {
      TaskConserves(s, e, m);
    } else {
      OthersConserve(s, e, m);
    }
  }

  lemma SpawnsAreNew(s: Sys)
    requires Inv(s)
    ensures WF(s) && (s.main.Spawning? ==> forall id :: id in s.main.left ==> id !in s.senders)
  {
  }

  lemma {:induction false} RunConserves(s: Sys, es: seq<Event>, m: Msg)
    requires Inv(s) && IsRun(s, es)
    ensures Present(Run(s, es), m) == Present(s, m) + TimesOffered(es, m)
    decreases |es|
  {
    hide WF, Inv, Next, Enabled, Present, Brings;
    if es != [] {
      StepConserves(s, es[0], m);
      StepKeepsInv(s, es[0]);
      RunConserves(Next(s, es[0]), es[1..], m);
    }
  }

  /**
   * No message is lost, made up or doubled: after every run and for every
   * message, the steps that brought it in are as many as its copies with a
   * task, in the channel, on the transport and among those dispatched.
   */
  lemma MessagesConserved(room: nat, es: seq<Event>, m: Msg)
    requires IsRun(Start(room), es)
    ensures TimesOffered(es, m) == Present(Run(Start(room), es), m)
  {
    StartInv(room);
    NothingPresent(room, m);
    hide Inv, WF, Next, Enabled, Present, TimesOffered, Run;
    RunConserves(Start(room), es, m);
  }

  lemma NothingPresent(room: nat, m: Msg)
    ensures Present(Start(room), m) == 0
  {
  }

  // ---- streams -------------------------------------------------------------------

  ghost predicate NamedBy(e: Event, id: u32) {
    e.Announce? && id in e.ids
  }

  ghost predicate Named(es: seq<Event>, id: u32) {
    exists i :: 0 <= i < |es| && NamedBy(es[i], id)
  }

  /** Named in an announcement, be it sent or not. */
  ghost predicate Known(s: Sys, id: u32) {
    id in s.announced || (s.main.Announcing? && id in s.main.ids)
  }

  /** The announced streams are those with a task and those whose task is to be spawned next. */
  ghost predicate Spawned(s: Sys) {
    forall id :: id in s.announced <==> id in s.senders || (s.main.Spawning? && id in s.main.left)
  }

  lemma MainNames(s: Sys, e: Event, id: u32)
    requires WF(s) && Enabled(s, e) && IsMainStep(e) && Spawned(s)
    ensures Known(NextMain(s, e), id) <==> Known(s, id) || NamedBy(e, id)
    ensures Spawned(NextMain(s, e))
  {
    hide WF;
  }

  lemma OthersName(s: Sys, e: Event, id: u32)
    requires WF(s) && Enabled(s, e) && !IsMainStep(e) && Spawned(s)
    ensures Known(Next(s, e), id) <==> Known(s, id)
    ensures Spawned(Next(s, e)) && !NamedBy(e, id)
  {
    hide WF, Enabled, Next;
    OthersKeepNames(s, e);
  }

  lemma OthersKeepNames(s: Sys, e: Event)
    requires WF(s) && Enabled(s, e) && !IsMainStep(e)
    ensures var r := Next(s, e);
            && r.announced == s.announced && r.senders.Keys == s.senders.Keys
            && (r.main == s.main || !(r.main.Announcing? || r.main.Spawning? || s.main.Announcing? || s.main.Spawning?))
  {
    hide WF, Enabled, NextSender, NextTransport, NextPeer, NextReceiver;
    if IsSenderStep(e) {
      TasksKeepNames(s, e);
    } else {
      RestKeepsNames(s, e);
    }
  }

  lemma TasksKeepNames(s: Sys, e: Event)
    requires WF(s) && Enabled(s, e) && IsSenderStep(e)
    ensures var r := NextSender(s, e);
            r.announced == s.announced && r.senders.Keys == s.senders.Keys && r.main == s.main
  {
    hide WF;
  }

  lemma RestKeepsNames(s: Sys, e: Event)
    requires WF(s) && Enabled(s, e) && !IsMainStep(e) && !IsSenderStep(e)
    ensures var r := Next(s, e);
            && r.announced == s.announced && r.senders == s.senders
            && (r.main == s.main || !(r.main.Announcing? || r.main.Spawning? || s.main.Announcing? || s.main.Spawning?))
  {
    hide WF, Dispatch, Parse, Understand, Bytes1;
    if e.Decode? { DecodeFrame(s, e.answer); }
  }

  lemma {:induction false} RunNames(s: Sys, es: seq<Event>, id: u32)
    requires IsRun(s, es) && Spawned(s)
    ensures Spawned(Run(s, es)) && (Known(Run(s, es), id) <==> Known(s, id) || Named(es, id))
    decreases |es|
  {
    hide WF, NextMain, NextTransport, NextPeer, NextReceiver, NextSender, Enabled, Known, Spawned, NamedBy, IsMainStep;
    if es != [] {
      if IsMainStep(es[0]) { MainNames(s, es[0], id); } else { OthersName(s, es[0], id); }
      RunNames(Next(s, es[0]), es[1..], id);
      NamedSplits(es, id);
    }
  }

  lemma NamedSplits(es: seq<Event>, id: u32)
    requires es != []
    ensures Named(es, id) <==> NamedBy(es[0], id) || Named(es[1..], id)
  {
    if Named(es[1..], id) {
      var i :| 0 <= i < |es[1..]| && NamedBy(es[1..][i], id);
      assert es[i + 1] == es[1..][i];
    }
    if Named(es, id) && !NamedBy(es[0], id) {
      var i :| 0 <= i < |es| && NamedBy(es[i], id);
      assert es[1..][i - 1] == es[i];
    }
  }

  /** After every run: every stream a call opened is announced, or is about to be, and each announced one gets its task. */
  lemma StreamsAnnounced(room: nat, es: seq<Event>, id: u32)
    requires IsRun(Start(room), es)
    ensures var s := Run(Start(room), es);
            && (Named(es, id) <==> id in s.announced || (s.main.Announcing? && id in s.main.ids))
            && (id in s.announced <==> id in s.senders || (s.main.Spawning? && id in s.main.left))
  {
    RunNames(Start(room), es, id);
  }

  // ---- bytes -----------------------------------------------------------------------

  function Sum(lens: seq<nat>): nat {
    if lens == [] then 0 else lens[0] + Sum(lens[1..])
  }

  lemma {:induction false} SumSnoc(lens: seq<nat>, n: nat)
    ensures Sum(lens + [n]) == Sum(lens) + n
  {
    if lens == [] {
      assert [n][1..] == [];
    } else {
      assert (lens + [n])[0] == lens[0] && (lens + [n])[1..] == lens[1..] + [n];
      SumSnoc(lens[1..], n);
    }
  }

  /** What a step makes the receiver send back: only a message that is none of the streams' is answered. */
  ghost function BackBy(s: Sys, e: Event): nat {
    match e
    case Decode(Some(len)) =>
      (match Parse(s.buf)
       case Frame(v, _) => if Understand(v).Other? then len else 0
       case _ => 0)
    case PeerReply(len) => len
    case PeerNotify(len) => len
    case _ => 0
  }

  ghost function BackOffered(s: Sys, es: seq<Event>): nat
    requires IsRun(s, es)
    decreases |es|
  {
    if es == [] then 0 else BackBy(s, es[0]) + BackOffered(Next(s, es[0]), es[1..])
  }

  function PeerHolds(peer: Peer): nat {
    match peer
    case PeerReplying(len) => len
    case PeerWriting(left) => left
    case _ => 0
  }

  /** What the receiver has to send back and has not given to the transport. */
  ghost function BackWaiting(s: Sys): nat {
    PeerHolds(s.peer) + Sum(s.peerChan)
  }

  /** The bytes given to the transport and taken from it, in both directions. */
  function Accepted(es: seq<Event>): nat {
    if es == [] then 0 else (if es[0].Accept? then es[0].n else 0) + Accepted(es[1..])
  }

  function Received(es: seq<Event>): nat {
    if es == [] then 0 else (if es[0].Receive? then es[0].n else 0) + Received(es[1..])
  }

  function PeerAccepted(es: seq<Event>): nat {
    if es == [] then 0 else (if es[0].PeerAccept? then es[0].n else 0) + PeerAccepted(es[1..])
  }

  function Taken(es: seq<Event>): nat {
    if es == [] then 0 else (if es[0].StartBurst? then es[0].n else 0) + Taken(es[1..])
  }

  lemma DecodeBack(s: Sys, e: Event)
    requires WF(s) && Enabled(s, e) && e.Decode?
    ensures var r := Next(s, e);
            BackWaiting(r) == BackWaiting(s) + BackBy(s, e) && r.wire == s.wire && r.back == s.back
  {
    DecodeFrame(s, e.answer);
    hide Dispatch, Parse, Understand, WF;
  }

  lemma PeerBack(s: Sys, e: Event)
    requires WF(s) && Enabled(s, e) && IsPeerStep(e)
    ensures var r := Next(s, e);
            && BackWaiting(r) + (if e.PeerAccept? then e.n else 0) == BackWaiting(s) + BackBy(s, e)
            && r.back == s.back + (if e.PeerAccept? then e.n else 0) && r.wire == s.wire
  {
    hide WF;
    if e.PeerSend? { SumSnoc(s.peerChan, s.peer.len); }
    if e.PeerReply? { SumSnoc(s.peerChan, e.len); }
  }

  lemma OthersBack(s: Sys, e: Event)
    requires WF(s) && Enabled(s, e) && !IsPeerStep(e) && !e.Decode?
    ensures var r := Next(s, e);
            && BackWaiting(r) == BackWaiting(s) && BackBy(s, e) == 0
            && s.back == r.back + (if e.StartBurst? then e.n else 0)
            && |r.wire| + (if e.Receive? then e.n else 0) == |s.wire| + (if e.Accept? then e.n else 0)
  {
    hide WF, Bytes1, Sum;
  }

  lemma {:induction false} BytesOfRun(s: Sys, es: seq<Event>)
    requires IsRun(s, es)
    ensures var r := Run(s, es);
            && |r.wire| + Received(es) == |s.wire| + Accepted(es)
            && r.back + Taken(es) == s.back + PeerAccepted(es)
            && BackWaiting(r) + PeerAccepted(es) == BackWaiting(s) + BackOffered(s, es)
    decreases |es|
  {
    hide WF, Next, Enabled, BackWaiting, BackBy;
    if es != [] {
      if IsPeerStep(es[0]) { PeerBack(s, es[0]); }
      else if es[0].Decode? { DecodeBack(s, es[0]); }
      else { OthersBack(s, es[0]); }
      BytesOfRun(Next(s, es[0]), es[1..]);
    }
  }

  /**
   * After every run: the transport holds, each way, what it was given less what
   * was taken from it; and what it was given on the way back is what the
   * receiver had to send less what it still has.
   */
  lemma BytesConserved(room: nat, es: seq<Event>)
    requires IsRun(Start(room), es)
    ensures var s := Run(Start(room), es);
            && Accepted(es) == Received(es) + |s.wire|
            && PeerAccepted(es) == Taken(es) + s.back
            && BackOffered(Start(room), es) == PeerAccepted(es) + BackWaiting(s)
  {
    BytesOfRun(Start(room), es);
  }
}
