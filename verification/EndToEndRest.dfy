/**
 * The traffic comes to rest: every quiet step, that is every step that brings
 * in nothing from outside, makes a measure smaller, so that there is no
 * endless run of them.
 */
module EndToEndRest {
  import opened Common
  import opened MessagePack
  import opened Framing
  import opened StreamMessages
  import opened EndToEnd
  import opened EndToEndProof
  import P = StreamProtocol

  // ---- the stream table ------------------------------------------------------------

  /** How many steps the tasks of the first `n` streams have left. */
  ghost function TableWork(t: P.State, n: nat): nat
    requires n <= |t.streams|
  {
    if n == 0 then 0 else TableWork(t, n - 1) + P.StepsLeft(t, n - 1)
  }

  /** The sums differ as their only different parts do. */
  lemma {:induction false} TableWorkDiffers(t: P.State, u: P.State, w: P.Half, n: nat)
    requires n <= |t.streams| == |u.streams| && w < |t.streams|
    requires forall h :: 0 <= h < |t.streams| && h != w ==> P.StepsLeft(u, h) == P.StepsLeft(t, h)
    ensures TableWork(u, n) - TableWork(t, n) == if w < n then P.StepsLeft(u, w) - P.StepsLeft(t, w) else 0
  {
    hide P.StepsLeft;
    if n > 0 {
      TableWorkDiffers(t, u, w, n - 1);
    }
  }

  ghost function AllWork(t: P.State): nat {
    TableWork(t, |t.streams|)
  }

  lemma TaskShrinks(t: P.State, e: P.Event)
    requires P.Inv(t) && P.Enabled(t, e) && (e.Lock? || e.WriteItem? || e.Shutdown?)
    ensures AllWork(P.Next(t, e)) < AllWork(t)
  {
    var u, w := P.Next(t, e), t.tasks[e.t].half;
    TaskKeepsAccepted(t, e);
    assert P.StreamOk(t, w);
    P.OwnTask(t, w, e);
    forall h | 0 <= h < |t.streams| && h != w ensures P.StepsLeft(u, h) == P.StepsLeft(t, h) {
      assert P.StreamOk(t, h);
      P.OtherTask(t, h, e);
      SameSteps(t, u, h);
    }
    TableWorkDiffers(t, u, w, |t.streams|);
  }

  lemma SameSteps(t: P.State, u: P.State, h: P.Half)
    requires h < |t.streams| && h < |u.streams| && P.SameFor(t, u, h)
    ensures P.StepsLeft(u, h) == P.StepsLeft(t, h)
  {
  }

  lemma RemovalAddsOne(t: P.State, id: u32)
    requires P.Inv(t)
    ensures AllWork(P.NextRemove(t, id)) <= AllWork(t) + 1
  {
    var u := P.NextRemove(t, id);
    if id in t.recs {
      var w := t.recs[id].home;
      assert P.RecOk(t, id) && P.StreamOk(t, w);
      forall h | 0 <= h < |t.streams| && h != w ensures P.StepsLeft(u, h) == P.StepsLeft(t, h) {
        assert P.StreamOk(t, h);
        SameSteps(t, u, h);
      }
      RemovedSteps(t, id);
      TableWorkDiffers(t, u, w, |t.streams|);
    }
  }

  lemma RemovedSteps(t: P.State, id: u32)
    requires P.WF(t) && id in t.recs && P.RecOk(t, id) && P.StreamOk(t, t.recs[id].home)
    ensures P.StepsLeft(P.NextRemove(t, id), t.recs[id].home) <= P.StepsLeft(t, t.recs[id].home) + 1
  {
  }

  // ---- the measure --------------------------------------------------------------------

  /** The sender tasks that are about to send a segment or the end of their stream. */
  ghost function AboutToSend(s: Sys): set<u32> {
    set id | id in s.senders && (s.senders[id].Sending? || s.senders[id].Ending?)
  }

  /** Messages that are on their way to the receiver or about to be sent. */
  ghost function Undispatched(s: Sys): nat {
    |s.flight| + |s.chan| + |AboutToSend(s)| + (if s.main.Announcing? || s.main.Replying? then 1 else 0)
  }

  /** A channel message is written, read and decoded. */
  ghost function MsgWork(m: Msg): nat
    requires Sendable(m)
  {
    1 + 4 * |Bytes1(m)|
  }

  ghost function ChanWork(chan: seq<Msg>): nat
    requires forall m :: m in chan ==> Sendable(m)
  {
    if chan == [] then 0 else MsgWork(chan[0]) + ChanWork(chan[1..])
  }

  lemma {:induction false} ChanWorkSnoc(chan: seq<Msg>, m: Msg)
    requires Sendable(m) && forall k :: k in chan ==> Sendable(k)
    ensures ChanWork(chan + [m]) == ChanWork(chan) + MsgWork(m)
  {
    hide MsgWork;
    if chan == [] {
      assert [m][1..] == [];
    } else {
      assert (chan + [m])[0] == chan[0] && (chan + [m])[1..] == chan[1..] + [m];
      ChanWorkSnoc(chan[1..], m);
    }
  }

  ghost function PeerChanWork(chan: seq<nat>): nat {
    if chan == [] then 0 else 1 + 4 * chan[0] + PeerChanWork(chan[1..])
  }

  lemma {:induction false} PeerChanWorkSnoc(chan: seq<nat>, len: nat)
    ensures PeerChanWork(chan + [len]) == PeerChanWork(chan) + 1 + 4 * len
  {
    if chan == [] {
      assert [len][1..] == [];
    } else {
      assert (chan + [len])[0] == chan[0] && (chan + [len])[1..] == chan[1..] + [len];
      PeerChanWorkSnoc(chan[1..], len);
    }
  }

  ghost function MainWork(main: Main): nat
    requires MainWF(main)
  {
    match main
    case AtSelect => 0
    case InBurst => 1
    case Replying(v) => 2 + MsgWork(Other(v))
    case Announcing(req, ids) => 3 + |ids| + MsgWork(Started(req, ids))
    case Spawning(left) => 2 + |left|
    case Writing(rest) => 4 * |rest|
  }

  ghost function PeerWork(peer: Peer): nat {
    match peer
    case PeerAtSelect => 0
    case PeerDecoding => 1
    case PeerReplying(len) => 3 + 4 * len
    case PeerWriting(left) => 4 * left
  }

  /** What is to be done until the next message is dispatched. */
  ghost function Work(s: Sys): nat
    requires WF(s)
  {
    MainWork(s.main) + ChanWork(s.chan) + 3 * |s.wire| + 2 * s.back
    + PeerWork(s.peer) + PeerChanWork(s.peerChan)
    + 2 * |s.removing| + AllWork(s.table)
  }

  ghost predicate Smaller(r: Sys, s: Sys)
    requires WF(r) && WF(s)
  {
    || Undispatched(r) < Undispatched(s)
    || (Undispatched(r) == Undispatched(s) && |AboutToSend(r)| < |AboutToSend(s)|)
    || (Undispatched(r) == Undispatched(s) && |AboutToSend(r)| == |AboutToSend(s)| && Work(r) < Work(s))
  }

  /** The select task makes no sender task ready to send. */
  lemma SpawnedAreReading(s: Sys, e: Event)
    requires WF(s) && Enabled(s, e) && IsMainStep(e)
    ensures AboutToSend(NextMain(s, e)) <= AboutToSend(s)
    ensures |AboutToSend(NextMain(s, e))| <= |AboutToSend(s)|
  {
    var r := NextMain(s, e);
    assert AboutToSend(r) <= AboutToSend(s);
    SubsetSize(AboutToSend(r), AboutToSend(s));
  }

  lemma SubsetSize(a: set<u32>, b: set<u32>)
    requires a <= b
    ensures |a| <= |b|
  {
    assert b == a + (b - a);
  }

  /** What a sender task has sent it is no longer about to send. */
  lemma SenderShrinks(s: Sys, e: Event)
    requires WF(s) && Enabled(s, e) && (e.SendData? || e.SendEnd?)
    ensures Smaller(NextSender(s, e), s)
  {
    var r := NextSender(s, e);
    hide Work, WF, Bytes1, Sendable;
    assert e.id in AboutToSend(s);
    assert AboutToSend(r) == AboutToSend(s) - {e.id};
    assert |AboutToSend(r)| == |AboutToSend(s)| - 1;
    assert r.main == s.main && r.flight == s.flight && |r.chan| == |s.chan| + 1;
  }

  lemma MainShrinks(s: Sys, e: Event)
    requires WF(s) && Enabled(s, e) && IsMainStep(e) && Quiet(e)
    ensures Smaller(NextMain(s, e), s)
  {
    hide MsgWork, ChanWork, PeerChanWork, AllWork, Bytes1, P.WF, AboutToSend;
    SpawnedAreReading(s, e);
    if e.SendAnswer? { ChanWorkSnoc(s.chan, Other(s.main.v)); }
    if e.SendStarted? { ChanWorkSnoc(s.chan, Started(s.main.req, s.main.ids)); }
  }

  lemma TransportShrinks(s: Sys, e: Event)
    requires WF(s) && Enabled(s, e) && IsTransportStep(e) && Quiet(e)
    ensures Smaller(NextTransport(s, e), s)
  {
    hide PeerChanWork, AllWork, P.WF;
    assert AboutToSend(NextTransport(s, e)) == AboutToSend(s);
    hide AboutToSend;
    if e.Transmit? { assert ChanWork(s.chan) == MsgWork(s.chan[0]) + ChanWork(s.chan[1..]); }
    hide ChanWork, Bytes1;
  }

  lemma PeerShrinks(s: Sys, e: Event)
    requires WF(s) && Enabled(s, e) && IsPeerStep(e) && Quiet(e)
    ensures Smaller(NextPeer(s, e), s)
  {
    assert AboutToSend(NextPeer(s, e)) == AboutToSend(s);
    hide ChanWork, AllWork, P.WF, MainWork, AboutToSend;
    if e.PeerSend? { PeerChanWorkSnoc(s.peerChan, s.peer.len); }
  }

  lemma ReceiverShrinks(s: Sys, e: Event)
    requires Inv(s) && Enabled(s, e) && IsReceiverStep(e)
    ensures Smaller(NextReceiver(s, e), s)
  {
    assert WF(s) && P.Inv(s.table);
    hide Inv, WF, P.Inv, Enabled, NextReceiver, Smaller;
    match e
    case Decode(answer) => DecodeShrinks(s, answer);
    case RunRemoval(id) => RemovalShrinks(s, id);
    case TableTask(t) => TableShrinks(s, t);
  }

  lemma RemovalShrinks(s: Sys, id: u32)
    requires WF(s) && P.Inv(s.table) && Enabled(s, RunRemoval(id))
    ensures Smaller(NextReceiver(s, RunRemoval(id)), s)
  {
    hide WF, P.Inv, P.NextRemove, AllWork, MainWork, ChanWork, PeerWork, PeerChanWork;
    assert AboutToSend(NextReceiver(s, RunRemoval(id))) == AboutToSend(s);
    RemovalAddsOne(s.table, id);
    assert |s.removing - multiset{id}| == |s.removing| - 1;
  }

  lemma TableShrinks(s: Sys, t: P.Event)
    requires WF(s) && P.Inv(s.table) && Enabled(s, TableTask(t))
    ensures Smaller(NextReceiver(s, TableTask(t)), s)
  {
    hide WF, P.Inv, P.Next, P.Enabled, AllWork, MainWork, ChanWork, PeerWork, PeerChanWork;
    assert AboutToSend(NextReceiver(s, TableTask(t))) == AboutToSend(s);
    TaskShrinks(s.table, t);
  }

  lemma DecodeShrinks(s: Sys, answer: Option<nat>)
    requires Inv(s) && Enabled(s, Decode(answer))
    ensures Smaller(NextReceiver(s, Decode(answer)), s)
  {
    WireParses(s.buf, s.wire + Pending(s.main), s.flight);
    if Parse(s.buf).Frame? {
      var m := Understand(Parse(s.buf).value);
      DispatchFrame(s.(buf := s.buf[Parse(s.buf).len..], flight := s.flight[1..]), m);
    }
    assert AboutToSend(NextReceiver(s, Decode(answer))) == AboutToSend(s);
  }

  /**
   * Every quiet step shrinks the number of messages to be dispatched, or else of
   * those that are still with a sender task, or else the work until then.
   */
  lemma QuietShrinks(s: Sys, e: Event)
    requires Inv(s) && Enabled(s, e) && Quiet(e)
    ensures Smaller(Next(s, e), s)
  {
    hide Inv, Smaller, Enabled, NextMain, NextTransport, NextPeer, NextReceiver, NextSender;
    InvWF(s);
    if IsMainStep(e) {
      MainShrinks(s, e);
    } else if IsTransportStep(e) {
      TransportShrinks(s, e);
    } else if IsPeerStep(e) {
      PeerShrinks(s, e);
    } else if IsReceiverStep(e) {
      ReceiverShrinks(s, e);
    } else {
      SenderShrinks(s, e);
    }
  }

  lemma InvWF(s: Sys)
    requires Inv(s)
    ensures WF(s)
  {
  }

  ghost predicate AllQuiet(es: seq<Event>) {
    forall i :: 0 <= i < |es| ==> Quiet(es[i])
  }

  /**
   * From every reachable state quiet steps lead to rest; by the measure they do
   * so in whatever order they are taken. DeliversEverything says what has been
   * delivered then.
   */
  lemma {:induction false} ComesToRest(s: Sys) returns (es: seq<Event>)
    requires Inv(s)
    ensures IsRun(s, es) && AllQuiet(es) && AtRest(Run(s, es))
    decreases Undispatched(s), |AboutToSend(s)|, Work(s)
  {
    InvWF(s);
    hide Inv, WF, Enabled, Next, Quiet, Undispatched, AboutToSend, Work;
    if AtRest(s) {
      es := [];
    } else {
      var e :| Quiet(e) && Enabled(s, e);
      QuietShrinks(s, e);
      StepKeepsInv(s, e);
      var rest := ComesToRest(Next(s, e));
      es := [e] + rest;
      assert es[1..] == rest;
    }
  }

  lemma SmallerTrans(a: Sys, b: Sys, c: Sys)
    requires WF(a) && WF(b) && WF(c) && Smaller(a, b) && Smaller(b, c)
    ensures Smaller(a, c)
  {
  }

  /** However quiet steps are taken, a run of them ends strictly lower than it starts. */
  lemma {:induction false} QuietRunShrinks(s: Sys, es: seq<Event>)
    requires Inv(s) && IsRun(s, es) && AllQuiet(es) && es != []
    ensures Inv(Run(s, es)) && Smaller(Run(s, es), s)
    decreases |es|
  {
    var s1, rest := Next(s, es[0]), es[1..];
    assert Quiet(es[0]);
    QuietShrinks(s, es[0]);
    StepKeepsInv(s, es[0]);
    assert AllQuiet(rest) by {
      forall i | 0 <= i < |rest| ensures Quiet(rest[i]) {
        assert rest[i] == es[i + 1];
      }
    }
    hide Inv, WF, Smaller, Enabled, Next, Quiet, AllQuiet;
    if rest != [] {
      QuietRunShrinks(s1, rest);
      InvWF(s);
      InvWF(s1);
      InvWF(Run(s1, rest));
      SmallerTrans(Run(s1, rest), s1, s);
    }
  }
}
