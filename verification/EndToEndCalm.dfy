/**
 * The other side of EndToEndStuck: once the announcements are made, and as long
 * as nothing competes with the streams, no stream gets stuck.
 */
module EndToEndCalm {
  import opened Common
  import opened MessagePack
  import opened Framing
  import opened StreamMessages
  import opened EndToEnd
  import opened EndToEndProof
  import opened EndToEndRest
  import Stuck = EndToEndStuck
  import P = StreamProtocol

  ghost predicate OnlyStreams(ms: seq<Msg>) {
    forall m :: m in ms ==> !m.Other?
  }

  /** Nothing goes back, only stream messages are on their way, and the sender's select task has nothing to send. */
  ghost predicate Calm(s: Sys) {
    && !s.main.Announcing? && !s.main.Replying?
    && s.back == 0 && s.peerChan == [] && (s.peer.PeerAtSelect? || s.peer.PeerDecoding?)
    && OnlyStreams(s.flight) && OnlyStreams(s.chan)
  }

  /** Streams may go on being read and end; nothing else comes in from outside. */
  predicate Continues(e: Event) {
    Quiet(e) || e.Read? || e.ReadEnd?
  }

  ghost predicate AllContinue(es: seq<Event>) {
    forall i :: 0 <= i < |es| ==> Continues(es[i])
  }

  lemma CalmDecode(s: Sys, answer: Option<nat>)
    requires Inv(s) && Calm(s) && Enabled(s, Decode(answer))
    ensures Calm(NextReceiver(s, Decode(answer)))
  {
    WireParses(s.buf, s.wire + Pending(s.main), s.flight);
    DecodeFrame(s, answer);
    if Parse(s.buf).Frame? {
      var m := s.flight[0];
      DispatchFrame(s.(buf := s.buf[Parse(s.buf).len..], flight := s.flight[1..]), m);
    }
    hide WF, Inv, Dispatch, Parse, Understand, Bytes1, Wire;
  }

  lemma CalmOthers(s: Sys, e: Event)
    requires WF(s) && Calm(s) && Enabled(s, e) && Continues(e) && !e.Decode?
    ensures Calm(Next(s, e))
  {
    hide WF, Bytes1, P.Enabled, P.Next, P.NextRemove;
  }

  lemma CalmStep(s: Sys, e: Event)
    requires Inv(s) && Calm(s) && Enabled(s, e) && Continues(e)
    ensures Calm(Next(s, e))
  {
    InvWF(s);
    hide Inv, WF, Calm, Enabled, NextReceiver;
    if e.Decode? { CalmDecode(s, e.answer); } else { CalmOthers(s, e); }
  }

  lemma {:induction false} CalmRun(s: Sys, es: seq<Event>)
    requires Inv(s) && Calm(s) && IsRun(s, es) && AllContinue(es)
    ensures Calm(Run(s, es)) && Inv(Run(s, es))
    decreases |es|
  {
    if es != [] {
      assert Continues(es[0]);
      CalmStep(s, es[0]);
      StepKeepsInv(s, es[0]);
      assert AllContinue(es[1..]) by {
        forall i | 0 <= i < |es[1..]| ensures Continues(es[1..][i]) { assert es[1..][i] == es[i + 1]; }
      }
      hide Inv, WF, Calm, Enabled, Next, Continues, AllContinue;
      CalmRun(Next(s, es[0]), es[1..]);
    }
  }

  lemma {:induction false} SplitRun(s: Sys, a: seq<Event>, b: seq<Event>)
    requires IsRun(s, a + b)
    ensures IsRun(s, a) && IsRun(Run(s, a), b) && Run(s, a + b) == Run(Run(s, a), b)
    decreases |a|
  {
    hide WF, Enabled, Next;
    if a == [] {
      assert a + b == b;
    } else {
      assert (a + b)[0] == a[0] && (a + b)[1..] == a[1..] + b;
      SplitRun(Next(s, a[0]), a[1..], b);
    }
  }

  lemma CalmIsFree(s: Sys, id: u32)
    requires Calm(s) && WF(s)
    ensures !EndToEndProof.Stuck(s, id)
  {
  }

  /**
   * Once a run has come to a point at which nothing goes back and only stream
   * messages are on their way, and whatever streams are read and ended from
   * there on, in any interleaving: at rest every stream that has ended, before
   * or after, is delivered.
   */
  lemma CalmDelivers(room: nat, es: seq<Event>, more: seq<Event>, id: u32)
    requires IsRun(Start(room), es + more) && IsRun(Start(room), es)
    requires Calm(Run(Start(room), es)) && AllContinue(more)
    requires AtRest(Run(Start(room), es + more)) && ReadEnd(id) in es + more
    ensures DeliveredAt(Run(Start(room), es + more), id, SegmentsRead(es + more, id))
  {
    SplitRun(Start(room), es, more);
    Reachable(room, es);
    CalmRun(Run(Start(room), es), more);
    var s := Run(Start(room), es + more);
    InvWF(s);
    CalmIsFree(s, id);
    DeliversEverything(room, es + more, id);
  }

  lemma NothingInFlight(s: Sys)
    requires Inv(s) && Stuck.NothingUnderWay(s) && Pending(s.main) == []
    ensures s.flight == []
  {
    WireParses(s.buf, s.wire + Pending(s.main), s.flight);
    assert s.buf == [] && s.wire + Pending(s.main) == [];
  }

  /** Stream 0 alone: the state of its task, what it has read, and the channel; all else is at rest. */
  ghost predicate Alone(s: Sys, sender: Sender, read: seq<Bytes>, chan: seq<Msg>) {
    && s.main.InBurst? && s.chan == chan && s.flight == []
    && s.peer.PeerAtSelect? && s.peerChan == [] && s.back == 0
    && 0 in s.senders && s.senders[0] == sender && 0 in s.read && s.read[0] == read
  }

  lemma ReadOne(room: nat, s0: Sys, segment: Bytes) returns (s: Sys)
    requires room > 0 && 0 < |segment| <= 4096 && Stuck.Reached(room, s0) && WF(s0)
    requires Alone(s0, Reading, [], [Stuck.STARTED])
    ensures Stuck.Reached(room, s) && WF(s) && Alone(s, Sending(segment), [segment], [Stuck.STARTED])
  {
    hide WF, Stuck.Reached;
    s := Stuck.Take(room, s0, Read(0, segment));
  }

  lemma SendOne(room: nat, s0: Sys, segment: Bytes) returns (s: Sys)
    requires room > 0 && Stuck.Reached(room, s0) && WF(s0)
    requires Alone(s0, Sending(segment), [segment], [Stuck.STARTED])
    ensures Stuck.Reached(room, s) && WF(s) && Alone(s, Reading, [segment], [Stuck.STARTED, Data(0, segment)])
  {
    hide WF, Stuck.Reached;
    s := Stuck.Take(room, s0, SendData(0));
  }

  lemma EndOne(room: nat, s0: Sys, segment: Bytes) returns (s: Sys)
    requires room > 0 && Stuck.Reached(room, s0) && WF(s0)
    requires Alone(s0, Reading, [segment], [Stuck.STARTED, Data(0, segment)])
    ensures Stuck.Reached(room, s) && WF(s) && Alone(s, Ending, [segment], [Stuck.STARTED, Data(0, segment)])
  {
    hide WF, Stuck.Reached;
    s := Stuck.Take(room, s0, ReadEnd(0));
  }

  /** One segment is read from stream 0, and the stream ends. */
  lemma OneSegment(room: nat, s0: Sys, segment: Bytes) returns (s: Sys)
    requires room > 0 && 0 < |segment| <= 4096 && Stuck.Reached(room, s0) && WF(s0)
    requires Alone(s0, Reading, [], [Stuck.STARTED])
    ensures Stuck.Reached(room, s) && WF(s) && Calm(s)
    ensures ReadOf(s, 0) == [segment] && Over(s, 0)
  {
    hide WF, Stuck.Reached;
    s := ReadOne(room, s0, segment);
    s := SendOne(room, s, segment);
    s := EndOne(room, s, segment);
  }

  lemma {:induction false} JoinRuns(s: Sys, a: seq<Event>, b: seq<Event>)
    requires IsRun(s, a) && IsRun(Run(s, a), b)
    ensures IsRun(s, a + b) && Run(s, a + b) == Run(Run(s, a), b)
    decreases |a|
  {
    hide WF, Enabled, Next;
    if a == [] {
      assert a + b == b;
    } else {
      assert (a + b)[0] == a[0] && (a + b)[1..] == a[1..] + b;
      JoinRuns(Next(s, a[0]), a[1..], b);
    }
  }

  ghost predicate Delivers(room: nat, es: seq<Event>, segment: Bytes) {
    && IsRun(Start(room), es) && AtRest(Run(Start(room), es))
    && SegmentsRead(es, 0) == [segment] && DeliveredAt(Run(Start(room), es), 0, [segment])
  }

  lemma {:induction false} QuietReadsNothing(es: seq<Event>, id: u32)
    requires AllQuiet(es)
    ensures SegmentsRead(es, id) == [] && ReadEnd(id) !in es && AllContinue(es)
  {
    if es != [] {
      assert Quiet(es[0]);
      assert AllQuiet(es[1..]) by {
        forall i | 0 <= i < |es[1..]| ensures Quiet(es[1..][i]) { assert es[1..][i] == es[i + 1]; }
      }
      QuietReadsNothing(es[1..], id);
      forall i | 0 <= i < |es| ensures Continues(es[i]) && es[i] != ReadEnd(id) {
        assert Quiet(es[i]);
      }
    }
  }

  /** And streams do get delivered: for every transport and every segment there is a run that delivers just that. */
  lemma StreamsGetDelivered(room: nat, segment: Bytes)
    requires room > 0 && 0 < |segment| <= 4096
    ensures exists es :: Delivers(room, es, segment)
  {
    hide *;
    var s0 := Stuck.Incoming(room);
    s0 := Stuck.Opened(room, s0);
    ReachedCalm(room, s0);
    var s := OneSegment(room, s0, segment);
    var es := Stuck.RunTo(room, s);
    DeliversFrom(room, es, segment);
  }

  lemma ReachedCalm(room: nat, s: Sys)
    requires room > 0 && Stuck.Reached(room, s) && Stuck.NothingUnderWay(s)
    requires Stuck.At(s, room, InBurst, Some(Reading), [Stuck.STARTED], PeerAtSelect, 0) && ReadOf(s, 0) == []
    ensures Alone(s, Reading, [], [Stuck.STARTED])
  {
    var es := Stuck.RunTo(room, s);
    Reachable(room, es);
    InvWF(s);
    NothingInFlight(s);
  }

  lemma DeliversFrom(room: nat, es: seq<Event>, segment: Bytes)
    requires room > 0 && IsRun(Start(room), es) && Calm(Run(Start(room), es))
    requires var s := Run(Start(room), es); ReadOf(s, 0) == [segment] && Over(s, 0)
    ensures exists es :: Delivers(room, es, segment)
  {
    hide *;
    var s := Run(Start(room), es);
    Reachable(room, es);
    var more := ComesToRest(s);
    QuietReadsNothing(more, 0);
    JoinRuns(Start(room), es, more);
    ReadsAreEvents(room, es, 0);
    SegmentsConcat(es, more, 0);
    assert ReadEnd(0) in es + more;
    CalmDelivers(room, es, more, 0);
    Witness(room, es + more, segment);
  }

  lemma Witness(room: nat, es: seq<Event>, segment: Bytes)
    requires IsRun(Start(room), es) && AtRest(Run(Start(room), es))
    requires SegmentsRead(es, 0) == [segment] && DeliveredAt(Run(Start(room), es), 0, [segment])
    ensures exists es :: Delivers(room, es, segment)
  {
    hide IsRun, Run, AtRest, SegmentsRead, DeliveredAt;
    assert Delivers(room, es, segment);
  }

  lemma {:induction false} SegmentsConcat(a: seq<Event>, b: seq<Event>, id: u32)
    ensures SegmentsRead(a + b, id) == SegmentsRead(a, id) + SegmentsRead(b, id)
  {
    if a == [] {
      assert a + b == b;
    } else {
      assert (a + b)[0] == a[0] && (a + b)[1..] == a[1..] + b;
      SegmentsConcat(a[1..], b, id);
    }
  }
}
