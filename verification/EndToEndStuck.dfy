/**
 * Each way of being stuck happens: for every size of the transport there are runs
 * that leave a stream, over at the sender, undelivered for ever.
 */
module EndToEndStuck {
  import opened Common
  import opened MessagePack
  import opened Framing
  import opened StreamMessages
  import opened EndToEnd
  import opened EndToEndProof
  import P = StreamProtocol

  /** Some run leads to the state. */
  ghost predicate Reached(room: nat, s: Sys) {
    exists es :: IsRun(Start(room), es) && Run(Start(room), es) == s
  }

  lemma {:induction false} RunSnoc(s: Sys, es: seq<Event>, e: Event)
    requires IsRun(s, es) && WF(Run(s, es)) && Enabled(Run(s, es), e)
    ensures IsRun(s, es + [e])
    ensures Run(s, es + [e]) == Next(Run(s, es), e)
    decreases |es|
  {
    hide WF, Enabled, Next;
    if es == [] {
      assert ([] + [e])[0] == e && ([] + [e])[1..] == [];
      NextIsWF(s, e);
    } else {
      assert (es + [e])[0] == es[0] && (es + [e])[1..] == es[1..] + [e];
      RunSnoc(Next(s, es[0]), es[1..], e);
    }
  }

  lemma NextIsWF(s: Sys, e: Event)
    requires WF(s) && Enabled(s, e)
    ensures WF(Next(s, e))
  {
    hide WF, Enabled;
  }

  lemma Take(room: nat, s: Sys, e: Event) returns (r: Sys)
    requires room > 0 && Reached(room, s) && WF(s) && Enabled(s, e)
    ensures r == Next(s, e) && WF(r) && Reached(room, r)
  {
    hide WF, Enabled, Next;
    NextIsWF(s, e);
    r := Next(s, e);
    var es :| IsRun(Start(room), es) && Run(Start(room), es) == s;
    RunSnoc(Start(room), es, e);
  }

  /** The parts of a state that matter for the runs below; the receiver has dispatched nothing of the stream. */
  ghost predicate At(s: Sys, room: nat, main: Main, sender: Option<Sender>, chan: seq<Msg>, peer: Peer, peerChan: nat)
  {
    && s.room == room && s.main == main && s.chan == chan && s.peer == peer && |s.peerChan| == peerChan
    && (0 in s.senders <==> sender.Some?) && (sender.Some? ==> s.senders[0] == sender.value)
    && Ended(0) !in s.log + s.flight
  }

  /** Nothing is under way either. */
  ghost predicate NothingUnderWay(s: Sys) {
    s.wire == [] && s.back == 0 && s.buf == []
  }

  const STARTED := Started(0, [0])
  const OVER := Ended(0)

  lemma NilIsSendable()
    ensures Sendable(Other(Nil)) && Bytes1(Other(Nil)) == [0xc0] && Other(Nil) != OVER
    ensures Parse([0xc0]) == Frame(Nil, 1) && Understand(Nil) == Other(Nil)
  {
    RoundTrip(Nil, []);
    assert Encode(Nil) + [] == Encode(Nil);
  }

  /** A request comes in and opens stream 0, which ends at once. */
  lemma OneStream(room: nat) returns (s: Sys)
    requires room > 0
    ensures Reached(room, s) && WF(s) && At(s, room, InBurst, Some(Done), [STARTED, OVER], PeerAtSelect, 0) && NothingUnderWay(s)
  {
    hide *;
    s := Incoming(room);
    s := Opened(room, s);
    s := Over(room, s);
  }

  lemma Opened(room: nat, s0: Sys) returns (s: Sys)
    requires room > 0 && Reached(room, s0) && WF(s0) && s0.announced == {}
    requires At(s0, room, InBurst, None, [], PeerAtSelect, 0) && NothingUnderWay(s0)
    ensures Reached(room, s) && WF(s) && At(s, room, InBurst, Some(Reading), [STARTED], PeerAtSelect, 0) && NothingUnderWay(s)
    ensures ReadOf(s, 0) == []
  {
    hide WF, Reached, Dispatch, Parse, Understand, Bytes1, P.WF;
    s := Take(room, s0, Announce(0, [0]));
    s := Take(room, s, SendStarted);
    s := SpawnZero(room, s);
    s := Take(room, s, Spawn);
  }

  lemma SpawnZero(room: nat, s0: Sys) returns (s: Sys)
    requires room > 0 && Reached(room, s0) && WF(s0)
    requires At(s0, room, Spawning([0]), None, [STARTED], PeerAtSelect, 0) && NothingUnderWay(s0)
    ensures Reached(room, s) && WF(s) && NothingUnderWay(s)
    ensures At(s, room, Spawning([]), Some(Reading), [STARTED], PeerAtSelect, 0)
    ensures ReadOf(s, 0) == []
  {
    hide WF, Reached, Dispatch, Parse, Understand, Bytes1, P.WF;
    s := Take(room, s0, Spawn);
    assert [0][1..] == [];
  }

  lemma Over(room: nat, s0: Sys) returns (s: Sys)
    requires room > 0 && Reached(room, s0) && WF(s0)
    requires At(s0, room, InBurst, Some(Reading), [STARTED], PeerAtSelect, 0) && NothingUnderWay(s0)
    ensures Reached(room, s) && WF(s) && At(s, room, InBurst, Some(Done), [STARTED, OVER], PeerAtSelect, 0) && NothingUnderWay(s)
  {
    hide WF, Reached, Dispatch, Parse, Understand, Bytes1, P.WF;
    s := Take(room, s0, ReadEnd(0));
    s := Take(room, s, SendEnd(0));
  }

  lemma AtStart(room: nat)
    requires room > 0
    ensures var s := Start(room);
            Reached(room, s) && WF(s) && At(s, room, AtSelect, None, [], PeerAtSelect, 0) && NothingUnderWay(s) && s.announced == {}
  {
    var s := Start(room);
    StartInv(room);
    assert IsRun(s, []) && Run(s, []) == s;
  }

  lemma Incoming(room: nat) returns (s: Sys)
    requires room > 0
    ensures Reached(room, s) && WF(s) && At(s, room, InBurst, None, [], PeerAtSelect, 0) && NothingUnderWay(s)
    ensures s.announced == {}
  {
    AtStart(room);
    hide At, WF, Reached, NothingUnderWay, Start;
    s := PeerAsks(room, Start(room));
    s := SenderReads(room, s);
  }

  lemma PeerAsks(room: nat, s0: Sys) returns (s: Sys)
    requires room > 0 && Reached(room, s0) && WF(s0) && s0.announced == {}
    requires At(s0, room, AtSelect, None, [], PeerAtSelect, 0) && NothingUnderWay(s0)
    ensures Reached(room, s) && WF(s) && s.announced == {} && s.wire == [] && s.back == 1 && s.buf == []
    ensures At(s, room, AtSelect, None, [], PeerAtSelect, 0)
  {
    hide WF, Reached, Dispatch, Parse, Understand, Bytes1, P.WF;
    s := Take(room, s0, PeerNotify(1));
    s := Take(room, s, PeerAccept(1));
  }

  lemma SenderReads(room: nat, s0: Sys) returns (s: Sys)
    requires room > 0 && Reached(room, s0) && WF(s0) && s0.announced == {} && s0.wire == [] && s0.back == 1 && s0.buf == []
    requires At(s0, room, AtSelect, None, [], PeerAtSelect, 0)
    ensures Reached(room, s) && WF(s) && s.announced == {}
    ensures At(s, room, InBurst, None, [], PeerAtSelect, 0) && NothingUnderWay(s)
  {
    hide WF, Reached, Dispatch, Parse, Understand, Bytes1, P.WF;
    s := Take(room, s0, StartBurst(1));
  }

  /** Replies of other tasks fill the channel. */
  lemma {:induction false} FillChannel(room: nat, s0: Sys, chan: seq<Msg>) returns (s: Sys, full: seq<Msg>)
    requires room > 0 && Reached(room, s0) && WF(s0) && At(s0, room, InBurst, Some(Done), chan, PeerAtSelect, 0)
    requires |chan| <= CHANNEL_CAPACITY
    ensures |full| == CHANNEL_CAPACITY
    ensures Reached(room, s) && WF(s) && At(s, room, InBurst, Some(Done), full, PeerAtSelect, 0)
    decreases CHANNEL_CAPACITY - |chan|
  {
    hide WF, Reached, Dispatch, Parse, Understand, Bytes1, P.WF;
    s, full := s0, chan;
    if |chan| < CHANNEL_CAPACITY {
      NilIsSendable();
      var s1 := Take(room, s0, Reply(Nil));
      s, full := FillChannel(room, s1, chan + [Other(Nil)]);
    }
  }

  /** The sender dispatches a synchronous request while the end waits in a full channel. */
  lemma SenderGetsStuck(room: nat) returns (s: Sys)
    requires room > 0
    ensures Reached(room, s) && SenderBlocked(s) && Stuck(s, 0)
    ensures 0 in s.senders && s.senders[0].Done?
  {
    hide WF, Dispatch, Parse, Understand, Bytes1, P.WF;
    var s1 := OneStream(room);
    var s2, full := FillChannel(room, s1, [STARTED, OVER]);
    NilIsSendable();
    s := Take(room, s2, Answer(Nil));
  }

  lemma {:induction false} FillPeerChannel(room: nat, s0: Sys, n: nat) returns (s: Sys)
    requires room > 0 && Reached(room, s0) && WF(s0) && n <= CHANNEL_CAPACITY
    requires At(s0, room, AtSelect, Some(Done), [STARTED, OVER], PeerDecoding, n) && s0.buf == [0xc0]
    ensures Reached(room, s) && WF(s) && s.buf == [0xc0]
    ensures At(s, room, AtSelect, Some(Done), [STARTED, OVER], PeerDecoding, CHANNEL_CAPACITY)
    decreases CHANNEL_CAPACITY - n
  {
    hide WF, Reached, Dispatch, Parse, Understand, Bytes1, P.WF;
    s := s0;
    if n < CHANNEL_CAPACITY {
      var s1 := Take(room, s0, PeerReply(1));
      s := FillPeerChannel(room, s1, n + 1);
    }
  }

  lemma AtHasRoom(s: Sys, room: nat, main: Main, sender: Option<Sender>, chan: seq<Msg>, peer: Peer, peerChan: nat)
    requires WF(s) && At(s, room, main, sender, chan, peer, peerChan)
    ensures |s.wire| <= room && s.room == room
  {
  }

  /** A notification begins to be written; with room left, it is in the transport. */
  lemma WriteNil(room: nat, s0: Sys) returns (s: Sys)
    requires room > 0 && Reached(room, s0) && WF(s0)
    requires At(s0, room, AtSelect, Some(Done), [STARTED, OVER], PeerAtSelect, 0)
    ensures Reached(room, s) && WF(s) && s.wire == s0.wire && s.back == s0.back && s.buf == s0.buf
    ensures At(s, room, Writing([0xc0]), Some(Done), [STARTED, OVER], PeerAtSelect, 0)
  {
    NilIsSendable();
    hide WF, Reached, Dispatch, Parse, Understand, Bytes1, P.WF;
    s := Take(room, s0, Notify(Nil));
    assert s.log + s.flight == (s0.log + s0.flight) + [Other(Nil)];
  }

  lemma PutNil(room: nat, s0: Sys) returns (s: Sys)
    requires room > 0 && Reached(room, s0) && WF(s0) && |s0.wire| < room
    requires At(s0, room, Writing([0xc0]), Some(Done), [STARTED, OVER], PeerAtSelect, 0)
    ensures Reached(room, s) && WF(s) && s.wire == s0.wire + [0xc0] && s.back == s0.back && s.buf == s0.buf
    ensures At(s, room, AtSelect, Some(Done), [STARTED, OVER], PeerAtSelect, 0)
  {
    hide WF, Reached, Dispatch, Parse, Understand, Bytes1, P.WF;
    s := Take(room, s0, Accept(1));
    assert [0xc0][..1] == [0xc0];
  }

  lemma LeaveBurst(room: nat) returns (s: Sys)
    requires room > 0
    ensures Reached(room, s) && WF(s) && NothingUnderWay(s)
    ensures At(s, room, AtSelect, Some(Done), [STARTED, OVER], PeerAtSelect, 0)
  {
    hide WF, Reached, Dispatch, Parse, Understand, Bytes1, P.WF;
    s := OneStream(room);
    s := Take(room, s, EndBurst);
  }

  /** The receiver has to answer while its own channel is full. */
  lemma ReceiverGetsStuck(room: nat) returns (s: Sys)
    requires room > 0
    ensures Reached(room, s) && ReceiverBlocked(s) && Stuck(s, 0)
    ensures 0 in s.senders && s.senders[0].Done?
  {
    hide At, WF, Reached, ReceiverBlocked, Stuck;
    s := LeaveBurst(room);
    s := WriteNil(room, s);
    s := PutNil(room, s);
    s := ReadNil(room, s);
    s := FillPeerChannel(room, s, 0);
    s := AnswerNil(room, s);
  }

  lemma ReadNil(room: nat, s0: Sys) returns (s: Sys)
    requires room > 0 && Reached(room, s0) && WF(s0) && s0.wire == [0xc0] && s0.buf == []
    requires At(s0, room, AtSelect, Some(Done), [STARTED, OVER], PeerAtSelect, 0)
    ensures Reached(room, s) && WF(s) && s.buf == [0xc0]
    ensures At(s, room, AtSelect, Some(Done), [STARTED, OVER], PeerDecoding, 0)
  {
    hide WF, Reached, Dispatch, Parse, Understand, Bytes1, P.WF;
    s := Take(room, s0, Receive(1));
    assert [] + [0xc0][..1] == [0xc0];
  }

  lemma AnswerNil(room: nat, s0: Sys) returns (s: Sys)
    requires room > 0 && Reached(room, s0) && WF(s0) && s0.buf == [0xc0]
    requires At(s0, room, AtSelect, Some(Done), [STARTED, OVER], PeerDecoding, CHANNEL_CAPACITY)
    ensures Reached(room, s) && ReceiverBlocked(s) && Stuck(s, 0)
    ensures 0 in s.senders && s.senders[0].Done?
  {
    assert Enabled(s0, Decode(Some(1)));
    NilIsSendable();
    DecodedNil(s0);
    hide WF, Reached, Next, Dispatch, Parse, Understand, Sendable, Bytes1;
    s := Take(room, s0, Decode(Some(1)));
  }

  lemma DecodedNil(s0: Sys)
    requires WF(s0) && s0.peer.PeerDecoding? && s0.buf == [0xc0] && Enabled(s0, Decode(Some(1)))
    ensures var s := Next(s0, Decode(Some(1)));
            && s.log == s0.log + [Other(Nil)] && s.flight == (if s0.flight == [] then [] else s0.flight[1..])
            && s.peer == PeerReplying(1) && s.peerChan == s0.peerChan && s.senders == s0.senders
  {
    NilIsSendable();
    var s1 := s0.(buf := s0.buf[1..], flight := if s0.flight == [] then [] else s0.flight[1..]);
    hide Parse, Understand, P.WF;
    DispatchFrame(s1, Other(Nil));
  }

  lemma {:induction false} FillTransport(room: nat, s0: Sys) returns (s: Sys)
    requires room > 0 && Reached(room, s0) && WF(s0)
    requires At(s0, room, AtSelect, Some(Done), [STARTED, OVER], PeerAtSelect, 0) && s0.back == 0
    ensures Reached(room, s) && WF(s) && |s.wire| == room && s.back == 0
    ensures At(s, room, AtSelect, Some(Done), [STARTED, OVER], PeerAtSelect, 0)
    decreases room - |s0.wire|
  {
    hide At, WF, Reached;
    AtHasRoom(s0, room, AtSelect, Some(Done), [STARTED, OVER], PeerAtSelect, 0);
    s := s0;
    if |s0.wire| < room {
      s := WriteNil(room, s);
      s := PutNil(room, s);
      s := FillTransport(room, s);
    }
  }

  /** Both peers write more than the transport takes, and neither reads. */
  lemma BothGetStuck(room: nat) returns (s: Sys)
    requires room > 0
    ensures Reached(room, s) && BothWriting(s) && Stuck(s, 0)
    ensures 0 in s.senders && s.senders[0].Done?
  {
    hide At, WF, Reached, BothWriting, Stuck;
    s := LeaveBurst(room);
    s := FillTransport(room, s);
    s := WriteNil(room, s);
    s := PeerFills(room, s);
  }

  lemma PeerFills(room: nat, s0: Sys) returns (s: Sys)
    requires room > 0 && Reached(room, s0) && WF(s0) && |s0.wire| == room && s0.back == 0
    requires At(s0, room, Writing([0xc0]), Some(Done), [STARTED, OVER], PeerAtSelect, 0)
    ensures Reached(room, s) && BothWriting(s) && Stuck(s, 0)
    ensures 0 in s.senders && s.senders[0].Done?
  {
    hide WF, Reached, Dispatch, Parse, Understand, Bytes1, P.WF;
    s := Take(room, s0, PeerNotify(room + 1));
    s := Take(room, s, PeerAccept(room));
  }

  /**
   * For every size of the transport and each of the three ways to be blocked there
   * is a run after which a stream that is over at the sender is never delivered.
   */
  lemma StreamsGetStuck(room: nat)
    requires room > 0
    ensures exists es :: LosesStream(room, es) && SenderBlocked(Run(Start(room), es))
    ensures exists es :: LosesStream(room, es) && ReceiverBlocked(Run(Start(room), es))
    ensures exists es :: LosesStream(room, es) && BothWriting(Run(Start(room), es))
  {
    hide *;
    var a := SenderGetsStuck(room);
    var e := RunTo(room, a);
    Lost(room, e);
    var b := ReceiverGetsStuck(room);
    var f := RunTo(room, b);
    Lost(room, f);
    var c := BothGetStuck(room);
    var g := RunTo(room, c);
    Lost(room, g);
  }

  /** The stream is over at the sender and is delivered in no continuation. */
  ghost predicate LosesStream(room: nat, es: seq<Event>) {
    && IsRun(Start(room), es)
    && var s := Run(Start(room), es);
    && ReadEnd(0) in es
    && forall more, read :: IsRun(s, more) ==> !DeliveredAt(Run(s, more), 0, read)
  }

  lemma RunTo(room: nat, s: Sys) returns (es: seq<Event>)
    requires Reached(room, s)
    ensures IsRun(Start(room), es) && Run(Start(room), es) == s
  {
    es :| IsRun(Start(room), es) && Run(Start(room), es) == s;
  }

  lemma Lost(room: nat, es: seq<Event>)
    requires room > 0 && IsRun(Start(room), es)
    requires var s := Run(Start(room), es); Stuck(s, 0) && 0 in s.senders && s.senders[0].Done?
    ensures LosesStream(room, es)
  {
    hide Stuck, DeliveredAt, WF, Inv;
    var s := Run(Start(room), es);
    Reachable(room, es);
    ReadsAreEvents(room, es, 0);
    forall more, read | IsRun(s, more) ensures !DeliveredAt(Run(s, more), 0, read) {
      StuckForever(s, more, 0);
    }
  }
}
