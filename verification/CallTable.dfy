/**
 * Outgoing calls: ids drawn from a wrapping 32-bit counter, the table of
 * pending callbacks, and the replies that fire them. Drawing the id, sending
 * the message and registering the callback are separate steps.
 */
module CallTable {
  import opened Common

  const IDS := 0x1_0000_0000

  /** How far a call has come; a callback is registered after the message has been sent. */
  datatype Phase = Drawn | Sent | Registered | Fired | NotSent | Overwritten

  /** `draw` is history: how many ids had been drawn before this one. */
  datatype Call = Call(id: u32, draw: nat, phase: Phase, fires: nat)

  datatype State = State(drawn: nat, counter: u32, table: map<u32, nat>, calls: seq<Call>)

  const Start := State(0, 0, map[], [])

  datatype Event =
    | Draw
    | DrawOther
    | Send(c: nat, ok: bool)
    | Register(c: nat)
    | Reply(id: u32)

  predicate Enabled(s: State, e: Event) {
    match e
    case Send(c, _) => c < |s.calls| && s.calls[c].phase.Drawn?
    case Register(c) => c < |s.calls| && s.calls[c].phase.Sent?
    case _ => true
  }

  /** The counter's `fetch_add` wraps around. */
  function Bump(s: State): State {
    s.(drawn := s.drawn + 1, counter := (s.counter + 1) % IDS)
  }

  function SetPhase(s: State, c: nat, phase: Phase): State
    requires c < |s.calls|
  {
    s.(calls := s.calls[c := s.calls[c].(phase := phase)])
  }

  /** Table entries name calls that exist. */
  predicate WF(s: State) {
    forall id :: id in s.table ==> s.table[id] < |s.calls|
  }

  function Next(s: State, e: Event): (r: State)
    requires WF(s) && Enabled(s, e)
    ensures WF(r)
  {
    match e
    case Draw => Bump(s).(calls := s.calls + [Call(s.counter, s.drawn, Drawn, 0)])
    case DrawOther => Bump(s)
    case Send(c, ok) => SetPhase(s, c, if ok then Sent else NotSent)
    case Register(c) =>
      var id := s.calls[c].id;
      var s1 := if id in s.table then SetPhase(s, s.table[id], Overwritten) else s;
      SetPhase(s1, c, Registered).(table := s.table[id := c])
    case Reply(id) =>
      if id !in s.table then s
      else
        var c := s.table[id];
        s.(table := s.table - {id}, calls := s.calls[c := s.calls[c].(phase := Fired, fires := s.calls[c].fires + 1)])
  }

  predicate IsRun(s: State, es: seq<Event>)
    decreases |es|
  {
    WF(s) && (es != [] ==> Enabled(s, es[0]) && IsRun(Next(s, es[0]), es[1..]))
  }

  function Run(s: State, es: seq<Event>): (r: State)
    requires IsRun(s, es)
    ensures WF(r)
    decreases |es|
  {
    if es == [] then s else Run(Next(s, es[0]), es[1..])
  }

  /** The n-th id drawn. */
  function IdOf(n: nat): u32 {
    n % IDS
  }

  /** Two draws give the same id exactly when they are a multiple of 2^32 apart. */
  lemma NoIdTwice(i: nat, j: nat)
    requires i < j
    ensures IdOf(i) == IdOf(j) <==> (j - i) % IDS == 0
    ensures j < IDS ==> IdOf(i) != IdOf(j)
  {
  }

  ghost predicate CallOk(s: State, c: nat)
    requires c < |s.calls|
  {
    var call := s.calls[c];
    && call.draw < s.drawn && call.id == IdOf(call.draw)
    && call.fires == (if call.phase.Fired? then 1 else 0)
    && (call.phase.Registered? <==> call.id in s.table && s.table[call.id] == c)
  }

  ghost predicate Inv(s: State) {
    && WF(s)
    && s.counter == IdOf(s.drawn)
    && (forall c :: 0 <= c < |s.calls| ==> CallOk(s, c))
    && (forall c, d :: 0 <= c < d < |s.calls| ==> s.calls[c].draw < s.calls[d].draw)
    && (forall id :: id in s.table ==> s.calls[s.table[id]].id == id && s.calls[s.table[id]].phase.Registered?)
  }

  lemma RegisterKeepsInv(s: State, c: nat)
    requires Inv(s) && Enabled(s, Register(c))
    ensures Inv(Next(s, Register(c)))
  {
    var r := Next(s, Register(c));
    assert CallOk(s, c);
    forall d | 0 <= d < |r.calls| ensures CallOk(r, d) && r.calls[d].draw == s.calls[d].draw {
      assert CallOk(s, d);
    }
  }

  lemma DrawsStayOrdered(s: State, e: Event)
    requires Inv(s) && Enabled(s, e)
    ensures var r := Next(s, e);
            forall c, d :: 0 <= c < d < |r.calls| ==> r.calls[c].draw < r.calls[d].draw
  {
    var r := Next(s, e);
    forall c, d | 0 <= c < d < |r.calls| ensures r.calls[c].draw < r.calls[d].draw {
      assert CallOk(s, c);
      assert s.calls[c].draw == r.calls[c].draw;
      if d < |s.calls| { assert s.calls[d].draw == r.calls[d].draw; }
    }
  }

  lemma CallKept(s: State, e: Event, c: nat)
    requires WF(s) && Enabled(s, e) && !e.Register? && c < |s.calls| && CallOk(s, c)
    requires e.Reply? && e.id in s.table ==> s.calls[s.table[e.id]].id == e.id && CallOk(s, s.table[e.id])
    ensures CallOk(Next(s, e), c)
  {
  }

  lemma StepKeepsInv(s: State, e: Event)
    requires Inv(s) && Enabled(s, e)
    ensures Inv(Next(s, e))
  {
    var r := Next(s, e);
    DrawsStayOrdered(s, e);
    if e.Register? {
      RegisterKeepsInv(s, e.c);
    } else {
      forall c | 0 <= c < |r.calls| ensures CallOk(r, c) {
        if c < |s.calls| {
          assert CallOk(s, c);
          CallKept(s, e, c);
        }
      }
    }
  }

  lemma {:induction false} RunKeepsInv(s: State, es: seq<Event>)
    requires Inv(s) && IsRun(s, es)
    ensures Inv(Run(s, es))
    decreases |es|
  {
    if es != [] {
      StepKeepsInv(s, es[0]);
      RunKeepsInv(Next(s, es[0]), es[1..]);
    }
  }

  /** Over every run, however ids wrap: a callback fires at most once. */
  lemma FiresAtMostOnce(es: seq<Event>, c: nat)
    requires IsRun(Start, es) && c < |Run(Start, es).calls|
    ensures Run(Start, es).calls[c].fires <= 1
  {
    RunKeepsInv(Start, es);
    assert CallOk(Run(Start, es), c);
  }

  // ---- what the events say ---------------------------------------------------------------

  function Draws(es: seq<Event>): nat {
    if es == [] then 0 else Draws(es[..|es| - 1]) + if es[|es| - 1].Draw? || es[|es| - 1].DrawOther? then 1 else 0
  }

  function CallsMade(es: seq<Event>): nat {
    if es == [] then 0 else CallsMade(es[..|es| - 1]) + if es[|es| - 1].Draw? then 1 else 0
  }

  /** How far call `c` has come, in terms of what has been done for it. */
  ghost predicate PhaseSaid(phase: Option<Phase>, es: seq<Event>, c: nat) {
    match phase
    case None => Send(c, true) !in es && Send(c, false) !in es && Register(c) !in es
    case Some(Drawn) => Send(c, true) !in es && Send(c, false) !in es && Register(c) !in es
    case Some(NotSent) => Send(c, true) !in es && Send(c, false) in es && Register(c) !in es
    case Some(Sent) => Send(c, true) in es && Send(c, false) !in es && Register(c) !in es
    case Some(_) => Send(c, true) in es && Send(c, false) !in es && Register(c) in es
  }

  function PhaseOf(s: State, c: nat): Option<Phase> {
    if c < |s.calls| then Some(s.calls[c].phase) else None
  }

  lemma RunLast(es: seq<Event>)
    requires IsRun(Start, es) && es != []
    ensures var before, e := es[..|es| - 1], es[|es| - 1];
            && IsRun(Start, before) && Enabled(Run(Start, before), e)
            && Run(Start, es) == Next(Run(Start, before), e) && es == before + [e]
  {
    var n := |es| - 1;
    assert es == es[..n] + es[n..] && es[n..] == [es[n]];
    SplitRun(Start, es[..n], es[n..]);
  }

  lemma {:induction false} SplitRun(s: State, a: seq<Event>, b: seq<Event>)
    requires IsRun(s, a + b)
    ensures IsRun(s, a) && IsRun(Run(s, a), b) && Run(s, a + b) == Run(Run(s, a), b)
    decreases |a|
  {
    if a == [] {
      assert a + b == b;
    } else {
      assert (a + b)[0] == a[0] && (a + b)[1..] == a[1..] + b;
      SplitRun(Next(s, a[0]), a[1..], b);
    }
  }

  lemma PhaseStep(s: State, es: seq<Event>, e: Event, c: nat)
    requires Inv(s) && Enabled(s, e) && PhaseSaid(PhaseOf(s, c), es, c)
    ensures PhaseSaid(PhaseOf(Next(s, e), c), es + [e], c)
  {
    var r := Next(s, e);
    forall x: Event ensures x in es + [e] <==> x in es || x == e {
    }
    if c < |s.calls| { assert CallOk(s, c); }
  }

  lemma {:induction false} PhaseFollowsEvents(es: seq<Event>, c: nat)
    requires IsRun(Start, es)
    ensures PhaseSaid(PhaseOf(Run(Start, es), c), es, c)
    ensures Run(Start, es).drawn == Draws(es) && |Run(Start, es).calls| == CallsMade(es)
  {
    if es != [] {
      RunLast(es);
      var before, e := es[..|es| - 1], es[|es| - 1];
      PhaseFollowsEvents(before, c);
      RunKeepsInv(Start, before);
      PhaseStep(Run(Start, before), before, e, c);
    }
  }

  /**
   * Over every run: a call's message was not sent exactly if sending it failed;
   * its callback can be registered exactly if sending it succeeded and it has not
   * been registered; and it is pending, has fired or has been overwritten
   * exactly if it has been. So no callback is registered, and none fires, for a
   * call whose message did not leave.
   */
  lemma RegisteredIfSent(es: seq<Event>, c: nat)
    requires IsRun(Start, es) && c < |Run(Start, es).calls|
    ensures var s := Run(Start, es); var phase := s.calls[c].phase;
            && (phase.NotSent? <==> Send(c, false) in es)
            && (Enabled(s, Register(c)) <==> Send(c, true) in es && Register(c) !in es)
            && (phase.Registered? || phase.Fired? || phase.Overwritten? <==> Register(c) in es)
            && (s.calls[c].fires > 0 ==> Register(c) in es && Send(c, true) in es && Send(c, false) !in es)
            && s.calls[c].id == s.calls[c].draw % 0x1_0000_0000
            && s.calls[c].draw < Draws(es) == s.drawn && c < CallsMade(es) == |s.calls|
  {
    PhaseFollowsEvents(es, c);
    RunKeepsInv(Start, es);
    assert CallOk(Run(Start, es), c);
  }

  /** Over every run, however ids wrap: a call is fired exactly by the reply with its id while it is registered. */
  lemma FiresOnOwnReply(es: seq<Event>, e: Event, c: nat)
    requires IsRun(Start, es) && c < |Run(Start, es).calls| && Enabled(Run(Start, es), e)
    ensures var s := Run(Start, es); var r := Next(s, e);
            r.calls[c].fires > s.calls[c].fires <==> e == Reply(s.calls[c].id) && s.calls[c].phase.Registered?
  {
    RunKeepsInv(Start, es);
    assert CallOk(Run(Start, es), c);
  }

  /** Registering call `c` meets the pending call `d` under the same id: their draws are a multiple of 2^32 apart. */
  predicate Collides(s: State, e: Event, d: nat) {
    && e.Register? && e.c < |s.calls| && d < |s.calls|
    && s.calls[d].phase.Registered?
    && (s.calls[e.c].draw as int - s.calls[d].draw as int) % IDS == 0
  }

  /** When exactly a step overwrites a call. */
  lemma OverwrittenByStep(s: State, e: Event, d: nat)
    requires Inv(s) && Enabled(s, e) && d < |s.calls|
    ensures d < |Next(s, e).calls|
    ensures Next(s, e).calls[d].phase.Overwritten? <==> s.calls[d].phase.Overwritten? || Collides(s, e, d)
  {
    assert CallOk(s, d);
    if e.Register? {
      assert CallOk(s, e.c);
      SameIdApart(s.calls[d].draw, s.calls[e.c].draw);
    }
  }

  lemma SameIdApart(i: nat, j: nat)
    ensures IdOf(i) == IdOf(j) <==> (j - i) % IDS == 0
  {
    if i < j { NoIdTwice(i, j); } else if j < i { NoIdTwice(j, i); NegatedMod(i - j); }
  }

  lemma NegatedMod(n: int)
    ensures n % IDS == 0 <==> (-n) % IDS == 0
  {
  }

  /** Somewhere in the run a call is registered that collides with `d` while `d` is pending. */
  predicate EverCollides(s: State, es: seq<Event>, d: nat)
    requires IsRun(s, es)
    decreases |es|
  {
    es != [] && (Collides(s, es[0], d) || EverCollides(Next(s, es[0]), es[1..], d))
  }

  /**
   * Over every run: a pending callback is overwritten if and only if, while it
   * is pending, another call is registered that was drawn a multiple of 2^32
   * draws away from it.
   */
  lemma {:induction false} OverwrittenExactly(s: State, es: seq<Event>, d: nat)
    requires Inv(s) && IsRun(s, es) && d < |s.calls| && !s.calls[d].phase.Overwritten?
    ensures d < |Run(s, es).calls|
    ensures Run(s, es).calls[d].phase.Overwritten? <==> EverCollides(s, es, d)
    decreases |es|
  {
    if es != [] {
      var s1 := Next(s, es[0]);
      StepKeepsInv(s, es[0]);
      OverwrittenByStep(s, es[0], d);
      hide Inv, Next, Enabled, Collides;
      if s1.calls[d].phase.Overwritten? {
        StaysOverwritten(s1, es[1..], d);
      } else {
        OverwrittenExactly(s1, es[1..], d);
      }
    }
  }

  lemma {:induction false} StaysOverwritten(s: State, es: seq<Event>, d: nat)
    requires Inv(s) && IsRun(s, es) && d < |s.calls| && s.calls[d].phase.Overwritten?
    ensures d < |Run(s, es).calls| && Run(s, es).calls[d].phase.Overwritten?
    decreases |es|
  {
    if es != [] {
      StepKeepsInv(s, es[0]);
      OverwrittenByStep(s, es[0], d);
      hide Inv, Next, Enabled, Collides;
      StaysOverwritten(Next(s, es[0]), es[1..], d);
    }
  }

  /** So as long as at most 2^32 ids have been drawn, no pending callback is ever overwritten. */
  lemma {:induction false} NeverOverwritten(s: State, es: seq<Event>, d: nat)
    requires Inv(s) && IsRun(s, es) && d < |s.calls| && !s.calls[d].phase.Overwritten?
    requires Run(s, es).drawn <= IDS
    ensures !EverCollides(s, es, d)
    ensures d < |Run(s, es).calls| && !Run(s, es).calls[d].phase.Overwritten?
    decreases |es|
  {
    if es != [] {
      DrawnGrows(s, es);
      StepKeepsInv(s, es[0]);
      NoCollision(s, es[0], d);
      OverwrittenByStep(s, es[0], d);
      hide Inv, Next, Enabled, Collides;
      NeverOverwritten(Next(s, es[0]), es[1..], d);
    }
  }

  lemma NoCollision(s: State, e: Event, d: nat)
    requires Inv(s) && Enabled(s, e) && d < |s.calls| && s.drawn <= IDS
    ensures !Collides(s, e, d)
  {
    if e.Register? {
      assert CallOk(s, d) && CallOk(s, e.c);
      assert e.c != d ==> s.calls[e.c].draw != s.calls[d].draw;
    }
  }

  lemma {:induction false} DrawnGrows(s: State, es: seq<Event>)
    requires IsRun(s, es)
    ensures s.drawn <= Run(s, es).drawn
    decreases |es|
  {
    if es != [] {
      DrawnGrows(Next(s, es[0]), es[1..]);
    }
  }

  function Others(n: nat): (es: seq<Event>)
    ensures |es| == n
  {
    if n == 0 then [] else [DrawOther] + Others(n - 1)
  }

  lemma {:induction false} OthersOnlyDraw(s: State, n: nat)
    requires WF(s) && s.counter == IdOf(s.drawn)
    ensures IsRun(s, Others(n))
    ensures Run(s, Others(n)) == s.(drawn := s.drawn + n, counter := IdOf(s.drawn + n))
    decreases n
  {
    if n > 0 {
      OthersOnlyDraw(Bump(s), n - 1);
      assert Others(n)[0] == DrawOther && Others(n)[1..] == Others(n - 1);
    }
  }

  lemma {:induction false} RunConcat(s: State, a: seq<Event>, b: seq<Event>)
    requires IsRun(s, a) && IsRun(Run(s, a), b)
    ensures IsRun(s, a + b) && Run(s, a + b) == Run(Run(s, a), b)
    decreases |a|
  {
    if a == [] {
      assert a + b == b;
    } else {
      assert (a + b)[0] == a[0] && (a + b)[1..] == a[1..] + b;
      RunConcat(Next(s, a[0]), a[1..], b);
    }
  }

  /** The call made first is overwritten by one made later, and never fires. */
  ghost predicate LosesFirstCall(es: seq<Event>) {
    && IsRun(Start, es)
    && var s := Run(Start, es);
    && |s.calls| == 2 && s.calls[0].phase.Overwritten? && s.calls[0].fires == 0
    && s.calls[1].phase.Registered? && s.calls[1].id == s.calls[0].id
  }

  /**
   * The bound is needed: a call made exactly 2^32 draws after a pending one
   * takes its id and overwrites its callback.
   */
  lemma WrapOverwrites()
    ensures exists es :: LosesFirstCall(es) && Run(Start, es).drawn == IDS + 1
  {
    var first := [Draw, Send(0, true), Register(0)];
    var s0 := Next(Next(Next(Start, Draw), Send(0, true)), Register(0));
    RunThree(Start, first);
    OthersOnlyDraw(s0, IDS - 1);
    RunConcat(Start, first, Others(IDS - 1));
    var s1 := Run(s0, Others(IDS - 1));
    var last := [Draw, Send(1, true), Register(1)];
    assert s1 == State(IDS, 0, map[0 := 0], [Call(0, 0, Registered, 0)]);
    RunThree(s1, last);
    RunConcat(Start, first + Others(IDS - 1), last);
    assert LosesFirstCall(first + Others(IDS - 1) + last);
  }

  lemma RunOne(s: State, e: Event)
    requires WF(s) && Enabled(s, e)
    ensures IsRun(s, [e]) && Run(s, [e]) == Next(s, e)
  {
    assert [e][1..] == [];
  }

  lemma RunThree(s: State, es: seq<Event>)
    requires |es| == 3 && WF(s) && Enabled(s, es[0]) && Enabled(Next(s, es[0]), es[1])
    requires Enabled(Next(Next(s, es[0]), es[1]), es[2])
    ensures IsRun(s, es) && Run(s, es) == Next(Next(Next(s, es[0]), es[1]), es[2])
  {
    hide *;
    var s1 := Next(s, es[0]);
    var s2 := Next(s1, es[1]);
    RunOne(s, es[0]);
    RunOne(s1, es[1]);
    RunOne(s2, es[2]);
    RunConcat(s, [es[0]], [es[1]]);
    RunConcat(s, [es[0]] + [es[1]], [es[2]]);
    assert es == [es[0]] + [es[1]] + [es[2]];
  }

  /** So is the order: a reply that is dispatched between send and registration is lost. */
  lemma EarlyReplyIsLost(s: State, c: nat)
    requires Inv(s) && c < |s.calls| && s.calls[c].phase.Sent? && s.calls[c].id !in s.table
    ensures var r := Next(Next(s, Reply(s.calls[c].id)), Register(c));
            r.calls[c].phase.Registered? && r.calls[c].fires == 0
  {
    assert CallOk(s, c);
  }

  /** The counter and the table as the fields they are; each method takes one step. */
  class Caller {
    var counter: u32
    var calls: map<u32, nat>
    ghost var proto: State

    ghost predicate Valid()
      reads this
    {
      WF(proto) && counter == proto.counter && calls == proto.table
    }

    constructor ()
      ensures Valid() && proto == Start
    {
      counter, calls, proto := 0, map[], Start;
    }

    method NextMessageId() returns (id: u32)
      requires Valid()
      modifies this
      ensures Valid() && proto == Next(old(proto), Draw) && id == proto.calls[|proto.calls| - 1].id
    {
      id := counter;
      counter := (counter + 1) % IDS;
      proto := Next(proto, Draw);
    }

    method Insert(id: u32, c: nat)
      requires Valid() && Enabled(proto, Register(c)) && proto.calls[c].id == id
      modifies this
      ensures Valid() && proto == Next(old(proto), Register(c))
    {
      calls := calls[id := c];
      proto := Next(proto, Register(c));
    }

    /** The callback the reply fires, if one is pending. */
    method DispatchReply(id: u32) returns (fired: Option<nat>)
      requires Valid()
      modifies this
      ensures Valid() && proto == Next(old(proto), Reply(id))
      ensures fired == if id in old(calls) then Some(old(calls)[id]) else None
      ensures id !in calls
    {
      fired := None;
      if id in calls {
        fired := Some(calls[id]);
        calls := calls - {id};
      }
      proto := Next(proto, Reply(id));
    }
  }
}
