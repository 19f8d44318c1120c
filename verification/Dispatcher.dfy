/**
 * The dispatcher and the read side of the transport driver: requests are
 * dispatched in bursts by the select task, answers and announcements go
 * through a bounded channel that only the same task empties, and asynchronous
 * answers are sent by spawned tasks.
 */
module Dispatcher {
  import opened Common

  const CAPACITY := 8

  datatype Kind = Sync | Async | Duplex

  /** An incoming message: a request or notification, or the response to a call. */
  datatype Incoming =
    | Request(id: Option<u32>, method_: string, paramsOk: bool)
    | Response(id: Option<u32>)

  datatype Answer = Success(id: u32) | Error(id: u32, code: int)

  datatype Outcome = Returned | CallbackFailed | BadParams | UnknownMethod

  /** Only a message with an id is answered. */
  function AnswerFor(id: Option<u32>, outcome: Outcome): Option<Answer> {
    match id
    case None => None
    case Some(i) =>
      match outcome
      case Returned => Some(Success(i))
      case CallbackFailed => Some(Error(i, -1))
      case BadParams => Some(Error(i, 0))
      case UnknownMethod => Some(Error(i, -1))
  }

  /**
   * A channel message: an answer, the announcement of streams, or what one of their
   * tasks sends. `k` is history: the number of the request it belongs to.
   */
  datatype Frame = Reply(k: nat, answer: Answer) | Started(k: nat) | Streamed(k: nat)

  /** A spawned task: waiting for the callback, ready with a parameter error, or waiting for room. */
  datatype Future = Running(id: Option<u32>) | Ready(id: Option<u32>) | Holding(answer: Answer)

  /** The select task: at `select!`, inside a read burst, or waiting to send within one. */
  datatype Main =
    | AtSelect
    | Burst(todo: seq<Incoming>)
    | Blocked(frame: Frame, then_: Option<Future>, todo: seq<Incoming>)
    | Panicked

  /** `out` is everything ever sent into the channel, `head` how much of it has been received. */
  datatype State = State(
    methods: map<string, Kind>,
    main: Main,
    futures: map<nat, Future>,
    out: seq<Frame>,
    head: nat,
    requests: seq<Incoming>)

  datatype Event =
    | Read(batch: seq<Incoming>)
    | Dispatch(ok: bool)
    | EndBurst
    | MainSend
    | Resolve(k: nat, ok: bool)
    | FutureSend(k: nat)
    | StreamSend(k: nat)
    | Receive

  function Start(methods: map<string, Kind>): State {
    State(methods, AtSelect, map[], [], 0, [])
  }

  function Occupancy(s: State): int {
    |s.out| - s.head
  }

  predicate Enabled(s: State, e: Event) {
    match e
    case Read(_) => s.main.AtSelect?
    case Dispatch(_) => s.main.Burst? && s.main.todo != []
    case EndBurst => s.main.Burst? && s.main.todo == []
    case MainSend => s.main.Blocked? && Occupancy(s) < CAPACITY
    case Resolve(k, _) => k in s.futures && !s.futures[k].Holding?
    case FutureSend(k) => k in s.futures && s.futures[k].Holding? && Occupancy(s) < CAPACITY
    case StreamSend(k) => Started(k) in s.out && Occupancy(s) < CAPACITY
    case Receive => s.main.AtSelect? && s.head < |s.out|
  }

  /** The outcome of a message that is answered at once; `ok` is what a synchronous callback says. */
  function OutcomeNow(methods: map<string, Kind>, m: Incoming, ok: bool): Outcome
    requires m.Request?
  {
    if m.method_ !in methods then UnknownMethod
    else if !m.paramsOk then BadParams
    else if ok then Returned else CallbackFailed
  }

  /** `dispatch_with_partial`, and what the driver does with its result. */
  function NextDispatch(s: State, ok: bool): State
    requires Enabled(s, Dispatch(ok))
  {
    var m := s.main.todo[0];
    var rest := s.main.todo[1..];
    var k := |s.requests|;
    var s1 := s.(main := Burst(rest), requests := s.requests + [m]);
    if m.Response? then
      if m.id.None? then s1.(main := Panicked) else s1
    else if m.method_ !in s.methods || s.methods[m.method_].Sync? then
      match AnswerFor(m.id, OutcomeNow(s.methods, m, ok))
      case None => s1
      case Some(a) => s1.(main := Blocked(Reply(k, a), None, rest))
    else if !m.paramsOk then
      s1.(futures := s.futures[k := Ready(m.id)])
    else if s.methods[m.method_].Async? then
      s1.(futures := s.futures[k := Running(m.id)])
    else
      s1.(main := Blocked(Started(k), Some(Running(m.id)), rest))
  }

  function Next(s: State, e: Event): State
    requires Enabled(s, e)
  {
    match e
    case Read(batch) => s.(main := Burst(batch))
    case Dispatch(ok) => NextDispatch(s, ok)
    case EndBurst => s.(main := AtSelect)
    case MainSend =>
      s.(main := Burst(s.main.todo),
         out := s.out + [s.main.frame],
         futures := if s.main.then_.Some? then s.futures[s.main.frame.k := s.main.then_.value] else s.futures)
    case Resolve(k, ok) =>
      (match AnswerFor(s.futures[k].id, if s.futures[k].Ready? then BadParams else if ok then Returned else CallbackFailed)
       case None => s.(futures := s.futures - {k})
       case Some(a) => s.(futures := s.futures[k := Holding(a)]))
    case FutureSend(k) =>
      s.(out := s.out + [Reply(k, s.futures[k].answer)], futures := s.futures - {k})
    case StreamSend(k) => s.(out := s.out + [Streamed(k)])
    case Receive => s.(head := s.head + 1)
  }

  predicate IsRun(s: State, es: seq<Event>)
    decreases |es|
  {
    es != [] ==> Enabled(s, es[0]) && IsRun(Next(s, es[0]), es[1..])
  }

  function Run(s: State, es: seq<Event>): State
    requires IsRun(s, es)
    decreases |es|
  {
    if es == [] then s else Run(Next(s, es[0]), es[1..])
  }

  // ---- response conservation -------------------------------------------------------

  /** `a` is an answer that request `m` may get. */
  predicate Fits(methods: map<string, Kind>, m: Incoming, a: Answer) {
    && m.Request? && m.id == Some(a.id)
    && (m.method_ !in methods ==> a == Error(a.id, -1))
    && (m.method_ in methods && !m.paramsOk ==> a == Error(a.id, 0))
    && (m.method_ in methods && m.paramsOk ==> a == Success(a.id) || a == Error(a.id, -1))
  }

  /** Request `k` opened streams, which were announced. */
  predicate Opens(methods: map<string, Kind>, m: Incoming) {
    m.Request? && m.method_ in methods && methods[m.method_].Duplex? && m.paramsOk
  }

  ghost predicate Replied(out: seq<Frame>, k: nat) {
    exists i :: 0 <= i < |out| && out[i].Reply? && out[i].k == k
  }

  ghost predicate HeldByMain(main: Main, k: nat) {
    main.Blocked? && main.frame.k == k
  }

  /** The task of request `k` fits the request. */
  predicate FutureFits(methods: map<string, Kind>, m: Incoming, f: Future) {
    && m.Request? && m.method_ in methods
    && match f
       case Running(id) => id == m.id && m.paramsOk
       case Ready(id) => id == m.id && !m.paramsOk
       case Holding(a) => Fits(methods, m, a)
  }

  ghost predicate OutOk(s: State) {
    && s.head <= |s.out| <= s.head + CAPACITY
    && (forall i :: 0 <= i < |s.out| ==> s.out[i].k < |s.requests|)
    && (forall i :: 0 <= i < |s.out| && s.out[i].Reply? ==>
          && Fits(s.methods, s.requests[s.out[i].k], s.out[i].answer)
          && s.out[i].k !in s.futures && !HeldByMain(s.main, s.out[i].k))
    && (forall i, j :: 0 <= i < j < |s.out| && s.out[i].Reply? && s.out[j].Reply? ==> s.out[i].k != s.out[j].k)
  }

  ghost predicate TasksOk(s: State) {
    && (forall k :: k in s.futures ==>
          k < |s.requests| && !HeldByMain(s.main, k) && FutureFits(s.methods, s.requests[k], s.futures[k]))
    && (s.main.Blocked? ==>
          && s.main.frame.k < |s.requests|
          && match s.main.frame
             case Reply(k, a) =>
               s.main.then_ == None && Fits(s.methods, s.requests[k], a) && !Opens(s.methods, s.requests[k])
             case Started(k) => Opens(s.methods, s.requests[k]) && s.main.then_ == Some(Running(s.requests[k].id))
             case Streamed(_) => false)
  }

  /** Every dispatched request with an id is answered or will be. */
  ghost predicate NoneForgotten(s: State) {
    forall k :: 0 <= k < |s.requests| && s.requests[k].Request? && s.requests[k].id.Some? ==>
      k in s.futures || HeldByMain(s.main, k) || Replied(s.out, k)
  }

  ghost predicate Inv(s: State) {
    OutOk(s) && TasksOk(s) && NoneForgotten(s)
  }

  lemma RepliedGrows(out: seq<Frame>, f: Frame, k: nat)
    ensures Replied(out, k) ==> Replied(out + [f], k)
    ensures f.Reply? && f.k == k ==> Replied(out + [f], k)
  {
    if Replied(out, k) {
      var i :| 0 <= i < |out| && out[i].Reply? && out[i].k == k;
      assert (out + [f])[i] == out[i];
    }
    assert (out + [f])[|out|] == f;
  }

  lemma DispatchKeepsOut(s: State, ok: bool)
    requires OutOk(s) && Enabled(s, Dispatch(ok))
    ensures OutOk(NextDispatch(s, ok))
  {
    var r := NextDispatch(s, ok);
    forall i | 0 <= i < |r.out| && r.out[i].Reply?
      ensures Fits(r.methods, r.requests[r.out[i].k], r.out[i].answer)
      ensures r.out[i].k !in r.futures && !HeldByMain(r.main, r.out[i].k)
    {
      assert r.requests[r.out[i].k] == s.requests[r.out[i].k];
    }
  }

  lemma DispatchKeepsTasks(s: State, ok: bool)
    requires TasksOk(s) && Enabled(s, Dispatch(ok))
    ensures TasksOk(NextDispatch(s, ok))
  {
    var r := NextDispatch(s, ok);
    assert r.requests[|s.requests|] == s.main.todo[0];
    forall k | k in r.futures
      ensures k < |r.requests| && !HeldByMain(r.main, k) && FutureFits(r.methods, r.requests[k], r.futures[k])
    {
      if k < |s.requests| { assert r.requests[k] == s.requests[k]; }
    }
  }

  lemma DispatchKeepsInv(s: State, ok: bool)
    requires Inv(s) && Enabled(s, Dispatch(ok))
    ensures Inv(NextDispatch(s, ok))
  {
    DispatchKeepsOut(s, ok);
    DispatchKeepsTasks(s, ok);
    hide OutOk, TasksOk;
    var r := NextDispatch(s, ok);
    forall k | 0 <= k < |r.requests| && r.requests[k].Request? && r.requests[k].id.Some?
      ensures k in r.futures || HeldByMain(r.main, k) || Replied(r.out, k)
    {
      if k < |s.requests| { assert r.requests[k] == s.requests[k]; }
    }
  }

  lemma SendKeepsInv(s: State, e: Event)
    requires Inv(s) && Enabled(s, e) && (e.MainSend? || e.FutureSend? || e.StreamSend?)
    ensures Inv(Next(s, e))
  {
    var r := Next(s, e);
    var f := r.out[|s.out|];
    forall k | 0 <= k < |r.requests| && r.requests[k].Request? && r.requests[k].id.Some?
      ensures k in r.futures || HeldByMain(r.main, k) || Replied(r.out, k)
    {
      RepliedGrows(s.out, f, k);
    }
  }

  lemma ResolveKeepsInv(s: State, k: nat, ok: bool)
    requires Inv(s) && Enabled(s, Resolve(k, ok))
    ensures Inv(Next(s, Resolve(k, ok)))
  {
    assert FutureFits(s.methods, s.requests[k], s.futures[k]);
  }

  lemma StepKeepsInv(s: State, e: Event)
    requires Inv(s) && Enabled(s, e)
    ensures Inv(Next(s, e))
  {
    match e
    case Dispatch(ok) => DispatchKeepsInv(s, ok);
    case MainSend => SendKeepsInv(s, e);
    case FutureSend(_) => SendKeepsInv(s, e);
    case StreamSend(_) => SendKeepsInv(s, e);
    case Resolve(k, ok) => ResolveKeepsInv(s, k, ok);
    case _ =>
  }

  lemma {:induction false} RunKeepsInv(s: State, es: seq<Event>)
    requires Inv(s) && IsRun(s, es)
    ensures Inv(Run(s, es)) && Run(s, es).methods == s.methods
    decreases |es|
  {
    if es != [] {
      StepKeepsInv(s, es[0]);
      RunKeepsInv(Next(s, es[0]), es[1..]);
    }
  }

  /**
   * Response conservation over whole runs: replies carry distinct request
   * numbers, each fits its request (which therefore has an id), and once the
   * select task is back and no future is left, every request with an id has
   * its reply. So requests with an id and replies match one to one.
   */
  lemma ExactlyOneResponse(methods: map<string, Kind>, es: seq<Event>)
    requires IsRun(Start(methods), es)
    ensures var s := Run(Start(methods), es);
            && (forall i :: 0 <= i < |s.out| && s.out[i].Reply? ==>
                  s.out[i].k < |s.requests| && Fits(methods, s.requests[s.out[i].k], s.out[i].answer))
            && (forall i, j :: 0 <= i < j < |s.out| && s.out[i].Reply? && s.out[j].Reply? ==> s.out[i].k != s.out[j].k)
            && (s.main.AtSelect? && s.futures == map[] ==>
                  forall k :: 0 <= k < |s.requests| ==>
                    (Replied(s.out, k) <==> s.requests[k].Request? && s.requests[k].id.Some?))
  {
    RunKeepsInv(Start(methods), es);
    var s := Run(Start(methods), es);
    forall k | s.main.AtSelect? && s.futures == map[] && 0 <= k < |s.requests| && Replied(s.out, k)
      ensures s.requests[k].Request? && s.requests[k].id.Some?
    {
      var i :| 0 <= i < |s.out| && s.out[i].Reply? && s.out[i].k == k;
    }
  }

  // ---- what the events say -------------------------------------------------------------

  /** The messages of all reads, in order. */
  function AllRead(es: seq<Event>): seq<Incoming> {
    if es == [] then []
    else
      var e := es[|es| - 1];
      AllRead(es[..|es| - 1]) + if e.Read? then e.batch else []
  }

  /** What the callbacks said to the messages dispatched, in order. */
  function Said(es: seq<Event>): seq<bool> {
    if es == [] then []
    else
      var e := es[|es| - 1];
      Said(es[..|es| - 1]) + if e.Dispatch? then [e.ok] else []
  }

  function Received(es: seq<Event>): nat {
    if es == [] then 0 else Received(es[..|es| - 1]) + if es[|es| - 1].Receive? then 1 else 0
  }

  function Sends(es: seq<Event>): nat {
    if es == [] then 0
    else
      var e := es[|es| - 1];
      Sends(es[..|es| - 1]) + if e.MainSend? || e.FutureSend? || e.StreamSend? then 1 else 0
  }

  /** The messages of the current burst that are still to be dispatched. */
  function Todo(main: Main): seq<Incoming> {
    match main
    case Burst(todo) => todo
    case Blocked(_, _, todo) => todo
    case _ => []
  }

  lemma RunLast(s: State, es: seq<Event>)
    requires IsRun(s, es) && es != []
    ensures var before, e := es[..|es| - 1], es[|es| - 1];
            && IsRun(s, before) && Enabled(Run(s, before), e)
            && Run(s, es) == Next(Run(s, before), e) && es == before + [e]
  {
    var n := |es| - 1;
    assert es == es[..n] + es[n..] && es[n..] == [es[n]];
    SplitRun(s, es[..n], es[n..]);
  }

  lemma {:induction false} SplitRun(s: State, a: seq<Event>, b: seq<Event>)
    requires IsRun(s, a + b)
    ensures IsRun(s, a) && IsRun(Run(s, a), b) && Run(s, a + b) == Run(Run(s, a), b)
    decreases |a|
  {
    hide Enabled, Next;
    if a == [] {
      assert a + b == b;
    } else {
      assert (a + b)[0] == a[0] && (a + b)[1..] == a[1..] + b;
      SplitRun(Next(s, a[0]), a[1..], b);
    }
  }

  /** Every message of every read is dispatched once, in order; a panic leaves the rest of its burst. */
  ghost predicate Accounted(s: State, es: seq<Event>) {
    && s.requests + Todo(s.main) <= AllRead(es)
    && (!s.main.Panicked? ==> s.requests + Todo(s.main) == AllRead(es))
    && |Said(es)| == |s.requests|
    && s.head == Received(es) && |s.out| == Sends(es)
  }

  lemma AccountedStep(s: State, es: seq<Event>, e: Event)
    requires Accounted(s, es) && Enabled(s, e)
    ensures Accounted(Next(s, e), es + [e])
  {
    assert (es + [e])[..|es|] == es;
    var r := Next(s, e);
    match e
    case Dispatch(_) =>
      var todo := s.main.todo;
      assert (s.requests + [todo[0]]) + todo[1..] == s.requests + todo;
      assert r.requests + [] == r.requests;
    case Read(batch) => assert s.requests + [] == s.requests;
    case EndBurst => assert s.requests + [] == s.requests;
    case _ =>
  }

  /**
   * Over every run: what has been dispatched, followed by what is left of the
   * burst, is the concatenation of all reads; the channel has been given one
   * message for each send and one has been taken out for each receipt.
   */
  lemma {:induction false} DispatchesAllRead(methods: map<string, Kind>, es: seq<Event>)
    requires IsRun(Start(methods), es)
    ensures Accounted(Run(Start(methods), es), es)
  {
    if es != [] {
      RunLast(Start(methods), es);
      DispatchesAllRead(methods, es[..|es| - 1]);
      AccountedStep(Run(Start(methods), es[..|es| - 1]), es[..|es| - 1], es[|es| - 1]);
    }
  }

  /** What the callback of request `k` has said to it, if it has. */
  ghost predicate Verdict(methods: map<string, Kind>, es: seq<Event>, k: nat, m: Incoming, ok: bool)
    requires m.Request? && m.method_ in methods
  {
    if methods[m.method_].Sync? then k < |Said(es)| && Said(es)[k] == ok
    else Resolve(k, ok) in es && Resolve(k, !ok) !in es
  }

  /** The answer that request `k` ought to get: by what its callback said, or by the error there was before. */
  ghost predicate Right(methods: map<string, Kind>, es: seq<Event>, k: nat, m: Incoming, a: Answer) {
    && m.Request? && m.id.Some?
    && if m.method_ !in methods then a == Error(m.id.value, -1)
       else if !m.paramsOk then a == Error(m.id.value, 0)
       else
         || (Verdict(methods, es, k, m, true) && a == Success(m.id.value))
         || (Verdict(methods, es, k, m, false) && a == Error(m.id.value, -1))
  }

  /** No resolution of request `k` is to be found. */
  ghost predicate Unresolved(es: seq<Event>, k: nat) {
    forall ok :: Resolve(k, ok) !in es
  }

  ghost predicate RightOut(s: State, es: seq<Event>) {
    forall i :: 0 <= i < |s.out| && s.out[i].Reply? && s.out[i].k < |s.requests| ==>
      Right(s.methods, es, s.out[i].k, s.requests[s.out[i].k], s.out[i].answer)
  }

  ghost predicate RightTasks(s: State, es: seq<Event>) {
    && (forall k :: k in s.futures && k < |s.requests| ==>
          if s.futures[k].Holding? then Right(s.methods, es, k, s.requests[k], s.futures[k].answer) && !IsSync(s, k)
          else Unresolved(es, k) && !IsSync(s, k))
    && (s.main.Blocked? && s.main.frame.k < |s.requests| ==>
          match s.main.frame
          case Reply(k, a) => Right(s.methods, es, k, s.requests[k], a)
          case Started(k) => Unresolved(es, k)
          case Streamed(_) => true)
    && (forall k :: k >= |s.requests| ==> Unresolved(es, k))
  }

  predicate IsSync(s: State, k: nat)
    requires k < |s.requests|
  {
    var m := s.requests[k];
    m.Request? && (m.method_ !in s.methods || s.methods[m.method_].Sync?)
  }

  lemma RightStays(s: State, r: State, es: seq<Event>, e: Event, k: nat, a: Answer)
    requires k < |s.requests| && s.requests <= r.requests && r.methods == s.methods
    requires |Said(es)| == |s.requests|
    requires Right(s.methods, es, k, s.requests[k], a)
    requires e.Resolve? ==> e.k != k || IsSync(s, k)
    ensures Right(r.methods, es + [e], k, r.requests[k], a)
  {
    assert (es + [e])[..|es|] == es;
    assert r.requests[k] == s.requests[k];
    assert Said(es) <= Said(es + [e]);
    forall x: Event ensures x in es + [e] <==> x in es || x == e {
    }
    assert forall i :: 0 <= i < |Said(es)| ==> Said(es + [e])[i] == Said(es)[i];
  }

  /** Everything that a step must keep about the answers and the events behind them. */
  ghost predicate Answered(s: State, es: seq<Event>) {
    Inv(s) && Accounted(s, es) && RightOut(s, es) && RightTasks(s, es)
  }

  lemma UnresolvedStays(es: seq<Event>, e: Event, k: nat)
    requires Unresolved(es, k) && (e.Resolve? ==> e.k != k)
    ensures Unresolved(es + [e], k)
  {
    forall ok ensures Resolve(k, ok) !in es + [e] {
    }
  }

  /** What was right stays right: an answer is not decided twice. */
  lemma OutStays(s: State, es: seq<Event>, e: Event, i: nat)
    requires Answered(s, es) && Enabled(s, e) && i < |s.out| && s.out[i].Reply?
    ensures s.out[i].k < |s.requests|
    ensures var r := Next(s, e); Right(r.methods, es + [e], s.out[i].k, r.requests[s.out[i].k], s.out[i].answer)
  {
    RightStays(s, Next(s, e), es, e, s.out[i].k, s.out[i].answer);
  }

  lemma TaskStays(s: State, es: seq<Event>, e: Event, k: nat)
    requires Answered(s, es) && Enabled(s, e) && k in s.futures && (e.Resolve? ==> e.k != k)
    ensures k < |s.requests| && !IsSync(s, k)
    ensures s.futures[k].Holding? ==>
              Right(s.methods, es + [e], k, Next(s, e).requests[k], s.futures[k].answer)
    ensures !s.futures[k].Holding? ==> Unresolved(es + [e], k)
  {
    if s.futures[k].Holding? {
      RightStays(s, Next(s, e), es, e, k, s.futures[k].answer);
    } else {
      UnresolvedStays(es, e, k);
    }
  }

  lemma SendKeepsRight(s: State, es: seq<Event>, e: Event)
    requires Answered(s, es) && Enabled(s, e) && (e.MainSend? || e.FutureSend? || e.StreamSend?)
    ensures RightOut(Next(s, e), es + [e]) && RightTasks(Next(s, e), es + [e])
  {
    var r := Next(s, e);
    forall i | 0 <= i < |r.out| && r.out[i].Reply? && r.out[i].k < |r.requests|
      ensures Right(r.methods, es + [e], r.out[i].k, r.requests[r.out[i].k], r.out[i].answer)
    {
      if i < |s.out| { OutStays(s, es, e, i); }
      else { RightStays(s, r, es, e, r.out[i].k, r.out[i].answer); }
    }
    TasksAfter(s, es, e);
  }

  lemma TasksAfter(s: State, es: seq<Event>, e: Event)
    requires Answered(s, es) && Enabled(s, e) && !e.Dispatch? && !e.Resolve?
    ensures RightTasks(Next(s, e), es + [e])
  {
    var r := Next(s, e);
    hide Right, Accounted, RightOut;
    forall k | k in r.futures && k < |r.requests|
      ensures !IsSync(r, k)
      ensures r.futures[k].Holding? ==> Right(r.methods, es + [e], k, r.requests[k], r.futures[k].answer)
      ensures !r.futures[k].Holding? ==> Unresolved(es + [e], k)
    {
      if k in s.futures { TaskStays(s, es, e, k); } else { UnresolvedStays(es, e, k); }
    }
    forall k | k >= |r.requests| ensures Unresolved(es + [e], k) {
      UnresolvedStays(es, e, k);
    }
    if s.main.Blocked? { HeldStays(s, es, e); }
  }

  /** What the select task has in hand, if the step leaves it there. */
  lemma HeldStays(s: State, es: seq<Event>, e: Event)
    requires Answered(s, es) && Enabled(s, e) && s.main.Blocked?
    ensures s.main.frame.k < |s.requests|
    ensures s.main.frame.Reply? ==>
              Right(s.methods, es + [e], s.main.frame.k, Next(s, e).requests[s.main.frame.k], s.main.frame.answer)
    ensures s.main.frame.Started? ==> Unresolved(es + [e], s.main.frame.k)
  {
    if s.main.frame.Reply? {
      RightStays(s, Next(s, e), es, e, s.main.frame.k, s.main.frame.answer);
    } else {
      UnresolvedStays(es, e, s.main.frame.k);
    }
  }

  lemma DispatchKeepsRightOut(s: State, es: seq<Event>, ok: bool)
    requires Answered(s, es) && Enabled(s, Dispatch(ok))
    ensures RightOut(NextDispatch(s, ok), es + [Dispatch(ok)])
  {
    var e, r := Dispatch(ok), NextDispatch(s, ok);
    forall i | 0 <= i < |r.out| && r.out[i].Reply? && r.out[i].k < |r.requests|
      ensures Right(r.methods, es + [e], r.out[i].k, r.requests[r.out[i].k], r.out[i].answer)
    {
      OutStays(s, es, e, i);
    }
  }

  /** The request being dispatched: answered at once by what is said to it, or not resolved yet. */
  lemma DispatchedRight(s: State, es: seq<Event>, ok: bool)
    requires Answered(s, es) && Enabled(s, Dispatch(ok))
    ensures var r := NextDispatch(s, ok);
            && (r.main.Blocked? ==>
                  && r.main.frame.k == |s.requests|
                  && (r.main.frame.Reply? ==>
                        Right(r.methods, es + [Dispatch(ok)], |s.requests|, r.requests[|s.requests|], r.main.frame.answer)))
            && Unresolved(es + [Dispatch(ok)], |s.requests|)
  {
    var e := Dispatch(ok);
    UnresolvedStays(es, e, |s.requests|);
    assert (es + [e])[..|es|] == es;
    assert Said(es + [e]) == Said(es) + [ok];
  }

  lemma DispatchKeepsRightTasks(s: State, es: seq<Event>, ok: bool)
    requires Answered(s, es) && Enabled(s, Dispatch(ok))
    ensures RightTasks(NextDispatch(s, ok), es + [Dispatch(ok)])
  {
    var e, r := Dispatch(ok), NextDispatch(s, ok);
    DispatchedRight(s, es, ok);
    hide Right, Accounted, RightOut;
    forall k | k in r.futures && k < |r.requests|
      ensures !IsSync(r, k)
      ensures r.futures[k].Holding? ==> Right(r.methods, es + [e], k, r.requests[k], r.futures[k].answer)
      ensures !r.futures[k].Holding? ==> Unresolved(es + [e], k)
    {
      if k < |s.requests| { TaskStays(s, es, e, k); assert r.requests[k] == s.requests[k]; }
    }
    forall k | k >= |r.requests| ensures Unresolved(es + [e], k) {
      UnresolvedStays(es, e, k);
    }
  }

  /** A resolution decides the answer, once. */
  lemma ResolvedRight(s: State, es: seq<Event>, k: nat, ok: bool)
    requires Answered(s, es) && Enabled(s, Resolve(k, ok))
    ensures var r := Next(s, Resolve(k, ok));
            k in r.futures ==>
              && k < |r.requests| && !IsSync(r, k) && r.futures[k].Holding?
              && Right(r.methods, es + [Resolve(k, ok)], k, r.requests[k], r.futures[k].answer)
  {
    assert FutureFits(s.methods, s.requests[k], s.futures[k]);
    assert Unresolved(es, k);
    assert (es + [Resolve(k, ok)])[|es|] == Resolve(k, ok);
  }

  lemma ResolveKeepsRight(s: State, es: seq<Event>, k: nat, ok: bool)
    requires Answered(s, es) && Enabled(s, Resolve(k, ok))
    ensures RightOut(Next(s, Resolve(k, ok)), es + [Resolve(k, ok)])
    ensures RightTasks(Next(s, Resolve(k, ok)), es + [Resolve(k, ok)])
  {
    var e := Resolve(k, ok);
    var r := Next(s, e);
    ResolvedRight(s, es, k, ok);
    forall i | 0 <= i < |r.out| && r.out[i].Reply? && r.out[i].k < |r.requests|
      ensures Right(r.methods, es + [e], r.out[i].k, r.requests[r.out[i].k], r.out[i].answer)
    {
      OutStays(s, es, e, i);
    }
    hide Right, Accounted, RightOut;
    forall j | j in r.futures && j < |r.requests|
      ensures !IsSync(r, j)
      ensures r.futures[j].Holding? ==> Right(r.methods, es + [e], j, r.requests[j], r.futures[j].answer)
      ensures !r.futures[j].Holding? ==> Unresolved(es + [e], j)
    {
      if j != k { TaskStays(s, es, e, j); }
    }
    forall j | j >= |r.requests| ensures Unresolved(es + [e], j) {
      UnresolvedStays(es, e, j);
    }
    if s.main.Blocked? { HeldStays(s, es, e); }
  }

  lemma QuietKeepsRight(s: State, es: seq<Event>, e: Event)
    requires Answered(s, es) && Enabled(s, e) && (e.Read? || e.EndBurst? || e.Receive?)
    ensures RightOut(Next(s, e), es + [e]) && RightTasks(Next(s, e), es + [e])
  {
    var r := Next(s, e);
    forall i | 0 <= i < |r.out| && r.out[i].Reply? && r.out[i].k < |r.requests|
      ensures Right(r.methods, es + [e], r.out[i].k, r.requests[r.out[i].k], r.out[i].answer)
    {
      OutStays(s, es, e, i);
    }
    TasksAfter(s, es, e);
  }

  lemma AnsweredStep(s: State, es: seq<Event>, e: Event)
    requires Answered(s, es) && Enabled(s, e)
    ensures Answered(Next(s, e), es + [e])
  {
    StepKeepsInv(s, e);
    AccountedStep(s, es, e);
    hide Inv, Accounted, RightOut, RightTasks;
    match e
    case Dispatch(ok) =>
      DispatchKeepsRightOut(s, es, ok);
      DispatchKeepsRightTasks(s, es, ok);
    case MainSend => SendKeepsRight(s, es, e);
    case FutureSend(_) => SendKeepsRight(s, es, e);
    case StreamSend(_) => SendKeepsRight(s, es, e);
    case Resolve(k, ok) => ResolveKeepsRight(s, es, k, ok);
    case _ => QuietKeepsRight(s, es, e);
  }

  lemma {:induction false} AnsweredAlways(methods: map<string, Kind>, es: seq<Event>)
    requires IsRun(Start(methods), es)
    ensures Answered(Run(Start(methods), es), es)
  {
    if es != [] {
      var before := es[..|es| - 1];
      RunLast(Start(methods), es);
      AnsweredAlways(methods, before);
      AnsweredStep(Run(Start(methods), before), before, es[|es| - 1]);
      assert before + [es[|es| - 1]] == es;
    }
  }

  /**
   * In every run a reply says what there was to say to its request: for a
   * method that exists and takes its parameters, a success exactly if the
   * step that decided it, the dispatch of request k or the resolution of its
   * task, had a callback that returned, and else the error it has.
   */
  lemma AnswersAreRight(methods: map<string, Kind>, es: seq<Event>)
    requires IsRun(Start(methods), es)
    ensures var s := Run(Start(methods), es);
            forall i :: 0 <= i < |s.out| && s.out[i].Reply? ==>
              s.out[i].k < |s.requests| && Right(methods, es, s.out[i].k, s.requests[s.out[i].k], s.out[i].answer)
  {
    AnsweredAlways(methods, es);
    RunKeepsInv(Start(methods), es);
  }

  /** A callback runs in a task of its own. */
  predicate HasTask(methods: map<string, Kind>, m: Incoming) {
    m.Request? && m.method_ in methods && !methods[m.method_].Sync?
  }

  /** The task of request `k` is to be resolved, or to be spawned with the announcement. */
  ghost predicate TaskAhead(s: State, k: nat) {
    (k in s.futures && !s.futures[k].Holding?) || (s.main.Blocked? && s.main.frame == Started(k))
  }

  ghost predicate TasksRun(s: State, es: seq<Event>) {
    && (forall k :: 0 <= k < |s.requests| ==>
          (HasTask(s.methods, s.requests[k]) <==> TaskAhead(s, k) || !Unresolved(es, k)))
    && forall i, j :: 0 <= i < j < |es| && es[i].Resolve? && es[j].Resolve? ==> es[i].k != es[j].k
  }

  /** Only its resolution takes a task away, and only a dispatch makes one. */
  lemma AheadStep(s: State, e: Event, k: nat)
    requires TasksOk(s) && Enabled(s, e) && k < |Next(s, e).requests|
    ensures var r := Next(s, e);
            && r.methods == s.methods && |s.requests| <= |r.requests|
            && (k < |s.requests| ==>
                  && r.requests[k] == s.requests[k]
                  && (TaskAhead(r, k) <==> TaskAhead(s, k) && !(e.Resolve? && e.k == k)))
            && (k >= |s.requests| ==> !e.Resolve? && (TaskAhead(r, k) <==> HasTask(r.methods, r.requests[k])))
    ensures e.Resolve? && e.k == k ==> TaskAhead(s, k)
  {
    hide Fits;
  }

  lemma TasksRunAt(s: State, es: seq<Event>, e: Event, k: nat)
    requires Answered(s, es) && TasksRun(s, es) && Enabled(s, e) && k < |Next(s, e).requests|
    ensures var r := Next(s, e);
            HasTask(r.methods, r.requests[k]) <==> TaskAhead(r, k) || !Unresolved(es + [e], k)
  {
    assert k >= |s.requests| ==> Unresolved(es, k);
    AheadStep(s, e, k);
    hide Inv, Accounted, RightOut, RightTasks, Next, NextDispatch, Enabled;
    if e.Resolve? && e.k == k {
      assert (es + [e])[|es|] == e;
    } else if Unresolved(es, k) {
      UnresolvedStays(es, e, k);
    } else {
      var ok :| Resolve(k, ok) in es;
      assert Resolve(k, ok) in es + [e];
    }
  }

  /** Over every run: each request with a task of its own, and no other, has its task resolved, once, or still ahead. */
  lemma {:induction false} TasksRunOnce(methods: map<string, Kind>, es: seq<Event>)
    requires IsRun(Start(methods), es)
    ensures TasksRun(Run(Start(methods), es), es)
  {
    if es != [] {
      var before, e := es[..|es| - 1], es[|es| - 1];
      RunLast(Start(methods), es);
      TasksRunOnce(methods, before);
      AnsweredAlways(methods, before);
      var s := Run(Start(methods), before);
      forall k | 0 <= k < |Next(s, e).requests|
        ensures HasTask(Next(s, e).methods, Next(s, e).requests[k]) <==> TaskAhead(Next(s, e), k) || !Unresolved(before + [e], k)
      {
        TasksRunAt(s, before, e, k);
      }
      assert before + [e] == es;
      if e.Resolve? {
        ResolvedNow(s, before, e);
      }
    }
  }

  lemma ResolvedNow(s: State, es: seq<Event>, e: Event)
    requires Answered(s, es) && e.Resolve? && Enabled(s, e)
    ensures forall i :: 0 <= i < |es| && es[i].Resolve? ==> es[i].k != e.k
  {
    assert Unresolved(es, e.k);
    forall i | 0 <= i < |es| && es[i].Resolve? ensures es[i].k != e.k {
      assert es[i] in es;
      assert Resolve(es[i].k, es[i].ok) in es;
    }
  }

  // ---- one announcement for each request that opens streams ------------------------------

  ghost predicate AnnouncedOnce(s: State) {
    && (forall i, j :: 0 <= i < j < |s.out| && s.out[i].Started? && s.out[j].Started? ==> s.out[i].k != s.out[j].k)
    && (forall i :: 0 <= i < |s.out| && s.out[i].Started? ==>
          s.out[i].k < |s.requests| && Opens(s.methods, s.requests[s.out[i].k]) && !HeldByMain(s.main, s.out[i].k))
    && (forall k :: 0 <= k < |s.requests| && Opens(s.methods, s.requests[k]) ==>
          HeldByMain(s.main, k) || Started(k) in s.out)
  }

  lemma DispatchKeepsOnce(s: State, ok: bool)
    requires OutOk(s) && AnnouncedOnce(s) && Enabled(s, Dispatch(ok))
    ensures AnnouncedOnce(NextDispatch(s, ok))
  {
    hide Fits;
    var r := NextDispatch(s, ok);
    assert r.out == s.out && s.requests <= r.requests;
    forall k | 0 <= k < |r.requests| && Opens(r.methods, r.requests[k])
      ensures HeldByMain(r.main, k) || Started(k) in r.out
    {
      if k < |s.requests| { assert r.requests[k] == s.requests[k]; }
    }
  }

  lemma SendKeepsOnce(s: State, e: Event)
    requires TasksOk(s) && AnnouncedOnce(s) && Enabled(s, e) && (e.MainSend? || e.FutureSend? || e.StreamSend?)
    ensures AnnouncedOnce(Next(s, e))
  {
    var r := Next(s, e);
    forall k | 0 <= k < |r.requests| && Opens(r.methods, r.requests[k])
      ensures HeldByMain(r.main, k) || Started(k) in r.out
    {
      if e.MainSend? { assert r.out[|s.out|] == s.main.frame; }
      if Started(k) in s.out {
        var i :| 0 <= i < |s.out| && s.out[i] == Started(k);
        assert r.out[i] == Started(k);
      }
    }
  }

  lemma AnnouncedOnceStep(s: State, e: Event)
    requires Inv(s) && AnnouncedOnce(s) && Enabled(s, e)
    ensures AnnouncedOnce(Next(s, e))
  {
    if e.Dispatch? {
      DispatchKeepsOnce(s, e.ok);
    } else if e.MainSend? || e.FutureSend? || e.StreamSend? {
      SendKeepsOnce(s, e);
    } else {
      hide Inv, OutOk, TasksOk;
    }
  }

  lemma {:induction false} RunAnnouncesOnce(s: State, es: seq<Event>)
    requires Inv(s) && AnnouncedOnce(s) && IsRun(s, es)
    ensures AnnouncedOnce(Run(s, es))
    decreases |es|
  {
    if es != [] {
      StepKeepsInv(s, es[0]);
      AnnouncedOnceStep(s, es[0]);
      RunAnnouncesOnce(Next(s, es[0]), es[1..]);
    }
  }

  /** In every run the channel is given exactly one announcement for each duplex call that opens streams, and no other. */
  lemma StartedExactlyOnce(methods: map<string, Kind>, es: seq<Event>, k: nat)
    requires IsRun(Start(methods), es) && k < |Run(Start(methods), es).requests|
    ensures var s := Run(Start(methods), es);
            && (Started(k) in s.out || (s.main.Blocked? && s.main.frame == Started(k))
                <==> Opens(methods, s.requests[k]))
            && forall i, j :: 0 <= i < j < |s.out| ==> !(s.out[i] == s.out[j] == Started(k))
  {
    RunKeepsInv(Start(methods), es);
    RunAnnouncesOnce(Start(methods), es);
  }

  ghost predicate GotNothing(requests: seq<Incoming>) {
    exists k :: 0 <= k < |requests| && requests[k] == Response(None)
  }

  lemma PanicStep(s: State, e: Event)
    requires Enabled(s, e) && (s.main.Panicked? <==> GotNothing(s.requests))
    ensures Next(s, e).main.Panicked? <==> GotNothing(Next(s, e).requests)
  {
    var r := Next(s, e);
    assert forall k :: 0 <= k < |s.requests| ==> r.requests[k] == s.requests[k];
    if e.Dispatch? {
      assert r.requests[|s.requests|] == s.main.todo[0];
    }
  }

  lemma {:induction false} PanickedIff(s: State, es: seq<Event>)
    requires IsRun(s, es) && (s.main.Panicked? <==> GotNothing(s.requests))
    ensures Run(s, es).main.Panicked? <==> GotNothing(Run(s, es).requests)
    decreases |es|
  {
    if es != [] {
      PanicStep(s, es[0]);
      PanickedIff(Next(s, es[0]), es[1..]);
    }
  }

  /** Over every run, the select task is gone if and only if a message with neither a method nor an id was dispatched. */
  lemma PanicsExactly(methods: map<string, Kind>, es: seq<Event>)
    requires IsRun(Start(methods), es)
    ensures Run(Start(methods), es).main.Panicked? <==> GotNothing(Run(Start(methods), es).requests)
  {
    PanickedIff(Start(methods), es);
  }

  // ---- announcements come before answers ------------------------------------------------

  ghost predicate Announced(out: seq<Frame>, n: nat, k: nat)
    requires n <= |out|
  {
    exists j :: 0 <= j < n && out[j] == Started(k)
  }

  /** Where request `k` is not yet announced, nothing of it has been sent or spawned. */
  ghost predicate AnnouncedFirst(s: State) {
    && (forall i :: 0 <= i < |s.out| && s.out[i].Reply? && s.out[i].k < |s.requests| && Opens(s.methods, s.requests[s.out[i].k]) ==>
          Announced(s.out, i, s.out[i].k))
    && (forall k :: k in s.futures && k < |s.requests| && Opens(s.methods, s.requests[k]) ==>
          Announced(s.out, |s.out|, k))
    && (forall i :: 0 <= i < |s.out| && s.out[i].Streamed? ==> Announced(s.out, i, s.out[i].k))
  }

  lemma AnnouncedGrows(out: seq<Frame>, f: Frame, n: nat, k: nat)
    requires n <= |out|
    ensures Announced(out, n, k) ==> Announced(out + [f], n, k) && Announced(out + [f], n + 1, k)
    ensures f == Started(k) ==> Announced(out + [f], |out| + 1, k)
  {
    if Announced(out, n, k) {
      var j :| 0 <= j < n && out[j] == Started(k);
      assert (out + [f])[j] == Started(k);
    }
    assert (out + [f])[|out|] == f;
  }

  lemma SendKeepsAnnounced(s: State, e: Event)
    requires Inv(s) && AnnouncedFirst(s) && Enabled(s, e) && (e.MainSend? || e.FutureSend? || e.StreamSend?)
    ensures AnnouncedFirst(Next(s, e))
  {
    var r := Next(s, e);
    var f := r.out[|s.out|];
    forall i | 0 <= i < |r.out| && r.out[i].Reply? && Opens(r.methods, r.requests[r.out[i].k])
      ensures Announced(r.out, i, r.out[i].k)
    {
      AnnouncedGrows(s.out, f, i, r.out[i].k);
    }
    forall k | k in r.futures && k < |r.requests| && Opens(r.methods, r.requests[k])
      ensures Announced(r.out, |r.out|, k)
    {
      AnnouncedGrows(s.out, f, |s.out|, k);
    }
    forall i | 0 <= i < |r.out| && r.out[i].Streamed? ensures Announced(r.out, i, r.out[i].k) {
      if i < |s.out| {
        AnnouncedGrows(s.out, f, i, r.out[i].k);
      } else {
        var j :| 0 <= j < |s.out| && s.out[j] == Started(f.k);
        assert r.out[j] == Started(f.k);
      }
    }
  }

  lemma DispatchKeepsAnnounced(s: State, ok: bool)
    requires Inv(s) && AnnouncedFirst(s) && Enabled(s, Dispatch(ok))
    ensures AnnouncedFirst(NextDispatch(s, ok))
  {
    var r := NextDispatch(s, ok);
    forall i | 0 <= i < |r.out| && r.out[i].Reply? && Opens(r.methods, r.requests[r.out[i].k])
      ensures Announced(r.out, i, r.out[i].k)
    {
      assert r.requests[r.out[i].k] == s.requests[r.out[i].k];
    }
    forall k | k in r.futures && k < |r.requests| && Opens(r.methods, r.requests[k])
      ensures Announced(r.out, |r.out|, k)
    {
      if k < |s.requests| { assert r.requests[k] == s.requests[k]; }
    }
  }

  lemma {:induction false} RunKeepsAnnounced(s: State, es: seq<Event>)
    requires Inv(s) && AnnouncedFirst(s) && IsRun(s, es)
    ensures AnnouncedFirst(Run(s, es))
    decreases |es|
  {
    if es != [] {
      StepKeepsInv(s, es[0]);
      match es[0] {
        case Dispatch(ok) => DispatchKeepsAnnounced(s, ok);
        case MainSend => SendKeepsAnnounced(s, es[0]);
        case FutureSend(_) => SendKeepsAnnounced(s, es[0]);
        case StreamSend(_) => SendKeepsAnnounced(s, es[0]);
        case _ =>
      }
      RunKeepsAnnounced(Next(s, es[0]), es[1..]);
    }
  }

  /** The streams of a duplex call are announced before the call is answered and before anything is sent for them. */
  lemma StartedBeforeReply(methods: map<string, Kind>, es: seq<Event>, i: nat)
    requires IsRun(Start(methods), es)
    requires var s := Run(Start(methods), es);
             && i < |s.out| && s.out[i].k < |s.requests|
             && (s.out[i].Streamed? || (s.out[i].Reply? && Opens(methods, s.requests[s.out[i].k])))
    ensures Announced(Run(Start(methods), es).out, i, Run(Start(methods), es).out[i].k)
  {
    RunKeepsInv(Start(methods), es);
    RunKeepsAnnounced(Start(methods), es);
  }

  // ---- when a read burst completes ---------------------------------------------------------

  /** The select task itself must send a frame for this message. */
  predicate NeedsSlot(methods: map<string, Kind>, m: Incoming) {
    && m.Request?
    && if m.method_ in methods && !methods[m.method_].Sync? then methods[m.method_].Duplex? && m.paramsOk
       else m.id.Some?
  }

  function Slots(methods: map<string, Kind>, todo: seq<Incoming>): nat {
    if todo == [] then 0 else (if NeedsSlot(methods, todo[0]) then 1 else 0) + Slots(methods, todo[1..])
  }

  /** How many frames the select task still has to send in this burst. */
  function Demand(s: State): nat {
    match s.main
    case Burst(todo) => Slots(s.methods, todo)
    case Blocked(_, _, todo) => 1 + Slots(s.methods, todo)
    case _ => 0
  }

  /** A message with neither method nor id makes the dispatcher panic. */
  predicate Calm(main: Main) {
    match main
    case Burst(todo) => forall i :: 0 <= i < |todo| ==> todo[i] != Response(None)
    case Blocked(_, _, todo) => forall i :: 0 <= i < |todo| ==> todo[i] != Response(None)
    case _ => true
  }

  predicate InBurst(s: State) {
    s.main.Burst? || s.main.Blocked?
  }

  /** The run stays inside one burst: the select task is back at `select!` at its end at the earliest. */
  predicate OneBurst(s: State, es: seq<Event>)
    requires IsRun(s, es)
    decreases |es|
  {
    es != [] ==> InBurst(s) && OneBurst(Next(s, es[0]), es[1..])
  }

  /** The sends of spawned tasks, be they answers or the traffic of streams. */
  function OtherSends(es: seq<Event>): nat {
    if es == [] then 0 else (if es[0].FutureSend? || es[0].StreamSend? then 1 else 0) + OtherSends(es[1..])
  }

  lemma BurstStep(s: State, e: Event)
    requires Enabled(s, e) && InBurst(s) && Calm(s.main)
    ensures var r := Next(s, e);
            && Calm(r.main) && (InBurst(r) || r.main.AtSelect?)
            && Occupancy(r) + Demand(r) == Occupancy(s) + Demand(s) + (if e.FutureSend? || e.StreamSend? then 1 else 0)
  {
    if e.Dispatch? {
      var todo := s.main.todo;
      assert todo[0] != Response(None);
      forall i | 0 <= i < |todo[1..]| ensures todo[1..][i] != Response(None) {
        assert todo[1..][i] == todo[i + 1];
      }
    }
  }

  /** Nothing leaves the channel during a burst, so room taken is room gone. */
  lemma {:induction false} BurstAccount(s: State, es: seq<Event>)
    requires IsRun(s, es) && OneBurst(s, es) && InBurst(s) && Calm(s.main)
    ensures var r := Run(s, es);
            && Calm(r.main) && (InBurst(r) || r.main.AtSelect?)
            && Occupancy(r) + Demand(r) == Occupancy(s) + Demand(s) + OtherSends(es)
    decreases |es|
  {
    if es != [] {
      BurstStep(s, es[0]);
      var s1 := Next(s, es[0]);
      if InBurst(s1) {
        BurstAccount(s1, es[1..]);
      } else {
        assert es[1..] == [];
      }
    }
  }

  /**
   * A burst that starts with occupancy k, n frames to send and m sends by
   * spawned tasks: if it has completed then k + n + m <= 8; if it has not and
   * k + n + m <= 8, then the select task can take a step.
   */
  lemma BurstCompletesOnlyWithRoom(s: State, es: seq<Event>)
    requires Inv(s) && IsRun(s, es) && OneBurst(s, es) && InBurst(s) && Calm(s.main)
    ensures var r := Run(s, es); var need := Occupancy(s) + Demand(s) + OtherSends(es);
            && (r.main.AtSelect? ==> need <= 8)
            && (need <= 8 && !r.main.AtSelect? ==>
                  Enabled(r, Dispatch(true)) || Enabled(r, EndBurst) || Enabled(r, MainSend))
  {
    BurstAccount(s, es);
    RunKeepsInv(s, es);
  }

  /** The steps of the select task alone, until it is back or stuck. */
  function MainRun(s: State): (es: seq<Event>)
    requires Calm(s.main)
    ensures IsRun(s, es) && OneBurst(s, es) && OtherSends(es) == 0
    ensures InBurst(s) ==> Run(s, es).main.AtSelect? || (Run(s, es).main.Blocked? && Occupancy(Run(s, es)) >= CAPACITY)
    decreases if InBurst(s) then 2 * |s.main.todo| + (if s.main.Blocked? then 2 else 1) else 0
  {
    if !InBurst(s) then []
    else
      var e := if s.main.Blocked? then MainSend else if s.main.todo == [] then EndBurst else Dispatch(true);
      if !Enabled(s, e) then []
      else
        BurstStep(s, e);
        var rest := MainRun(Next(s, e));
        assert ([e] + rest)[1..] == rest;
        [e] + rest
  }

  /** Without spawned senders: the burst completes if and only if k + n <= 8. */
  lemma BurstCompletes(s: State)
    requires Inv(s) && InBurst(s) && Calm(s.main)
    ensures Run(s, MainRun(s)).main.AtSelect? <==> Occupancy(s) + Demand(s) <= 8
  {
    BurstAccount(s, MainRun(s));
    RunKeepsInv(s, MainRun(s));
  }

  /** With the channel full the select task waits for itself: no step of any task ever frees it. */
  lemma {:induction false} StuckForever(s: State, es: seq<Event>)
    requires IsRun(s, es) && s.main.Blocked? && Occupancy(s) >= 8
    ensures Run(s, es).main == s.main && Occupancy(Run(s, es)) == Occupancy(s)
    decreases |es|
  {
    if es != [] {
      StuckForever(Next(s, es[0]), es[1..]);
    }
  }
}
