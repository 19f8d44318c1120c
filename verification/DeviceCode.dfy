/**
 * Polling for a device code grant (section 3.5 of RFC 8628): sleep, ask, and
 * back off by five seconds whenever the server says to slow down, until the
 * code expires.
 */
module DeviceCode {
  const STEP_S := 5

  /** Clock ticks in a second. */
  const SECOND := 1_000_000_000

  datatype Response =
    | Granted
    | OAuthFailure(error: string)
    | StatusFailure(code: nat)
    | OtherFailure

  /** One poll as the environment decides it: the ticks it takes beyond the requested sleep, and its response. */
  datatype Poll = Poll(delay: nat, response: Response)

  /** A server slows the client down by an OAuth error or by the status 429. */
  predicate SlowsDown(r: Response) {
    r == OAuthFailure("slow_down") || r == StatusFailure(429)
  }

  function SlowDowns(env: seq<Poll>): nat {
    if env == [] then 0 else SlowDowns(env[..|env| - 1]) + (if SlowsDown(env[|env| - 1].response) then 1 else 0)
  }

  function Total(sleeps: seq<nat>): nat {
    if sleeps == [] then 0 else Total(sleeps[..|sleeps| - 1]) + sleeps[|sleeps| - 1]
  }

  function Delays(env: seq<Poll>): nat {
    if env == [] then 0 else Delays(env[..|env| - 1]) + env[|env| - 1].delay
  }

  lemma Beginnings()
    ensures Total([]) == 0 && SlowDowns([]) == 0 && Delays([]) == 0
  {
  }

  lemma TotalSnoc(sleeps: seq<nat>, n: nat)
    ensures Total(sleeps + [n]) == Total(sleeps) + n
  {
    assert (sleeps + [n])[..|sleeps|] == sleeps;
  }

  lemma NextPoll(env: seq<Poll>, i: nat)
    requires i < |env|
    ensures SlowDowns(env[..i + 1]) == SlowDowns(env[..i]) + (if SlowsDown(env[i].response) then 1 else 0)
    ensures Delays(env[..i + 1]) == Delays(env[..i]) + env[i].delay
  {
    assert env[..i + 1][..i] == env[..i];
  }

  /**
   * The polling loop for one device code, as far as `env` goes. It returns the
   * sleep before every poll and whether access was granted.
   */
  method PollForGrant(start: int, expiresIn: int, env: seq<Poll>) returns (sleeps: seq<nat>, granted: bool)
    ensures SleepsOf(sleeps, env, expiresIn)
    ensures forall i :: 0 <= i < |sleeps| - 1 ==> !env[i].response.Granted?
    ensures granted <==> sleeps != [] && env[|sleeps| - 1].response.Granted?
    ensures !granted && |sleeps| < |env| ==>
              1_000_000_000 * Total(sleeps) + Delays(env[..|sleeps|]) >= 1_000_000_000 * expiresIn
  {
    hide Total, SlowDowns, Delays;
    Beginnings();
    var now := start;
    var expiresAt := start + SECOND * expiresIn;
    var interval := STEP_S;
    sleeps, granted := [], false;
    assert env[..0] == [];
    while now < expiresAt && |sleeps| < |env|
      invariant SleepsOf(sleeps, env, expiresIn)
      invariant interval == STEP_S + STEP_S * SlowDowns(env[..|sleeps|])
      invariant now == start + SECOND * Total(sleeps) + Delays(env[..|sleeps|])
      invariant forall i :: 0 <= i < |sleeps| ==> !env[i].response.Granted?
      invariant !granted
      decreases |env| - |sleeps|
    {
      var n := |sleeps|;
      assert Total(sleeps) < expiresIn;
      assert (sleeps + [interval])[..n] == sleeps;
      TotalSnoc(sleeps, interval);
      NextPoll(env, n);
      sleeps := sleeps + [interval];
      now := now + SECOND * interval + env[n].delay;
      match env[n].response {
        case Granted =>
          granted := true;
          return;
        case OAuthFailure(error) => if error == "slow_down" { interval := interval + STEP_S; }
        case StatusFailure(code) => if code == 429 { interval := interval + STEP_S; }
        case OtherFailure =>
      }
    }
  }

  /** The sleeps of a run of the loop, as its contract describes them. */
  ghost predicate SleepsOf(sleeps: seq<nat>, env: seq<Poll>, expiresIn: int) {
    && |sleeps| <= |env|
    && (forall i :: 0 <= i < |sleeps| ==> sleeps[i] == 5 + 5 * SlowDowns(env[..i]))
    && (sleeps != [] ==> Total(sleeps[..|sleeps| - 1]) < expiresIn)
  }

  lemma {:induction false} TotalAtLeast(sleeps: seq<nat>)
    requires forall i :: 0 <= i < |sleeps| ==> sleeps[i] >= STEP_S
    ensures Total(sleeps) >= STEP_S * |sleeps|
  {
    if sleeps != [] {
      TotalAtLeast(sleeps[..|sleeps| - 1]);
    }
  }

  /** At most ceil(expires_in / 5) polls, and none for a code that has already expired. */
  lemma PollBound(sleeps: seq<nat>, env: seq<Poll>, expiresIn: int)
    requires SleepsOf(sleeps, env, expiresIn)
    ensures expiresIn <= 0 ==> sleeps == []
    ensures expiresIn > 0 ==> |sleeps| <= (expiresIn + 5 - 1) / 5
  {
    if sleeps != [] {
      TotalAtLeast(sleeps[..|sleeps| - 1]);
    }
  }

  lemma {:induction false} AllSlow(env: seq<Poll>)
    requires forall i :: 0 <= i < |env| ==> SlowsDown(env[i].response)
    ensures SlowDowns(env) == |env|
  {
    if env != [] {
      AllSlow(env[..|env| - 1]);
    }
  }

  lemma NextTriangle(n: nat)
    ensures STEP_S * n * (n + 1) + 2 * (STEP_S + STEP_S * n) == STEP_S * (n + 1) * (n + 1 + 1)
  {
  }

  lemma {:induction false} TotalWhenAllSlow(sleeps: seq<nat>, env: seq<Poll>)
    requires |sleeps| <= |env|
    requires forall i :: 0 <= i < |sleeps| ==> sleeps[i] == STEP_S + STEP_S * SlowDowns(env[..i])
    requires forall i :: 0 <= i < |sleeps| - 1 ==> SlowsDown(env[i].response)
    ensures 2 * Total(sleeps) == STEP_S * |sleeps| * (|sleeps| + 1)
    decreases |sleeps|
  {
    if sleeps != [] {
      var n := |sleeps| - 1;
      TotalWhenAllSlow(sleeps[..n], env);
      AllSlow(env[..n]);
      assert Total(sleeps) == Total(sleeps[..n]) + sleeps[n];
      hide Total, SlowDowns;
      assert sleeps[n] == STEP_S + STEP_S * n;
      NextTriangle(n);
    }
  }

  /** If every earlier poll was slowed down, poll n happens only while 5 * n * (n - 1) / 2 < expires_in. */
  lemma BackoffBound(sleeps: seq<nat>, env: seq<Poll>, expiresIn: int)
    requires SleepsOf(sleeps, env, expiresIn) && sleeps != []
    requires forall i :: 0 <= i < |sleeps| - 1 ==> SlowsDown(env[i].response)
    ensures 5 * |sleeps| * (|sleeps| - 1) / 2 < expiresIn
  {
    var n := |sleeps| - 1;
    TotalWhenAllSlow(sleeps[..n], env);
    assert STEP_S * n * (n + 1) == STEP_S * |sleeps| * (|sleeps| - 1);
  }
}
