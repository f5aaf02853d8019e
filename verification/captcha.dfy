/** `YesCaptchaSolver`: `create_task` opens a task and `get_result` polls it
    until the service reports it ready, reports an error, or `max_wait`
    seconds have passed. The service's replies and the clock readings are
    given as a trace. */
module Captcha {
  import opened Results

  /** The default `max_wait` of `get_result`, in seconds. */
  const MaxWait: int := 120
  /** The pause after each pending reply, in seconds. */
  const PollInterval: int := 3

  /** Why solving failed: the request or its JSON decoding raised, the
      service reported a non-zero `errorId` (or none), a ready reply had a
      `null` solution, or time ran out. */
  datatype CaptchaError = TransportFailed | ServiceError(errorId: Option<int>) | MalformedSolution | TimedOut

  /** The decoded reply of `createTask`, or a request that raised. */
  datatype CreateReply = CreateUnreachable | CreateReplied(errorId: Option<int>, taskId: Option<string>)

  /** `create_task`: the `taskId` field (which may be missing) when
      `errorId` is 0, and an error otherwise. */
  function CreateTask(reply: CreateReply): (r: Result<Option<string>, CaptchaError>)
    ensures r.Ok? <==> reply.CreateReplied? && reply.errorId == Some(0)
    ensures r.Ok? ==> r.value == reply.taskId
    ensures r.Err? && reply.CreateReplied? ==> r.error == ServiceError(reply.errorId)
  {
    match reply
    case CreateUnreachable => Err(TransportFailed)
    case CreateReplied(errorId, taskId) =>
      if errorId == Some(0) then Ok(taskId) else Err(ServiceError(errorId))
  }

  /** The `solution` field of a reply: missing, `null`, or an object with
      a possibly missing `gRecaptchaResponse`. */
  datatype Solution = Absent | Null | Present(token: Option<string>)

  /** `.get("gRecaptchaResponse")` on a solution that is not `null`: the
      token, or `None` when the field or the whole object is missing. */
  function TokenOf(solution: Solution): Option<string>
    requires solution != Null
  {
    if solution.Present? then solution.token else None
  }

  datatype PollReply = PollUnreachable | Polled(errorId: Option<int>, status: Option<string>, solution: Solution)

  /** One turn of the `get_result` loop: the seconds elapsed when the loop
      condition is checked, and the reply the request made then receives. */
  datatype Poll = Poll(elapsed: int, reply: PollReply)

  /** A reply after which the loop sleeps and polls again. */
  predicate Pending(reply: PollReply) {
    reply.Polled? && reply.errorId == Some(0) && reply.status != Some("ready")
  }

  /** What a reply that ends the loop makes `get_result` return or raise. */
  function Decide(reply: PollReply): (r: Result<Option<string>, CaptchaError>)
    requires !Pending(reply)
    ensures r != Err(TimedOut)
    ensures r.Ok? <==> reply.Polled? && reply.errorId == Some(0) && reply.solution != Null
    ensures r.Ok? ==> r.value == TokenOf(reply.solution)
  {
    match reply
    case PollUnreachable => Err(TransportFailed)
    case Polled(errorId, status, solution) =>
      if errorId != Some(0) then Err(ServiceError(errorId))
      else
        match solution
        case Absent => Ok(None)
        case Null => Err(MalformedSolution)
        case Present(token) => Ok(token)
  }

  /** The result of polling and the number of requests made. */
  datatype PollOutcome = PollOutcome(result: Result<Option<string>, CaptchaError>, requests: nat)

  /** The loop from turn `k`. A trace that ends stands for a clock that has
      passed the deadline. */
  function PollFrom(polls: seq<Poll>, k: nat, maxWait: int): (o: PollOutcome)
    requires k <= |polls|
    decreases |polls| - k
    ensures k <= o.requests <= |polls|
    ensures forall j :: k <= j < o.requests ==> polls[j].elapsed < maxWait
    ensures o.result == Err(TimedOut) ==>
              (forall j :: k <= j < o.requests ==> Pending(polls[j].reply))
              && (o.requests == |polls| || polls[o.requests].elapsed >= maxWait)
    ensures o.result != Err(TimedOut) ==>
              k < o.requests
              && (forall j :: k <= j < o.requests - 1 ==> Pending(polls[j].reply))
              && !Pending(polls[o.requests - 1].reply)
              && o.result == Decide(polls[o.requests - 1].reply)
  {
    if k == |polls| || polls[k].elapsed >= maxWait then PollOutcome(Err(TimedOut), k)
    else if Pending(polls[k].reply) then PollFrom(polls, k + 1, maxWait)
    else PollOutcome(Decide(polls[k].reply), k + 1)
  }

  /** `get_result(task_id, max_wait)`: raises at the first reply that fails or
      carries a non-zero `errorId`, returns the token at the first `ready`
      reply, and raises a timeout once the deadline passes while the task
      is pending. Every request is made before the deadline. */
  function GetResult(polls: seq<Poll>, maxWait: int): (o: PollOutcome)
    ensures o.requests <= |polls|
    ensures forall j :: 0 <= j < o.requests ==> polls[j].elapsed < maxWait
    ensures o.result == Err(TimedOut) ==>
              (forall j :: 0 <= j < o.requests ==> Pending(polls[j].reply))
              && (o.requests == |polls| || polls[o.requests].elapsed >= maxWait)
    ensures o.result != Err(TimedOut) ==>
              0 < o.requests
              && (forall j :: 0 <= j < o.requests - 1 ==> Pending(polls[j].reply))
              && !Pending(polls[o.requests - 1].reply)
              && o.result == Decide(polls[o.requests - 1].reply)
  {
    PollFrom(polls, 0, maxWait)
  }

  /** With a clock that advances by the poll interval at least, the loop makes
      at most one request per interval of `max_wait`: 40 requests for the
      default of 120 seconds. */
  lemma RequestBound(polls: seq<Poll>, maxWait: int)
    requires forall j :: 0 <= j < |polls| ==> polls[j].elapsed >= PollInterval * j
    ensures GetResult(polls, maxWait).requests == 0
            || PollInterval * (GetResult(polls, maxWait).requests - 1) < maxWait
  {
    var n := GetResult(polls, maxWait).requests;
    if n > 0 {
      assert polls[n - 1].elapsed < maxWait;
    }
  }

  /** Replies after the one that ends the loop are never requested. */
  lemma {:induction false} LaterPollsIrrelevant(polls: seq<Poll>, more: seq<Poll>, k: nat, maxWait: int)
    requires k <= |polls|
    requires PollFrom(polls, k, maxWait).result != Err(TimedOut)
    decreases |polls| - k
    ensures PollFrom(polls + more, k, maxWait) == PollFrom(polls, k, maxWait)
  {
    var all := polls + more;
    assert all[k] == polls[k];
    if Pending(polls[k].reply) {
      LaterPollsIrrelevant(polls, more, k + 1, maxWait);
    }
  }

  /** `solve`: create the task, then poll it; an error in either step is
      raised to the caller, and polling starts only after a task was
      created. */
  function Solve(create: CreateReply, polls: seq<Poll>): (r: Result<Option<string>, CaptchaError>)
    ensures CreateTask(create).Err? ==> r == CreateTask(create)
    ensures CreateTask(create).Ok? ==> r == GetResult(polls, MaxWait).result
  {
    match CreateTask(create)
    case Err(e) => Err(e)
    case Ok(_) => GetResult(polls, MaxWait).result
  }

  /** A token comes back exactly when the task was created and a `ready`
      reply with a solution object arrived before the deadline, after only
      pending replies. */
  lemma SolveOk(create: CreateReply, polls: seq<Poll>)
    ensures Solve(create, polls).Ok? <==>
              create.CreateReplied? && create.errorId == Some(0)
              && exists k :: ReadyFirstAt(polls, k)
  {
    var o := GetResult(polls, MaxWait);
    if create.CreateReplied? && create.errorId == Some(0) {
      if o.result.Ok? {
        assert ReadyFirstAt(polls, o.requests - 1);
      }
      if k :| ReadyFirstAt(polls, k) {
        SkipPending(polls, 0, k, MaxWait);
      }
    }
  }

  /** The token `solve` returns is the `gRecaptchaResponse` of the first
      ready reply. */
  lemma SolveToken(create: CreateReply, polls: seq<Poll>, k: nat)
    requires create.CreateReplied? && create.errorId == Some(0)
    requires ReadyFirstAt(polls, k)
    ensures Solve(create, polls) == Ok(TokenOf(polls[k].reply.solution))
  {
    SkipPending(polls, 0, k, MaxWait);
  }

  /** A reply that yields a token. */
  predicate Ready(reply: PollReply) {
    reply.Polled? && reply.errorId == Some(0) && reply.status == Some("ready") && reply.solution != Null
  }

  /** Turn `k` is before the deadline and yields a token, and every turn
      before it was pending and before the deadline. */
  predicate ReadyFirstAt(polls: seq<Poll>, k: int) {
    && 0 <= k < |polls| && polls[k].elapsed < MaxWait && Ready(polls[k].reply)
    && forall j :: 0 <= j < k ==> Pending(polls[j].reply) && polls[j].elapsed < MaxWait
  }

  /** Pending turns before the deadline just pass control to the next one. */
  lemma {:induction false} SkipPending(polls: seq<Poll>, i: nat, k: nat, maxWait: int)
    requires i <= k <= |polls|
    requires forall j :: i <= j < k ==> Pending(polls[j].reply) && polls[j].elapsed < maxWait
    decreases k - i
    ensures PollFrom(polls, i, maxWait) == PollFrom(polls, k, maxWait)
  {
    if i < k {
      SkipPending(polls, i + 1, k, maxWait);
    }
  }
}
