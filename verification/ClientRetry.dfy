/** The client's errors, its retry configuration and its retry loop. */
module ClientRetry {
  import opened Arith
  import opened Backoff

  datatype MadrpcError =
    | Transport(message: string)
    | JsonSerialization
    | Timeout(ms: nat)
    | NodeUnavailable(message: string)
    | JavaScriptExecution(message: string)
    | InvalidResponse(message: string)
    | AllNodesFailed
    | InvalidRequest(message: string)
    | Io
    | Connection(message: string)
    | PoolTimeout(ms: nat)
    | PoolExhausted(message: string)
    | PayloadTooLarge(size: nat, limit: nat)

  datatype Result<+V, +E> = Ok(value: V) | Err(error: E)
  datatype Nullable = Null | Json(text: string)

  type Outcome = Result<Nullable, MadrpcError>

  predicate IsRetryable(e: MadrpcError) {
    e.Transport? || e.Timeout? || e.NodeUnavailable? || e.Io? || e.Connection? || e.PoolTimeout?
  }

  // ---------- one attempt ----------

  const PARSE_ERROR := -32700
  const INVALID_REQUEST := -32600
  const METHOD_NOT_FOUND := -32601
  const INVALID_PARAMS := -32602
  const INTERNAL_ERROR := -32603
  const REQUEST_TOO_LARGE := -32001

  datatype Body =
    | Lost                                // the body cannot be read
    | Garbled                             // the body is not a JSON-RPC response
    | Failure(code: int, message: string) // a response with an error
    | Answer(value: Nullable)             // a response with a result, or with none

  /** What one HTTP exchange brings. */
  datatype Reply =
    | Unserializable
    | Unbuildable
    | NoConnection
    | Http(status: nat, body: Body)

  function ClassifyCode(code: int, message: string): MadrpcError {
    if code == PARSE_ERROR then InvalidResponse("Parse error: " + message)
    else if code == INVALID_REQUEST then InvalidResponse("Invalid request: " + message)
    else if code == METHOD_NOT_FOUND then InvalidRequest("Method not found: " + message)
    else if code == INVALID_PARAMS then InvalidRequest("Invalid params: " + message)
    else if code == INTERNAL_ERROR then NodeUnavailable("Internal error: " + message)
    else if -32099 <= code <= -32001 then NodeUnavailable(message)
    else if code == REQUEST_TOO_LARGE then InvalidRequest(message)
    else JavaScriptExecution(message)
  }

  /** `try_call`. */
  function TryCall(reply: Reply): Outcome {
    match reply
    case Unserializable => Err(JsonSerialization)
    case Unbuildable => Err(InvalidRequest("Invalid HTTP request"))
    case NoConnection => Err(Transport("HTTP request failed"))
    case Http(status, body) =>
      if !(200 <= status < 300) then
        if 500 <= status < 600 then Err(Transport("HTTP error")) else Err(InvalidResponse("HTTP error"))
      else
        match body
        case Lost => Err(Transport("Failed to read response body"))
        case Garbled => Err(InvalidResponse("Failed to parse JSON-RPC response"))
        case Failure(code, message) => Err(ClassifyCode(code, message))
        case Answer(value) => Ok(value)
  }

  /** The error codes that mean that the node, not the request, is at fault. */
  predicate NodeFault(code: int) {
    code == INTERNAL_ERROR || -32099 <= code <= -32001
  }

  predicate Retries(reply: Reply) {
    TryCall(reply).Err? && IsRetryable(TryCall(reply).error)
  }

  /** No connection, a server status, a lost body, or an error code of the node's. */
  predicate Transient(reply: Reply) {
    || reply.NoConnection?
    || (reply.Http? && 500 <= reply.status < 600)
    || (reply.Http? && 200 <= reply.status < 300 &&
        (reply.body.Lost? || (reply.body.Failure? && NodeFault(reply.body.code))))
  }

  /** The client tries again after exactly these replies. A request that is too large (-32001) is among them, its own
      arm being unreachable. */
  lemma RetriedReplies(reply: Reply)
    ensures Retries(reply) <==> Transient(reply)
    ensures reply == Http(200, Failure(REQUEST_TOO_LARGE, "")) ==> Retries(reply)
  {
  }

  // ---------- configuration and delays ----------

  /** Times in milliseconds. */
  datatype RetryPolicy = RetryPolicy(maxAttempts: nat, base: nat, max: nat, multiplier: real)

  datatype ConfigError = InvalidMaxAttempts | InvalidBackoffMultiplier | InvalidDelayRange

  function NewPolicy(maxAttempts: nat, base: nat, max: nat, multiplier: real): Result<RetryPolicy, ConfigError> {
    if maxAttempts == 0 then Err(InvalidMaxAttempts)
    else if multiplier <= 0.0 then Err(InvalidBackoffMultiplier)
    else if max < base then Err(InvalidDelayRange)
    else Ok(RetryPolicy(maxAttempts, base, max, multiplier))
  }

  predicate Valid(p: RetryPolicy) {
    p.maxAttempts > 0 && p.multiplier > 0.0 && p.base <= p.max
  }

  /** Exactly the valid settings are accepted, unchanged; and in exactly those with attempts and a multiplier the first
      delay, before jitter, is the base. */
  lemma NewPolicyIff(maxAttempts: nat, base: nat, max: nat, multiplier: real)
    requires max <= U64_MAX
    ensures var made := NewPolicy(maxAttempts, base, max, multiplier);
            var p := RetryPolicy(maxAttempts, base, max, multiplier);
            && (made.Ok? <==> Valid(p)) && (made.Ok? ==> made.value == p)
            && (Valid(p) <==> maxAttempts > 0 && multiplier > 0.0 && Capped(base, multiplier, max, 0) == base)
  {
    assert base as real * PowReal(multiplier, 0) == base as real;
  }

  /** The two random draws of a delay. */
  datatype Roll = Roll(flip: bool, raw: nat)

  function Jitter(delay: nat, roll: Roll): nat {
    var jitter := Truncate(delay as real * 0.1, U64_MAX);
    if jitter > 0 && roll.flip then roll.raw % jitter else 0
  }

  /** `calculate_delay` after the failed attempt `attempt`, counting from 1. */
  function Delay(p: RetryPolicy, attempt: nat, roll: Roll): nat
    requires attempt > 0
  {
    var delay := Capped(p.base, p.multiplier, p.max, attempt - 1);
    delay + Jitter(delay, roll)
  }

  lemma Tenth(d: nat)
    requires d <= U64_MAX
    ensures Truncate(d as real * 0.1, U64_MAX) == d / 10
  {
    var q, r := d / 10, d % 10;
    assert d as real * 0.1 == q as real + r as real * 0.1;
  }

  /** The delays the jitter can produce are exactly those from the capped backoff up to, but not including, a tenth
      more: it never shortens a wait, and can exceed the cap. */
  lemma DelaysAre(p: RetryPolicy, attempt: nat, v: nat)
    requires attempt > 0 && p.max <= U64_MAX
    ensures var d := Capped(p.base, p.multiplier, p.max, attempt - 1);
            && d <= p.max
            && ((exists roll :: Delay(p, attempt, roll) == v) <==> d <= v < d + Max(1, d / 10))
  {
    hide PowReal, Delay;
    var d := Capped(p.base, p.multiplier, p.max, attempt - 1);
    Tenth(d);
    DelayIs(p, attempt);
    if d <= v < d + Max(1, d / 10) {
      var roll := Roll(true, v - d);
      if d / 10 > 0 {
        SmallMod(v - d, d / 10);
      }
      assert Delay(p, attempt, roll) == v;
    }
  }

  lemma DelayIs(p: RetryPolicy, attempt: nat)
    requires attempt > 0
    ensures var d := Capped(p.base, p.multiplier, p.max, attempt - 1);
            forall roll :: Delay(p, attempt, roll) == d + Jitter(d, roll)
  {
  }

  /** With a natural multiplier the possible delays after attempt `attempt` are those from base times multiplier to the
      number of attempts before it, within the maximum, up to a tenth more. */
  lemma DelaysNatural(p: RetryPolicy, m: nat, attempt: nat, v: nat)
    requires attempt > 0 && p.max <= U64_MAX && p.multiplier == m as real
    ensures var d := Min(p.base * Pow(m, attempt - 1), p.max);
            (exists roll :: Delay(p, attempt, roll) == v) <==> d <= v < d + Max(1, d / 10)
  {
    hide Delay, Capped, Pow;
    DelaysAre(p, attempt, v);
    CappedNatural(p.base, m, p.max, attempt - 1);
  }

  /** For the same settings the client's delay before jitter is the orchestrator's backoff, if the multiplier is a
      natural number; the base of a valid policy is within its cap. */
  lemma DelayIsBackoff(p: RetryPolicy, c: RetryConfig, m: nat, attempt: nat, raw: nat)
    requires Valid(p) && p.max <= U64_MAX && attempt > 0
    requires c.initial == p.base && c.max == p.max && c.multiplier == p.multiplier == m as real
    ensures Delay(p, attempt, Roll(false, raw)) == BackoffAt(c, attempt - 1)
  {
    IteratedIsClosedForm(c, m);
  }

  // ---------- the loop ----------

  datatype CallLog = CallLog(outcome: Outcome, attempts: nat, slept: seq<nat>)

  /** The rest of the loop from attempt `attempt`; `replies(k)` and `rolls(k)` belong to attempt `k`. */
  function CallFrom(p: RetryPolicy, replies: nat -> Reply, rolls: nat -> Roll, attempt: nat): CallLog
    requires 1 <= attempt <= p.maxAttempts
    decreases p.maxAttempts - attempt
  {
    var outcome := TryCall(replies(attempt));
    if outcome.Err? && IsRetryable(outcome.error) && attempt < p.maxAttempts then
      var rest := CallFrom(p, replies, rolls, attempt + 1);
      rest.(slept := [Delay(p, attempt, rolls(attempt))] + rest.slept)
    else CallLog(outcome, attempt, [])
  }

  const Exhausted := InvalidResponse("All retry attempts exhausted")

  function Call(p: RetryPolicy, replies: nat -> Reply, rolls: nat -> Roll): CallLog {
    if p.maxAttempts == 0 then CallLog(Err(Exhausted), 0, []) else CallFrom(p, replies, rolls, 1)
  }

  lemma {:induction false} CallFromIs(p: RetryPolicy, replies: nat -> Reply, rolls: nat -> Roll, attempt: nat)
    requires 1 <= attempt <= p.maxAttempts
    ensures var l := CallFrom(p, replies, rolls, attempt);
            && attempt <= l.attempts <= p.maxAttempts
            && l.outcome == TryCall(replies(l.attempts))
            && (forall k :: attempt <= k < l.attempts ==> Retries(replies(k)))
            && (l.attempts < p.maxAttempts ==> !Retries(replies(l.attempts)))
            && |l.slept| == l.attempts - attempt
            && (forall k :: attempt <= k < l.attempts ==> l.slept[k - attempt] == Delay(p, k, rolls(k)))
    decreases p.maxAttempts - attempt
  {
    hide TryCall, Delay, IsRetryable;
    if Retries(replies(attempt)) && attempt < p.maxAttempts {
      CallFromIs(p, replies, rolls, attempt + 1);
    }
  }

  /** A call ends with the first reply that is not to be retried, or with the last attempt's, and its result is that
      reply's; before every further attempt it has waited once. */
  lemma CallEndsAtFirstSettled(p: RetryPolicy, replies: nat -> Reply, rolls: nat -> Roll)
    requires p.maxAttempts > 0
    ensures var l := Call(p, replies, rolls);
            && 1 <= l.attempts <= p.maxAttempts
            && l.outcome == TryCall(replies(l.attempts))
            && (forall k :: 1 <= k < l.attempts ==> Retries(replies(k)))
            && (l.attempts < p.maxAttempts ==> !Retries(replies(l.attempts)))
            && |l.slept| == l.attempts - 1
            && (forall k :: 1 <= k < l.attempts ==> l.slept[k - 1] == Delay(p, k, rolls(k)))
  {
    CallFromIs(p, replies, rolls, 1);
  }

  lemma SettledFirst(p: RetryPolicy, replies: nat -> Reply, rolls: nat -> Roll, k: nat)
    requires 1 <= k <= p.maxAttempts && !Retries(replies(k)) && forall j: nat :: 1 <= j < k ==> Retries(replies(j))
    ensures Call(p, replies, rolls).outcome == TryCall(replies(k))
  {
    hide TryCall, Retries;
    CallEndsAtFirstSettled(p, replies, rolls);
  }

  /** A call succeeds exactly when some attempt does that only failures of the retried kinds precede. */
  lemma SucceedsIffSomeAttemptDoes(p: RetryPolicy, replies: nat -> Reply, rolls: nat -> Roll)
    requires p.maxAttempts > 0
    ensures Call(p, replies, rolls).outcome.Ok? <==>
            exists k: nat :: 1 <= k <= p.maxAttempts && TryCall(replies(k)).Ok? &&
                             forall j: nat :: 1 <= j < k ==> Retries(replies(j))
  {
    hide TryCall;
    CallEndsAtFirstSettled(p, replies, rolls);
    if k: nat :| 1 <= k <= p.maxAttempts && TryCall(replies(k)).Ok? &&
                 forall j: nat :: 1 <= j < k ==> Retries(replies(j))
    {
      SettledFirst(p, replies, rolls, k);
    }
  }

  /** A response with a success status that carries an error. */
  predicate Fails(r: Reply) {
    r.Http? && 200 <= r.status < 300 && r.body.Failure?
  }

  /** What a call gives its caller, reply by reply. The reply that settles it is the first that is not transient, or the
      last attempt's. The call has a value exactly if that reply is a success status with a result, and it is that
      result. Every other reply becomes an error of its own kind; the message of an error response is passed on. */
  lemma CallAnswers(p: RetryPolicy, replies: nat -> Reply, rolls: nat -> Roll, v: Nullable)
    requires p.maxAttempts > 0
    ensures var l := Call(p, replies, rolls);
            var o, r := l.outcome, replies(l.attempts);
            && 1 <= l.attempts <= p.maxAttempts
            && (forall k :: 1 <= k < l.attempts ==> Transient(replies(k)))
            && (l.attempts < p.maxAttempts ==> !Transient(r))
            && (o == Ok(v) <==> r.Http? && 200 <= r.status < 300 && r.body == Answer(v))
            && (r.Unserializable? ==> o == Err(JsonSerialization))
            && (r.Unbuildable? ==> o.Err? && o.error.InvalidRequest?)
            && (r.NoConnection? ==> o.Err? && o.error.Transport?)
            && (r.Http? && 500 <= r.status < 600 ==> o.Err? && o.error.Transport?)
            && (r.Http? && !(200 <= r.status < 300 || 500 <= r.status < 600) ==> o.Err? && o.error.InvalidResponse?)
            && (r.Http? && 200 <= r.status < 300 && r.body.Lost? ==> o.Err? && o.error.Transport?)
            && (r.Http? && 200 <= r.status < 300 && r.body.Garbled? ==> o.Err? && o.error.InvalidResponse?)
            && (Fails(r) ==> o.Err? && FailureIs(r.body.code, r.body.message, o.error))
  {
    hide ClassifyCode, IsRetryable, NodeFault;
    CallEndsAtFirstSettled(p, replies, rolls);
    forall k | 1 <= k <= Call(p, replies, rolls).attempts ensures Retries(replies(k)) <==> Transient(replies(k)) {
      RetriedReplies(replies(k));
    }
    var r := replies(Call(p, replies, rolls).attempts);
    if Fails(r) {
      Classified(r.body.code, r.body.message);
    }
  }

  /** The error that a response with an error code stands for. */
  ghost predicate FailureIs(code: int, message: string, e: MadrpcError) {
    && (e.InvalidResponse? <==> code in {-32700, -32600})
    && (e.InvalidRequest? <==> code in {-32601, -32602})
    && (e.NodeUnavailable? <==> code == -32603 || -32099 <= code < -32000)
    && (e.JavaScriptExecution? <==> code !in {-32700, -32600, -32601, -32602, -32603} && !(-32099 <= code < -32000))
    && Message(e) == (
         if code == -32700 then "Parse error: " + message
         else if code == -32600 then "Invalid request: " + message
         else if code == -32601 then "Method not found: " + message
         else if code == -32602 then "Invalid params: " + message
         else if code == -32603 then "Internal error: " + message
         else message)
  }

  function Message(e: MadrpcError): string {
    match e
    case InvalidResponse(m) => m
    case InvalidRequest(m) => m
    case NodeUnavailable(m) => m
    case JavaScriptExecution(m) => m
    case _ => ""
  }

  lemma Classified(code: int, message: string)
    ensures FailureIs(code, message, ClassifyCode(code, message))
  {
  }

  /** A policy without attempts, which the validating constructor refuses, sends nothing. */
  lemma NoAttempts(p: RetryPolicy, replies: nat -> Reply, rolls: nat -> Roll)
    requires p.maxAttempts == 0
    ensures Call(p, replies, rolls) == CallLog(Err(InvalidResponse("All retry attempts exhausted")), 0, [])
  {
  }
}
