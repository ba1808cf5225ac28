/** The Groq dispatcher: a pool of API clients, one per configured key,
    used round-robin, with every request retried on the next client until
    one succeeds or the budget of two attempts per client is spent; and the
    three operations built on it, each replacing a failed request by a
    fallback: a marker holding the start of the error for transcription, a
    fixed value for the other two. */
module Groq {
  import opened Common
  import opened Strings

  const GROQ_BASE_URL := "https://api.groq.com/openai/v1"
  const TIMEOUT_SECONDS := 60

  /** An OpenAI-compatible client bound to one API key. */
  datatype ApiClient = ApiClient(apiKey: string, baseUrl: string, timeoutSeconds: int)

  function KeysOf(pool: seq<ApiClient>): (keys: seq<string>)
    ensures |keys| == |pool|
    ensures forall i :: 0 <= i < |pool| ==> keys[i] == pool[i].apiKey
  {
    seq(|pool|, i requires 0 <= i < |pool| => pool[i].apiKey)
  }

  /** One more key read by the constructor adds a client for it, unless it
      is blank. */
  lemma PoolStep(pool: seq<ApiClient>, keys: seq<string>, i: nat)
    requires i < |keys| && KeysOf(pool) == NonBlankStripped(keys[..i])
    ensures var key := Strip(keys[i]);
      && (key != [] ==> KeysOf(pool + [ApiClient(key, GROQ_BASE_URL, TIMEOUT_SECONDS)]) == NonBlankStripped(keys[..i + 1]))
      && (key == [] ==> KeysOf(pool) == NonBlankStripped(keys[..i + 1]))
  {
    var key := Strip(keys[i]);
    assert NonBlankStripped(keys[..i + 1])
        == if key != [] then NonBlankStripped(keys[..i]) + [key] else NonBlankStripped(keys[..i]) by {
      assert keys[..i + 1] == keys[..i] + [keys[i]];
      NonBlankStrippedSnoc(keys[..i], keys[i]);
    }
    var c := ApiClient(key, GROQ_BASE_URL, TIMEOUT_SECONDS);
    assert KeysOf(pool + [c]) == KeysOf(pool) + [key];
  }

  /** What a request through the dispatcher gives its caller: the value of
      the first attempt that returned, or the message of the exception it
      raises. */
  datatype Outcome<+T> = Success(value: T) | Failure(message: string)

  /** The outcome of a request together with the number of attempts made,
      that is, the number of calls of the operation. */
  datatype Dispatch<+T> = Dispatch(outcome: Outcome<T>, attempts: nat)

  const NO_CLIENTS_MESSAGE := "Нет доступных Groq клиентов"
  const EXHAUSTED_PREFIX := "Все Groq клиенты недоступны: "

  /** The message raised once every attempt failed: the first three
      collected errors at most, joined with "; ". */
  function AggregateMessage(errors: seq<string>): (m: string)
    ensures EXHAUSTED_PREFIX <= m
    ensures |errors| <= 3 ==> m == EXHAUSTED_PREFIX + Join(errors, "; ")
  {
    assert |errors| <= 3 ==> errors[..Min(3, |errors|)] == errors;
    EXHAUSTED_PREFIX + Join(errors[..Min(3, |errors|)], "; ")
  }

  /** The cursor after `i` in a pool of `n` clients: one position on,
      back to the first client after the last. */
  function Next(i: nat, n: nat): (j: nat)
    requires i < n
    ensures j < n
  {
    if i + 1 == n then 0 else i + 1
  }

  /** The pool position used by attempt `attempt` of a request that started
      with the cursor at `start`: the cursor moved on once per earlier
      attempt. */
  function Slot(start: nat, attempt: nat, n: nat): (i: nat)
    requires start < n
    ensures i < n
  {
    if attempt == 0 then start else Next(Slot(start, attempt - 1, n), n)
  }

  /** The attempt loop of `_make_request` from attempt `attempt` on, with
      `errors` collected so far. The operation `op` is told which client
      and which attempt it serves, so that it may answer differently on
      every call. */
  function Retry<T>(pool: seq<ApiClient>, start: nat, op: (ApiClient, nat) -> Call<T>,
                    attempt: nat, errors: seq<string>): (d: Dispatch<T>)
    requires start < |pool| && attempt <= 2 * |pool|
    ensures attempt <= d.attempts <= 2 * |pool|
    ensures d.outcome.Success? ==> attempt < d.attempts
    ensures d.outcome.Failure? ==> d.attempts == 2 * |pool|
    decreases 2 * |pool| - attempt
  {
    if attempt == 2 * |pool| then Dispatch(Failure(AggregateMessage(errors)), attempt)
    else
      match op(pool[Slot(start, attempt, |pool|)], attempt)
      case Returned(v) => Dispatch(Success(v), attempt + 1)
      case Raised(e) => Retry(pool, start, op, attempt + 1, errors + [e])
  }

  /** `_make_request` on a pool with the cursor at `start`. */
  function Request<T>(pool: seq<ApiClient>, start: nat, op: (ApiClient, nat) -> Call<T>): (d: Dispatch<T>)
    requires |pool| == 0 || start < |pool|
    ensures |pool| == 0 ==> d == Dispatch(Failure(NO_CLIENTS_MESSAGE), 0)
    ensures |pool| > 0 ==> 1 <= d.attempts <= 2 * |pool|
  {
    if |pool| == 0 then Dispatch(Failure(NO_CLIENTS_MESSAGE), 0)
    else Retry(pool, start, op, 0, [])
  }

  /** The call attempt `attempt` makes. */
  function AttemptCall<T>(pool: seq<ApiClient>, start: nat, op: (ApiClient, nat) -> Call<T>, attempt: nat): (c: Call<T>)
    requires start < |pool|
  {
    op(pool[Slot(start, attempt, |pool|)], attempt)
  }

  function ErrorOf<T>(c: Call<T>): (e: string)
    ensures c.Raised? ==> e == c.error
    ensures c.Returned? ==> e == []
  {
    if c.Raised? then c.error else ""
  }

  /** The errors of the first `n` attempts, in order. */
  function AttemptErrors<T>(pool: seq<ApiClient>, start: nat, op: (ApiClient, nat) -> Call<T>, n: nat): (errors: seq<string>)
    requires start < |pool|
    ensures |errors| == n
    ensures forall i :: 0 <= i < n ==> errors[i] == ErrorOf(AttemptCall(pool, start, op, i))
  {
    seq(n, i requires 0 <= i < n => ErrorOf(AttemptCall(pool, start, op, i)))
  }

  /** One attempt of the loop: a returned value ends it, a raised error
      is collected and the next attempt follows. */
  lemma RetryStep<T>(pool: seq<ApiClient>, start: nat, op: (ApiClient, nat) -> Call<T>,
                     attempt: nat, errors: seq<string>)
    requires start < |pool| && attempt < 2 * |pool|
    ensures var call := AttemptCall(pool, start, op, attempt);
      && (call.Returned? ==> Retry(pool, start, op, attempt, errors) == Dispatch(Success(call.value), attempt + 1))
      && (call.Raised? ==> Retry(pool, start, op, attempt, errors) == Retry(pool, start, op, attempt + 1, errors + [call.error]))
  {
  }

  /** When attempts `attempt` to `k - 1` fail and attempt `k` returns, the
      loop stops with that value after `k + 1` attempts. */
  lemma {:induction false} RetryStopsAtFirstSuccess<T>(pool: seq<ApiClient>, start: nat, op: (ApiClient, nat) -> Call<T>,
                                                       attempt: nat, errors: seq<string>, k: nat)
    requires start < |pool| && attempt <= k < 2 * |pool|
    requires forall i :: attempt <= i < k ==> AttemptCall(pool, start, op, i).Raised?
    requires AttemptCall(pool, start, op, k).Returned?
    ensures Retry(pool, start, op, attempt, errors) == Dispatch(Success(AttemptCall(pool, start, op, k).value), k + 1)
    decreases k - attempt
  {
    if attempt < k {
      var e := AttemptCall(pool, start, op, attempt).error;
      RetryStopsAtFirstSuccess(pool, start, op, attempt + 1, errors + [e], k);
    }
  }

  /** A value the loop returns comes from its last attempt, and every
      attempt before it failed. */
  lemma {:induction false} RetrySuccessIsFirst<T>(pool: seq<ApiClient>, start: nat, op: (ApiClient, nat) -> Call<T>,
                                                  attempt: nat, errors: seq<string>)
    requires start < |pool| && attempt <= 2 * |pool|
    ensures var d := Retry(pool, start, op, attempt, errors);
      d.outcome.Success? ==>
        && AttemptCall(pool, start, op, d.attempts - 1) == Returned(d.outcome.value)
        && forall i :: attempt <= i < d.attempts - 1 ==> AttemptCall(pool, start, op, i).Raised?
    decreases 2 * |pool| - attempt
  {
    if attempt < 2 * |pool| && AttemptCall(pool, start, op, attempt).Raised? {
      var e := AttemptCall(pool, start, op, attempt).error;
      RetrySuccessIsFirst(pool, start, op, attempt + 1, errors + [e]);
    }
  }

  /** When every remaining attempt fails, the loop spends the whole budget
      and raises the message built from the collected errors. */
  lemma {:induction false} RetryExhausted<T>(pool: seq<ApiClient>, start: nat, op: (ApiClient, nat) -> Call<T>,
                                             attempt: nat, errors: seq<string>)
    requires start < |pool| && attempt <= 2 * |pool|
    requires errors == AttemptErrors(pool, start, op, attempt)
    requires forall i :: attempt <= i < 2 * |pool| ==> AttemptCall(pool, start, op, i).Raised?
    ensures Retry(pool, start, op, attempt, errors)
         == Dispatch(Failure(AggregateMessage(AttemptErrors(pool, start, op, 2 * |pool|))), 2 * |pool|)
    decreases 2 * |pool| - attempt
  {
    if attempt < 2 * |pool| {
      var e := AttemptCall(pool, start, op, attempt).error;
      assert errors + [e] == AttemptErrors(pool, start, op, attempt + 1);
      RetryExhausted(pool, start, op, attempt + 1, errors + [e]);
    }
  }

  /** The loop fails only once every remaining attempt has failed. */
  lemma {:induction false} RetryFailureMeansAllRaised<T>(pool: seq<ApiClient>, start: nat, op: (ApiClient, nat) -> Call<T>,
                                                         attempt: nat, errors: seq<string>)
    requires start < |pool| && attempt <= 2 * |pool|
    requires Retry(pool, start, op, attempt, errors).outcome.Failure?
    ensures forall i :: attempt <= i < 2 * |pool| ==> AttemptCall(pool, start, op, i).Raised?
    decreases 2 * |pool| - attempt
  {
    if attempt < 2 * |pool| {
      var e := AttemptCall(pool, start, op, attempt).error;
      RetryFailureMeansAllRaised(pool, start, op, attempt + 1, errors + [e]);
    }
  }

  /** A request on a non-empty pool returns `v` after `k + 1` attempts
      exactly when attempts `0` to `k - 1` fail and attempt `k`, one of the
      first `2 N`, returns `v`: the first success is returned at once. */
  lemma RequestSucceeds<T>(pool: seq<ApiClient>, start: nat, op: (ApiClient, nat) -> Call<T>, k: nat, v: T)
    requires start < |pool|
    ensures Request(pool, start, op) == Dispatch(Success(v), k + 1) <==>
      && k < 2 * |pool|
      && AttemptCall(pool, start, op, k) == Returned(v)
      && forall i :: 0 <= i < k ==> AttemptCall(pool, start, op, i).Raised?
  {
    RetrySuccessIsFirst(pool, start, op, 0, []);
    if k < 2 * |pool| && AttemptCall(pool, start, op, k) == Returned(v)
       && forall i :: 0 <= i < k ==> AttemptCall(pool, start, op, i).Raised? {
      RetryStopsAtFirstSuccess(pool, start, op, 0, [], k);
    }
  }

  /** A request on a non-empty pool fails exactly when all `2 N` attempts
      fail; it then makes exactly `2 N` calls and raises the first
      `min(3, 2 N)` errors, in order. */
  lemma RequestFails<T>(pool: seq<ApiClient>, start: nat, op: (ApiClient, nat) -> Call<T>)
    requires start < |pool|
    ensures Request(pool, start, op).outcome.Failure? <==>
      forall i :: 0 <= i < 2 * |pool| ==> AttemptCall(pool, start, op, i).Raised?
    ensures Request(pool, start, op).outcome.Failure? ==>
      Request(pool, start, op) == Dispatch(Failure(AggregateMessage(AttemptErrors(pool, start, op, 2 * |pool|))), 2 * |pool|)
  {
    if Request(pool, start, op).outcome.Failure? {
      RetryFailureMeansAllRaised(pool, start, op, 0, []);
    }
    if forall i :: 0 <= i < 2 * |pool| ==> AttemptCall(pool, start, op, i).Raised? {
      RetryExhausted(pool, start, op, 0, []);
    }
  }

  /** Of more than three errors only the first three reach the message. */
  lemma AggregateKeepsThree(errors: seq<string>)
    requires |errors| >= 3
    ensures AggregateMessage(errors) == EXHAUSTED_PREFIX + errors[0] + "; " + errors[1] + "; " + errors[2]
    ensures AggregateMessage(errors) == AggregateMessage(errors[..3])
  {
    var firstThree := errors[..3];
    assert firstThree[..Min(3, |firstThree|)] == firstThree;
    assert firstThree[1..][1..] == [errors[2]];
    assert Join(firstThree[1..], "; ") == errors[1] + "; " + errors[2];
    assert Join(firstThree, "; ") == errors[0] + "; " + (errors[1] + "; " + errors[2]);
  }

  lemma MulAtLeast(a: int, n: int)
    requires a >= 1 && n > 0
    ensures a * n >= n
  {
  }

  /** The remainder of `x` by `n` is the `r` of any `x == q * n + r` with
      `0 <= r < n`. */
  lemma ModUnique(x: int, q: int, r: int, n: int)
    requires n > 0 && 0 <= r < n && x == q * n + r
    ensures x % n == r
  {
    var q', r' := x / n, x % n;
    assert x == q' * n + r';
    assert q * n - q' * n == r' - r;
    assert (q - q') * n == q * n - q' * n;
    if q > q' {
      MulAtLeast(q - q', n);
    } else if q < q' {
      assert (q' - q) * n == q' * n - q * n;
      MulAtLeast(q' - q, n);
    }
  }

  /** Moving the cursor on is adding one modulo the pool size, as
      `_get_next_client` computes it. */
  lemma NextIsIncrementMod(i: nat, n: nat)
    requires i < n
    ensures Next(i, n) == (i + 1) % n
  {
    if i + 1 == n {
      ModUnique(i + 1, 1, 0, n);
    } else {
      ModUnique(i + 1, 0, i + 1, n);
    }
  }

  /** Attempt `k` uses position `(start + k) mod N`. */
  lemma {:induction false} SlotIsMod(start: nat, attempt: nat, n: nat)
    requires start < n
    ensures Slot(start, attempt, n) == (start + attempt) % n
  {
    if attempt == 0 {
      ModUnique(start, 0, start, n);
    } else {
      SlotIsMod(start, attempt - 1, n);
      var x := start + attempt - 1;
      var q, r := x / n, x % n;
      assert x == q * n + r;
      NextIsIncrementMod(r, n);
      if r + 1 < n {
        ModUnique(x + 1, q, r + 1, n);
        ModUnique(r + 1, 0, r + 1, n);
      } else {
        assert x + 1 == (q + 1) * n + 0;
        ModUnique(x + 1, q + 1, 0, n);
        ModUnique(r + 1, 1, 0, n);
      }
    }
  }

  /** Within one round, a position is the start plus the attempt number,
      less the pool size once it passes the end. */
  lemma {:induction false} SlotWithin(start: nat, attempt: nat, n: nat)
    requires start < n && attempt < n
    ensures Slot(start, attempt, n) == if start + attempt < n then start + attempt else start + attempt - n
  {
    if attempt > 0 {
      SlotWithin(start, attempt - 1, n);
    }
  }

  /** After all `2 N` attempts the cursor is back where it started. */
  lemma SlotFullRounds(start: nat, n: nat)
    requires start < n
    ensures Slot(start, 2 * n, n) == start
  {
    SlotIsMod(start, 2 * n, n);
    ModUnique(start + 2 * n, 2, start, n);
  }

  /** The attempt, among the first `N`, that reads position `p`. */
  function AttemptReading(start: nat, p: nat, n: nat): (i: nat)
    requires start < n && p < n
    ensures i < n
  {
    if p >= start then p - start else p + n - start
  }

  /** Any `N` consecutive positions, from whatever start, visit every client
      of the pool exactly once; from a fresh cursor they do so in the order of
      the pool. */
  lemma RoundRobinCoversPool(start: nat, n: nat)
    requires start < n
    ensures forall i, j :: 0 <= i < j < n ==> Slot(start, i, n) != Slot(start, j, n)
    ensures forall p :: 0 <= p < n ==> Slot(start, AttemptReading(start, p, n), n) == p
    ensures forall i :: 0 <= i < n ==> Slot(0, i, n) == i
  {
    forall i | 0 <= i < n
      ensures Slot(start, i, n) == if start + i < n then start + i else start + i - n
      ensures Slot(0, i, n) == i
    {
      SlotWithin(start, i, n);
      SlotWithin(0, i, n);
    }
  }

  /** A pool of three where the first two attempts fail and the third
      returns: the request yields the third answer after three calls, and
      the cursor has moved by three. */
  lemma ThirdOfThreeSucceeds<T>(a: ApiClient, b: ApiClient, c: ApiClient, op: (ApiClient, nat) -> Call<T>, v: T)
    requires op(a, 0).Raised? && op(b, 1).Raised? && op(c, 2) == Returned(v)
    ensures Request([a, b, c], 0, op) == Dispatch(Success(v), 3)
  {
    var pool := [a, b, c];
    assert AttemptCall(pool, 0, op, 0) == op(a, 0);
    assert AttemptCall(pool, 0, op, 1) == op(b, 1);
    assert AttemptCall(pool, 0, op, 2) == op(c, 2);
    RetryStopsAtFirstSuccess(pool, 0, op, 0, [], 2);
  }

  /** A pool of one client that always fails: two calls, and both errors
      in the message. */
  lemma SingleFailingClient<T>(a: ApiClient, op: (ApiClient, nat) -> Call<T>)
    requires op(a, 0).Raised? && op(a, 1).Raised?
    ensures Request([a], 0, op)
         == Dispatch(Failure(EXHAUSTED_PREFIX + op(a, 0).error + "; " + op(a, 1).error), 2)
  {
    var pool := [a];
    assert AttemptCall(pool, 0, op, 0) == op(a, 0);
    assert AttemptCall(pool, 0, op, 1) == op(a, 1);
    RetryExhausted(pool, 0, op, 0, []);
    var errors := AttemptErrors(pool, 0, op, 2);
    assert errors[..Min(3, |errors|)] == [op(a, 0).error, op(a, 1).error];
    assert Join([op(a, 0).error, op(a, 1).error], "; ") == op(a, 0).error + "; " + op(a, 1).error;
  }

  /** Whatever the pool, a first attempt that returns makes the only call. */
  lemma FirstAttemptSucceeds<T>(pool: seq<ApiClient>, start: nat, op: (ApiClient, nat) -> Call<T>)
    requires start < |pool| && AttemptCall(pool, start, op, 0).Returned?
    ensures Request(pool, start, op) == Dispatch(Success(AttemptCall(pool, start, op, 0).value), 1)
  {
  }

  /** The client pool and its round-robin cursor. */
  class GroqClient {
    var clients: seq<ApiClient>
    var currentIndex: nat

    /** The cursor always points into the pool; an empty pool keeps it at 0. */
    ghost predicate Valid()
      reads this
    {
      if |clients| == 0 then currentIndex == 0 else currentIndex < |clients|
    }

    /** One client per key that is not blank, holding the stripped key, in
        the order of the keys; the cursor starts at the first client. */
    constructor (apiKeys: seq<string>)
      ensures Valid() && currentIndex == 0
      ensures KeysOf(clients) == NonBlankStripped(apiKeys)
      ensures forall i :: 0 <= i < |clients| ==>
        clients[i].baseUrl == GROQ_BASE_URL && clients[i].timeoutSeconds == TIMEOUT_SECONDS
    {
      clients := [];
      currentIndex := 0;
      new;
      var i := 0;
      while i < |apiKeys|
        invariant 0 <= i <= |apiKeys|
        invariant currentIndex == 0
        invariant KeysOf(clients) == NonBlankStripped(apiKeys[..i])
        invariant forall j :: 0 <= j < |clients| ==>
          clients[j].baseUrl == GROQ_BASE_URL && clients[j].timeoutSeconds == TIMEOUT_SECONDS
      {
        var key := Strip(apiKeys[i]);
        PoolStep(clients, apiKeys, i);
        if key != [] {
          clients := clients + [ApiClient(key, GROQ_BASE_URL, TIMEOUT_SECONDS)];
        }
        i := i + 1;
      }
      assert apiKeys[..|apiKeys|] == apiKeys;
    }

    /** `_get_next_client`: the client at the cursor, the cursor moving on by
        one, modulo the pool size; nothing on an empty pool. */
    method GetNextClient() returns (client: Option<ApiClient>)
      requires Valid()
      modifies this`currentIndex
      ensures Valid()
      ensures |clients| == 0 ==> client == None && currentIndex == old(currentIndex)
      ensures |clients| > 0 ==>
        client == Some(clients[old(currentIndex)]) && currentIndex == Next(old(currentIndex), |clients|)
    {
      if |clients| == 0 {
        return None;
      }
      client := Some(clients[currentIndex]);
      NextIsIncrementMod(currentIndex, |clients|);
      currentIndex := (currentIndex + 1) % |clients|;
    }

    /** `_make_request`: the outcome and the number of calls are those of
        `Request` from the cursor on entry, so attempt `k` went to the client
        at `Slot(old(currentIndex), k, |clients|)`; the cursor ends as many
        positions on as there were calls. */
    method MakeRequest<T>(op: (ApiClient, nat) -> Call<T>) returns (r: Outcome<T>, ghost calls: nat)
      requires Valid()
      modifies this`currentIndex
      ensures Valid()
      ensures Request(clients, old(currentIndex), op) == Dispatch(r, calls)
      ensures |clients| > 0 ==> currentIndex == Slot(old(currentIndex), calls, |clients|)
      ensures |clients| == 0 ==> currentIndex == old(currentIndex)
    {
      if |clients| == 0 {
        return Failure(NO_CLIENTS_MESSAGE), 0;
      }
      ghost var start := currentIndex;
      var errors: seq<string> := [];
      var attempt := 0;
      while attempt < |clients| * 2
        invariant Valid()
        invariant 0 <= attempt <= 2 * |clients|
        invariant currentIndex == Slot(start, attempt, |clients|)
        invariant Request(clients, start, op) == Retry(clients, start, op, attempt, errors)
      {
        var client := GetNextClient();
        if client.None? {
          assert false;
          break;
        }
        var call := op(client.value, attempt);
        assert call == AttemptCall(clients, start, op, attempt);
        RetryStep(clients, start, op, attempt, errors);
        if call.Returned? {
          return Success(call.value), attempt + 1;
        }
        errors := errors + [call.error];
        // The back-off pause before the next attempt changes nothing here.
        attempt := attempt + 1;
      }
      SlotFullRounds(start, |clients|);
      r, calls := Failure(AggregateMessage(errors)), attempt;
    }

    /** `transcribe_audio`: the stripped transcript, or the error marker. */
    method TranscribeAudio(transcribe: (ApiClient, nat) -> Call<string>) returns (text: string)
      requires Valid()
      modifies this`currentIndex
      ensures Valid()
      ensures var d := Request(clients, old(currentIndex), transcribe);
        && text == TranscriptionText(d.outcome)
        && (|clients| > 0 ==> currentIndex == Slot(old(currentIndex), d.attempts, |clients|))
    {
      var result, calls := MakeRequest(transcribe);
      text := TranscriptionText(result);
    }

    /** `correct_text`, with the reply parsed as JSON by `parse`. */
    method CorrectText(text: string, correct: (ApiClient, nat) -> Call<string>,
                       parse: string -> Option<CorrectionResult>) returns (result: CorrectionResult)
      requires Valid()
      modifies this`currentIndex
      ensures Valid()
      ensures var d := Request(clients, old(currentIndex), correct);
        && result == Correction(text, d.outcome, parse)
        && (|clients| > 0 ==> currentIndex == Slot(old(currentIndex), d.attempts, |clients|))
    {
      var reply, calls := MakeRequest(correct);
      result := Correction(text, reply, parse);
    }

    /** `generate_response`: the model's reply, or the fixed filler line. */
    method GenerateResponse(chat: (ApiClient, nat) -> Call<string>) returns (reply: string)
      requires Valid()
      modifies this`currentIndex
      ensures Valid()
      ensures var d := Request(clients, old(currentIndex), chat);
        && reply == GeneratedReply(d.outcome)
        && (|clients| > 0 ==> currentIndex == Slot(old(currentIndex), d.attempts, |clients|))
    {
      var result, calls := MakeRequest(chat);
      reply := GeneratedReply(result);
    }
  }

  const TRANSCRIPTION_ERROR_PREFIX := "[Transcription error: "
  /** The prefix a caller looks for to tell a failed transcription. */
  const TRANSCRIPTION_ERROR_MARK := "[Transcription error"

  /** What `transcribe_audio` returns for an outcome: a transcript is
      stripped; a failure becomes a marker with at most the first 100
      characters of the error. */
  function TranscriptionText(o: Outcome<string>): (r: string)
    ensures o.Success? ==> r == Strip(o.value)
    ensures o.Failure? ==>
      && |r| == |TRANSCRIPTION_ERROR_PREFIX| + |Take(o.message, 100)| + 1
      && StartsWith(r, TRANSCRIPTION_ERROR_MARK)
      && r[..|TRANSCRIPTION_ERROR_PREFIX|] == TRANSCRIPTION_ERROR_PREFIX
      && r[|TRANSCRIPTION_ERROR_PREFIX|..|r| - 1] == Take(o.message, 100)
      && r[|r| - 1] == ']'
      && |r| <= |TRANSCRIPTION_ERROR_PREFIX| + 101
  {
    match o
    case Success(transcript) => Strip(transcript)
    case Failure(message) =>
      var r := TRANSCRIPTION_ERROR_PREFIX + Take(message, 100) + "]";
      assert r[..|TRANSCRIPTION_ERROR_PREFIX|] == TRANSCRIPTION_ERROR_PREFIX;
      assert r[..|TRANSCRIPTION_ERROR_MARK|] == TRANSCRIPTION_ERROR_MARK;
      assert r[|TRANSCRIPTION_ERROR_PREFIX|..|r| - 1] == Take(message, 100);
      r
  }

  datatype VocabularyItem = VocabularyItem(wordOrPhrase: string, translation: string, contextSentence: string)

  /** The structured result of `correct_text`. */
  datatype CorrectionResult = CorrectionResult(
    correctedSentence: string,
    explanation: string,
    vocabularyItems: seq<VocabularyItem>,
    errorCategory: string)

  /** The result `correct_text` gives when no correction is available: the
      input unchanged, no vocabulary, category "None". */
  function CorrectionFallback(text: string): (r: CorrectionResult)
    ensures r.correctedSentence == text && r.vocabularyItems == [] && r.errorCategory == "None"
  {
    CorrectionResult(text, "Correction service unavailable.", [], "None")
  }

  /** `correct_text` as written: the call to `json.loads` names a module that
      was never imported, so even a successful request ends in the
      exception handler and the fallback. */
  function CorrectionAsWritten(text: string, o: Outcome<string>): (r: CorrectionResult)
    ensures r == CorrectionFallback(text)
  {
    match o
    case Success(_) => CorrectionFallback(text)
    case Failure(_) => CorrectionFallback(text)
  }

  /** `correct_text` as intended: the reply parsed as JSON when the request
      succeeds and the reply parses, the fallback otherwise. */
  function Correction(text: string, o: Outcome<string>, parse: string -> Option<CorrectionResult>): (r: CorrectionResult)
    ensures o.Success? && parse(o.value).Some? ==> r == parse(o.value).value
    ensures r != CorrectionFallback(text) ==> o.Success? && parse(o.value) == Some(r)
  {
    match o
    case Success(reply) => GetOr(parse(reply), CorrectionFallback(text))
    case Failure(_) => CorrectionFallback(text)
  }

  /** As written, `correct_text` returns the fallback whatever happens. */
  lemma CorrectionAsWrittenIgnoresReply(text: string, o: Outcome<string>)
    ensures CorrectionAsWritten(text, o) == CorrectionFallback(text)
    ensures CorrectionAsWritten(text, o).correctedSentence == text
    ensures CorrectionAsWritten(text, o).vocabularyItems == []
  {
  }

  /** A reply that parses to a real correction is lost as written and kept
      as intended. */
  lemma CorrectionAsWrittenLosesParsedReply(text: string, reply: string, parse: string -> Option<CorrectionResult>)
    requires parse(reply).Some? && parse(reply).value != CorrectionFallback(text)
    ensures CorrectionAsWritten(text, Success(reply)) != Correction(text, Success(reply), parse)
    ensures Correction(text, Success(reply), parse) == parse(reply).value
  {
  }

  /** On a failed request the correction keeps the text unchanged, with no
      vocabulary and category "None". */
  lemma CorrectionOnFailure(text: string, message: string, parse: string -> Option<CorrectionResult>)
    ensures var r := Correction(text, Failure(message), parse);
      && r.correctedSentence == text
      && r.vocabularyItems == []
      && r.errorCategory == "None"
  {
  }

  const FALLBACK_REPLY := "I'm here to help you practice English. Tell me more!"

  /** What `generate_response` returns: the model's reply, or the fixed
      filler line when the request failed. */
  function GeneratedReply(o: Outcome<string>): (r: string)
    ensures o.Success? ==> r == o.value
    ensures o.Failure? ==> r == FALLBACK_REPLY
  {
    match o
    case Success(reply) => reply
    case Failure(_) => FALLBACK_REPLY
  }
}
