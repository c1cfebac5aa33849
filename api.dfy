/**
 * The chat-completion request both suggestion commands send, the outcomes a
 * request can have, and the retry discipline they share: a rate-limited reply
 * (HTTP 429) makes the caller wait for the `retry-after` header and ask again,
 * up to a bound; any other outcome settles the call.
 *
 * The network is a script: `network(k)` is the outcome of the k-th request of
 * one call. Requests and waits are recorded as events, so the number of
 * requests and the length of every wait can be stated.
 */
module Api {
  import opened Wrappers
  import opened Text

  /** The part of an HTTP error reply the commands look at. */
  datatype HttpResponse = HttpResponse(status: int, statusText: string, retryAfter: Option<string>)

  /** What one `axios.post` to the chat-completion endpoint produces. */
  datatype Attempt =
      /**
       * A reply; `contents` holds `message.content` of each entry of `choices`
       * (empty when `data` or `choices` is missing, or `choices` is empty).
       */
    | Replied(contents: seq<string>)
      /** An axios error, with the server's reply if one came back. */
    | Failed(response: Option<HttpResponse>, message: string)

  /** The scripted outcomes of the successive requests of one call. */
  type Network = nat -> Attempt

  /** `axios.isAxiosError(error) && error.response?.status === 429` */
  predicate IsRateLimited(a: Attempt) {
    a.Failed? && a.response.Some? && a.response.value.status == 429
  }

  /**
   * A chat-completion request: the key sent as `Authorization: Bearer <key>`,
   * and a body of a system and a user message.
   */
  datatype ChatRequest = ChatRequest(apiKey: string, model: string, system: string, user: string, maxTokens: nat)

  /** What a call does that the outside can see: send a request, or sleep. */
  datatype Event = Request(body: ChatRequest) | Wait(seconds: int)

  /**
   * `extractRetryAfterTime`: the leading integer of the header, or 5 when the
   * header is absent, empty or does not start with a number.
   */
  function ExtractRetryAfterTime(retryAfter: Option<string>): int {
    match retryAfter
    case None => 5
    case Some(h) =>
      if h == "" then 5
      else match ParseInt(h)
        case Some(v) => v
        case None => 5
  }

  /** Without a usable number the wait is 5 seconds. */
  lemma RetryAfterDefault(retryAfter: Option<string>)
    requires retryAfter == None || retryAfter == Some("") || ParseInt(retryAfter.value) == None
    ensures ExtractRetryAfterTime(retryAfter) == 5
  {
  }

  /** A header holding a rendered integer, possibly after space and before other text, is read as that integer. */
  lemma {:induction false} RetryAfterReadsNumber(sp: string, n: int, rest: string)
    requires forall k :: 0 <= k < |sp| ==> IsJsSpace(sp[k])
    requires rest == [] || !IsDigit(rest[0])
    ensures ExtractRetryAfterTime(Some(sp + Decimal(n) + rest)) == n
  {
    var t := Decimal(n) + rest;
    var h := sp + t;
    assert sp + Decimal(n) + rest == h;
    ParseIntDecimal(n, rest);
    ParseIntSkipsSpace(sp, t);
    assert ParseInt(h) == Some(n);
    assert |h| >= |Decimal(n)| >= 1;
  }

  /** A header "0" asks for no wait. */
  lemma {:induction false} RetryAfterZero()
    ensures ExtractRetryAfterTime(Some("0")) == 0
  {
    assert "" + Decimal(0) + "" == "0";
    RetryAfterReadsNumber("", 0, "");
  }

  /** A header "2s" is read up to its first non-digit: a wait of 2 seconds. */
  lemma {:induction false} RetryAfterUnitSuffix()
    ensures ExtractRetryAfterTime(Some("2s")) == 2
  {
    assert "" + Decimal(2) + "s" == "2s";
    RetryAfterReadsNumber("", 2, "s");
  }

  /** A header "-3" is read as a negative wait; `extractRetryAfterTime` does not clamp it. */
  lemma {:induction false} RetryAfterNegative()
    ensures ExtractRetryAfterTime(Some("-3")) == -3
  {
    assert "" + Decimal(-3) + "" == "-3";
    RetryAfterReadsNumber("", -3, "");
  }

  /** A header that is not a number gives the default wait. */
  lemma {:induction false} RetryAfterNotNumber()
    ensures ExtractRetryAfterTime(Some("abc")) == 5
    ensures ExtractRetryAfterTime(Some(" +x")) == 5
  {
    RunEndUnique("abc", 0, IsJsSpace, 0);
    RunEndUnique("abc", 0, IsDigit, 0);
    RunEndUnique(" +x", 0, IsJsSpace, 1);
    assert TrimStart(" +x") == "+x";
    RunEndUnique("+x", 1, IsDigit, 1);
  }

  /** The wait a rate-limited attempt asks for. */
  function WaitFor(a: Attempt): int {
    if a.Failed? && a.response.Some? then ExtractRetryAfterTime(a.response.value.retryAfter) else 5
  }

  /** How a retrying call ends: every allowed attempt was rate-limited, or attempt `attempt` settled it. */
  datatype Exit = Exhausted | Settled(attempt: nat)

  /** The events of a call, and how it ended. */
  datatype Run = Run(events: seq<Event>, exit: Exit)

  /**
   * The retry loop from `retries` on: while `retries < maxRetries`, send the
   * request; a rate-limited outcome adds a wait and a retry, any other one
   * settles the call.
   */
  function RetryFrom(network: Network, req: ChatRequest, retries: nat, maxRetries: int): Run
    decreases maxRetries - retries
  {
    if retries >= maxRetries then Run([], Exhausted)
    else if IsRateLimited(network(retries)) then
      var r := RetryFrom(network, req, retries + 1, maxRetries);
      Run([Request(req), Wait(WaitFor(network(retries)))] + r.events, r.exit)
    else Run([Request(req)], Settled(retries))
  }

  /** The number of attempts, among the first `limit`, before the first that is not rate-limited. */
  function RateLimitedPrefix(network: Network, from: nat, limit: nat): (k: nat)
    requires from <= limit
    ensures from <= k <= limit
    ensures forall j :: from <= j < k ==> IsRateLimited(network(j))
    ensures k < limit ==> !IsRateLimited(network(k))
    decreases limit - from
  {
    if from == limit || !IsRateLimited(network(from)) then from
    else RateLimitedPrefix(network, from + 1, limit)
  }

  /** Reference: a request and then the asked-for wait, for each of the `n` attempts from attempt `from` on. */
  function Backoff(network: Network, req: ChatRequest, from: nat, n: nat): (es: seq<Event>)
    ensures |es| == 2 * n
    decreases n
  {
    if n == 0 then [] else [Request(req), Wait(WaitFor(network(from)))] + Backoff(network, req, from + 1, n - 1)
  }

  /** The i-th backed-off attempt is a request followed by a wait of what that attempt asked for. */
  lemma {:induction false} BackoffAt(network: Network, req: ChatRequest, from: nat, n: nat, i: nat)
    requires i < n
    ensures Backoff(network, req, from, n)[2 * i] == Request(req)
    ensures Backoff(network, req, from, n)[2 * i + 1] == Wait(WaitFor(network(from + i)))
    decreases n
  {
    if i > 0 {
      BackoffAt(network, req, from + 1, n - 1, i - 1);
    }
  }

  /** The number of requests among some events. */
  function RequestCount(events: seq<Event>): nat {
    if events == [] then 0 else (if events[0].Request? then 1 else 0) + RequestCount(events[1..])
  }

  lemma {:induction false} RequestCountAppend(a: seq<Event>, b: seq<Event>)
    ensures RequestCount(a + b) == RequestCount(a) + RequestCount(b)
  {
    if a != [] {
      assert a + b != [];
      assert RequestCount(a + b) == (if a[0].Request? then 1 else 0) + RequestCount((a + b)[1..]);
      assert (a + b)[0] == a[0];
      assert (a + b)[1..] == a[1..] + b;
      RequestCountAppend(a[1..], b);
    } else {
      assert a + b == b;
    }
  }

  /**
   * One rate-limited round of the loop, after the events `done`: its request
   * and its wait, then the rest of the loop, which ends as the whole does.
   */
  lemma {:induction false} RetryFromWaits(network: Network, req: ChatRequest, retries: nat, maxRetries: int, done: seq<Event>)
    requires retries < maxRetries && IsRateLimited(network(retries))
    ensures done + RetryFrom(network, req, retries, maxRetries).events ==
            done + [Request(req)] + [Wait(WaitFor(network(retries)))] + RetryFrom(network, req, retries + 1, maxRetries).events
    ensures RetryFrom(network, req, retries, maxRetries).exit == RetryFrom(network, req, retries + 1, maxRetries).exit
  {
    var later := RetryFrom(network, req, retries + 1, maxRetries);
    var step := [Request(req), Wait(WaitFor(network(retries)))];
    assert RetryFrom(network, req, retries, maxRetries).events == step + later.events;
    assert done + (step + later.events) == done + [Request(req)] + [Wait(WaitFor(network(retries)))] + later.events;
  }

  /** A round that is not rate-limited, after the events `done`: one request, and the call settles on it. */
  lemma {:induction false} RetryFromSettles(network: Network, req: ChatRequest, retries: nat, maxRetries: int, done: seq<Event>)
    requires retries < maxRetries && !IsRateLimited(network(retries))
    ensures done + RetryFrom(network, req, retries, maxRetries).events == done + [Request(req)]
    ensures RetryFrom(network, req, retries, maxRetries).exit == Settled(retries)
  {
  }

  /**
   * The retry loop, described without stepping it: the attempts from `retries`
   * up to the first one that is not rate-limited each cost a request and a
   * wait; that attempt, if it comes before the bound, costs one more request
   * and settles the call.
   */
  lemma {:induction false} RetryFromShape(network: Network, req: ChatRequest, retries: nat, maxRetries: nat)
    requires retries <= maxRetries
    ensures var k := RateLimitedPrefix(network, retries, maxRetries);
            k < maxRetries ==> RetryFrom(network, req, retries, maxRetries) == Run(Backoff(network, req, retries, k - retries) + [Request(req)], Settled(k))
    ensures var k := RateLimitedPrefix(network, retries, maxRetries);
            k == maxRetries ==> RetryFrom(network, req, retries, maxRetries) == Run(Backoff(network, req, retries, k - retries), Exhausted)
    decreases maxRetries - retries
  {
    var k := RateLimitedPrefix(network, retries, maxRetries);
    var here := RetryFrom(network, req, retries, maxRetries);
    if retries == maxRetries {
      assert k == retries && here == Run([], Exhausted);
    } else if !IsRateLimited(network(retries)) {
      assert k == retries && here == Run([Request(req)], Settled(retries));
      assert Backoff(network, req, retries, 0) + [Request(req)] == [Request(req)];
    } else {
      RetryFromShape(network, req, retries + 1, maxRetries);
      var later := RetryFrom(network, req, retries + 1, maxRetries);
      var step := [Request(req), Wait(WaitFor(network(retries)))];
      assert here == Run(step + later.events, later.exit);
      assert RateLimitedPrefix(network, retries + 1, maxRetries) == k;
      var tail := Backoff(network, req, retries + 1, k - (retries + 1));
      assert Backoff(network, req, retries, k - retries) == step + tail;
      if k < maxRetries {
        assert later == Run(tail + [Request(req)], Settled(k));
        assert step + (tail + [Request(req)]) == (step + tail) + [Request(req)];
      } else {
        assert later == Run(tail, Exhausted);
      }
    }
  }

  /**
   * One call with `maxRetries` allowed attempts: it sends at most
   * `maxRetries` requests (none when `maxRetries <= 0`); it ends exhausted
   * exactly when each allowed attempt was rate-limited; when it settles on
   * attempt k, every earlier attempt was rate-limited and attempt k was not;
   * and the events are, for each earlier attempt, the request and then a wait
   * of exactly what its `retry-after` header asks for.
   */
  lemma {:induction false} RetryBounds(network: Network, req: ChatRequest, maxRetries: int)
    ensures var run := RetryFrom(network, req, 0, maxRetries);
            RequestCount(run.events) <= (if maxRetries > 0 then maxRetries else 0)
    ensures var run := RetryFrom(network, req, 0, maxRetries);
            run.exit.Exhausted? <==> forall j :: 0 <= j < maxRetries ==> IsRateLimited(network(j))
    ensures var run := RetryFrom(network, req, 0, maxRetries);
            run.exit.Settled? ==>
              && run.exit.attempt < maxRetries
              && !IsRateLimited(network(run.exit.attempt))
              && (forall j :: 0 <= j < run.exit.attempt ==> IsRateLimited(network(j)))
              && run.events == Backoff(network, req, 0, run.exit.attempt) + [Request(req)]
    ensures var run := RetryFrom(network, req, 0, maxRetries);
            run.exit.Exhausted? ==> run.events == Backoff(network, req, 0, if maxRetries > 0 then maxRetries else 0)
  {
    if maxRetries > 0 {
      var m: nat := maxRetries;
      var k := RateLimitedPrefix(network, 0, m);
      RetryFromShape(network, req, 0, m);
      var b := Backoff(network, req, 0, k);
      BackoffRequests(network, req, 0, k);
      if k < m {
        RequestCountAppend(b, [Request(req)]);
        assert RequestCount([Request(req)]) == 1;
      }
    }
  }

  /** Each backed-off attempt costs exactly one request. */
  lemma {:induction false} BackoffRequests(network: Network, req: ChatRequest, from: nat, n: nat)
    ensures RequestCount(Backoff(network, req, from, n)) == n
    decreases n
  {
    if n > 0 {
      var rest := Backoff(network, req, from + 1, n - 1);
      var head := [Request(req), Wait(WaitFor(network(from)))];
      BackoffRequests(network, req, from + 1, n - 1);
      RequestCountAppend(head, rest);
      assert head[1..][1..] == [];
    }
  }
}
