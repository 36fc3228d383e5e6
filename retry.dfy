/**
 * The retrying request loop shared by the two adapters. The network is a
 * scripted sequence of responses, consumed one per request; sleeping is
 * recorded as the list of waits, in seconds, in the order they happen.
 */
module Retry {
  import opened Wrappers
  import opened Records

  /** The JSON body of a response: its list of records, or not parseable as JSON. */
  datatype Body = Malformed | Payload(records: seq<Record>)

  /** What one request yields: an HTTP status with a body, or a raised exception (timeout, connection error). */
  datatype Response = Raised | Http(status: int, body: Body)

  /** How the loop treats a response. */
  datatype Outcome = RateLimited | Failed | Delivered(records: seq<Record>)

  datatype Source = Noaa | Eia

  /**
   * NOAA: 429 is rate limiting; `raise_for_status` raises on every 4xx and
   * 5xx status. EIA: 429 is rate limiting; every other status but 200
   * raises. A body that is not JSON raises for both.
   */
  function Classify(source: Source, response: Response): (o: Outcome)
    ensures o.RateLimited? <==> response.Http? && response.status == 429
    ensures source == Eia ==>
              (o.Delivered? <==> response.Http? && response.status == 200 && response.body.Payload?)
    ensures source == Noaa ==>
              (o.Delivered? <==> response.Http? && response.status != 429 &&
                                 !(400 <= response.status < 600) && response.body.Payload?)
    ensures o.Delivered? ==> response.Http? && response.body.Payload? && o.records == response.body.records
  {
    match response
    case Raised => Failed
    case Http(status, body) =>
      if status == 429 then RateLimited
      else if source == Noaa && 400 <= status < 600 then Failed
      else if source == Eia && status != 200 then Failed
      else if body.Malformed? then Failed
      else Delivered(body.records)
  }

  /** The next scripted response; once the script is used up, requests fail like a lost connection. */
  function Next(script: seq<Response>): (Response, seq<Response>) {
    if script == [] then (Raised, []) else (script[0], script[1..])
  }

  function Pow(base: nat, exp: nat): nat {
    if exp == 0 then 1 else base * Pow(base, exp - 1)
  }

  /** `base^0 + base^1 + ... + base^(count-1)`. */
  function GeometricSum(base: nat, count: nat): nat {
    if count == 0 then 0 else GeometricSum(base, count - 1) + Pow(base, count - 1)
  }

  function Total(waits: seq<nat>): nat {
    if waits == [] then 0 else Total(waits[..|waits| - 1]) + waits[|waits| - 1]
  }

  /**
   * The result of one unit's loop: the delivered records (None once the
   * retries are exhausted), how many requests were made, the waits slept,
   * and the responses left for later requests.
   */
  datatype Attempts = Attempts(delivered: Option<seq<Record>>, requests: nat, waits: seq<nat>, rest: seq<Response>)

  /**
   * The loop from counter value `attempt` on: while `attempt <= maxRetries`,
   * request; stop at a delivery; otherwise wait `backoff^attempt` and count
   * up. Rate limiting and failures take the same path.
   */
  function Attempt(source: Source, script: seq<Response>, attempt: nat, maxRetries: nat, backoff: nat): Attempts
    decreases if attempt <= maxRetries then maxRetries + 1 - attempt else 0
  {
    if attempt > maxRetries then Attempts(None, 0, [], script)
    else
      var (response, rest) := Next(script);
      match Classify(source, response)
      case Delivered(records) => Attempts(Some(records), 1, [], rest)
      case _ =>
        var later := Attempt(source, rest, attempt + 1, maxRetries, backoff);
        Attempts(later.delivered, later.requests + 1, [Pow(backoff, attempt)] + later.waits, later.rest)
  }

  /** One unit's request with retries, as the adapters run it. */
  method Request(source: Source, script: seq<Response>, maxRetries: nat, backoff: nat)
    returns (delivered: Option<seq<Record>>, rest: seq<Response>, ghost requests: nat, ghost waits: seq<nat>)
    ensures Attempts(delivered, requests, waits, rest) == Attempt(source, script, 0, maxRetries, backoff)
  {
    var attempt: nat := 0;
    delivered, rest, requests, waits := None, script, 0, [];
    assert waits + Attempt(source, rest, attempt, maxRetries, backoff).waits == Attempt(source, rest, attempt, maxRetries, backoff).waits;
    while attempt <= maxRetries
      invariant attempt <= maxRetries + 1
      invariant delivered == None
      invariant Attempt(source, script, 0, maxRetries, backoff) == After(requests, waits, Attempt(source, rest, attempt, maxRetries, backoff))
      decreases maxRetries + 1 - attempt
    {
      ghost var now := Attempt(source, rest, attempt, maxRetries, backoff);
      var response, tail := Next(rest).0, Next(rest).1;
      var outcome := Classify(source, response);
      if outcome.Delivered? {
        assert now == Attempts(Some(outcome.records), 1, [], tail);
        AfterDelivery(requests, waits, now);
        delivered, rest, requests := Some(outcome.records), tail, requests + 1;
        return;
      }
      ghost var later := Attempt(source, tail, attempt + 1, maxRetries, backoff);
      assert now == Attempts(later.delivered, later.requests + 1, [Pow(backoff, attempt)] + later.waits, later.rest);
      AfterRetry(requests, waits, Pow(backoff, attempt), later);
      rest, requests, waits := tail, requests + 1, waits + [Pow(backoff, attempt)];
      attempt := attempt + 1;
    }
    assert Attempt(source, rest, attempt, maxRetries, backoff) == Attempts(None, 0, [], rest);
    assert waits + [] == waits;
  }

  /** The requests and waits so far, followed by those of the rest of the loop. */
  function After(requests: nat, waits: seq<nat>, later: Attempts): Attempts {
    Attempts(later.delivered, requests + later.requests, waits + later.waits, later.rest)
  }

  lemma AfterDelivery(requests: nat, waits: seq<nat>, now: Attempts)
    requires now.requests == 1 && now.waits == []
    ensures After(requests, waits, now) == Attempts(now.delivered, requests + 1, waits, now.rest)
  {
    assert waits + [] == waits;
  }

  lemma AfterRetry(requests: nat, waits: seq<nat>, wait: nat, later: Attempts)
    ensures After(requests, waits, Attempts(later.delivered, later.requests + 1, [wait] + later.waits, later.rest))
         == After(requests + 1, waits + [wait], later)
  {
    assert waits + ([wait] + later.waits) == (waits + [wait]) + later.waits;
  }


  ghost predicate Delivers(source: Source, response: Response) {
    Classify(source, response).Delivered?
  }

  /**
   * From counter value `attempt` on, the loop makes at most
   * `maxRetries + 1 - attempt` requests, and at least one while
   * `attempt <= maxRetries`; it waits once
   * after every request that did not deliver, the i-th wait being
   * `backoff^(attempt+i)`; when nothing is delivered it has used every
   * attempt; and it consumes exactly the responses it requested.
   */
  lemma {:induction false} AttemptShape(source: Source, script: seq<Response>, attempt: nat, maxRetries: nat, backoff: nat)
    requires attempt <= maxRetries + 1
    ensures var r := Attempt(source, script, attempt, maxRetries, backoff);
      && r.requests <= maxRetries + 1 - attempt
      && (attempt <= maxRetries ==> r.requests >= 1)
      && (r.delivered.None? ==> r.requests == maxRetries + 1 - attempt)
      && |r.waits| == (if r.delivered.Some? then r.requests - 1 else r.requests)
      && (forall i :: 0 <= i < |r.waits| ==> r.waits[i] == Pow(backoff, attempt + i))
      && (r.requests <= |script| ==> r.rest == script[r.requests..])
    decreases maxRetries + 1 - attempt
  {
    if attempt <= maxRetries {
      var (response, rest) := Next(script);
      if !Classify(source, response).Delivered? {
        AttemptShape(source, rest, attempt + 1, maxRetries, backoff);
        var later := Attempt(source, rest, attempt + 1, maxRetries, backoff);
        var r := Attempt(source, script, attempt, maxRetries, backoff);
        assert r.waits == [Pow(backoff, attempt)] + later.waits;
        forall i | 0 <= i < |r.waits| ensures r.waits[i] == Pow(backoff, attempt + i) {
          if i > 0 { assert r.waits[i] == later.waits[i - 1]; }
        }
        if r.requests <= |script| {
          assert script != [] && rest == script[1..];
          assert rest[later.requests..] == script[r.requests..];
        }
      }
    }
  }

  /**
   * When the first delivering response is the k-th from now and the
   * counter still allows it, the loop returns that response's records,
   * after exactly k+1 requests and k waits, and leaves the responses after
   * it untouched.
   */
  lemma {:induction false} DeliveredAt(source: Source, script: seq<Response>, attempt: nat, maxRetries: nat, backoff: nat, k: nat)
    requires attempt + k <= maxRetries && k < |script|
    requires forall j :: 0 <= j < k ==> !Delivers(source, script[j])
    requires Delivers(source, script[k])
    ensures var r := Attempt(source, script, attempt, maxRetries, backoff);
      && r.delivered == Some(Classify(source, script[k]).records)
      && r.requests == k + 1 && |r.waits| == k && r.rest == script[k + 1..]
    decreases k
  {
    if k > 0 {
      assert !Delivers(source, script[0]);
      var rest := script[1..];
      forall j | 0 <= j < k - 1 ensures !Delivers(source, rest[j]) {
        assert rest[j] == script[j + 1];
      }
      assert rest[k - 1] == script[k];
      DeliveredAt(source, rest, attempt + 1, maxRetries, backoff, k - 1);
      assert rest[k..] == script[k + 1..];
    }
  }

  /** When no response the counter allows delivers, nothing is delivered and every attempt is used. */
  lemma {:induction false} Exhausted(source: Source, script: seq<Response>, attempt: nat, maxRetries: nat, backoff: nat)
    requires attempt <= maxRetries + 1
    requires forall j :: 0 <= j < |script| && attempt + j <= maxRetries ==> !Delivers(source, script[j])
    ensures Attempt(source, script, attempt, maxRetries, backoff).delivered.None?
    ensures Attempt(source, script, attempt, maxRetries, backoff).requests == maxRetries + 1 - attempt
    decreases maxRetries + 1 - attempt
  {
    if attempt <= maxRetries {
      var (response, rest) := Next(script);
      if script != [] {
        assert !Delivers(source, script[0]);
        forall j | 0 <= j < |rest| && attempt + 1 + j <= maxRetries ensures !Delivers(source, rest[j]) {
          assert rest[j] == script[j + 1];
        }
      }
      Exhausted(source, rest, attempt + 1, maxRetries, backoff);
    }
  }

  /** Waits of `backoff^0, backoff^1, ...` add up to the geometric sum. */
  lemma {:induction false} TotalOfPowers(waits: seq<nat>, backoff: nat)
    requires forall i :: 0 <= i < |waits| ==> waits[i] == Pow(backoff, i)
    ensures Total(waits) == GeometricSum(backoff, |waits|)
    decreases |waits|
  {
    if waits != [] {
      TotalOfPowers(waits[..|waits| - 1], backoff);
    }
  }

  /**
   * A unit makes at most `maxRetries + 1` requests and at least one. If it
   * gets nothing it has made all `maxRetries + 1` of them and slept
   * `backoff^0 + ... + backoff^maxRetries`: the wait after the last
   * failed attempt is slept too.
   */
  lemma RetriesBounded(source: Source, script: seq<Response>, maxRetries: nat, backoff: nat)
    ensures var r := Attempt(source, script, 0, maxRetries, backoff);
      && 1 <= r.requests <= maxRetries + 1
      && (r.delivered.None? ==> r.requests == maxRetries + 1 &&
                                Total(r.waits) == GeometricSum(backoff, maxRetries + 1))
  {
    AttemptShape(source, script, 0, maxRetries, backoff);
    TotalOfPowers(Attempt(source, script, 0, maxRetries, backoff).waits, backoff);
  }

  /**
   * Rate limiting or failures on the first k requests and a delivery on
   * request k (k <= maxRetries): the unit returns that delivery, has slept
   * `backoff^0 + ... + backoff^(k-1)`, and makes no further request.
   */
  lemma BackoffThenDelivery(source: Source, script: seq<Response>, maxRetries: nat, backoff: nat, k: nat)
    requires k <= maxRetries && k < |script|
    requires forall j :: 0 <= j < k ==> !Delivers(source, script[j])
    requires Delivers(source, script[k])
    ensures var r := Attempt(source, script, 0, maxRetries, backoff);
      && r.delivered == Some(Classify(source, script[k]).records)
      && r.requests == k + 1
      && Total(r.waits) == GeometricSum(backoff, k)
      && r.rest == script[k + 1..]
  {
    DeliveredAt(source, script, 0, maxRetries, backoff, k);
    AttemptShape(source, script, 0, maxRetries, backoff);
    TotalOfPowers(Attempt(source, script, 0, maxRetries, backoff).waits, backoff);
  }

  /** A unit delivers exactly when one of its first `maxRetries + 1` responses delivers. */
  lemma DeliveryIff(source: Source, script: seq<Response>, maxRetries: nat, backoff: nat)
    ensures Attempt(source, script, 0, maxRetries, backoff).delivered.Some? <==>
            exists k :: 0 <= k <= maxRetries && k < |script| && Delivers(source, script[k])
  {
    if exists k :: 0 <= k <= maxRetries && k < |script| && Delivers(source, script[k]) {
      var k := FirstDelivery(source, script, maxRetries);
      DeliveredAt(source, script, 0, maxRetries, backoff, k);
    } else {
      Exhausted(source, script, 0, maxRetries, backoff);
    }
  }

  lemma FirstDelivery(source: Source, script: seq<Response>, maxRetries: nat) returns (k: nat)
    requires exists k :: 0 <= k <= maxRetries && k < |script| && Delivers(source, script[k])
    ensures k <= maxRetries && k < |script| && Delivers(source, script[k])
    ensures forall j :: 0 <= j < k ==> !Delivers(source, script[j])
  {
    k := 0;
    while !Delivers(source, script[k])
      invariant k <= maxRetries && k < |script|
      invariant forall j :: 0 <= j < k ==> !Delivers(source, script[j])
      invariant exists m :: k <= m <= maxRetries && m < |script| && Delivers(source, script[m])
      decreases maxRetries - k
    {
      k := k + 1;
    }
  }

  /** With the defaults (5 retries, factor 2), three 429s and then a reply sleep 1 + 2 + 4 seconds. */
  lemma DefaultBackoffExample(payload: seq<Record>)
    ensures var script := [Http(429, Payload([])), Http(429, Payload([])), Http(429, Payload([])), Http(200, Payload(payload))];
      var r := Attempt(Eia, script, 0, 5, 2);
      r.delivered == Some(payload) && r.waits == [1, 2, 4] && Total(r.waits) == 7 && r.rest == []
  {
    assert [1, 2, 4][..2] == [1, 2] && [1, 2][..1] == [1] && [1][..0] == [];
  }
}
