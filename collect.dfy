/**
 * The collection loop both adapters run: one request-with-retries per unit
 * (a city and a datatype for NOAA, a region for EIA), in unit order; the
 * records a unit receives are stamped with the unit's identifying fields
 * and appended; a unit whose retries run out adds nothing and the next
 * unit still runs.
 */
module Collection {
  import opened Wrappers
  import opened Records
  import opened Retry

  /** A configured location: display name, state, NOAA station id and EIA region code. */
  datatype Entity = Entity(name: string, state: string, stationId: string, regionCode: string)

  /** The records gathered so far, with the requests made, the waits slept and the responses left. */
  datatype Collected = Collected(records: seq<Record>, requests: nat, waits: seq<nat>, rest: seq<Response>)

  /** What was gathered before, followed by what is gathered after. */
  function Join(records: seq<Record>, requests: nat, waits: seq<nat>, later: Collected): Collected {
    Collected(records + later.records, requests + later.requests, waits + later.waits, later.rest)
  }

  /** The loop over `units`, each unit giving the stamps for its records. */
  function Collect(source: Source, units: seq<Stamps>, script: seq<Response>, maxRetries: nat, backoff: nat): Collected
    decreases |units|
  {
    if units == [] then Collected([], 0, [], script)
    else
      var unit := Attempt(source, script, 0, maxRetries, backoff);
      var stamped := if unit.delivered.Some? then StampAll(unit.delivered.value, units[0]) else [];
      Join(stamped, unit.requests, unit.waits, Collect(source, units[1..], unit.rest, maxRetries, backoff))
  }

  /** Stamps every delivered record and appends it, one record at a time. */
  method AppendStamped(records: seq<Record>, payload: seq<Record>, stamps: Stamps) returns (all: seq<Record>)
    ensures all == records + StampAll(payload, stamps)
  {
    all := records;
    for k := 0 to |payload|
      invariant all == records + StampAll(payload[..k], stamps)
    {
      assert StampAll(payload[..k + 1], stamps) == StampAll(payload[..k], stamps) + [Stamp(payload[k], stamps)];
      all := all + [Stamp(payload[k], stamps)];
    }
    assert payload[..|payload|] == payload;
  }

  lemma JoinJoin(a: seq<Record>, ra: nat, wa: seq<nat>, b: seq<Record>, rb: nat, wb: seq<nat>, later: Collected)
    ensures Join(a, ra, wa, Join(b, rb, wb, later)) == Join(a + b, ra + rb, wa + wb, later)
  {
    assert a + (b + later.records) == (a + b) + later.records;
    assert wa + (wb + later.waits) == (wa + wb) + later.waits;
  }

  /**
   * One unit of the loop: request with retries, then stamp and append what
   * was delivered. The records gathered so far followed by the rest of the
   * loop are unchanged by taking this step.
   */
  method RunUnit(source: Source, stamps: Stamps, ghost units: seq<Stamps>, records: seq<Record>, rest: seq<Response>,
                 ghost requests: nat, ghost waits: seq<nat>, maxRetries: nat, backoff: nat)
    returns (records': seq<Record>, rest': seq<Response>, ghost requests': nat, ghost waits': seq<nat>)
    requires units != [] && units[0] == stamps
    ensures Join(records', requests', waits', Collect(source, units[1..], rest', maxRetries, backoff))
         == Join(records, requests, waits, Collect(source, units, rest, maxRetries, backoff))
    ensures var unit := Attempt(source, rest, 0, maxRetries, backoff);
      && records' == records + (if unit.delivered.Some? then StampAll(unit.delivered.value, stamps) else [])
      && rest' == unit.rest
  {
    var delivered, tail;
    ghost var n, w;
    delivered, tail, n, w := Request(source, rest, maxRetries, backoff);
    ghost var later := Collect(source, units[1..], tail, maxRetries, backoff);
    ghost var stamped := if delivered.Some? then StampAll(delivered.value, units[0]) else [];
    JoinJoin(records, requests, waits, stamped, n, w, later);
    records' := records;
    if delivered.Some? {
      records' := AppendStamped(records, delivered.value, stamps);
    }
    rest', requests', waits' := tail, requests + n, waits + w;
  }

  /**
   * Running two lists of units one after the other is running their
   * concatenation: the first list's records come first, and the second
   * list starts from the responses the first one left.
   */
  lemma {:induction false} CollectAppend(source: Source, first: seq<Stamps>, second: seq<Stamps>, script: seq<Response>, maxRetries: nat, backoff: nat)
    ensures var before := Collect(source, first, script, maxRetries, backoff);
      Collect(source, first + second, script, maxRetries, backoff) ==
      Join(before.records, before.requests, before.waits, Collect(source, second, before.rest, maxRetries, backoff))
    decreases |first|
  {
    if first == [] {
      assert [] + second == second;
      assert Join([], 0, [], Collect(source, second, script, maxRetries, backoff)).records
          == Collect(source, second, script, maxRetries, backoff).records;
    } else {
      var unit := Attempt(source, script, 0, maxRetries, backoff);
      var stamped := if unit.delivered.Some? then StampAll(unit.delivered.value, first[0]) else [];
      var tail := Collect(source, first[1..], unit.rest, maxRetries, backoff);
      assert (first + second)[1..] == first[1..] + second;
      assert (first + second)[0] == first[0];
      CollectAppend(source, first[1..], second, unit.rest, maxRetries, backoff);
      var afterwards := Collect(source, second, tail.rest, maxRetries, backoff);
      assert Collect(source, first, script, maxRetries, backoff) == Join(stamped, unit.requests, unit.waits, tail);
      assert Collect(source, first + second, script, maxRetries, backoff)
          == Join(stamped, unit.requests, unit.waits, Join(tail.records, tail.requests, tail.waits, afterwards));
      JoinJoin(stamped, unit.requests, unit.waits, tail.records, tail.requests, tail.waits, afterwards);
    }
  }

  /** The whole loop makes at most `maxRetries + 1` requests per unit. */
  lemma {:induction false} CollectRequestBound(source: Source, units: seq<Stamps>, script: seq<Response>, maxRetries: nat, backoff: nat)
    ensures Collect(source, units, script, maxRetries, backoff).requests <= |units| * (maxRetries + 1)
    decreases |units|
  {
    if units != [] {
      var unit := Attempt(source, script, 0, maxRetries, backoff);
      RetriesBounded(source, script, maxRetries, backoff);
      CollectRequestBound(source, units[1..], unit.rest, maxRetries, backoff);
      assert Collect(source, units, script, maxRetries, backoff).requests
          == unit.requests + Collect(source, units[1..], unit.rest, maxRetries, backoff).requests;
      assert |units| * (maxRetries + 1) == (|units| - 1) * (maxRetries + 1) + (maxRetries + 1);
    }
  }

  /** The record holds every stamp of the unit. */
  ghost predicate Carries(r: Record, stamps: Stamps) {
    forall j :: 0 <= j < |stamps| ==> Lookup(r, stamps[j].0) == Some(stamps[j].1)
  }

  /** Each record carries the stamps of one of the units. */
  ghost predicate StampedByUnits(records: seq<Record>, units: seq<Stamps>) {
    forall i :: 0 <= i < |records| ==> exists u :: 0 <= u < |units| && Carries(records[i], units[u])
  }

  /** Every collected record carries the stamps of one of the units, whatever the payload said. */
  lemma {:induction false} CollectProvenance(source: Source, units: seq<Stamps>, script: seq<Response>, maxRetries: nat, backoff: nat)
    requires forall u :: 0 <= u < |units| ==> DistinctKeys(units[u])
    ensures StampedByUnits(Collect(source, units, script, maxRetries, backoff).records, units)
    decreases |units|
  {
    if units != [] {
      var unit := Attempt(source, script, 0, maxRetries, backoff);
      var stamped := if unit.delivered.Some? then StampAll(unit.delivered.value, units[0]) else [];
      var later := Collect(source, units[1..], unit.rest, maxRetries, backoff);
      CollectProvenance(source, units[1..], unit.rest, maxRetries, backoff);
      var records := Collect(source, units, script, maxRetries, backoff).records;
      assert records == stamped + later.records;
      forall i | 0 <= i < |records| ensures exists u :: 0 <= u < |units| && Carries(records[i], units[u]) {
        if i < |stamped| {
          StampCarries(unit.delivered.value[i], units[0]);
          assert Carries(records[i], units[0]);
        } else {
          var k := i - |stamped|;
          assert records[i] == later.records[k];
          var u :| 0 <= u < |units[1..]| && Carries(later.records[k], units[1..][u]);
          assert Carries(records[i], units[u + 1]);
        }
      }
    }
  }

  /**
   * A unit whose retries run out adds no record: the records are those of
   * the units before it followed by those of the units after it, which run
   * on the responses it left.
   */
  lemma FailedUnitIsolated(source: Source, before: seq<Stamps>, unit: Stamps, after: seq<Stamps>,
                           script: seq<Response>, maxRetries: nat, backoff: nat)
    requires Attempt(source, Collect(source, before, script, maxRetries, backoff).rest, 0, maxRetries, backoff).delivered.None?
    ensures var first := Collect(source, before, script, maxRetries, backoff);
      var failed := Attempt(source, first.rest, 0, maxRetries, backoff);
      Collect(source, before + [unit] + after, script, maxRetries, backoff).records ==
      first.records + Collect(source, after, failed.rest, maxRetries, backoff).records
  {
    var first := Collect(source, before, script, maxRetries, backoff);
    CollectAppend(source, before, [unit] + after, script, maxRetries, backoff);
    assert before + [unit] + after == before + ([unit] + after);
    assert ([unit] + after)[1..] == after;
  }
}
