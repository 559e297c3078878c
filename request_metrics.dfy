/**
 * The two synchronous instruments `http.server.requests` (a counter) and
 * `http.server.duration` (a histogram), and the middleware that records into
 * them once per request that produced a response.
 *
 * The counter is held as a map from attribute set to running sum, the
 * histogram as the sequence of recorded samples with their attribute sets.
 * Both apply the instrument's view before they store anything.
 */
module RequestMetrics {
  import opened Attributes

  /** An elapsed time in milliseconds; its float arithmetic is not modelled. */
  type Millis = r: real | 0.0 <= r

  /** One histogram sample. */
  datatype Sample = Sample(attrs: AttributeSet, elapsed: Millis)

  /** What awaiting `call_next(request)` produced. */
  datatype HandlerResult = Responded(response: Response) | HandlerRaised

  /** The counter's value for one attribute set (0 when never incremented). */
  function CountOf(counts: map<AttributeSet, nat>, a: AttributeSet): nat
  {
    if a in counts then counts[a] else 0
  }

  /** Number of histogram samples recorded under one attribute set. */
  function SamplesUnder(samples: seq<Sample>, a: AttributeSet): (r: nat)
    ensures r <= |samples|
  {
    if samples == [] then 0
    else SamplesUnder(samples[..|samples| - 1], a) + (if samples[|samples| - 1].attrs == a then 1 else 0)
  }

  lemma SamplesUnderAppend(samples: seq<Sample>, s: Sample, a: AttributeSet)
    ensures SamplesUnder(samples + [s], a) == SamplesUnder(samples, a) + (if s.attrs == a then 1 else 0)
  {
  }

  ghost function Pick(counts: map<AttributeSet, nat>): AttributeSet
    requires counts != map[]
  {
    var a :| a in counts; a
  }

  /** The counter's total over all attribute sets. */
  ghost function Total(counts: map<AttributeSet, nat>): nat
    decreases |counts|
  {
    if counts == map[] then 0
    else
      var a := Pick(counts);
      counts[a] + Total(counts - {a})
  }

  /** The total does not depend on which entry is taken first. */
  lemma {:induction false} TotalWithout(counts: map<AttributeSet, nat>, a: AttributeSet)
    requires a in counts
    ensures Total(counts) == counts[a] + Total(counts - {a})
    decreases |counts|
  {
    var p := Pick(counts);
    if p != a {
      var rest := counts - {p};
      assert |rest| < |counts| by { assert rest.Keys == counts.Keys - {p}; }
      TotalWithout(rest, a);
      var restA := counts - {a};
      assert |restA| < |counts| by { assert restA.Keys == counts.Keys - {a}; }
      TotalWithout(restA, p);
      assert rest - {a} == restA - {p};
    }
  }

  /** Adding `amount` to one entry adds `amount` to the total and to nothing else. */
  lemma {:induction false} TotalAdd(counts: map<AttributeSet, nat>, a: AttributeSet, amount: nat)
    ensures Total(counts[a := CountOf(counts, a) + amount]) == Total(counts) + amount
  {
    var updated := counts[a := CountOf(counts, a) + amount];
    TotalWithout(updated, a);
    assert updated - {a} == counts - {a};
    if a in counts {
      TotalWithout(counts, a);
    } else {
      assert counts - {a} == counts;
    }
  }

  class Instruments {
    /** `request_counter`: running sum per stored attribute set. */
    var requestCounts: map<AttributeSet, nat>
    /** `duration_histogram`: every recorded sample, in order. */
    var durationSamples: seq<Sample>

    /**
     * The counter and the histogram agree: every attribute set was counted
     * as often as it has samples, and the counter's total is the number of
     * samples, that is, the number of requests recorded.
     */
    ghost predicate Valid()
      reads this
    {
      && (forall a :: CountOf(requestCounts, a) == SamplesUnder(durationSamples, a))
      && Total(requestCounts) == |durationSamples|
    }

    constructor ()
      ensures Valid()
      ensures requestCounts == map[] && durationSamples == []
    {
      requestCounts := map[];
      durationSamples := [];
    }

    /**
     * `request_counter.add(amount, attrs)`, after the counter's view. Alone it
     * does not keep `Valid()`: only `Middleware`, which also records a sample,
     * keeps the two instruments in step.
     */
    method Add(amount: nat, attrs: AttributeSet)
      modifies this`requestCounts
      ensures var a := Retained(Views, RequestsInstrument, attrs);
        requestCounts == old(requestCounts)[a := CountOf(old(requestCounts), a) + amount]
      ensures Total(requestCounts) == Total(old(requestCounts)) + amount
    {
      var a := Retained(Views, RequestsInstrument, attrs);
      TotalAdd(requestCounts, a, amount);
      requestCounts := requestCounts[a := CountOf(requestCounts, a) + amount];
    }

    /**
     * `duration_histogram.record(elapsed, attrs)`, after the histogram's view.
     * Alone it does not keep `Valid()`: only `Middleware`, which also adds to
     * the counter, keeps the two instruments in step.
     */
    method Record(elapsed: Millis, attrs: AttributeSet)
      modifies this`durationSamples
      ensures durationSamples == old(durationSamples) + [Sample(Retained(Views, DurationInstrument, attrs), elapsed)]
    {
      durationSamples := durationSamples + [Sample(Retained(Views, DurationInstrument, attrs), elapsed)];
    }

    /**
     * `_metrics_middleware`: when the handler produced a response, count it
     * once and record its duration once, both under the attribute set derived
     * from the request and response; then hand the response back unchanged.
     * When the handler raised, nothing is recorded and the exception propagates.
     */
    method Middleware(req: Request, handled: HandlerResult, elapsed: Millis) returns (result: HandlerResult)
      requires Valid()
      modifies this
      ensures Valid()
      ensures result == handled
      ensures handled.HandlerRaised? ==>
        requestCounts == old(requestCounts) && durationSamples == old(durationSamples)
      ensures handled.Responded? ==>
        var a := DeriveAttributes(req, handled.response);
        && requestCounts == old(requestCounts)[a := CountOf(old(requestCounts), a) + 1]
        && durationSamples == old(durationSamples) + [Sample(a, elapsed)]
      ensures handled.Responded? ==>
        forall b :: b != DeriveAttributes(req, handled.response) ==>
          CountOf(requestCounts, b) == CountOf(old(requestCounts), b)
    {
      if handled.HandlerRaised? {
        return handled;
      }
      var attrs := DeriveAttributes(req, handled.response);
      ViewsKeepDerived(RequestsInstrument, req, handled.response);
      ViewsKeepDerived(DurationInstrument, req, handled.response);
      ghost var before := durationSamples;
      Add(1, attrs);
      Record(elapsed, attrs);
      forall b ensures CountOf(requestCounts, b) == SamplesUnder(durationSamples, b) {
        SamplesUnderAppend(before, Sample(attrs, elapsed), b);
      }
      result := handled;
    }
  }
}
