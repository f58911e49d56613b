/**
 * The series extraction of the forecast chart: `get_temperatures` and
 * `get_precipitation` walk the readings of the parsed forecast in document
 * order, pair each with the time window of its interval marker, and append one
 * chart trace to the caller's `trace_data` list.
 *
 * The parsed document enters as the sequence of reading elements that
 * `SOUP.find_all(...)` returns; for each, the attributes of the element itself
 * and, when it has one, those of its grandparent (`data.parent.parent`).
 */
module Extraction {
  import opened Wrappers
  import opened Timestamp

  type Attributes = map<string, string>

  /** A `temperature` or `precipitation` element: its own attributes and its grandparent's. */
  datatype Reading = Reading(attrs: Attributes, grandparent: Option<Attributes>)

  /**
   * What aborts an extraction. Python raises `TypeError` when the grandparent is
   * `None`, `KeyError` for a missing attribute and `ValueError` from `strptime`.
   */
  datatype Error =
    | MissingIntervalMarker
    | MissingAttribute(name: string)
    | MalformedTimestamp(text: string)

  datatype TraceKind = Scatter | Bar

  /** The data content of a plotly trace: its kind, its name and its two axes. */
  datatype Trace = Trace(kind: TraceKind, name: string, xs: seq<DateTime>, ys: seq<string>)

  /** The caller's `trace_data` list, which both extractions append to in place. */
  class TraceData {
    var traces: seq<Trace>

    constructor ()
      ensures traces == []
    {
      traces := [];
    }
  }

  /** The reading's interval marker carries attribute `key` as text in FORMAT. */
  predicate HasTime(r: Reading, key: string)
  {
    r.grandparent.Some? && key in r.grandparent.value && Parse(r.grandparent.value[key]).Some?
  }

  predicate HasValue(r: Reading)
  {
    "value" in r.attrs
  }

  /** `datetime.strptime(data.parent.parent[key], FORMAT)` */
  function IntervalTime(r: Reading, key: string): Result<DateTime, Error>
  {
    match r.grandparent
    case None => Err(MissingIntervalMarker)
    case Some(marker) =>
      if key !in marker then Err(MissingAttribute(key))
      else match Parse(marker[key])
        case None => Err(MalformedTimestamp(marker[key]))
        case Some(t) => Ok(t)
  }

  /** `data["value"]` */
  function ReadingValue(r: Reading): Result<string, Error>
  {
    if "value" in r.attrs then Ok(r.attrs["value"]) else Err(MissingAttribute("value"))
  }

  /** One step of `get_temperatures`: the start of the window, then the value. */
  function TemperatureSample(r: Reading): Result<(DateTime, string), Error>
  {
    match IntervalTime(r, "from")
    case Err(e) => Err(e)
    case Ok(from) =>
      match ReadingValue(r)
      case Err(e) => Err(e)
      case Ok(v) => Ok((from, v))
  }

  /** One step of `get_precipitation`: the tuple (start, end, value), evaluated left to right. */
  function PrecipitationSample(r: Reading): Result<(DateTime, DateTime, string), Error>
  {
    match IntervalTime(r, "from")
    case Err(e) => Err(e)
    case Ok(from) =>
      match IntervalTime(r, "to")
      case Err(e) => Err(e)
      case Ok(to) =>
        match ReadingValue(r)
        case Err(e) => Err(e)
        case Ok(v) => Ok((from, to, v))
  }

  /**
   * A loop that applies `f` to every reading in order and stops at the first
   * one that raises: the list of results, or the first error.
   */
  function Traverse<T>(readings: seq<Reading>, f: Reading -> Result<T, Error>): Result<seq<T>, Error>
  {
    if readings == [] then Ok([])
    else
      match Traverse(readings[..|readings| - 1], f)
      case Err(e) => Err(e)
      case Ok(vs) =>
        match f(readings[|readings| - 1])
        case Err(e) => Err(e)
        case Ok(v) => Ok(vs + [v])
  }

  /** The loop succeeds exactly when every step does, with one result per reading, in order. */
  lemma {:induction false} TraverseOk<T>(readings: seq<Reading>, f: Reading -> Result<T, Error>)
    ensures Traverse(readings, f).Ok? <==> forall i :: 0 <= i < |readings| ==> f(readings[i]).Ok?
    ensures Traverse(readings, f).Ok? ==>
      |Traverse(readings, f).value| == |readings|
      && forall i :: 0 <= i < |readings| ==> Traverse(readings, f).value[i] == f(readings[i]).value
  {
    if readings != [] {
      var init := readings[..|readings| - 1];
      TraverseOk(init, f);
      assert forall i :: 0 <= i < |init| ==> init[i] == readings[i];
    }
  }

  /** A failing loop fails with the error of the first reading whose step fails. */
  lemma {:induction false} TraverseErr<T>(readings: seq<Reading>, f: Reading -> Result<T, Error>)
    requires Traverse(readings, f).Err?
    ensures exists k :: (0 <= k < |readings| && f(readings[k]) == Err(Traverse(readings, f).error)
      && forall i :: 0 <= i < k ==> f(readings[i]).Ok?)
  {
    var init := readings[..|readings| - 1];
    assert forall i :: 0 <= i < |init| ==> init[i] == readings[i];
    if Traverse(init, f).Err? {
      TraverseErr(init, f);
      var k :| 0 <= k < |init| && f(init[k]) == Err(Traverse(init, f).error)
        && forall i :: 0 <= i < k ==> f(init[i]).Ok?;
      assert f(readings[k]) == Err(Traverse(readings, f).error);
    } else {
      TraverseOk(init, f);
      var k := |readings| - 1;
      assert f(readings[k]) == Err(Traverse(readings, f).error);
    }
  }

  /** One more reading whose step succeeds extends the loop's results by that step's result. */
  lemma TraverseSnoc<T>(readings: seq<Reading>, i: nat, f: Reading -> Result<T, Error>, vs: seq<T>, v: T)
    requires i < |readings| && Traverse(readings[..i], f) == Ok(vs) && f(readings[i]) == Ok(v)
    ensures Traverse(readings[..i + 1], f) == Ok(vs + [v])
  {
    assert readings[..i + 1][..i] == readings[..i];
  }

  /** A reading whose step fails, after steps that all succeeded, fails the whole loop with its error. */
  lemma TraverseFails<T>(readings: seq<Reading>, i: nat, f: Reading -> Result<T, Error>, e: Error)
    requires i < |readings| && Traverse(readings[..i], f).Ok? && f(readings[i]) == Err(e)
    ensures Traverse(readings, f) == Err(e)
  {
    assert readings[..i + 1][..i] == readings[..i];
    TraverseStops(readings, i + 1, f);
  }

  /** Two readings whose steps succeed give their two results, in order. */
  lemma TraversePair<T>(r0: Reading, r1: Reading, f: Reading -> Result<T, Error>)
    requires f(r0).Ok? && f(r1).Ok?
    ensures Traverse([r0, r1], f) == Ok([f(r0).value, f(r1).value])
  {
    var none: seq<Reading> := [];
    assert Traverse(none, f) == Ok([]);
    assert [r0][..0] == none;
    assert [] + [f(r0).value] == [f(r0).value];
    assert Traverse([r0], f) == Ok([f(r0).value]);
    assert [r0, r1][..1] == [r0];
    assert [f(r0).value] + [f(r1).value] == [f(r0).value, f(r1).value];
  }

  /** Once a prefix of the loop fails, the whole loop fails the same way. */
  lemma {:induction false} TraverseStops<T>(readings: seq<Reading>, n: nat, f: Reading -> Result<T, Error>)
    requires n <= |readings| && Traverse(readings[..n], f).Err?
    ensures Traverse(readings, f) == Traverse(readings[..n], f)
  {
    if n < |readings| {
      var init := readings[..|readings| - 1];
      assert init[..n] == readings[..n];
      TraverseStops(init, n, f);
    } else {
      assert readings[..n] == readings;
    }
  }

  /** `go.Scatter(x=x, y=y, ...)` over the (start, value) pairs the loop collected. */
  function ScatterTrace(samples: seq<(DateTime, string)>): Trace
  {
    Trace(Scatter, "Temperature",
          seq(|samples|, i requires 0 <= i < |samples| => samples[i].0),
          seq(|samples|, i requires 0 <= i < |samples| => samples[i].1))
  }

  /** The trace `get_temperatures` appends: the window starts against the values. */
  function TemperatureTrace(temperatures: seq<Reading>): Result<Trace, Error>
  {
    match Traverse(temperatures, TemperatureSample)
    case Err(e) => Err(e)
    case Ok(samples) => Ok(ScatterTrace(samples))
  }

  /** `prec_list`: the (start, end, value) tuples, in document order. */
  function PrecipitationList(precipitation: seq<Reading>): Result<seq<(DateTime, DateTime, string)>, Error>
  {
    Traverse(precipitation, PrecipitationSample)
  }

  /** `go.Bar(x=[time[0] for time in prec_list], y=[value[2] for value in prec_list])` */
  function BarTrace(precList: seq<(DateTime, DateTime, string)>): Trace
  {
    Trace(Bar, "Precipitation",
          seq(|precList|, i requires 0 <= i < |precList| => precList[i].0),
          seq(|precList|, i requires 0 <= i < |precList| => precList[i].2))
  }

  /** The trace `get_precipitation` appends. */
  function PrecipitationTrace(precipitation: seq<Reading>): Result<Trace, Error>
  {
    match PrecipitationList(precipitation)
    case Err(e) => Err(e)
    case Ok(precList) => Ok(BarTrace(precList))
  }

  /** One temperature step succeeds exactly when the reading has a parsable `from` and a `value`, and then yields those. */
  lemma TemperatureSampleSpec(r: Reading)
    ensures TemperatureSample(r).Ok? <==> HasTime(r, "from") && HasValue(r)
    ensures TemperatureSample(r).Ok? ==>
      Parse(r.grandparent.value["from"]) == Some(TemperatureSample(r).value.0)
      && TemperatureSample(r).value.1 == r.attrs["value"]
  {
  }

  /** One precipitation step succeeds exactly when the reading has a parsable `from` and `to` and a `value`, and then yields those. */
  lemma PrecipitationSampleSpec(r: Reading)
    ensures PrecipitationSample(r).Ok? <==> HasTime(r, "from") && HasTime(r, "to") && HasValue(r)
    ensures PrecipitationSample(r).Ok? ==>
      Parse(r.grandparent.value["from"]) == Some(PrecipitationSample(r).value.0)
      && Parse(r.grandparent.value["to"]) == Some(PrecipitationSample(r).value.1)
      && PrecipitationSample(r).value.2 == r.attrs["value"]
  {
  }

  /**
   * The temperature trace exists exactly when every reading has a parsable
   * `from` on its interval marker and a `value`; then x and y have one entry per
   * reading, in document order: x the parsed `from`, y the `value` text unchanged.
   */
  lemma TemperatureTraceSpec(temperatures: seq<Reading>)
    ensures TemperatureTrace(temperatures).Ok? <==>
      forall i :: 0 <= i < |temperatures| ==> HasTime(temperatures[i], "from") && HasValue(temperatures[i])
    ensures TemperatureTrace(temperatures).Ok? ==>
      var t := TemperatureTrace(temperatures).value;
      t.kind == Scatter && |t.xs| == |temperatures| && |t.ys| == |temperatures|
      && forall i :: 0 <= i < |temperatures| ==>
        HasTime(temperatures[i], "from") && HasValue(temperatures[i])
        && Parse(temperatures[i].grandparent.value["from"]) == Some(t.xs[i])
        && t.ys[i] == temperatures[i].attrs["value"]
  {
    TraverseOk(temperatures, TemperatureSample);
    forall i | 0 <= i < |temperatures| {
      TemperatureSampleSpec(temperatures[i]);
    }
  }

  /** A failing temperature extraction reports the error of the first reading that fails. */
  lemma TemperatureTraceErr(temperatures: seq<Reading>)
    requires TemperatureTrace(temperatures).Err?
    ensures exists k :: (0 <= k < |temperatures|
      && TemperatureSample(temperatures[k]) == Err(TemperatureTrace(temperatures).error)
      && !(HasTime(temperatures[k], "from") && HasValue(temperatures[k]))
      && forall i :: 0 <= i < k ==> HasTime(temperatures[i], "from") && HasValue(temperatures[i]))
  {
    TraverseErr(temperatures, TemperatureSample);
    forall i | 0 <= i < |temperatures| {
      TemperatureSampleSpec(temperatures[i]);
    }
  }

  /**
   * `prec_list` exists exactly when every reading has a parsable `from` and `to`
   * and a `value`; its i-th tuple is then (from, to, value) of the i-th reading.
   */
  lemma PrecipitationListSpec(precipitation: seq<Reading>)
    ensures PrecipitationList(precipitation).Ok? <==>
      forall i :: 0 <= i < |precipitation| ==>
        HasTime(precipitation[i], "from") && HasTime(precipitation[i], "to") && HasValue(precipitation[i])
    ensures PrecipitationList(precipitation).Ok? ==>
      var l := PrecipitationList(precipitation).value;
      |l| == |precipitation|
      && forall i :: 0 <= i < |precipitation| ==>
        HasTime(precipitation[i], "from") && HasTime(precipitation[i], "to") && HasValue(precipitation[i])
        && Parse(precipitation[i].grandparent.value["from"]) == Some(l[i].0)
        && Parse(precipitation[i].grandparent.value["to"]) == Some(l[i].1)
        && l[i].2 == precipitation[i].attrs["value"]
  {
    TraverseOk(precipitation, PrecipitationSample);
    forall i | 0 <= i < |precipitation| {
      PrecipitationSampleSpec(precipitation[i]);
    }
  }

  /** A failing precipitation extraction reports the error of the first reading that fails. */
  lemma PrecipitationListErr(precipitation: seq<Reading>)
    requires PrecipitationList(precipitation).Err?
    ensures exists k :: (0 <= k < |precipitation|
      && PrecipitationSample(precipitation[k]) == Err(PrecipitationList(precipitation).error)
      && !(HasTime(precipitation[k], "from") && HasTime(precipitation[k], "to") && HasValue(precipitation[k]))
      && forall i :: 0 <= i < k ==>
        HasTime(precipitation[i], "from") && HasTime(precipitation[i], "to") && HasValue(precipitation[i]))
  {
    TraverseErr(precipitation, PrecipitationSample);
    forall i | 0 <= i < |precipitation| {
      PrecipitationSampleSpec(precipitation[i]);
    }
  }

  /**
   * The bar's x and y are the start times and the values of `prec_list`, one per
   * reading: no sample is dropped, a zero amount included, and none reordered.
   */
  lemma PrecipitationTraceSpec(precipitation: seq<Reading>)
    ensures PrecipitationTrace(precipitation).Ok? <==> PrecipitationList(precipitation).Ok?
    ensures PrecipitationTrace(precipitation).Ok? ==>
      var t := PrecipitationTrace(precipitation).value;
      t.kind == Bar && |t.xs| == |precipitation| && |t.ys| == |precipitation|
      && forall i :: 0 <= i < |precipitation| ==>
        HasTime(precipitation[i], "from") && HasValue(precipitation[i])
        && Parse(precipitation[i].grandparent.value["from"]) == Some(t.xs[i])
        && t.ys[i] == precipitation[i].attrs["value"]
  {
    PrecipitationListSpec(precipitation);
  }

  /** One temperature reading under the interval 00:00 to 01:00 on 1 January 2023. */
  lemma TemperatureScenario()
    ensures TemperatureTrace([Reading(map["value" := "5.2"],
                                      Some(map["from" := "2023-01-01T00:00:00Z", "to" := "2023-01-01T01:00:00Z"]))])
         == Ok(Trace(Scatter, "Temperature", [DateTime(2023, 1, 1, 0, 0, 0)], ["5.2"]))
  {
    ParseExamples();
    var ts := [Reading(map["value" := "5.2"],
                       Some(map["from" := "2023-01-01T00:00:00Z", "to" := "2023-01-01T01:00:00Z"]))];
    TemperatureTraceSpec(ts);
    assert HasTime(ts[0], "from") && HasValue(ts[0]);
    var t := TemperatureTrace(ts).value;
    assert t.xs == [t.xs[0]] && t.ys == [t.ys[0]];
  }

  /** Two readings whose steps succeed give the bar of their two samples, in order. */
  lemma TwoPrecipitationReadings(r0: Reading, r1: Reading)
    requires PrecipitationSample(r0).Ok? && PrecipitationSample(r1).Ok?
    ensures PrecipitationTrace([r0, r1]) == Ok(Trace(Bar, "Precipitation",
      [PrecipitationSample(r0).value.0, PrecipitationSample(r1).value.0],
      [PrecipitationSample(r0).value.2, PrecipitationSample(r1).value.2]))
  {
    TraversePair(r0, r1, PrecipitationSample);
    var l := [PrecipitationSample(r0).value, PrecipitationSample(r1).value];
    assert BarTrace(l).xs == [l[0].0, l[1].0];
    assert BarTrace(l).ys == [l[0].2, l[1].2];
  }

  /** A zero amount is kept: the bar has one entry per reading, "0.0" included. */
  lemma PrecipitationKeepsZero()
    ensures PrecipitationTrace([
              Reading(map["value" := "0.0"], Some(map["from" := "2023-01-01T00:00:00Z", "to" := "2023-01-01T01:00:00Z"])),
              Reading(map["value" := "1.5"], Some(map["from" := "2023-01-01T01:00:00Z", "to" := "2023-01-01T01:00:00Z"]))])
         == Ok(Trace(Bar, "Precipitation",
                     [DateTime(2023, 1, 1, 0, 0, 0), DateTime(2023, 1, 1, 1, 0, 0)], ["0.0", "1.5"]))
  {
    var r0 := Reading(map["value" := "0.0"], Some(map["from" := "2023-01-01T00:00:00Z", "to" := "2023-01-01T01:00:00Z"]));
    var r1 := Reading(map["value" := "1.5"], Some(map["from" := "2023-01-01T01:00:00Z", "to" := "2023-01-01T01:00:00Z"]));
    ZeroReadingSample();
    LaterReadingSample();
    TwoPrecipitationReadings(r0, r1);
  }

  lemma ZeroReadingSample()
    ensures PrecipitationSample(Reading(map["value" := "0.0"],
              Some(map["from" := "2023-01-01T00:00:00Z", "to" := "2023-01-01T01:00:00Z"])))
         == Ok((DateTime(2023, 1, 1, 0, 0, 0), DateTime(2023, 1, 1, 1, 0, 0), "0.0"))
  {
    ParseExamples();
  }

  lemma LaterReadingSample()
    ensures PrecipitationSample(Reading(map["value" := "1.5"],
              Some(map["from" := "2023-01-01T01:00:00Z", "to" := "2023-01-01T01:00:00Z"])))
         == Ok((DateTime(2023, 1, 1, 1, 0, 0), DateTime(2023, 1, 1, 1, 0, 0), "1.5"))
  {
    ParseExamples();
  }

  /** A `from` that is not a date aborts the extraction with that text. */
  lemma MalformedScenario()
    ensures TemperatureTrace([Reading(map["value" := "5.2"], Some(map["from" := "not-a-date"]))])
         == Err(MalformedTimestamp("not-a-date"))
  {
    ParseRejects();
    assert [Reading(map["value" := "5.2"], Some(map["from" := "not-a-date"]))][..0] == [];
  }

  /** A document without readings gives empty series, not an error. */
  lemma EmptyScenario()
    ensures TemperatureTrace([]) == Ok(Trace(Scatter, "Temperature", [], []))
    ensures PrecipitationTrace([]) == Ok(Trace(Bar, "Precipitation", [], []))
  {
    TemperatureTraceSpec([]);
    PrecipitationTraceSpec([]);
    PrecipitationListSpec([]);
  }

  /** One more sample puts its start at the end of x and its value at the end of y. */
  lemma ScatterTraceSnoc(samples: seq<(DateTime, string)>, from: DateTime, value: string)
    ensures ScatterTrace(samples + [(from, value)]).xs == ScatterTrace(samples).xs + [from]
    ensures ScatterTrace(samples + [(from, value)]).ys == ScatterTrace(samples).ys + [value]
  {
    var next := samples + [(from, value)];
    assert ScatterTrace(next).xs == ScatterTrace(samples).xs + [from];
    assert ScatterTrace(next).ys == ScatterTrace(samples).ys + [value];
  }

  /**
   * `get_temperatures(trace_data)`: on success one trace is appended at the end
   * of `trace_data`; on failure the call raises before appending and
   * `trace_data` is unchanged.
   */
  method GetTemperatures(temperatures: seq<Reading>, traceData: TraceData) returns (failure: Option<Error>)
    modifies traceData
    ensures TemperatureTrace(temperatures).Ok? ==>
      failure == None && traceData.traces == old(traceData.traces) + [TemperatureTrace(temperatures).value]
    ensures TemperatureTrace(temperatures).Err? ==>
      failure == Some(TemperatureTrace(temperatures).error) && traceData.traces == old(traceData.traces)
  {
    var x: seq<DateTime> := [];
    var y: seq<string> := [];
    ghost var samples: seq<(DateTime, string)> := [];
    var i := 0;
    while i < |temperatures|
      invariant 0 <= i <= |temperatures|
      invariant Traverse(temperatures[..i], TemperatureSample) == Ok(samples)
      invariant x == ScatterTrace(samples).xs && y == ScatterTrace(samples).ys
      invariant traceData.traces == old(traceData.traces)
    {
      var data := temperatures[i];
      var from := IntervalTime(data, "from");
      if from.Err? {
        assert TemperatureSample(data) == Err(from.error);
        TraverseFails(temperatures, i, TemperatureSample, from.error);
        return Some(from.error);
      }
      x := x + [from.value];
      var value := ReadingValue(data);
      if value.Err? {
        assert TemperatureSample(data) == Err(value.error);
        TraverseFails(temperatures, i, TemperatureSample, value.error);
        return Some(value.error);
      }
      y := y + [value.value];
      assert TemperatureSample(data) == Ok((from.value, value.value));
      TraverseSnoc(temperatures, i, TemperatureSample, samples, (from.value, value.value));
      ScatterTraceSnoc(samples, from.value, value.value);
      samples := samples + [(from.value, value.value)];
      i := i + 1;
    }
    assert temperatures[..i] == temperatures;
    var trace := Trace(Scatter, "Temperature", x, y);
    traceData.traces := traceData.traces + [trace];
    failure := None;
  }

  /**
   * `get_precipitation(trace_data)`: builds `prec_list`, then appends one bar
   * trace at the end of `trace_data`; on failure `trace_data` is unchanged.
   */
  method GetPrecipitation(precipitation: seq<Reading>, traceData: TraceData) returns (failure: Option<Error>)
    modifies traceData
    ensures PrecipitationTrace(precipitation).Ok? ==>
      failure == None && traceData.traces == old(traceData.traces) + [PrecipitationTrace(precipitation).value]
    ensures PrecipitationTrace(precipitation).Err? ==>
      failure == Some(PrecipitationTrace(precipitation).error) && traceData.traces == old(traceData.traces)
  {
    var precList: seq<(DateTime, DateTime, string)> := [];
    var i := 0;
    while i < |precipitation|
      invariant 0 <= i <= |precipitation|
      invariant Traverse(precipitation[..i], PrecipitationSample) == Ok(precList)
      invariant traceData.traces == old(traceData.traces)
    {
      var data := precipitation[i];
      var from := IntervalTime(data, "from");
      if from.Err? {
        assert PrecipitationSample(data) == Err(from.error);
        TraverseFails(precipitation, i, PrecipitationSample, from.error);
        return Some(from.error);
      }
      var to := IntervalTime(data, "to");
      if to.Err? {
        assert PrecipitationSample(data) == Err(to.error);
        TraverseFails(precipitation, i, PrecipitationSample, to.error);
        return Some(to.error);
      }
      var value := ReadingValue(data);
      if value.Err? {
        assert PrecipitationSample(data) == Err(value.error);
        TraverseFails(precipitation, i, PrecipitationSample, value.error);
        return Some(value.error);
      }
      assert PrecipitationSample(data) == Ok((from.value, to.value, value.value));
      TraverseSnoc(precipitation, i, PrecipitationSample, precList, (from.value, to.value, value.value));
      precList := precList + [(from.value, to.value, value.value)];
      i := i + 1;
    }
    assert precipitation[..i] == precipitation;
    var trace := BarTrace(precList);
    traceData.traces := traceData.traces + [trace];
    failure := None;
  }
}
