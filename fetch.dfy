/** The fetch task: for every city of the ordered city map it builds the API
    query, records one request record, and zips the answer's hourly arrays into
    one reading per entry of `time`. The HTTP exchange, the clock and the
    calendar are inputs (`Ambient`); the two lists it would publish are the
    `Batch` of an `Ok` outcome, and an exception is an `Err` outcome, after
    which nothing is published. */
module FetchTask {
  import opened Records

  /** The quantities requested from the API, comma-joined. */
  const HourlyQuantities: string := "temperature_2m,wind_speed_10m,precipitation"

  /** The timezone in which the API reports hours. */
  const Timezone: string := "America/New_York"

  /** The query for one city on one calendar day. */
  function QueryFor(city: City, date: string): QueryParams
  {
    QueryParams(city.lat, city.lon, HourlyQuantities, Timezone, date, date)
  }

  /** The request record for one city, stamped with the fetch time. */
  function RequestFor(city: City, stamp: string): RequestRecord
  {
    RequestRecord(stamp, city.name, city.lat, city.lon)
  }

  /** Each measurement array has an entry for every entry of `time`. */
  predicate Complete(h: Hourly)
  {
    |h.time| <= |h.temperature2m| && |h.time| <= |h.windSpeed10m| && |h.time| <= |h.precipitation|
  }

  /** Length of the array the record literal reads for `f`. */
  function Len(h: Hourly, f: Field): nat
  {
    match f
    case Temperature2m => |h.temperature2m|
    case WindSpeed10m => |h.windSpeed10m|
    case Precipitation => |h.precipitation|
  }

  function Rank(f: Field): nat
  {
    match f
    case Temperature2m => 0
    case WindSpeed10m => 1
    case Precipitation => 2
  }

  /** The read of field `g` at hour `j` happens before the read of `f` at `i`:
      hours are visited in order, and within an hour the literal reads
      temperature, then wind speed, then precipitation. */
  predicate ReadsBefore(j: nat, g: Field, i: nat, f: Field)
  {
    j < i || (j == i && Rank(g) < Rank(f))
  }

  function Min(a: nat, b: nat): nat
  {
    if a <= b then a else b
  }

  /** The read that raises IndexError when the arrays are zipped, if any:
      the shortest measurement array decides the hour, and the first field of
      that length in reading order decides the field. */
  function FirstGap(h: Hourly): (r: Option<(Field, nat)>)
    ensures r.None? <==> Complete(h)
    ensures r.Some? ==> r.value.1 < |h.time| && Len(h, r.value.0) <= r.value.1
    ensures r.Some? ==> forall j: nat, g :: ReadsBefore(j, g, r.value.1, r.value.0) ==> j < Len(h, g)
  {
    var m := Min(|h.temperature2m|, Min(|h.windSpeed10m|, |h.precipitation|));
    if |h.time| <= m then None
    else if |h.temperature2m| == m then Some((Temperature2m, m))
    else if |h.windSpeed10m| == m then Some((WindSpeed10m, m))
    else Some((Precipitation, m))
  }

  /** The reading built from hour `i` of the answer for city `name`. */
  function ReadingAt(name: string, h: Hourly, i: nat): Reading
    requires i < |h.time| && i < |h.temperature2m| && i < |h.windSpeed10m| && i < |h.precipitation|
  {
    Reading(h.time[i], h.temperature2m[i], h.windSpeed10m[i], h.precipitation[i], name)
  }

  /** The readings for the first `n` hours, in hour order. */
  function ReadingsPrefix(name: string, h: Hourly, n: nat): seq<Reading>
    requires n <= |h.time| && n <= |h.temperature2m| && n <= |h.windSpeed10m| && n <= |h.precipitation|
  {
    if n == 0 then [] else ReadingsPrefix(name, h, n - 1) + [ReadingAt(name, h, n - 1)]
  }

  lemma {:induction false} ReadingsPrefixAt(name: string, h: Hourly, n: nat)
    requires n <= |h.time| && n <= |h.temperature2m| && n <= |h.windSpeed10m| && n <= |h.precipitation|
    ensures |ReadingsPrefix(name, h, n)| == n
    ensures forall i :: 0 <= i < n ==> ReadingsPrefix(name, h, n)[i] == ReadingAt(name, h, i)
  {
    if n > 0 {
      ReadingsPrefixAt(name, h, n - 1);
    }
  }

  /** The outcome of zipping one city's answer: the KeyError of a missing
      `hourly` block, the IndexError of a short array, or the readings. */
  function CityReadings(name: string, response: Response): Result<seq<Reading>, FetchError>
  {
    match response.hourly
    case None => Err(MissingHourly(name))
    case Some(h) =>
      match FirstGap(h)
      case Some(gap) => Err(IndexOutOfRange(name, gap.0, gap.1))
      case None => Ok(ReadingsPrefix(name, h, |h.time|))
  }

  /** One reading per entry of `time`, the i-th zipping the i-th entry of each
      array and tagged with the city; entries beyond `time` play no part, and
      a missing block or short array is an error naming the offending read. */
  lemma CityReadingsZip(name: string, response: Response)
    ensures CityReadings(name, response).Ok? <==> response.hourly.Some? && Complete(response.hourly.value)
    ensures response.hourly.None? ==> CityReadings(name, response) == Err(MissingHourly(name))
    ensures response.hourly.Some? && !Complete(response.hourly.value) ==>
      var h := response.hourly.value;
      var m := Min(|h.temperature2m|, Min(|h.windSpeed10m|, |h.precipitation|));
      CityReadings(name, response).Err? && CityReadings(name, response).error.IndexOutOfRange? &&
      CityReadings(name, response).error.index == m && m < |h.time|
    ensures CityReadings(name, response).Ok? ==>
      var h, rs := response.hourly.value, CityReadings(name, response).value;
      |rs| == |h.time| &&
      forall i :: 0 <= i < |rs| ==>
        rs[i].hour == h.time[i] && rs[i].temperature == h.temperature2m[i] &&
        rs[i].windSpeed == h.windSpeed10m[i] && rs[i].precipitation == h.precipitation[i] &&
        rs[i].city == name
  {
    if response.hourly.Some? && Complete(response.hourly.value) {
      var h := response.hourly.value;
      ReadingsPrefixAt(name, h, |h.time|);
    }
  }

  /** The answer with every measurement array cut to the length of `time`. */
  function Trimmed(h: Hourly): Hourly
    requires Complete(h)
  {
    Hourly(h.time, h.temperature2m[..|h.time|], h.windSpeed10m[..|h.time|], h.precipitation[..|h.time|])
  }

  lemma {:induction false} ReadingsPrefixTrimmed(name: string, h: Hourly, n: nat)
    requires Complete(h) && n <= |h.time|
    ensures ReadingsPrefix(name, h, n) == ReadingsPrefix(name, Trimmed(h), n)
  {
    if n > 0 {
      ReadingsPrefixTrimmed(name, h, n - 1);
    }
  }

  /** Entries of the measurement arrays beyond the length of `time` are
      silently ignored. */
  lemma ExtraEntriesIgnored(name: string, h: Hourly)
    requires Complete(h)
    ensures CityReadings(name, Response(Some(h))) == CityReadings(name, Response(Some(Trimmed(h))))
  {
    ReadingsPrefixTrimmed(name, h, |h.time|);
  }

  /** The whole fetch task as a function of its inputs: cities in map order,
      each adding its request record and then its readings; the first city
      whose answer raises stops the task with that error. */
  function Fetch(cities: seq<City>, ambient: seq<Ambient>): Result<Batch, FetchError>
    requires |ambient| == |cities|
    decreases |cities|
  {
    if cities == [] then Ok(Batch([], []))
    else
      var n := |cities| - 1;
      match Fetch(cities[..n], ambient[..n])
      case Err(e) => Err(e)
      case Ok(b) =>
        match CityReadings(cities[n].name, ambient[n].response)
        case Err(e) => Err(e)
        case Ok(rs) => Ok(Batch(b.requests + [RequestFor(cities[n], ambient[n].stamp)], b.readings + rs))
  }

  /** Every city's answer zips without error. */
  predicate AllCitiesOk(cities: seq<City>, ambient: seq<Ambient>)
    requires |ambient| == |cities|
  {
    forall k :: 0 <= k < |cities| ==> CityReadings(cities[k].name, ambient[k].response).Ok?
  }

  /** The per-city reading lists, in city-map order. */
  function Groups(cities: seq<City>, ambient: seq<Ambient>): seq<seq<Reading>>
    requires |ambient| == |cities| && AllCitiesOk(cities, ambient)
  {
    seq(|cities|, k requires 0 <= k < |cities| => CityReadings(cities[k].name, ambient[k].response).value)
  }

  /** One request record per city, in city-map order, with the city's name
      and coordinates and that city's fetch time. */
  function Requests(cities: seq<City>, ambient: seq<Ambient>): seq<RequestRecord>
    requires |ambient| == |cities|
  {
    seq(|cities|, k requires 0 <= k < |cities| => RequestFor(cities[k], ambient[k].stamp))
  }

  /** The queries the task sends, one per city in map order: the city's
      coordinates, the three hourly quantities, the fixed timezone, and the
      same day as both start and end date. */
  function Queries(cities: seq<City>, ambient: seq<Ambient>): (qs: seq<QueryParams>)
    requires |ambient| == |cities|
    ensures |qs| == |cities|
    ensures forall k :: 0 <= k < |qs| ==>
      qs[k].latitude == cities[k].lat && qs[k].longitude == cities[k].lon &&
      qs[k].startDate == ambient[k].date && qs[k].endDate == ambient[k].date &&
      qs[k].hourly == HourlyQuantities && qs[k].timezone == Timezone
  {
    seq(|cities|, k requires 0 <= k < |cities| => QueryFor(cities[k], ambient[k].date))
  }

  /** A city whose answer raises stops the task with its error, once every
      earlier city has succeeded. */
  lemma {:induction false} FetchStopsAt(cities: seq<City>, ambient: seq<Ambient>, k: nat, e: FetchError)
    requires |ambient| == |cities| && k < |cities|
    requires Fetch(cities[..k], ambient[..k]).Ok?
    requires CityReadings(cities[k].name, ambient[k].response) == Err(e)
    ensures Fetch(cities, ambient) == Err(e)
    decreases |cities|
  {
    var n := |cities| - 1;
    if n == k {
      assert cities[..n] == cities[..k] && ambient[..n] == ambient[..k];
    } else {
      assert cities[..n][..k] == cities[..k] && ambient[..n][..k] == ambient[..k];
      FetchStopsAt(cities[..n], ambient[..n], k, e);
    }
  }

  /** The task succeeds exactly when every city's answer zips. */
  lemma {:induction false} FetchOkIff(cities: seq<City>, ambient: seq<Ambient>)
    requires |ambient| == |cities|
    ensures Fetch(cities, ambient).Ok? <==> AllCitiesOk(cities, ambient)
    decreases |cities|
  {
    if cities != [] {
      var n := |cities| - 1;
      FetchOkIff(cities[..n], ambient[..n]);
      assert forall k :: 0 <= k < n ==> cities[..n][k] == cities[k] && ambient[..n][k] == ambient[k];
    }
  }

  /** On success the task publishes one request record per city in map order
      and the concatenation, in map order, of each city's readings. */
  lemma {:induction false} FetchBatch(cities: seq<City>, ambient: seq<Ambient>)
    requires |ambient| == |cities| && AllCitiesOk(cities, ambient)
    ensures Fetch(cities, ambient) == Ok(Batch(Requests(cities, ambient), Flatten(Groups(cities, ambient))))
    decreases |cities|
  {
    if cities != [] {
      var n := |cities| - 1;
      var c, a := cities[..n], ambient[..n];
      assert forall k :: 0 <= k < n ==> c[k] == cities[k] && a[k] == ambient[k];
      assert AllCitiesOk(c, a);
      FetchBatch(c, a);
      assert Groups(cities, ambient)[..n] == Groups(c, a);
      assert Requests(cities, ambient) == Requests(c, a) + [RequestFor(cities[n], ambient[n].stamp)];
    }
  }

  /** On failure the error is that of the first city whose answer raises. */
  lemma {:induction false} FetchFirstError(cities: seq<City>, ambient: seq<Ambient>)
    requires |ambient| == |cities| && Fetch(cities, ambient).Err?
    ensures exists k :: (0 <= k < |cities| &&
      CityReadings(cities[k].name, ambient[k].response) == Err(Fetch(cities, ambient).error) &&
      AllCitiesOk(cities[..k], ambient[..k]))
    decreases |cities|
  {
    var n := |cities| - 1;
    var c, a := cities[..n], ambient[..n];
    if Fetch(c, a).Ok? {
      FetchOkIff(c, a);
      assert c == cities[..n] && a == ambient[..n];
    } else {
      FetchFirstError(c, a);
      var k :| 0 <= k < n &&
        CityReadings(c[k].name, a[k].response) == Err(Fetch(c, a).error) && AllCitiesOk(c[..k], a[..k]);
      assert c[..k] == cities[..k] && a[..k] == ambient[..k];
    }
  }

  /** The read of field `f` at hour `i` is the first one out of range. */
  lemma ShortRead(name: string, h: Hourly, i: nat, f: Field)
    requires i < |h.time| && i <= |h.temperature2m| && i <= |h.windSpeed10m| && i <= |h.precipitation|
    requires Len(h, f) == i && (Rank(f) > 0 ==> i < |h.temperature2m|) && (Rank(f) > 1 ==> i < |h.windSpeed10m|)
    ensures CityReadings(name, Response(Some(h))) == Err(IndexOutOfRange(name, f, i))
  {
  }

  /** The inner loop of the fetch task (dags/weather_pipeline.py:56-63):
      appends one reading per entry of `time` to `records`, stopping with
      the KeyError of a missing `hourly` block or the IndexError of the
      first read that is out of range. */
  method ZipHourly(name: string, data: Response, records: seq<Reading>)
    returns (outcome: Result<seq<Reading>, FetchError>)
    ensures CityReadings(name, data).Ok? ==> outcome == Ok(records + CityReadings(name, data).value)
    ensures CityReadings(name, data).Err? ==> outcome == Err(CityReadings(name, data).error)
  {
    if data.hourly.None? {
      return Err(MissingHourly(name));
    }
    var hourly := data.hourly.value;
    assert data == Response(Some(hourly));
    var weatherRecords := records;
    var i := 0;
    while i < |hourly.time|
      invariant i <= |hourly.time| && i <= |hourly.temperature2m|
      invariant i <= |hourly.windSpeed10m| && i <= |hourly.precipitation|
      invariant weatherRecords == records + ReadingsPrefix(name, hourly, i)
    {
      if i >= |hourly.temperature2m| {
        ShortRead(name, hourly, i, Temperature2m);
        return Err(IndexOutOfRange(name, Temperature2m, i));
      }
      if i >= |hourly.windSpeed10m| {
        ShortRead(name, hourly, i, WindSpeed10m);
        return Err(IndexOutOfRange(name, WindSpeed10m, i));
      }
      if i >= |hourly.precipitation| {
        ShortRead(name, hourly, i, Precipitation);
        return Err(IndexOutOfRange(name, Precipitation, i));
      }
      weatherRecords := weatherRecords + [ReadingAt(name, hourly, i)];
      i := i + 1;
    }
    outcome := Ok(weatherRecords);
  }

  /** A city whose answer zips extends the task's output by its request
      record and its readings. */
  lemma FetchExtends(cities: seq<City>, ambient: seq<Ambient>, k: nat, b: Batch, rs: seq<Reading>)
    requires |ambient| == |cities| && k < |cities|
    requires Fetch(cities[..k], ambient[..k]) == Ok(b)
    requires CityReadings(cities[k].name, ambient[k].response) == Ok(rs)
    ensures Fetch(cities[..k + 1], ambient[..k + 1]) ==
      Ok(Batch(b.requests + [RequestFor(cities[k], ambient[k].stamp)], b.readings + rs))
  {
    assert cities[..k + 1][..k] == cities[..k] && ambient[..k + 1][..k] == ambient[..k];
  }

  /** The fetch task (dags/weather_pipeline.py:27-66), with the answer, the
      date and the fetch time for each city supplied by `ambient`. `issued`
      is the list of queries sent, which ends at the city that raised. */
  method FetchWeatherData(cities: seq<City>, ambient: seq<Ambient>)
    returns (outcome: Result<Batch, FetchError>, issued: seq<QueryParams>)
    requires |ambient| == |cities|
    ensures outcome == Fetch(cities, ambient)
    ensures |issued| <= |cities| && (outcome.Ok? ==> |issued| == |cities|)
    ensures outcome.Err? ==>
      0 < |issued| &&
      CityReadings(cities[|issued| - 1].name, ambient[|issued| - 1].response) == Err(outcome.error) &&
      AllCitiesOk(cities[..|issued| - 1], ambient[..|issued| - 1])
    ensures issued == Queries(cities, ambient)[..|issued|]
  {
    var requestRecords: seq<RequestRecord> := [];
    var weatherRecords: seq<Reading> := [];
    issued := [];
    var k := 0;
    while k < |cities|
      invariant 0 <= k <= |cities| && |issued| == k
      invariant Fetch(cities[..k], ambient[..k]) == Ok(Batch(requestRecords, weatherRecords))
      invariant issued == Queries(cities, ambient)[..k]
    {
      var city := cities[k];
      ghost var queries := Queries(cities, ambient);
      assert queries[..k + 1] == queries[..k] + [queries[k]];
      issued := issued + [QueryFor(city, ambient[k].date)];
      var data := ambient[k].response;
      ghost var done := Batch(requestRecords, weatherRecords);
      requestRecords := requestRecords + [RequestFor(city, ambient[k].stamp)];
      var zipped := ZipHourly(city.name, data, weatherRecords);
      if zipped.Err? {
        outcome := Err(zipped.error);
        FetchStopsAt(cities, ambient, k, outcome.error);
        FetchOkIff(cities[..k], ambient[..k]);
        return;
      }
      FetchExtends(cities, ambient, k, done, CityReadings(city.name, data).value);
      weatherRecords := zipped.value;
      k := k + 1;
    }
    assert cities[..k] == cities && ambient[..k] == ambient;
    outcome := Ok(Batch(requestRecords, weatherRecords));
  }
}
