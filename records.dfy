/** The values that flow through the weather ETL pipeline: the city registry,
    the decoded forecast-API answer, and the two intermediate record lists that
    the fetch task hands to the load task. Measured values and coordinates are
    only ever copied, so they are kept as opaque numbers and never computed on. */
module Records {

  datatype Result<+T, +E> = Ok(value: T) | Err(error: E)

  datatype Option<+T> = None | Some(value: T)

  /** A JSON scalar taken from one of the API's hourly arrays: a number, or
      `null` for an hour the provider has no value for. */
  datatype Scalar = Null | Num(value: real)

  /** One entry of the ordered city map: its name (the key) and coordinates. */
  datatype City = City(name: string, lat: real, lon: real)

  /** City names are the keys of a dictionary, so they are pairwise distinct. */
  predicate DistinctNames(cities: seq<City>)
  {
    forall i, j :: 0 <= i < j < |cities| ==> cities[i].name != cities[j].name
  }

  /** The query string sent to the forecast API for one city. */
  datatype QueryParams = QueryParams(
    latitude: real,
    longitude: real,
    hourly: string,
    timezone: string,
    startDate: string,
    endDate: string)

  /** The `hourly` block of a decoded API answer: four arrays that the provider
      means to be parallel, though nothing forces their lengths to agree. */
  datatype Hourly = Hourly(
    time: seq<string>,
    temperature2m: seq<Scalar>,
    windSpeed10m: seq<Scalar>,
    precipitation: seq<Scalar>)

  /** A decoded API answer; an error answer has no `hourly` key at all. */
  datatype Response = Response(hourly: Option<Hourly>)

  /** What the outside world supplies while one city is processed: the
      calendar date of yesterday, the UTC fetch time as text, and the answer. */
  datatype Ambient = Ambient(date: string, stamp: string, response: Response)

  /** A parent record: one fetch of one city in one run. */
  datatype RequestRecord = RequestRecord(timestamp: string, city: string, latitude: real, longitude: real)

  /** A child record: one hour of one city, tagged with the city's name. */
  datatype Reading = Reading(hour: string, temperature: Scalar, windSpeed: Scalar, precipitation: Scalar, city: string)

  /** The two lists the fetch task publishes for the load task. */
  datatype Batch = Batch(requests: seq<RequestRecord>, readings: seq<Reading>)

  /** The hourly arrays that are indexed alongside `time`, in the order the
      record literal reads them. */
  datatype Field = Temperature2m | WindSpeed10m | Precipitation

  datatype FetchError =
    | MissingHourly(city: string)                          // KeyError: the answer has no `hourly` block
    | IndexOutOfRange(city: string, field: Field, index: nat) // IndexError: an array is shorter than `time`

  /** Concatenation of a list of lists, in order. */
  function Flatten<T>(groups: seq<seq<T>>): seq<T>
  {
    if groups == [] then [] else Flatten(groups[..|groups| - 1]) + groups[|groups| - 1]
  }

  /** An element is in the concatenation exactly when it is in one of the
      lists. */
  lemma {:induction false} FlattenMember<T>(groups: seq<seq<T>>, x: T)
    ensures x in Flatten(groups) <==> exists k :: 0 <= k < |groups| && x in groups[k]
  {
    if groups != [] {
      var n := |groups| - 1;
      FlattenMember(groups[..n], x);
      assert forall k :: 0 <= k < n ==> groups[..n][k] == groups[k];
    }
  }
}
