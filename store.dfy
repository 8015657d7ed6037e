/** The relational store as the loader sees it through one connection: the
    two append-only tables `weather_requests` and `weather_data`, the rows
    this connection has staged but not yet committed, and the sequence that
    hands out `request_id` values. Staged rows become visible only at commit. */
module Store {
  import opened Records

  /** A row of `weather_requests`. */
  datatype RequestRow = RequestRow(requestId: nat, timestamp: string, city: string, latitude: real, longitude: real)

  /** A row of `weather_data`; the city is not stored, only the parent's id. */
  datatype DataRow = DataRow(requestId: nat, hour: string, temperature: Scalar, windSpeed: Scalar, precipitation: Scalar)

  /** The parent row inserted for a request record under id `id`. */
  function RequestRowOf(id: nat, r: RequestRecord): RequestRow
  {
    RequestRow(id, r.timestamp, r.city, r.latitude, r.longitude)
  }

  /** The child row inserted for a reading under parent id `id`. */
  function DataRowOf(id: nat, w: Reading): DataRow
  {
    DataRow(id, w.hour, w.temperature, w.windSpeed, w.precipitation)
  }

  function Ids(rows: seq<RequestRow>): set<nat>
  {
    set r | r in rows :: r.requestId
  }

  /** Generated ids grow with insertion order, so no two parents share one. */
  predicate IdsIncreasing(rows: seq<RequestRow>)
  {
    forall i, j :: 0 <= i < j < |rows| ==> rows[i].requestId < rows[j].requestId
  }

  predicate IdsBelow(rows: seq<RequestRow>, bound: nat)
  {
    forall i :: 0 <= i < |rows| ==> rows[i].requestId < bound
  }

  /** Every child row names an existing parent (the foreign key). */
  predicate References(data: seq<DataRow>, rows: seq<RequestRow>)
  {
    forall i :: 0 <= i < |data| ==> data[i].requestId in Ids(rows)
  }

  class WeatherStore {
    var requests: seq<RequestRow>        // committed rows of weather_requests
    var data: seq<DataRow>               // committed rows of weather_data
    var stagedRequests: seq<RequestRow>  // inserted in the open transaction
    var stagedData: seq<DataRow>
    var nextId: nat                      // the next value of the request_id sequence

    /** Ids are unique and below the sequence's next value, and every child
        row, committed or staged, references a parent its transaction sees;
        committed children reference committed parents. */
    ghost predicate Valid()
      reads this
    {
      IdsIncreasing(requests + stagedRequests) && IdsBelow(requests + stagedRequests, nextId) &&
      References(data, requests) && References(stagedData, requests + stagedRequests)
    }

    /** An empty database with a fresh id sequence, which starts at 1. */
    constructor ()
      ensures Valid()
      ensures requests == [] && data == [] && stagedRequests == [] && stagedData == [] && nextId == 1
    {
      requests, data := [], [];
      stagedRequests, stagedData := [], [];
      nextId := 1;
    }

    /** `INSERT INTO weather_requests ... RETURNING request_id`: stages a
        parent row under a fresh id and returns that id. */
    method InsertRequest(r: RequestRecord) returns (id: nat)
      requires Valid()
      modifies this
      ensures Valid()
      ensures id == old(nextId) && nextId == old(nextId) + 1
      ensures id !in Ids(old(requests + stagedRequests))
      ensures stagedRequests == old(stagedRequests) + [RequestRowOf(id, r)]
      ensures requests == old(requests) && data == old(data) && stagedData == old(stagedData)
    {
      ghost var seen := requests + stagedRequests;
      id := nextId;
      stagedRequests := stagedRequests + [RequestRowOf(id, r)];
      nextId := nextId + 1;
      assert requests + stagedRequests == seen + [RequestRowOf(id, r)];
      assert Ids(requests + stagedRequests) == Ids(seen) + {id};
    }

    /** `INSERT INTO weather_data ...`: stages a child row under parent `id`,
        which must be a parent the transaction sees. */
    method InsertData(id: nat, w: Reading)
      requires Valid() && id in Ids(requests + stagedRequests)
      modifies this
      ensures Valid()
      ensures stagedData == old(stagedData) + [DataRowOf(id, w)]
      ensures requests == old(requests) && data == old(data)
      ensures stagedRequests == old(stagedRequests) && nextId == old(nextId)
    {
      stagedData := stagedData + [DataRowOf(id, w)];
    }

    /** `conn.commit()`: the staged rows are appended to the tables. */
    method Commit()
      requires Valid()
      modifies this
      ensures Valid()
      ensures requests == old(requests) + old(stagedRequests) && data == old(data) + old(stagedData)
      ensures stagedRequests == [] && stagedData == [] && nextId == old(nextId)
    {
      requests, data := requests + stagedRequests, data + stagedData;
      stagedRequests, stagedData := [], [];
    }
  }
}
