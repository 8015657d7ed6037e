/** The load task: for each request record it inserts a parent row, takes the
    generated id, and inserts as children, under that id, every reading whose
    city equals the record's city (an equi-join on the city name done in the
    application, not in SQL); then it commits once. */
module LoadTask {
  import opened Records
  import opened Store

  /** The parent rows of a run, the k-th under the k-th fresh id. */
  function ParentRows(id0: nat, reqs: seq<RequestRecord>): seq<RequestRow>
  {
    seq(|reqs|, k requires 0 <= k < |reqs| => RequestRowOf(id0 + k, reqs[k]))
  }

  /** The child rows inserted under parent `id` of city `city`: one per
      reading of that city, in reading-list order. */
  function Children(id: nat, city: string, ws: seq<Reading>): seq<DataRow>
  {
    if ws == [] then []
    else
      var n := |ws| - 1;
      Children(id, city, ws[..n]) + (if ws[n].city == city then [DataRowOf(id, ws[n])] else [])
  }

  /** For each request in turn, the child rows inserted under it. */
  function PerRequest(id0: nat, reqs: seq<RequestRecord>, ws: seq<Reading>): seq<seq<DataRow>>
  {
    seq(|reqs|, k requires 0 <= k < |reqs| => Children(id0 + k, reqs[k].city, ws))
  }

  /** All child rows of a run, in insertion order. */
  function ChildRows(id0: nat, reqs: seq<RequestRecord>, ws: seq<Reading>): seq<DataRow>
  {
    Flatten(PerRequest(id0, reqs, ws))
  }

  /** How many readings carry city `city`. */
  function CountCity(ws: seq<Reading>, city: string): nat
  {
    if ws == [] then 0
    else CountCity(ws[..|ws| - 1], city) + (if ws[|ws| - 1].city == city then 1 else 0)
  }

  /** How many (request, reading) pairs agree on the city. */
  function MatchCount(reqs: seq<RequestRecord>, ws: seq<Reading>): nat
  {
    if reqs == [] then 0
    else MatchCount(reqs[..|reqs| - 1], ws) + CountCity(ws, reqs[|reqs| - 1].city)
  }

  /** Under one parent: a row for a reading exactly when the reading has the
      parent's city, as many rows as such readings, all under the parent id. */
  lemma {:induction false} ChildrenJoin(id: nat, city: string, ws: seq<Reading>)
    ensures |Children(id, city, ws)| == CountCity(ws, city)
    ensures forall j :: 0 <= j < |ws| && ws[j].city == city ==> DataRowOf(id, ws[j]) in Children(id, city, ws)
    ensures forall d :: d in Children(id, city, ws) ==>
      exists j :: 0 <= j < |ws| && ws[j].city == city && d == DataRowOf(id, ws[j])
  {
    if ws != [] {
      var n := |ws| - 1;
      ChildrenJoin(id, city, ws[..n]);
      assert forall j :: 0 <= j < n ==> ws[..n][j] == ws[j];
    }
  }

  /** Rows for a longer reading list extend the rows for its prefix: the
      children follow reading-list order. */
  lemma {:induction false} ChildrenAppend(id: nat, city: string, a: seq<Reading>, b: seq<Reading>)
    ensures Children(id, city, a + b) == Children(id, city, a) + Children(id, city, b)
    decreases |b|
  {
    if b == [] {
      assert a + b == a;
    } else {
      var n := |b| - 1;
      assert (a + b)[..|a + b| - 1] == a + b[..n];
      ChildrenAppend(id, city, a, b[..n]);
    }
  }

  /** Rows for one more request record extend the rows for the others. */
  lemma ChildRowsSnoc(id0: nat, reqs: seq<RequestRecord>, ws: seq<Reading>)
    requires reqs != []
    ensures ChildRows(id0, reqs, ws) ==
      ChildRows(id0, reqs[..|reqs| - 1], ws) + Children(id0 + |reqs| - 1, reqs[|reqs| - 1].city, ws)
  {
    assert PerRequest(id0, reqs, ws)[..|reqs| - 1] == PerRequest(id0, reqs[..|reqs| - 1], ws);
  }

  /** One child row per (request, reading) pair that agrees on the city. */
  lemma {:induction false} ChildRowsCount(id0: nat, reqs: seq<RequestRecord>, ws: seq<Reading>)
    ensures |ChildRows(id0, reqs, ws)| == MatchCount(reqs, ws)
  {
    if reqs != [] {
      var n := |reqs| - 1;
      ChildRowsSnoc(id0, reqs, ws);
      ChildRowsCount(id0, reqs[..n], ws);
      ChildrenJoin(id0 + n, reqs[n].city, ws);
    }
  }

  /** The join: the run inserts a child row for a (request, reading) pair
      exactly when the two agree on the city, under that request's id. */
  lemma ChildRowsJoin(id0: nat, reqs: seq<RequestRecord>, ws: seq<Reading>)
    ensures forall k, j :: 0 <= k < |reqs| && 0 <= j < |ws| && ws[j].city == reqs[k].city ==>
      DataRowOf(id0 + k, ws[j]) in ChildRows(id0, reqs, ws)
    ensures forall d :: d in ChildRows(id0, reqs, ws) ==>
      exists k, j :: 0 <= k < |reqs| && 0 <= j < |ws| && ws[j].city == reqs[k].city && d == DataRowOf(id0 + k, ws[j])
  {
    var per := PerRequest(id0, reqs, ws);
    forall k, j | 0 <= k < |reqs| && 0 <= j < |ws| && ws[j].city == reqs[k].city
      ensures DataRowOf(id0 + k, ws[j]) in ChildRows(id0, reqs, ws)
    {
      ChildrenJoin(id0 + k, reqs[k].city, ws);
      assert DataRowOf(id0 + k, ws[j]) in per[k];
      FlattenMember(per, DataRowOf(id0 + k, ws[j]));
    }
    forall d | d in ChildRows(id0, reqs, ws)
      ensures exists k, j :: 0 <= k < |reqs| && 0 <= j < |ws| && ws[j].city == reqs[k].city && d == DataRowOf(id0 + k, ws[j])
    {
      FlattenMember(per, d);
      var k :| 0 <= k < |per| && d in per[k];
      ChildrenJoin(id0 + k, reqs[k].city, ws);
    }
  }

  /** A run's child rows all carry the id of one of the run's parents. */
  lemma ChildIdsFromRun(id0: nat, reqs: seq<RequestRecord>, ws: seq<Reading>)
    ensures forall d :: d in ChildRows(id0, reqs, ws) ==> id0 <= d.requestId < id0 + |reqs|
  {
    ChildRowsJoin(id0, reqs, ws);
  }

  /** Readings none of which has city `city` produce no row under it. */
  lemma {:induction false} ChildrenNone(id: nat, city: string, ws: seq<Reading>)
    requires forall j :: 0 <= j < |ws| ==> ws[j].city != city
    ensures Children(id, city, ws) == []
  {
    if ws != [] {
      ChildrenNone(id, city, ws[..|ws| - 1]);
    }
  }

  /** Under one parent, readings of other cities can be dropped from
      anywhere without changing the rows. */
  lemma ChildrenSkip(id: nat, city: string, a: seq<Reading>, b: seq<Reading>, c: seq<Reading>)
    requires forall j :: 0 <= j < |b| ==> b[j].city != city
    ensures Children(id, city, a + b + c) == Children(id, city, a + c)
  {
    ChildrenNone(id, city, b);
    ChildrenAppend(id, city, a + b, c);
    ChildrenAppend(id, city, a, b);
    ChildrenAppend(id, city, a, c);
  }

  /** Readings whose city matches no request record are never inserted:
      removing them from anywhere in the reading list changes no row. */
  lemma UnmatchedNeverInserted(id0: nat, reqs: seq<RequestRecord>, a: seq<Reading>, b: seq<Reading>, c: seq<Reading>)
    requires forall j, k :: 0 <= j < |b| && 0 <= k < |reqs| ==> b[j].city != reqs[k].city
    ensures ChildRows(id0, reqs, a + b + c) == ChildRows(id0, reqs, a + c)
  {
    var with, without := PerRequest(id0, reqs, a + b + c), PerRequest(id0, reqs, a + c);
    forall k | 0 <= k < |reqs| ensures with[k] == without[k] {
      ChildrenSkip(id0 + k, reqs[k].city, a, b, c);
    }
    assert with == without;
  }

  /** The inner loop of the load task (dags/weather_pipeline.py:87-94):
      stages, under parent `requestId`, a child row for every reading of
      `city`, in reading-list order, and nothing else. */
  method InsertChildren(db: WeatherStore, requestId: nat, city: string, weatherRecords: seq<Reading>)
    requires db.Valid() && requestId in Ids(db.requests + db.stagedRequests)
    modifies db
    ensures db.Valid()
    ensures db.stagedData == old(db.stagedData) + Children(requestId, city, weatherRecords)
    ensures db.requests == old(db.requests) && db.data == old(db.data)
    ensures db.stagedRequests == old(db.stagedRequests) && db.nextId == old(db.nextId)
  {
    var j := 0;
    while j < |weatherRecords|
      invariant 0 <= j <= |weatherRecords|
      invariant db.Valid()
      invariant db.requests == old(db.requests) && db.data == old(db.data)
      invariant db.stagedRequests == old(db.stagedRequests) && db.nextId == old(db.nextId)
      invariant db.stagedData == old(db.stagedData) + Children(requestId, city, weatherRecords[..j])
    {
      var weather := weatherRecords[j];
      if weather.city == city {
        db.InsertData(requestId, weather);
      }
      assert weatherRecords[..j + 1][..j] == weatherRecords[..j];
      j := j + 1;
    }
    assert weatherRecords[..j] == weatherRecords;
  }

  /** The load task (dags/weather_pipeline.py:69-98) on a fresh connection.
      The reading list is decoded once: every pull inside the loop returns
      the same value. */
  method InsertWeatherData(db: WeatherStore, requestRecords: seq<RequestRecord>, weatherRecords: seq<Reading>)
    requires db.Valid() && db.stagedRequests == [] && db.stagedData == []
    modifies db
    ensures db.Valid() && db.stagedRequests == [] && db.stagedData == []
    ensures db.nextId == old(db.nextId) + |requestRecords|
    ensures db.requests == old(db.requests) + ParentRows(old(db.nextId), requestRecords)
    ensures db.data == old(db.data) + ChildRows(old(db.nextId), requestRecords, weatherRecords)
  {
    ghost var id0 := db.nextId;
    var k := 0;
    while k < |requestRecords|
      invariant 0 <= k <= |requestRecords|
      invariant db.Valid() && db.nextId == id0 + k
      invariant db.requests == old(db.requests) && db.data == old(db.data)
      invariant db.stagedRequests == ParentRows(id0, requestRecords[..k])
      invariant db.stagedData == ChildRows(id0, requestRecords[..k], weatherRecords)
    {
      var record := requestRecords[k];
      var requestId := db.InsertRequest(record);
      assert db.stagedRequests == ParentRows(id0, requestRecords[..k + 1]);
      assert requestId in Ids(db.requests + db.stagedRequests) by {
        assert (db.requests + db.stagedRequests)[|db.requests| + k] == RequestRowOf(requestId, record);
      }
      InsertChildren(db, requestId, record.city, weatherRecords);
      assert requestRecords[..k + 1][..k] == requestRecords[..k];
      ChildRowsSnoc(id0, requestRecords[..k + 1], weatherRecords);
      k := k + 1;
    }
    assert requestRecords[..k] == requestRecords;
    db.Commit();
  }
}
