/** The fetch task and the load task composed: when the load task receives
    exactly what the fetch task published, and city names are distinct (they
    are the keys of the city map), every reading lands exactly once, under
    the parent row of its own city. */
module Pipeline {
  import opened Records
  import opened Store
  import opened FetchTask
  import opened LoadTask

  /** The child rows of one parent: its readings, each under `id`. */
  function Tag(id: nat, rs: seq<Reading>): seq<DataRow>
  {
    seq(|rs|, i requires 0 <= i < |rs| => DataRowOf(id, rs[i]))
  }

  /** The k-th group's rows under the k-th fresh id. */
  function TaggedGroups(id0: nat, groups: seq<seq<Reading>>): seq<seq<DataRow>>
  {
    seq(|groups|, k requires 0 <= k < |groups| => Tag(id0 + k, groups[k]))
  }

  /** The k-th group holds readings of the k-th city only. */
  predicate GroupedByCity(groups: seq<seq<Reading>>, cities: seq<City>)
  {
    |groups| == |cities| &&
    forall k, r :: 0 <= k < |groups| && r in groups[k] ==> r.city == cities[k].name
  }

  /** Readings that all have city `city` become rows under `id`, in order. */
  lemma {:induction false} ChildrenAll(id: nat, city: string, rs: seq<Reading>)
    requires forall i :: 0 <= i < |rs| ==> rs[i].city == city
    ensures Children(id, city, rs) == Tag(id, rs)
  {
    if rs != [] {
      var n := |rs| - 1;
      ChildrenAll(id, city, rs[..n]);
      assert Tag(id, rs) == Tag(id, rs[..n]) + [DataRowOf(id, rs[n])];
    }
  }

  /** No reading of a city outside the list is among the concatenated groups. */
  lemma {:induction false} ChildrenOfForeignCity(id: nat, city: string, groups: seq<seq<Reading>>, cities: seq<City>)
    requires GroupedByCity(groups, cities)
    requires forall k :: 0 <= k < |cities| ==> cities[k].name != city
    ensures Children(id, city, Flatten(groups)) == []
    decreases |groups|
  {
    if groups != [] {
      var n := |groups| - 1;
      assert GroupedByCity(groups[..n], cities[..n]);
      ChildrenOfForeignCity(id, city, groups[..n], cities[..n]);
      assert forall i :: 0 <= i < |groups[n]| ==> groups[n][i] in groups[n];
      ChildrenNone(id, city, groups[n]);
      ChildrenAppend(id, city, Flatten(groups[..n]), groups[n]);
    }
  }

  /** Picking the readings of the m-th city out of the concatenated groups
      gives back exactly the m-th group, in order. */
  lemma {:induction false} ChildrenOfOwnCity(id: nat, groups: seq<seq<Reading>>, cities: seq<City>, m: nat)
    requires GroupedByCity(groups, cities) && DistinctNames(cities) && m < |cities|
    ensures Children(id, cities[m].name, Flatten(groups)) == Tag(id, groups[m])
    decreases |groups|
  {
    var n, city := |groups| - 1, cities[m].name;
    var prefix := groups[..n];
    assert GroupedByCity(prefix, cities[..n]);
    assert forall i :: 0 <= i < |groups[n]| ==> groups[n][i] in groups[n];
    ChildrenAppend(id, city, Flatten(prefix), groups[n]);
    if m == n {
      ChildrenOfForeignCity(id, city, prefix, cities[..n]);
      ChildrenAll(id, city, groups[n]);
    } else {
      ChildrenOfOwnCity(id, prefix, cities[..n], m);
      ChildrenNone(id, city, groups[n]);
    }
  }

  /** The rows the load task inserts, request by request, when the k-th
      request record is for the k-th city: the k-th group under the k-th id. */
  lemma ChildRowsOfGroups(id0: nat, reqs: seq<RequestRecord>, groups: seq<seq<Reading>>, cities: seq<City>)
    requires GroupedByCity(groups, cities) && DistinctNames(cities) && |reqs| == |cities|
    requires forall k :: 0 <= k < |reqs| ==> reqs[k].city == cities[k].name
    ensures ChildRows(id0, reqs, Flatten(groups)) == Flatten(TaggedGroups(id0, groups))
  {
    var per := PerRequest(id0, reqs, Flatten(groups));
    forall k | 0 <= k < |reqs| ensures per[k] == TaggedGroups(id0, groups)[k] {
      ChildrenOfOwnCity(id0 + k, groups, cities, k);
    }
    assert per == TaggedGroups(id0, groups);
  }

  /** The group that position `j` of the flattened groups comes from. */
  function GroupIndex<T>(groups: seq<seq<T>>, j: nat): (k: nat)
    requires j < |Flatten(groups)|
    ensures k < |groups|
    decreases |groups|
  {
    var n := |groups| - 1;
    if j < |Flatten(groups[..n])| then GroupIndex(groups[..n], j) else n
  }

  /** Flattening the tagged groups puts, at every position, the row of the
      reading at the same position of the flattened groups, under the id of
      the group that reading came from. */
  lemma {:induction false} FlattenTagged(id0: nat, groups: seq<seq<Reading>>)
    ensures |Flatten(TaggedGroups(id0, groups))| == |Flatten(groups)|
    ensures forall j :: 0 <= j < |Flatten(groups)| ==>
      Flatten(groups)[j] in groups[GroupIndex(groups, j)] &&
      Flatten(TaggedGroups(id0, groups))[j] == DataRowOf(id0 + GroupIndex(groups, j), Flatten(groups)[j])
  {
    if groups != [] {
      var n := |groups| - 1;
      var t, prefix := TaggedGroups(id0, groups), groups[..n];
      assert t[..n] == TaggedGroups(id0, prefix);
      FlattenTagged(id0, prefix);
      var rows, rs := Flatten(t), Flatten(groups);
      var p := |Flatten(prefix)|;
      assert rows == Flatten(t[..n]) + t[n] && rs == Flatten(prefix) + groups[n];
      assert |t[n]| == |groups[n]|;
      forall j | 0 <= j < |rs|
        ensures rs[j] in groups[GroupIndex(groups, j)] && rows[j] == DataRowOf(id0 + GroupIndex(groups, j), rs[j])
      {
        if j < p {
          var k := GroupIndex(prefix, j);
          assert GroupIndex(groups, j) == k && prefix[k] == groups[k];
          assert rs[j] == Flatten(prefix)[j] && rows[j] == Flatten(t[..n])[j];
        } else {
          assert GroupIndex(groups, j) == n;
          assert rs[j] == groups[n][j - p] && rows[j] == t[n][j - p];
        }
      }
    }
  }

  /** The fetch task's readings, grouped per city, carry that city's name. */
  lemma FetchGroupedByCity(cities: seq<City>, ambient: seq<Ambient>)
    requires |ambient| == |cities| && AllCitiesOk(cities, ambient)
    ensures GroupedByCity(Groups(cities, ambient), cities)
  {
    var groups: seq<seq<Reading>> := Groups(cities, ambient);
    forall k, r | 0 <= k < |groups| && r in groups[k]
      ensures r.city == cities[k].name
    {
      CityReadingsZip(cities[k].name, ambient[k].response);
    }
  }

  /** With one request record per city, in city order, the j-th child row
      is the j-th reading under the id of a parent of that reading's city. */
  lemma RowsPerReading(id0: nat, reqs: seq<RequestRecord>, groups: seq<seq<Reading>>, cities: seq<City>)
    requires GroupedByCity(groups, cities) && DistinctNames(cities) && |reqs| == |cities|
    requires forall k :: 0 <= k < |reqs| ==> reqs[k].city == cities[k].name
    ensures var rows, rs := ChildRows(id0, reqs, Flatten(groups)), Flatten(groups);
      |rows| == |rs| &&
      forall j :: 0 <= j < |rs| ==>
        exists k :: 0 <= k < |cities| && cities[k].name == rs[j].city && rows[j] == DataRowOf(id0 + k, rs[j])
  {
    ChildRowsOfGroups(id0, reqs, groups, cities);
    FlattenTagged(id0, groups);
    var rows, rs := ChildRows(id0, reqs, Flatten(groups)), Flatten(groups);
    forall j | 0 <= j < |rs|
      ensures exists k :: 0 <= k < |cities| && cities[k].name == rs[j].city && rows[j] == DataRowOf(id0 + k, rs[j])
    {
      var k := GroupIndex(groups, j);
      assert cities[k].name == rs[j].city;
    }
  }

  /** One parent row per city, in map order, under consecutive ids, with
      the city's name, coordinates and fetch time. */
  lemma ParentRowsOfCities(id0: nat, cities: seq<City>, ambient: seq<Ambient>)
    requires |ambient| == |cities|
    ensures |ParentRows(id0, Requests(cities, ambient))| == |cities|
    ensures forall k :: 0 <= k < |cities| ==>
      ParentRows(id0, Requests(cities, ambient))[k] ==
        RequestRow(id0 + k, ambient[k].stamp, cities[k].name, cities[k].lat, cities[k].lon)
  {
  }

  /** End to end: when the load task receives exactly what the fetch task
      published, there is one parent row per city of the map, in map order
      and under consecutive fresh ids, with the city's name, coordinates and
      fetch time; there are as many child rows as readings, and the j-th
      child row carries the j-th reading under the id of the parent of that
      reading's own city, which, names being distinct, is the only such
      parent. So every reading lands exactly once, under the right parent. */
  lemma LoadOfFetch(cities: seq<City>, ambient: seq<Ambient>, b: Batch, id0: nat)
    requires |ambient| == |cities| && DistinctNames(cities) && Fetch(cities, ambient) == Ok(b)
    ensures |ParentRows(id0, b.requests)| == |cities|
    ensures forall k :: 0 <= k < |cities| ==>
      ParentRows(id0, b.requests)[k] == RequestRow(id0 + k, ambient[k].stamp, cities[k].name, cities[k].lat, cities[k].lon)
    ensures |ChildRows(id0, b.requests, b.readings)| == |b.readings|
    ensures forall j :: 0 <= j < |b.readings| ==>
      exists k :: 0 <= k < |cities| && cities[k].name == b.readings[j].city &&
        ChildRows(id0, b.requests, b.readings)[j] == DataRowOf(id0 + k, b.readings[j])
  {
    assert AllCitiesOk(cities, ambient) by {
      FetchOkIff(cities, ambient);
    }
    var reqs, groups := Requests(cities, ambient), Groups(cities, ambient);
    assert b == Batch(reqs, Flatten(groups)) by {
      FetchBatch(cities, ambient);
    }
    assert GroupedByCity(groups, cities) by {
      FetchGroupedByCity(cities, ambient);
    }
    RowsPerReading(id0, reqs, groups, cities);
    ParentRowsOfCities(id0, cities, ambient);
  }

  /** With one request per city in map order, a city with no readings gets
      no child row under its parent's id. */
  lemma NoChildrenOfEmptyGroup(id0: nat, reqs: seq<RequestRecord>, groups: seq<seq<Reading>>, cities: seq<City>, m: nat)
    requires GroupedByCity(groups, cities) && DistinctNames(cities) && |reqs| == |cities|
    requires forall k :: 0 <= k < |reqs| ==> reqs[k].city == cities[k].name
    requires m < |groups| && groups[m] == []
    ensures forall d :: d in ChildRows(id0, reqs, Flatten(groups)) ==> d.requestId != id0 + m
  {
    ChildRowsOfGroups(id0, reqs, groups, cities);
    var rows := Flatten(TaggedGroups(id0, groups));
    forall d | d in rows ensures d.requestId != id0 + m {
      var j :| 0 <= j < |rows| && rows[j] == d;
      FlattenTagged(id0, groups);
      var k := GroupIndex(groups, j);
      assert Flatten(groups)[j] in groups[k] && d.requestId == id0 + k;
    }
  }

  /** A city whose answer has an empty `time` array still gets its request
      record, so the load task commits a parent row for it with no child
      row under it: a parent without children. */
  lemma EmptyTimeOrphanParent(cities: seq<City>, ambient: seq<Ambient>, b: Batch, id0: nat, m: nat)
    requires |ambient| == |cities| && DistinctNames(cities) && Fetch(cities, ambient) == Ok(b)
    requires m < |cities| && ambient[m].response.hourly.Some? && ambient[m].response.hourly.value.time == []
    ensures m < |ParentRows(id0, b.requests)| && ParentRows(id0, b.requests)[m] ==
      RequestRow(id0 + m, ambient[m].stamp, cities[m].name, cities[m].lat, cities[m].lon)
    ensures forall d :: d in ChildRows(id0, b.requests, b.readings) ==> d.requestId != id0 + m
  {
    assert AllCitiesOk(cities, ambient) by {
      FetchOkIff(cities, ambient);
    }
    var reqs, groups := Requests(cities, ambient), Groups(cities, ambient);
    assert b == Batch(reqs, Flatten(groups)) by {
      FetchBatch(cities, ambient);
    }
    assert GroupedByCity(groups, cities) by {
      FetchGroupedByCity(cities, ambient);
    }
    assert groups[m] == [] by {
      CityReadingsZip(cities[m].name, ambient[m].response);
    }
    NoChildrenOfEmptyGroup(id0, reqs, groups, cities, m);
    ParentRowsOfCities(id0, cities, ambient);
  }
}
