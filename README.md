# Weather ETL pipeline: transform and load

This project models the two tasks of the daily `weather_etl` Airflow DAG
in `dags/weather_pipeline.py`. It proves properties of both tasks and of
running one after the other.

- **Fetch task** (`fetch_weather_data`). It walks the ordered city map. For
  each city it:
  - builds the forecast-API query;
  - records one request record (fetch time, city name, coordinates);
  - zips the answer's parallel `hourly` arrays into one reading per entry of
    `time`, each tagged with the city name.

  Both lists are published only if no city raised. A missing `hourly` block
  raises `KeyError`. A measurement array shorter than `time` raises
  `IndexError`.
- **Load task** (`insert_weather_data`). For each request record it:
  - inserts a parent row into `weather_requests` and takes the generated
    `request_id`;
  - inserts into `weather_data`, under that id, every reading whose city
    equals the record's city. This is an equi-join done in application code.

  It then commits once.

Files and modules:

- `records.dfy` (`Records`): the value types:
  - the city map entry;
  - the decoded API answer (`Response`, `Hourly`, with JSON numbers or `null` as `Scalar`);
  - the query, the request record and the reading;
  - the errors;
  - `Flatten`, the concatenation of a list of lists.
- `fetch.dfy` (`FetchTask`):
  - the fetch task as a method with its two nested loops (`FetchWeatherData`, `ZipHourly`);
  - the functions that specify those methods (`CityReadings`, `Fetch`, `Queries`, `Requests`, `Groups`);
  - the lemmas about those functions.
- `store.dfy` (`Store`): the database as one connection sees it, a class `WeatherStore` holding:
  - the two committed tables as append-only sequences;
  - the rows staged by the open transaction;
  - the `request_id` sequence counter.

  Its methods are the two `INSERT`s and the commit.
- `load.dfy` (`LoadTask`):
  - the load task as a method with its two nested loops over the store (`InsertWeatherData`, `InsertChildren`);
  - the functions `ParentRows` and `ChildRows`, which give the rows a run inserts;
  - the join lemmas.
- `pipeline.dfy` (`Pipeline`): the load task applied to exactly what the fetch task published.

The environment is passed in as values:

- For the k-th city, `ambient[k]` carries:
  - yesterday's date string;
  - the UTC fetch-time string;
  - the decoded answer.
- The XCom hand-off passes the two lists by value. The reading list is
  pulled again at every iteration of the loader's outer loop. Every pull
  returns the same value, so the model decodes it once.
- The load task starts on a fresh connection, with nothing staged.

## Model

| member | source | states |
|---|---|---|
| FetchTask.FetchWeatherData | dags/weather_pipeline.py:27-66 | The task's outcome is `Fetch(cities, ambient)`. On success one query was sent per city. On failure the queries stop at the first city whose answer raised: the error is that city's, and every earlier city zipped. The queries sent are the prefix of `Queries` for the cities reached. |
| FetchTask.ZipHourly | dags/weather_pipeline.py:56-63 | The inner loop appends exactly `CityReadings(name, data)` to the readings collected so far, or ends with that city's `KeyError`/`IndexError`. |
| FetchTask.Queries | dags/weather_pipeline.py:33-43 | One query per city, in map order. Each query has the city's latitude and longitude, the fixed hourly list `temperature_2m,wind_speed_10m,precipitation`, the timezone `America/New_York`, and the same date as start and end date. |
| FetchTask.FirstGap | dags/weather_pipeline.py:56-61 | There is no out-of-range read exactly when every measurement array is at least as long as `time`. The read it names is inside `time` and past the end of its array. Every read that happens before it is in range. |
| FetchTask.ShortRead | dags/weather_pipeline.py:59-61 | When the read of field `f` at hour `i` is the first out of range (earlier hours complete, earlier fields of the record literal present), the city's outcome is `IndexError` on `f` at `i`. |
| FetchTask.ReadingsPrefixAt | dags/weather_pipeline.py:56-63 | After `n` iterations there are `n` readings, and the i-th is built from the i-th entry of each array. |
| FetchTask.CityReadingsZip | dags/weather_pipeline.py:56-63 | A city's answer zips exactly when it has an `hourly` block with no array shorter than `time`. A missing block is `KeyError`. A short array is `IndexError` at the shortest array's length. On success there are exactly `len(time)` readings, the i-th holding `time[i]`, `temperature_2m[i]`, `wind_speed_10m[i]`, `precipitation[i]` and the city's name. |
| FetchTask.ExtraEntriesIgnored | dags/weather_pipeline.py:56-61 | Measurement entries beyond the length of `time` are silently ignored: cutting the arrays to `len(time)` gives the same readings. |
| FetchTask.FetchOkIff | dags/weather_pipeline.py:32-66 | The task publishes both lists exactly when every city's answer zips. |
| FetchTask.FetchBatch | dags/weather_pipeline.py:29-32 | On success the request list has one record per city, in map order, with the city's name and coordinates and its fetch time. The reading list is the concatenation, in map order, of each city's readings. Nothing is reordered, deduplicated or dropped. |
| FetchTask.FetchFirstError | dags/weather_pipeline.py:32-63 | On failure the error is that of a city whose answer raised, and every earlier city zipped. |
| FetchTask.FetchStopsAt | dags/weather_pipeline.py:56-66 | Once every earlier city succeeded, a city whose answer raises ends the task with that error, so nothing is pushed. |
| FetchTask.FetchExtends | dags/weather_pipeline.py:48-63 | A city whose answer zips adds its request record to the end of the request list and its readings to the end of the reading list. |
| Store.WeatherStore.InsertRequest | dags/weather_pipeline.py:78-83 | Stages one parent row with the record's fields under the sequence's next value. It returns that id, which no earlier parent has, and advances the sequence. Nothing else changes. |
| Store.WeatherStore.InsertData | dags/weather_pipeline.py:89-94 | Stages one child row carrying the given parent id and the reading's hour and measurements. The parent must be one the transaction sees. Nothing else changes. |
| Store.WeatherStore.Commit | dags/weather_pipeline.py:96 | Appends the staged parent and child rows to the two tables, in insertion order, and keeps ids unique and every child's foreign key valid. |
| LoadTask.InsertChildren | dags/weather_pipeline.py:86-94 | The inner loop stages `Children(requestId, city, readings)`: a row under `requestId` for each reading of `city`, in reading-list order. It changes no table and no other part of the store. |
| LoadTask.InsertWeatherData | dags/weather_pipeline.py:69-98 | After the commit, `weather_requests` has gained exactly `ParentRows` and `weather_data` exactly `ChildRows`, both in insertion order. The id sequence has advanced by one per request record. Nothing else changed, with this connection as the only writer (see Left out). |
| LoadTask.ChildrenJoin | dags/weather_pipeline.py:87-94 | Under one parent there is a row for a reading exactly when the reading has the parent's city, and as many rows as such readings. |
| LoadTask.ChildrenAppend | dags/weather_pipeline.py:87-88 | Child rows follow reading-list order: the rows for `a + b` are the rows for `a` followed by the rows for `b`. |
| LoadTask.ChildRowsSnoc | dags/weather_pipeline.py:77-94 | One more request record appends its own children after the rows of the earlier records. |
| LoadTask.ChildRowsCount | dags/weather_pipeline.py:77-94 | There is one child row per (request, reading) pair that agrees on the city. |
| LoadTask.ChildRowsJoin | dags/weather_pipeline.py:77-94 | A child row for the reading under the k-th parent's id exists if and only if the reading and the k-th request record agree on the city. |
| LoadTask.ChildIdsFromRun | dags/weather_pipeline.py:83-93 | Every child row carries an id generated for one of this run's parents. |
| LoadTask.ChildrenNone | dags/weather_pipeline.py:88 | Readings of other cities add no row under a parent. |
| LoadTask.ChildrenSkip | dags/weather_pipeline.py:86-94 | Under one parent, readings of other cities can be removed from anywhere without changing its rows. |
| LoadTask.UnmatchedNeverInserted | dags/weather_pipeline.py:86-94 | Readings whose city matches no request record are never inserted: removing them from anywhere in the list changes no row of the run. |
| Pipeline.FetchGroupedByCity | dags/weather_pipeline.py:56-63 | Each city's group of readings carries that city's name. |
| Pipeline.ChildrenAll | dags/weather_pipeline.py:87-94 | Readings that are all of the parent's city become its rows one for one, in order. |
| Pipeline.ChildrenOfForeignCity | dags/weather_pipeline.py:87-88 | A city that is not in the map gets no child rows from the fetched readings. |
| Pipeline.ChildrenOfOwnCity | dags/weather_pipeline.py:86-94 | With distinct names, the rows under the m-th city's parent are exactly the m-th city's readings, in hour order. |
| Pipeline.ChildRowsOfGroups | dags/weather_pipeline.py:77-94 | With one request per city in map order, the load task's child rows are each city's readings under that city's id, concatenated in map order. |
| Pipeline.FlattenTagged | dags/weather_pipeline.py:77-94 | Row j of the tagged groups is the j-th reading, under the id of the group it came from. |
| Pipeline.RowsPerReading | dags/weather_pipeline.py:77-94 | There are as many child rows as readings. The j-th child row is the j-th reading under the id of a parent of that reading's own city. |
| Pipeline.ParentRowsOfCities | dags/weather_pipeline.py:48-54 | The parent rows of the fetched request list are one per city, in map order, under consecutive ids, with the city's name, coordinates and fetch time. |
| Pipeline.NoChildrenOfEmptyGroup | dags/weather_pipeline.py:77-94 | With one request per city in map order, a city with no readings gets no child row under its parent's id. |
| Pipeline.EmptyTimeOrphanParent | dags/weather_pipeline.py:48-63 | A city whose answer has an empty `time` array still gets its parent row, but no child row carries that parent's id. |
| Pipeline.LoadOfFetch | dags/weather_pipeline.py:32-94 | End to end, when the load task receives exactly what the fetch task published and city names are distinct: there are as many parent rows as cities and as many child rows as readings, and each reading lands exactly once, under the parent of its own city. |

## Left out

- The HTTP request and JSON decoding (`requests.get`, `response.json()`): network I/O. The decoded answer is an input value.
  - The code makes no status check, so an error answer appears only as a missing `hourly` block.
- Missing keys inside the `hourly` block, or `hourly`/`time` of the wrong JSON type: `Hourly` always has the four arrays. A `KeyError`/`TypeError` on those is not modelled.
- The clock and date formatting (`datetime.now`, `timedelta`, `strftime`, `datetime.utcnow`): ambient time. The date string and the fetch-time string are per-city inputs.
- The XCom push/pull and `json.dumps`/`json.loads`: library and orchestrator calls. The two lists are passed by value, and the repeated pull inside the loader's loop is decoded once.
- SQL text, the Postgres hook, the cursor, `close`, and any database-side failure: these belong to a foreign database.
  - Failures not modelled: a connection error, a constraint violation, a type error.
  - Server-side rollback is not modelled.
  - The model keeps only the in-memory effect of each statement on the two tables and the id sequence.
  - Staged rows become visible at commit.
- The DAG, the operators and their dependency: orchestration only.
- `dags/settings/base.py`: configuration constants and a call to Airflow's `Variable.get`. `CITIES` is the ordered input list of cities.
- Floating-point semantics of coordinates and measurements: the code only copies them, so they are opaque values.
- Other database sessions are not modelled. The model assumes that this connection alone writes `weather_requests` and `weather_data` and draws from the `request_id` sequence while the load task runs.
  - The DAG does not limit concurrent runs, so an overlapping or manual run could interleave its rows and ids with this one.
  - "Nothing else changed", "the id sequence advanced by one per request record" and "consecutive ids" (`InsertWeatherData`, `ParentRowsOfCities`, `LoadOfFetch`) are properties of the model's counter, not of Postgres under concurrent sessions.
  - The join properties (`ChildRowsJoin`, `ChildRowsCount`, `UnmatchedNeverInserted`) depend only on the ids the inserts return, not on this assumption.
- The specification asks for things the code does not do. The model follows the code:
  - It asks that a length mismatch between the four arrays be an error. The code raises only when a measurement array is shorter than `time`, and longer arrays are silently cut (`ExtraEntriesIgnored`).
  - It rules out parents without children. The code records a city's request before zipping its readings, so a city whose answer has an empty `time` array gets a committed parent row with no child rows (`EmptyTimeOrphanParent`).
  - It allows cities to be fetched concurrently. The code fetches them one after another, in map order.
  - It asks for a bounded timeout on the API call. `requests.get` is called without a timeout; waiting is not modelled.
  - It asks for an explicit rollback on load failure. The code has none; it relies on the connection closing without commit.
  - It describes the load as returning a committed count. `insert_weather_data` returns nothing; the counts are stated as lemmas about the rows instead (`ChildRowsCount`, `LoadOfFetch`).
