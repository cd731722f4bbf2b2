# Container status monitor — Dafny model

This project models the observation logic of a small deployment tool. The tool
reads a compose manifest and asks `docker compose` to deploy it. It then polls
the Docker engine once per second for a fixed number of ticks and records every
container whose name the manifest declares. At the end it prints the
accumulated records as JSON.

The model covers three parts:

- **Watch-list extraction** (`compose.dfy`, module `Compose`). The manifest is a
  map from service name to `Service(image, containerName)`. The names to
  watch are the `container_name` values of the services that define one,
  collected in the map's iteration order. That order is not fixed by a hash
  map, so it is an explicit argument `order` that must list every key once.
- **Name normalisation and matching** (`monitor.dfy`, module `StatusMonitor`).
  `TrimLeadingSlashes` is `trim_start_matches('/')`. A container is watched
  when any of its trimmed names is in the watch list (`AnyNameExpected`).
- **Observation log** (`monitor.dfy`). The engine is an input
  `Engine = nat -> Listing`: at tick `t` the list query returns either
  `Listed(containers)` in engine order or `QueryFailed`. `Run` is the
  specification of the whole loop. `MonitorContainerStatuses` is the loop
  itself: a counted outer loop over ticks and an inner loop over containers
  that appends to a mutable log. It is proved equal to `Run`. Ghost
  out-parameters count the queries and the sleeps. A run ends as
  `Emitted(log)` (the log that would be printed) or as
  `EngineQueryError(tick)` (the `?` on the query, with nothing printed).

`scenarios.dfy` (module `Scenarios`) connects the extracted watch list to the
monitor and states concrete runs of the tool.

Facts about the code that the model keeps:

- The watch list is a `Vec`: duplicates are kept, and only membership is used.
- A tick count of 0 is accepted: no query is made and the log is empty.
- The sleep follows every tick, including the last one. So a complete run
  sleeps `duration` times, and a run that fails at tick `t` sleeps `t` times.

## Model

| member | source | states |
|---|---|---|
| `Compose.NamesOf` | src/main.rs:118-122 | The filter_map over services visited in a given key order: a name is in the result iff some visited service has that `container_name`; the result is no longer than the key list |
| `Compose.ExpectedNames` | src/main.rs:118-122 | For any iteration order of the services, a name is in the watch list iff some service of the manifest declares it as `container_name`; the list is no longer than the number of services |
| `Compose.NoContainerNamesNoneExpected` | src/main.rs:118-122 | A manifest where no service has a `container_name` yields an empty watch list |
| `Compose.ExpectedNamesOrderIrrelevant` | src/main.rs:118-122 | Any two iteration orders of the services' map give the same names with the same multiplicities; only their order can differ |
| `Compose.NamesOfAppend` | src/main.rs:120-122 | The filter_map over a concatenation of key lists is the concatenation of the two results |
| `Compose.NamesOfPermutation` | src/main.rs:120-122 | Visiting the same keys in a permuted order permutes the collected names |
| `StatusMonitor.TrimLeadingSlashes` | src/main.rs:88 | The trimmed name is the original with a run of only `/` characters removed from its front, and it does not start with `/` |
| `StatusMonitor.TrimSlashesThen` | src/main.rs:88 | Trimming `n` slashes followed by a rest that does not start with `/` yields exactly that rest; for `n = 0`, a name with no leading `/` is unchanged |
| `StatusMonitor.TrimIdempotent` | src/main.rs:88 | Trimming twice gives the same result as trimming once |
| `StatusMonitor.AnyNameExpected` | src/main.rs:85-89 | A container matches iff at least one of its names, with leading `/` removed, is in the watch list |
| `StatusMonitor.TickEntries` | src/main.rs:84-99 | The entries of one tick are no more than the containers listed |
| `StatusMonitor.EntryIsWatched` | src/main.rs:85-97 | Every entry of a tick copies id, image, the untrimmed names and status from a listed container that has an expected name |
| `StatusMonitor.WatchedIsRecorded` | src/main.rs:84-97 | Every listed container with an expected name has its snapshot among the tick's entries |
| `StatusMonitor.TickEntriesAppend` | src/main.rs:84-99 | A tick's entries over a concatenated container list are the two parts' entries in the same order, so the entries follow engine order |
| `StatusMonitor.TickEntriesSingle` | src/main.rs:85-97 | One container gives its snapshot iff one of its trimmed names is expected, and nothing otherwise |
| `StatusMonitor.NothingExpectedNoEntries` | src/main.rs:85-89 | With an empty watch list a tick appends nothing, whatever the engine lists |
| `StatusMonitor.Run` | src/main.rs:79-105 | The run succeeds iff every query of the `ticks` ticks succeeds. On failure it reports the first failing tick: that query failed and all earlier ones succeeded |
| `StatusMonitor.MonitorContainerStatuses` | src/main.rs:71-108 | The loop's outcome equals `Run` for `duration` ticks. A complete run makes `duration` queries and `duration` sleeps. A run failing at tick `t` makes `t + 1` queries and `t` sleeps and emits nothing. With `duration = 0` it makes no query and emits an empty log |
| `StatusMonitor.ErrorPersists` | src/main.rs:82 | Once a tick's query has failed, running more ticks does not change the outcome: later ticks never run |
| `StatusMonitor.LogAppendOnly` | src/main.rs:79-99 | The log after `i` ticks is a prefix of the log after any later tick |
| `StatusMonitor.TickObservedInLog` | src/main.rs:81-99 | Every matching container listed at any completed tick has its snapshot in the final log |
| `StatusMonitor.LogEntriesObserved` | src/main.rs:81-99 | Every log entry records a matching container that the engine listed at some completed tick |
| `StatusMonitor.NothingExpectedEmptyLog` | src/main.rs:79-89 | With an empty watch list the emitted log is empty after any number of ticks |
| `StatusMonitor.RecordedEveryTick` | src/main.rs:81-99 | No de-duplication: a watched container listed, among any others, at each of `k` ticks has at least `k` copies of its snapshot in the log |
| `StatusMonitor.RecordedOncePerTick` | src/main.rs:81-99 | A watched container listed alone at each of `k` ticks gives exactly `k` snapshots of it, one per tick, and nothing else |
| `StatusMonitor.LogLength` | src/main.rs:81-99 | The log length is the number of matching containers summed over the ticks |
| `StatusMonitor.WatchedCount` | src/main.rs:84-99 | A tick appends exactly as many entries as the listed containers that match |
| `Scenarios.NoContainerNamesNothingObserved` | src/main.rs:118-130 | A manifest without any `container_name` leads to an empty log for every engine behaviour and tick count |
| `Scenarios.WatchedIndependentOfOrder` | src/main.rs:118-122 | Whether a container matches does not depend on the order the services' map was iterated in |
| `Scenarios.OneEntryPerTick` | src/main.rs:81-99 | If every tick contributes exactly one entry, the log is those entries in tick order |
| `Scenarios.WebOnlyExpected` | src/main.rs:118-122 | Services `web` (named "web") and `db` (unnamed) give the watch list ["web"] |
| `Scenarios.WebAndDbTick` | src/main.rs:84-99 | With the watch list ["web"] and the engine listing "/web" and "/db", a tick records only the web container |
| `Scenarios.WebWatchedThreeTicks` | src/main.rs:79-102 | Three such ticks record the web container once per tick, in tick order |
| `Scenarios.WebAndDbThreeTicks` | src/main.rs:79-122 | End to end: the log has exactly three entries, each the web container as reported at its own tick |
| `Scenarios.FailureAtSecondTick` | src/main.rs:82 | If the query fails at the second of five ticks, the run ends with that error and tick 1's entries are not emitted |

## Left out

- Command-line parsing (`Cli`, `clap`): the manifest is given as a parsed
  value, and the tick count as a `nat`.
- Reading and YAML-deserialising the manifest (`parse_compose_file`): this is
  file I/O plus a foreign parser. `ComposeFile` is its result. The read and
  format errors are not modelled.
- Launching `docker compose` (`run_docker_compose`): process spawning and
  inherited output streams. Neither its spawn failure, which aborts `main`
  before monitoring, nor its exit status is modelled.
- The Docker engine client: it is replaced by the `Engine` input. Container
  fields the monitor does not read are omitted.
- The one-second sleep and the async runtime: timing is not modelled. Sleeps
  are only counted, as a ghost out-parameter.
- JSON pretty-printing, its serialisation error and every `println!`: the
  emitted `log` stands for the printed document.
- The `u64` width of the tick count: the loop only counts up to it, so
  nothing can wrap.
- The hash map's actual iteration order: it is unspecified. Every
  enumeration of the keys is admitted, and the result is proved not to depend
  on it beyond order.
