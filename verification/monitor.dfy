/** The observation loop of `monitor_container_statuses`: for each tick, list
    the engine's containers, keep those with a name in the watch list, and
    append a snapshot of each to the log; after the last tick the log is the
    output. The engine is an input: `engine(t)` is what the list query returns
    at tick `t`, either the containers in engine order or a failure. */
module StatusMonitor {

  /** A container as the engine reports it (the fields the monitor reads). */
  datatype Container = Container(id: string, image: string, names: seq<string>, status: string)

  /** One recorded observation, the `ContainerInfo` of the log. */
  datatype ContainerInfo = ContainerInfo(id: string, image: string, names: seq<string>, status: string)

  /** The answer to one list query. */
  datatype Listing = Listed(containers: seq<Container>) | QueryFailed

  /** The engine's answer at each tick. */
  type Engine = nat -> Listing

  /** How a run ends: the log is emitted, or the query of `tick` failed and
      nothing is emitted. */
  datatype Outcome = Emitted(log: seq<ContainerInfo>) | EngineQueryError(tick: nat)

  /** `n` separator characters. */
  function Slashes(n: nat): string
  {
    seq(n, _ => '/')
  }

  /** `trim_start_matches('/')`: the name without any of its leading slashes. */
  function TrimLeadingSlashes(name: string): (r: string)
    ensures |r| <= |name| && name == Slashes(|name| - |r|) + r
    ensures r == [] || r[0] != '/'
  {
    if name != [] && name[0] == '/' then
      var r := TrimLeadingSlashes(name[1..]);
      assert Slashes(|name| - |r|) == ['/'] + Slashes(|name[1..]| - |r|);
      r
    else
      name
  }

  /** The `any` over a container's names: some name, once trimmed, is expected. */
  function AnyNameExpected(names: seq<string>, expected: seq<string>): (b: bool)
    ensures b <==> exists i :: 0 <= i < |names| && TrimLeadingSlashes(names[i]) in expected
  {
    if names == [] then false
    else
      assert forall i :: 0 < i < |names| ==> names[i] == names[1..][i - 1];
      TrimLeadingSlashes(names[0]) in expected || AnyNameExpected(names[1..], expected)
  }

  /** The snapshot pushed for a matching container. */
  function Snapshot(c: Container): ContainerInfo
  {
    ContainerInfo(c.id, c.image, c.names, c.status)
  }

  /** `info` carries the engine's fields of `c` unchanged (names keep their slashes). */
  predicate Records(info: ContainerInfo, c: Container)
  {
    info.id == c.id && info.image == c.image && info.names == c.names && info.status == c.status
  }

  /** The entries one tick appends, for the containers `cs` in engine order:
      at most one per container (see `TickEntriesAppend`, `TickEntriesSingle`,
      `EntryIsWatched` and `WatchedIsRecorded` for which ones). */
  function TickEntries(expected: seq<string>, cs: seq<Container>): (r: seq<ContainerInfo>)
    ensures |r| <= |cs|
  {
    if cs == [] then []
    else
      var last := cs[|cs| - 1];
      var front := cs[..|cs| - 1];
      assert cs == front + [last];
      TickEntries(expected, front) + (if AnyNameExpected(last.names, expected) then [Snapshot(last)] else [])
  }

  /** The outcome after `ticks` ticks: the first failing query aborts the run,
      otherwise each tick's entries are appended in tick order. */
  function Run(expected: seq<string>, engine: Engine, ticks: nat): (o: Outcome)
    ensures o.Emitted? <==> forall t :: 0 <= t < ticks ==> engine(t).Listed?
    ensures o.EngineQueryError? ==>
      o.tick < ticks && engine(o.tick).QueryFailed? &&
      forall t :: 0 <= t < o.tick ==> engine(t).Listed?
  {
    if ticks == 0 then Emitted([])
    else
      match Run(expected, engine, ticks - 1)
      case EngineQueryError(t) => EngineQueryError(t)
      case Emitted(log) =>
        match engine(ticks - 1)
        case QueryFailed => EngineQueryError(ticks - 1)
        case Listed(cs) => Emitted(log + TickEntries(expected, cs))
  }

  /** `monitor_container_statuses`: `duration` ticks, each one query, the
      matching containers pushed in engine order, then one sleep. `queries`
      and `sleeps` count the engine queries and the sleeps performed. */
  method MonitorContainerStatuses(expected: seq<string>, engine: Engine, duration: nat)
    returns (outcome: Outcome, ghost queries: nat, ghost sleeps: nat)
    ensures outcome == Run(expected, engine, duration)
    ensures outcome.Emitted? ==> queries == duration && sleeps == duration
    ensures outcome.EngineQueryError? ==> queries == outcome.tick + 1 && sleeps == outcome.tick
  {
    var log: seq<ContainerInfo> := [];
    queries, sleeps := 0, 0;
    var tick := 0;
    while tick < duration
      invariant tick <= duration
      invariant Run(expected, engine, tick) == Emitted(log)
      invariant queries == tick && sleeps == tick
    {
      var listing := engine(tick);
      queries := queries + 1;
      if listing.QueryFailed? {
        RunStopsAt(expected, engine, tick);
        ErrorPersists(expected, engine, tick + 1, duration);
        outcome := EngineQueryError(tick);
        return;
      }
      var cs := listing.containers;
      ghost var before := log;
      var j := 0;
      while j < |cs|
        invariant j <= |cs|
        invariant log == before + TickEntries(expected, cs[..j])
      {
        var container := cs[j];
        if AnyNameExpected(container.names, expected) {
          log := log + [Snapshot(container)];
        }
        assert cs[..j + 1][..j] == cs[..j];
        j := j + 1;
      }
      assert cs[..j] == cs;
      RunStep(expected, engine, tick);
      sleeps := sleeps + 1;
      tick := tick + 1;
    }
    outcome := Emitted(log);
  }

  /** A tick after successful ones whose query succeeds appends that tick's entries. */
  lemma RunStep(expected: seq<string>, engine: Engine, k: nat)
    requires Run(expected, engine, k).Emitted? && engine(k).Listed?
    ensures Run(expected, engine, k + 1)
         == Emitted(Run(expected, engine, k).log + TickEntries(expected, engine(k).containers))
  {
  }

  /** A tick after successful ones whose query fails ends the run with its error. */
  lemma RunStopsAt(expected: seq<string>, engine: Engine, k: nat)
    requires Run(expected, engine, k).Emitted? && engine(k).QueryFailed?
    ensures Run(expected, engine, k + 1) == EngineQueryError(k)
  {
  }

  // ---------------------------------------------------------------------
  // Name normalisation

  /** Trimming is idempotent. */
  lemma TrimIdempotent(name: string)
    ensures TrimLeadingSlashes(TrimLeadingSlashes(name)) == TrimLeadingSlashes(name)
  {
  }

  /** Any run of leading slashes is removed entirely, and what follows is kept:
      the trimmed name is uniquely determined. A name that does not start
      with a slash is unchanged (`n == 0`). */
  lemma {:induction false} TrimSlashesThen(n: nat, rest: string)
    requires rest == [] || rest[0] != '/'
    ensures TrimLeadingSlashes(Slashes(n) + rest) == rest
  {
    if n == 0 {
      assert Slashes(0) + rest == rest;
    } else {
      var s := Slashes(n) + rest;
      assert s[0] == '/';
      assert s[1..] == Slashes(n - 1) + rest;
      TrimSlashesThen(n - 1, rest);
    }
  }

  // ---------------------------------------------------------------------
  // One tick

  /** The entries of a tick split along any split of the engine's list: the
      entries keep engine order. */
  lemma {:induction false} TickEntriesAppend(expected: seq<string>, a: seq<Container>, b: seq<Container>)
    ensures TickEntries(expected, a + b) == TickEntries(expected, a) + TickEntries(expected, b)
    decreases |b|
  {
    if b == [] {
      assert a + b == a;
    } else {
      var front := b[..|b| - 1];
      assert (a + b)[..|a + b| - 1] == a + front;
      assert (a + b)[|a + b| - 1] == b[|b| - 1];
      TickEntriesAppend(expected, a, front);
    }
  }

  /** A single container yields its snapshot exactly when one of its names is
      expected. With `TickEntriesAppend` this fixes the entries of any list. */
  lemma TickEntriesSingle(expected: seq<string>, c: Container)
    ensures TickEntries(expected, [c]) ==
      if exists i :: 0 <= i < |c.names| && TrimLeadingSlashes(c.names[i]) in expected
      then [Snapshot(c)] else []
  {
    assert [c][..0] == [];
  }

  /** Every entry of a tick records, field for field, a listed container one
      of whose trimmed names is expected. */
  lemma {:induction false} EntryIsWatched(expected: seq<string>, cs: seq<Container>, info: ContainerInfo)
    requires info in TickEntries(expected, cs)
    ensures exists c :: c in cs && AnyNameExpected(c.names, expected) && Records(info, c)
  {
    var front := cs[..|cs| - 1];
    var last := cs[|cs| - 1];
    assert cs == front + [last];
    if info in TickEntries(expected, front) {
      EntryIsWatched(expected, front, info);
      var c :| c in front && AnyNameExpected(c.names, expected) && Records(info, c);
      assert c in cs;
    } else {
      assert info == Snapshot(last);
      assert last in cs;
    }
  }

  /** Every listed container with an expected name is recorded by the tick. */
  lemma {:induction false} WatchedIsRecorded(expected: seq<string>, cs: seq<Container>, c: Container)
    requires c in cs && AnyNameExpected(c.names, expected)
    ensures Snapshot(c) in TickEntries(expected, cs)
  {
    var front := cs[..|cs| - 1];
    var last := cs[|cs| - 1];
    assert cs == front + [last];
    if c != last {
      assert c in front;
      WatchedIsRecorded(expected, front, c);
    }
  }

  /** With nothing to watch, a tick appends nothing. */
  lemma {:induction false} NothingExpectedNoEntries(cs: seq<Container>)
    ensures TickEntries([], cs) == []
  {
    if cs != [] {
      NothingExpectedNoEntries(cs[..|cs| - 1]);
    }
  }

  // ---------------------------------------------------------------------
  // The whole run

  /** Once a query has failed, later ticks change nothing: the run ends with
      that failure. */
  lemma ErrorPersists(expected: seq<string>, engine: Engine, i: nat, k: nat)
    requires i <= k && Run(expected, engine, i).EngineQueryError?
    ensures Run(expected, engine, k) == Run(expected, engine, i)
  {
    // Both runs report the first failing tick, which lies before `i`.
  }

  /** The log is append-only: the log after `i` ticks is a prefix of the log
      after any later tick, followed by that later tick's entries. */
  lemma {:induction false} LogAppendOnly(expected: seq<string>, engine: Engine, i: nat, k: nat)
    requires i <= k && Run(expected, engine, k).Emitted?
    ensures Run(expected, engine, i).Emitted?
    ensures Run(expected, engine, i).log <= Run(expected, engine, k).log
    decreases k - i
  {
    if i < k {
      LogAppendOnly(expected, engine, i, k - 1);
    }
  }

  /** Every watched container of every completed tick has its snapshot in
      the final log. */
  lemma TickObservedInLog(expected: seq<string>, engine: Engine, t: nat, ticks: nat, c: Container)
    requires t < ticks && Run(expected, engine, ticks).Emitted?
    requires c in engine(t).containers && AnyNameExpected(c.names, expected)
    ensures Snapshot(c) in Run(expected, engine, ticks).log
  {
    LogAppendOnly(expected, engine, t + 1, ticks);
    var entries := TickEntries(expected, engine(t).containers);
    WatchedIsRecorded(expected, engine(t).containers, c);
    var r := Run(expected, engine, t + 1).log;
    assert r == Run(expected, engine, t).log + entries;
    assert Snapshot(c) in r;
    InPrefix(Snapshot(c), r, Run(expected, engine, ticks).log);
  }

  lemma InPrefix(x: ContainerInfo, r: seq<ContainerInfo>, s: seq<ContainerInfo>)
    requires x in r && r <= s
    ensures x in s
  {
    var k :| 0 <= k < |r| && r[k] == x;
    assert s[k] == x;
  }

  /** Conversely, every entry of the log records a watched container that
      the engine listed at some completed tick. */
  lemma {:induction false} LogEntriesObserved(expected: seq<string>, engine: Engine, ticks: nat, info: ContainerInfo)
    requires Run(expected, engine, ticks).Emitted? && info in Run(expected, engine, ticks).log
    ensures exists t, c ::
              0 <= t < ticks && c in engine(t).containers &&
              AnyNameExpected(c.names, expected) && Records(info, c)
  {
    var prev := Run(expected, engine, ticks - 1);
    var cs := engine(ticks - 1).containers;
    if info in prev.log {
      LogEntriesObserved(expected, engine, ticks - 1, info);
      var t, c :| 0 <= t < ticks - 1 && c in engine(t).containers &&
        AnyNameExpected(c.names, expected) && Records(info, c);
      assert 0 <= t < ticks;
    } else {
      assert info in TickEntries(expected, cs);
      EntryIsWatched(expected, cs, info);
      var c :| c in cs && AnyNameExpected(c.names, expected) && Records(info, c);
      assert c in engine(ticks - 1).containers;
    }
  }

  /** With an empty watch list the log stays empty, whatever the engine reports. */
  lemma {:induction false} NothingExpectedEmptyLog(engine: Engine, ticks: nat)
    ensures Run([], engine, ticks).Emitted? ==> Run([], engine, ticks).log == []
  {
    if ticks > 0 {
      NothingExpectedEmptyLog(engine, ticks - 1);
      if engine(ticks - 1).Listed? {
        NothingExpectedNoEntries(engine(ticks - 1).containers);
      }
    }
  }

  /** No de-duplication across ticks: a watched container that the engine
      lists, among any others, at each of `ticks` ticks has at least `ticks`
      copies of its snapshot in the log, one from every tick. */
  lemma {:induction false} RecordedEveryTick(expected: seq<string>, engine: Engine, c: Container, ticks: nat)
    requires AnyNameExpected(c.names, expected)
    requires forall t :: 0 <= t < ticks ==> engine(t).Listed? && c in engine(t).containers
    ensures Run(expected, engine, ticks).Emitted?
    ensures multiset(Run(expected, engine, ticks).log)[Snapshot(c)] >= ticks
  {
    if ticks > 0 {
      RecordedEveryTick(expected, engine, c, ticks - 1);
      var cs := engine(ticks - 1).containers;
      WatchedIsRecorded(expected, cs, c);
      var prev := Run(expected, engine, ticks - 1).log;
      RunStep(expected, engine, ticks - 1);
      assert Run(expected, engine, ticks).log == prev + TickEntries(expected, cs);
      assert multiset(prev + TickEntries(expected, cs))
          == multiset(prev) + multiset(TickEntries(expected, cs));
    }
  }

  /** The exact log when a watched container is the only one listed at every
      tick: one snapshot per tick, nothing else. */
  lemma {:induction false} RecordedOncePerTick(expected: seq<string>, engine: Engine, c: Container, ticks: nat)
    requires AnyNameExpected(c.names, expected)
    requires forall t :: 0 <= t < ticks ==> engine(t) == Listed([c])
    ensures Run(expected, engine, ticks) == Emitted(seq(ticks, _ => Snapshot(c)))
  {
    if ticks > 0 {
      RecordedOncePerTick(expected, engine, c, ticks - 1);
      var prev := seq(ticks - 1, _ => Snapshot(c));
      assert engine(ticks - 1) == Listed([c]);
      assert TickEntries(expected, [c]) == [Snapshot(c)] by {
        TickEntriesSingle(expected, c);
      }
      assert Run(expected, engine, ticks) == Emitted(prev + [Snapshot(c)]);
      assert seq(ticks, _ => Snapshot(c)) == prev + [Snapshot(c)];
    }
  }

  /** The length of the log after `ticks` successful ticks is the number of
      watched containers summed over the ticks. */
  lemma {:induction false} LogLength(expected: seq<string>, engine: Engine, ticks: nat)
    requires Run(expected, engine, ticks).Emitted?
    ensures |Run(expected, engine, ticks).log| == WatchedOverTicks(expected, engine, ticks)
  {
    if ticks > 0 {
      LogLength(expected, engine, ticks - 1);
      WatchedCount(expected, engine(ticks - 1).containers);
    }
  }

  /** How many containers of `cs` have an expected name. */
  function CountWatched(expected: seq<string>, cs: seq<Container>): nat
  {
    if cs == [] then 0
    else (if AnyNameExpected(cs[0].names, expected) then 1 else 0) + CountWatched(expected, cs[1..])
  }

  /** Watched containers summed over the first `ticks` ticks (failed ticks count none). */
  function WatchedOverTicks(expected: seq<string>, engine: Engine, ticks: nat): nat
  {
    if ticks == 0 then 0
    else
      var now := match engine(ticks - 1)
        case QueryFailed => 0
        case Listed(cs) => CountWatched(expected, cs);
      WatchedOverTicks(expected, engine, ticks - 1) + now
  }

  /** A tick appends exactly one entry per watched container. */
  lemma {:induction false} WatchedCount(expected: seq<string>, cs: seq<Container>)
    ensures |TickEntries(expected, cs)| == CountWatched(expected, cs)
  {
    if cs != [] {
      assert cs == [cs[0]] + cs[1..];
      TickEntriesAppend(expected, [cs[0]], cs[1..]);
      assert [cs[0]][..0] == [];
      WatchedCount(expected, cs[1..]);
    }
  }
}
