/** The extracted watch list feeding the monitor, and concrete runs of the
    tool. */
module Scenarios {
  import opened Compose
  import opened StatusMonitor

  /** A manifest in which no service sets a container name leads to an empty
      log for any engine behaviour and any number of ticks. */
  lemma NoContainerNamesNothingObserved(compose: ComposeFile, order: seq<string>, engine: Engine, ticks: nat)
    requires Enumerates(order, compose.services.Keys)
    requires forall k :: k in compose.services ==> compose.services[k].containerName.None?
    ensures Run(ExpectedNames(compose, order), engine, ticks).Emitted? ==>
      Run(ExpectedNames(compose, order), engine, ticks).log == []
  {
    NoContainerNamesNoneExpected(compose, order);
    NothingExpectedEmptyLog(engine, ticks);
  }

  /** Whether a container is watched does not depend on the order in which
      the services were visited to build the watch list. */
  lemma WatchedIndependentOfOrder(compose: ComposeFile, o1: seq<string>, o2: seq<string>, c: Container)
    requires Enumerates(o1, compose.services.Keys)
    requires Enumerates(o2, compose.services.Keys)
    ensures AnyNameExpected(c.names, ExpectedNames(compose, o1)) ==
            AnyNameExpected(c.names, ExpectedNames(compose, o2))
  {
    var e1, e2 := ExpectedNames(compose, o1), ExpectedNames(compose, o2);
    assert forall n :: n in e1 <==> n in e2;
  }

  function WebService(): Service { Service("nginx", Some("web")) }
  function DbService(): Service { Service("postgres", None) }
  function Manifest(): ComposeFile { ComposeFile(map["web" := WebService(), "db" := DbService()]) }

  function Web(t: nat): Container
  {
    Container("c-web", "nginx", ["/web"], if t == 0 then "Up 1 second" else "Up 2 seconds")
  }
  function Db(): Container { Container("c-db", "postgres", ["/db"], "Up 1 second") }

  function WebAndDb(t: nat): Listing { Listed([Web(t), Db()]) }

  /** Of the two services only "web" names its container, so the watch list
      is ["web"]. */
  lemma WebOnlyExpected()
    ensures Enumerates(["web", "db"], Manifest().services.Keys)
    ensures ExpectedNames(Manifest(), ["web", "db"]) == ["web"]
  {
    assert Manifest().services.Keys == {"web", "db"};
    assert ["web", "db"][1..] == ["db"];
    assert ["db"][1..] == [];
  }

  /** At every tick "/web" is watched and "/db" is not. */
  lemma WebAndDbTick(t: nat)
    ensures TickEntries(["web"], WebAndDb(t).containers) == [Snapshot(Web(t))]
  {
    assert TrimLeadingSlashes("/web") == "web" by {
      assert "/web"[1..] == "web";
    }
    assert TrimLeadingSlashes("/db") == "db" by {
      assert "/db"[1..] == "db";
    }
    var cs := [Web(t), Db()];
    assert cs[..1] == [Web(t)];
    assert cs[..1][..0] == [];
    assert !AnyNameExpected(Db().names, ["web"]);
    assert AnyNameExpected(Web(t).names, ["web"]);
  }

  /** The entries `entry(0)`, ..., `entry(ticks - 1)`, in tick order. */
  function PerTick(entry: nat -> ContainerInfo, ticks: nat): seq<ContainerInfo>
  {
    if ticks == 0 then [] else PerTick(entry, ticks - 1) + [entry(ticks - 1)]
  }

  /** An engine whose every tick yields exactly one entry produces the
      sequence of those entries, one per tick, in tick order. */
  lemma {:induction false} OneEntryPerTick(expected: seq<string>, engine: Engine, entry: nat -> ContainerInfo, ticks: nat)
    requires forall t :: 0 <= t < ticks ==>
      engine(t).Listed? && TickEntries(expected, engine(t).containers) == [entry(t)]
    ensures Run(expected, engine, ticks) == Emitted(PerTick(entry, ticks))
  {
    if ticks > 0 {
      OneEntryPerTick(expected, engine, entry, ticks - 1);
    }
  }

  /** With the watch list ["web"], three ticks of that engine record the web
      container once per tick, as reported at that tick. */
  lemma WebWatchedThreeTicks()
    ensures Run(["web"], WebAndDb, 3) == Emitted(PerTick(WebEntry, 3))
  {
    forall t: nat | t < 3
      ensures WebAndDb(t).Listed? && TickEntries(["web"], WebAndDb(t).containers) == [WebEntry(t)]
    {
      WebAndDbTick(t);
    }
    OneEntryPerTick(["web"], WebAndDb, WebEntry, 3);
  }

  function WebEntry(t: nat): ContainerInfo { Snapshot(Web(t)) }

  /** The whole scenario: the manifest declares "web" (named) and "db"
      (unnamed), the engine lists "/web" and "/db" at each of three ticks,
      and the log has exactly three entries, all of the web container. */
  lemma WebAndDbThreeTicks()
    ensures Run(ExpectedNames(Manifest(), ["web", "db"]), WebAndDb, 3)
         == Emitted([Snapshot(Web(0)), Snapshot(Web(1)), Snapshot(Web(2))])
  {
    WebOnlyExpected();
    WebWatchedThreeTicks();
    WebEntriesThree();
  }

  lemma WebEntriesThree()
    ensures PerTick(WebEntry, 3) == [Snapshot(Web(0)), Snapshot(Web(1)), Snapshot(Web(2))]
  {
  }

  /** The query fails at the second of five ticks: the run ends there with
      the error, and the entries of the first tick are never emitted. */
  lemma FailureAtSecondTick(expected: seq<string>, cs: seq<Container>)
    ensures Run(expected, (t: nat) => if t == 1 then QueryFailed else Listed(cs), 5)
         == EngineQueryError(1)
  {
    var engine := (t: nat) => if t == 1 then QueryFailed else Listed(cs);
    assert engine(0).Listed? && engine(1).QueryFailed?;
  }
}
