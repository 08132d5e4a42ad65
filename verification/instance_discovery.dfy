/** The compute agent's cache of the instances on its host, refreshed from Nova in full now and then
    and otherwise by what changed since the last query. */
module InstanceDiscovery {
  import opened Wrappers

  type Id(==, !new)
  type Details(==, !new)

  datatype VmState = Deleted | Error | Other

  /** An instance as Nova knows it. */
  datatype Instance = Instance(state: VmState, details: Details, updated: int)

  type Instances = map<Id, Instance>

  predicate Live(i: Instance) {
    i.state == Other
  }

  /** What Nova answers: without a time, the instances that are not deleted; with a time, all those that
      changed since, deleted ones included. */
  function Listed(server: Instances, since: Option<int>): Instances {
    match since
    case None => map id | id in server && server[id].state != Deleted :: server[id]
    case Some(t) => map id | id in server && server[id].updated >= t :: server[id]
  }

  /** The loop over the listed instances. */
  function Merged(cache: Instances, listed: Instances): Instances {
    map id | id in cache.Keys + listed.Keys && (id in listed ==> Live(listed[id])) ::
      if id in listed then listed[id] else cache[id]
  }

  datatype Config = Config(expirationTime: nat, cacheExpiry: int)

  datatype Cache = Cache(instances: Instances, lastRun: Option<int>, lastExpire: Option<int>)

  const EMPTY := Cache(map[], None, None)

  function Since(last: Option<int>, now: int): int {
    if last.Some? then now - last.value else 0
  }

  predicate Asks(c: Config, cache: Cache, now: int) {
    cache.lastRun == None || Since(cache.lastRun, now) >= c.expirationTime
  }

  predicate InFull(c: Config, cache: Cache, now: int) {
    !(Since(cache.lastExpire, now) < c.cacheExpiry && cache.lastRun.Some?)
  }

  /** One query; `answers` tells whether the call to Nova succeeds. A full refresh empties the cache
      before it calls. */
  function Discover(c: Config, cache: Cache, now: int, server: Instances, answers: bool): Cache {
    if !Asks(c, cache, now) then cache else
    var full := InFull(c, cache, now);
    var before := if full then cache.(instances := map[], lastExpire := Some(now)) else cache;
    if !answers then before else
    before.(instances := Merged(before.instances, Listed(server, if full then None else cache.lastRun)),
            lastRun := Some(now))
  }

  // ---------------------------------------------------------------- the cache against the server

  /** The live instances that changed at or after the floor. */
  function LiveFrom(server: Instances, floor: Option<int>): Instances {
    map id | id in server && server[id].state != Deleted && server[id].state != Error
             && (floor.Some? ==> server[id].updated >= floor.value) :: server[id]
  }

  /** The cache knows an instance as it is: kept if it is live and changed since the floor. */
  predicate Agrees(cache: Instances, server: Instances, floor: Option<int>, id: Id) {
    if id in LiveFrom(server, floor) then id in cache && cache[id] == server[id] else id !in cache
  }

  /** Every instance is either known as it is or has changed since the last query. Nothing is known of
      instances that have not changed since the floor. */
  ghost predicate UpToChanges(cache: Cache, server: Instances, floor: Option<int>) {
    && (cache.lastRun == None ==> cache.instances == map[] && floor == None)
    && (floor.Some? ==> floor.value <= cache.lastRun.value)
    && cache.instances.Keys <= server.Keys
    && (cache.lastRun.Some? ==> forall id :: id in server ==>
          server[id].updated >= cache.lastRun.value || Agrees(cache.instances, server, floor, id))
  }

  /** The floor after a query: a failed full refresh leaves the next ones asking only for changes. */
  function FloorAfter(c: Config, cache: Cache, now: int, answers: bool, floor: Option<int>): Option<int> {
    if !Asks(c, cache, now) || !InFull(c, cache, now) then floor
    else if answers then None
    else cache.lastRun
  }

  lemma ChangeKeeps(cache: Cache, server: Instances, floor: Option<int>, id: Id, instance: Instance)
    requires UpToChanges(cache, server, floor)
    requires cache.lastRun.Some? ==> cache.lastRun.value <= instance.updated
    ensures UpToChanges(cache, server[id := instance], floor)
  {
    var server' := server[id := instance];
    forall i | i in server' && cache.lastRun.Some?
      ensures server'[i].updated >= cache.lastRun.value || Agrees(cache.instances, server', floor, i)
    {
      assert i != id ==> i in server && server'[i] == server[i];
    }
  }

  /** A query that Nova answers leaves the cache with the live instances from the floor on. */
  lemma DiscoverKeeps(c: Config, cache: Cache, now: int, server: Instances, answers: bool, floor: Option<int>)
    requires UpToChanges(cache, server, floor) && (cache.lastRun.Some? ==> cache.lastRun.value <= now)
    ensures var cache', floor' := Discover(c, cache, now, server, answers), FloorAfter(c, cache, now, answers, floor);
            && UpToChanges(cache', server, floor')
            && (Asks(c, cache, now) && answers ==> cache'.instances == LiveFrom(server, floor'))
  {
    if Asks(c, cache, now) && answers {
      var cache', floor' := Discover(c, cache, now, server, answers), FloorAfter(c, cache, now, answers, floor);
      var listed := Listed(server, if InFull(c, cache, now) then None else cache.lastRun);
      forall id | id in server
        ensures Agrees(cache'.instances, server, floor', id)
      {
        if !InFull(c, cache, now) && id !in listed {
          assert Agrees(cache.instances, server, floor, id);
        }
      }
      forall id
        ensures id in cache'.instances <==> id in LiveFrom(server, floor')
        ensures id in cache'.instances ==> cache'.instances[id] == LiveFrom(server, floor')[id]
      {
        if id in server {
          assert Agrees(cache'.instances, server, floor', id);
        }
      }
    }
  }

  // ---------------------------------------------------------------- runs

  datatype Event = Change(id: Id, instance: Instance) | Query(now: int, answers: bool)

  datatype World = World(server: Instances, cache: Cache, floor: Option<int>)

  function Run(c: Config, events: seq<Event>): World {
    if events == [] then World(map[], EMPTY, None) else
    var w := Run(c, events[..|events| - 1]);
    match events[|events| - 1]
    case Change(id, instance) => w.(server := w.server[id := instance])
    case Query(now, answers) =>
      World(w.server, Discover(c, w.cache, now, w.server, answers), FloorAfter(c, w.cache, now, answers, w.floor))
  }

  /** Clocks do not go back: a query reads the clock before it calls Nova, and what changes on the
      server after the call carries no earlier time. */
  predicate WellTimed(events: seq<Event>) {
    forall i, j :: 0 <= i < j < |events| && events[i].Query? ==>
      match events[j]
      case Change(_, instance) => events[i].now <= instance.updated
      case Query(now, _) => events[i].now <= now
  }

  lemma {:induction false} RunUpToChanges(c: Config, events: seq<Event>)
    requires WellTimed(events)
    ensures var w := Run(c, events);
            && UpToChanges(w.cache, w.server, w.floor)
            && (w.cache.lastRun.Some? ==>
                  exists i :: 0 <= i < |events| && events[i].Query? && w.cache.lastRun == Some(events[i].now))
  {
    if events != [] {
      var n := |events| - 1;
      RunUpToChanges(c, events[..n]);
      var w := Run(c, events[..n]);
      if w.cache.lastRun.Some? {
        var i :| 0 <= i < n && events[..n][i].Query? && w.cache.lastRun == Some(events[..n][i].now);
        assert events[i] == events[..n][i];
      }
      match events[n] {
        case Change(id, instance) => ChangeKeeps(w.cache, w.server, w.floor, id, instance);
        case Query(now, answers) => DiscoverKeeps(c, w.cache, now, w.server, answers, w.floor);
      }
    }
  }

  /** When Nova was last asked and answered. It is asked if it has not answered yet or did so long enough ago. */
  ghost function LastAnswered(c: Config, events: seq<Event>): Option<int> {
    if events == [] then None else
    var before, last := LastAnswered(c, events[..|events| - 1]), events[|events| - 1];
    if last.Query? && last.answers && (before.None? || last.now - before.value >= c.expirationTime)
    then Some(last.now) else before
  }

  /** When Nova was last asked for everything: if it has not answered yet, or was asked so long enough ago. */
  ghost function LastFull(c: Config, events: seq<Event>): Option<int> {
    if events == [] then None else
    var front, last := events[..|events| - 1], events[|events| - 1];
    var answered, before := LastAnswered(c, front), LastFull(c, front);
    if last.Query? && (answered.None? || (last.now - answered.value >= c.expirationTime
                                          && before.Some? && last.now - before.value >= c.cacheExpiry))
    then Some(last.now) else before
  }

  /** In any run, a query asks Nova exactly if it has not answered yet or the last answer is old enough, and then
      for everything exactly if it has not answered yet or the last time it was asked so is old enough. */
  lemma {:induction false} AsksExactly(c: Config, events: seq<Event>, now: int)
    ensures var cache, answered := Run(c, events).cache, LastAnswered(c, events);
            && cache.lastRun == answered && cache.lastExpire == LastFull(c, events)
            && (Asks(c, cache, now) <==> (answered.Some? ==> now - answered.value >= c.expirationTime))
            && (answered.Some? ==> LastFull(c, events).Some?)
            && (InFull(c, cache, now) <==>
                  (answered.Some? ==> now - LastFull(c, events).value >= c.cacheExpiry))
  {
    if events != [] {
      var last := events[|events| - 1];
      AsksExactly(c, events[..|events| - 1], if last.Query? then last.now else now);
    }
  }

  /** After a query that Nova answered, the cache is the live set of the server exactly if no live
      instance has been unchanged since before the floor that a failed full refresh left behind. */
  lemma AnsweredQueryExactly(c: Config, events: seq<Event>, now: int)
    requires WellTimed(events + [Query(now, true)]) && Asks(c, Run(c, events).cache, now)
    ensures var w := Run(c, events + [Query(now, true)]);
            w.cache.instances == LiveFrom(w.server, None)
            <==> forall id :: id in w.server && w.server[id].state !in {Deleted, Error} && w.floor.Some? ==>
                   w.server[id].updated >= w.floor.value
  {
    var all := events + [Query(now, true)];
    var before, w := Run(c, events), Run(c, all);
    assert all[..|events|] == events;
    assert forall i :: 0 <= i < |events| ==> all[i] == events[i];
    RunUpToChanges(c, events);
    if before.cache.lastRun.Some? {
      var i :| 0 <= i < |events| && events[i].Query? && before.cache.lastRun == Some(events[i].now);
      assert all[i].now <= all[|events|].now;
    }
    DiscoverKeeps(c, before.cache, now, before.server, true, before.floor);
    if forall id :: id in w.server && Live(w.server[id]) && w.floor.Some? ==> w.server[id].updated >= w.floor.value {
      assert LiveFrom(w.server, w.floor) == LiveFrom(w.server, None);
    } else {
      var id :| id in w.server && Live(w.server[id]) && w.floor.Some? && w.server[id].updated < w.floor.value;
      assert id in LiveFrom(w.server, None) && id !in LiveFrom(w.server, w.floor);
    }
  }

  lemma {:induction false} NoFloorWithoutFailure(c: Config, events: seq<Event>)
    requires forall i :: 0 <= i < |events| && events[i].Query? ==> events[i].answers
    ensures Run(c, events).floor == None
  {
    if events != [] {
      NoFloorWithoutFailure(c, events[..|events| - 1]);
    }
  }

  /** As long as Nova answers, every query that asks it leaves the cache equal to its live set. */
  lemma CacheEqualsLiveSet(c: Config, events: seq<Event>, now: int)
    requires WellTimed(events + [Query(now, true)]) && Asks(c, Run(c, events).cache, now)
    requires forall i :: 0 <= i < |events| && events[i].Query? ==> events[i].answers
    ensures var w := Run(c, events + [Query(now, true)]);
            w.cache.instances == LiveFrom(w.server, None)
  {
    AnsweredQueryExactly(c, events, now);
    NoFloorWithoutFailure(c, events + [Query(now, true)]);
  }

  /** A failed full refresh can make the cache miss a live instance even after Nova answers again. */
  lemma FailedRefreshLosesInstances(a: Id, details: Details)
    ensures var instance := Instance(Other, details, 1);
            var events := [Change(a, instance), Query(2, true), Query(20, false)];
            var w := Run(Config(0, 10), events + [Query(21, true)]);
            WellTimed(events + [Query(21, true)]) && w.cache.instances == map[] && w.server == map[a := instance]
  {
    var c, instance := Config(0, 10), Instance(Other, details, 1);
    var e1, e2 := Change(a, instance), Query(2, true);
    var e3, e4 := Query(20, false), Query(21, true);
    assert [e1, e2, e3] + [e4] == [e1, e2, e3, e4];
    assert [e1, e2, e3, e4][..3] == [e1, e2, e3] && [e1, e2, e3][..2] == [e1, e2];
    assert [e1, e2][..1] == [e1] && [e1][..0] == [];
    assert Run(c, []) == World(map[], EMPTY, None);
    var server := map[a := instance];
    assert Run(c, [e1]) == World(server, EMPTY, None);
    assert Run(c, [e1, e2]).cache == Cache(server, Some(2), Some(2));
    assert Run(c, [e1, e2, e3]).cache == Cache(map[], Some(2), Some(20));
  }

  // ---------------------------------------------------------------- the discovery object

  class Discovery {
    const config: Config
    var instances: Instances
    var lastRun: Option<int>
    var lastCacheExpire: Option<int>

    constructor (config: Config)
      ensures this.config == config && View() == EMPTY
    {
      this.config := config;
      instances, lastRun, lastCacheExpire := map[], None, None;
    }

    ghost function View(): Cache
      reads this
    {
      Cache(instances, lastRun, lastCacheExpire)
    }

    /** `discover_nova_polling`, with the server as it is when it is asked. When the call fails, nothing is returned. */
    method DiscoverNovaPolling(utcNow: int, server: Instances, answers: bool) returns (found: Instances)
      modifies this
      ensures View() == Discover(config, old(View()), utcNow, server, answers)
      ensures found == if Asks(config, old(View()), utcNow) && !answers then map[] else instances
    {
      var secsFromLastUpdate := Since(lastRun, utcNow);
      var secsFromLastExpire := Since(lastCacheExpire, utcNow);
      var listed: Instances := map[];
      if lastRun == None || secsFromLastUpdate >= config.expirationTime {
        var since: Option<int>;
        if secsFromLastExpire < config.cacheExpiry && lastRun.Some? {
          since := lastRun;
        } else {
          since := None;
          instances := map[];
          lastCacheExpire := Some(utcNow);
        }
        if !answers {
          return map[];
        }
        listed := Listed(server, since);
        lastRun := Some(utcNow);
      }
      MergedWithNothing(instances);
      Update(listed);
      found := instances;
    }

    /** The loop over what Nova listed. */
    method Update(listed: Instances)
      modifies `instances
      ensures instances == Merged(old(instances), listed)
    {
      var todo := listed.Keys;
      while todo != {}
        invariant todo <= listed.Keys
        invariant instances == Merged(old(instances), map id | id in listed && id !in todo :: listed[id])
        decreases todo
      {
        var id :| id in todo;
        if Live(listed[id]) {
          instances := instances[id := listed[id]];
        } else {
          instances := instances - {id};
        }
        todo := todo - {id};
      }
      assert (map id | id in listed && id !in todo :: listed[id]) == listed;
    }
  }

  lemma MergedWithNothing(cache: Instances)
    ensures Merged(cache, map[]) == cache
  {
  }
}
