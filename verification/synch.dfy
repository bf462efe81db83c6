/**
 * A synch: one synchronisation configuration and the state its initialisation
 * builds in place (open databases, tables, nodes, mappings with their active
 * records and pairs), and the run that synchronises every pair. The concurrent
 * fan-out over mapping strings and mappings is carried out here one after the
 * other, in configuration order.
 */
module Engine {
  import opened Values
  import opened Wrappers
  import opened Store
  import opened Topology
  import opened Pairs
  import opened Report
  import opened Reconcile
  import opened Plan
  import opened Setup

  /** `ActivateAll` as the loop of `selectData` runs it: each selected row's record
      is looked up or registered and gets the mapping as a backlink. */
  method ActivateRows(records: seq<Record>, rows: seq<Row>, i: nat) returns (recs: seq<Record>, ids: seq<nat>)
    ensures (recs, ids) == ActivateAll(records, rows, i)
  {
    recs, ids := records, [];
    for k := 0 to |rows|
      invariant (recs, ids) == ActivateAll(records, rows[..k], i)
    {
      assert rows[..k + 1][..k] == rows[..k];
      var step := Activate(recs, rows[k], i);
      recs, ids := step.0, ids + [step.1];
    }
    assert rows[..|rows|] == rows;
  }

  /** The target databases of the mappings' pairs. */
  function TargetDbs(ms: seq<Mapping>): set<Database>
  {
    set i, k | 0 <= i < |ms| && 0 <= k < |ms[i].pairs| :: ms[i].pairs[k].mapping.target.db
  }

  /** A log that received the `Init` calls of the first `j` configs and then that
      of config `j` has received those of the first `j + 1`. */
  lemma InitsAppend(base: seq<DbCall>, pre: seq<DbCall>, post: seq<DbCall>, registry: map<string, Database>,
                    cfgs: seq<NodeConfig>, j: nat, d: Database)
    requires j < |cfgs| && forall k :: 0 <= k <= j ==> cfgs[k].database in registry
    requires pre == base + InitsOf(registry, cfgs[..j], d)
    requires post == pre + (if registry[cfgs[j].database] == d then [InitCall] else [])
    ensures post == base + InitsOf(registry, cfgs[..j + 1], d)
  {
    OpenAllStep(map[], registry, cfgs, j);
  }

  /** A log that received the selects of journal `a` and then those of `b` has
      received those of `a + b`. */
  lemma SelectsAppend(base: seq<DbCall>, pre: seq<DbCall>, post: seq<DbCall>,
                      a: seq<(Database, string)>, b: seq<(Database, string)>, d: Database)
    requires pre == base + SelectsOf(a, d) && post == pre + SelectsOf(b, d)
    ensures post == base + SelectsOf(a + b, d)
  {
    SelectsOfAppend(a, b, d);
  }

  lemma PrefixNext(done: seq<Pair>, pairs: seq<Pair>, k: nat)
    requires k < |pairs|
    ensures done + pairs[..k] + [pairs[k]] == done + pairs[..k + 1]
  {
    assert pairs[..k + 1] == pairs[..k] + [pairs[k]];
  }

  /** The pair `p` synchronised after the pairs `done`: the reporter holds the
      sweep over `done + [p]`, and each database of `targets` holds, after its
      log `logs` from before the run, the writes of those pairs. */
  method SynchronizeNext(p: Pair, rep: Reporter, compare: (Value, Value) -> Comparison, simulation: bool,
                         ghost links: map<string, LinkReport>, ghost done: seq<Pair>,
                         ghost targets: set<Database>, ghost logs: map<Database, seq<DbCall>>)
    requires Runs(links, p, compare)
    requires p.mapping.target.db in targets && targets <= logs.Keys
    requires rep.links == Sweep(links, done, compare, simulation)
    requires forall d | d in targets :: d.log == logs[d] + WritesTo(done, d, compare, simulation)
    modifies rep`links, p.mapping.target.db`log
    ensures rep.links == Sweep(links, done + [p], compare, simulation)
    ensures forall d | d in targets :: d.log == logs[d] + WritesTo(done + [p], d, compare, simulation)
  {
    SweepStep(links, done, p, compare, simulation);
    var _, _ := Reconcile.Synchronize(p, rep, compare, simulation);
    forall d | d in targets
      ensures d.log == logs[d] + WritesTo(done + [p], d, compare, simulation)
    {
      WritesStep(logs[d], old(d.log), d.log, done, p, d, compare, simulation);
    }
  }

  /** The inner loop of `Synch.Synchronize`: runs the pairs of one mapping in
      order, after the pairs `done` of the mappings before it. */
  method SynchronizePairs(pairs: seq<Pair>, rep: Reporter, compare: (Value, Value) -> Comparison, simulation: bool,
                          ghost links: map<string, LinkReport>, ghost done: seq<Pair>,
                          ghost targets: set<Database>, ghost logs: map<Database, seq<DbCall>>)
    requires forall k :: 0 <= k < |pairs| ==>
      Runs(links, pairs[k], compare) && pairs[k].mapping.target.db in targets
    requires targets <= logs.Keys
    requires rep.links == Sweep(links, done, compare, simulation)
    requires forall d | d in targets :: d.log == logs[d] + WritesTo(done, d, compare, simulation)
    modifies rep`links, targets
    ensures rep.links == Sweep(links, done + pairs, compare, simulation)
    ensures forall d | d in targets :: d.log == logs[d] + WritesTo(done + pairs, d, compare, simulation)
  {
    assert done + pairs[..0] == done;
    for k := 0 to |pairs|
      invariant rep.links == Sweep(links, done + pairs[..k], compare, simulation)
      invariant forall d | d in targets :: d.log == logs[d] + WritesTo(done + pairs[..k], d, compare, simulation)
    {
      SynchronizeNext(pairs[k], rep, compare, simulation, links, done + pairs[..k], targets, logs);
      PrefixNext(done, pairs, k);
    }
    assert pairs[..|pairs|] == pairs;
  }

  /** The loop of `Synch.Synchronize` over the mappings `ms`, whose pairs write
      only to `targets`; `logs` are those databases' logs before the run. */
  method SynchronizeMappings(ms: seq<Mapping>, rep: Reporter, compare: (Value, Value) -> Comparison, simulation: bool,
                             ghost targets: set<Database>, ghost logs: map<Database, seq<DbCall>>)
    requires Runnable(rep.links, AllPairs(ms), compare)
    requires targets == TargetDbs(ms) && targets <= logs.Keys
    requires forall d | d in targets :: d.log == logs[d]
    modifies rep`links, targets
    ensures rep.links == Sweep(old(rep.links), AllPairs(ms), compare, simulation)
    ensures forall d | d in targets :: d.log == logs[d] + WritesTo(AllPairs(ms), d, compare, simulation)
  {
    ghost var links := rep.links;
    for j := 0 to |ms|
      invariant rep.links == Sweep(links, AllPairs(ms[..j]), compare, simulation)
      invariant forall d | d in targets :: d.log == logs[d] + WritesTo(AllPairs(ms[..j]), d, compare, simulation)
    {
      var pairs := ms[j].pairs;
      forall k | 0 <= k < |pairs|
        ensures Runs(links, pairs[k], compare) && pairs[k].mapping.target.db in targets
      {
        AllPairsIndex(ms, j, k);
        assert AllPairs(ms)[|AllPairs(ms[..j])| + k] in AllPairs(ms);
      }
      SynchronizePairs(pairs, rep, compare, simulation, links, AllPairs(ms[..j]), targets, logs);
      AllPairsNext(ms, j);
    }
    assert ms[..|ms|] == ms;
  }

  /**
   * What `selectData` and then `pairData` make of prepared tables and mappings:
   * the tables after every mapping selected its rows in order, and each mapping,
   * with the rows it selected, paired against those tables.
   */
  ghost predicate Initialized(p: Prepared, initial: bool, compare: (Value, Value) -> Comparison,
                              tables: map<string, Table>, mappings: seq<Mapping>)
    requires forall k :: 0 <= k < |p.mappings| ==> HasTables(p.tables, p.mappings[k])
  {
    var selected := SelectAll(p.tables, p.mappings, |p.mappings|, initial);
    && tables == selected.0
    && |mappings| == |p.mappings|
    && (forall k :: 0 <= k < |mappings| ==> Indexed(tables, selected.1[k]))
    && (forall k :: 0 <= k < |mappings| ==> mappings[k] == PairStep(tables, selected.1[k], compare))
  }

  class Synch {
    /** The synch's configured name (`GetConfig().Name`). */
    const name: string
    /** The node configs of the synch. */
    const nodeCfgs: seq<NodeConfig>
    /** The mapping strings of the synch. */
    const mappingTexts: seq<string>
    /** Whether this is the first run (no previous active lists to keep). */
    const initial: bool
    /** Whether the run is a simulation; the reporter reads the same flag. */
    const simulation: bool
    /** The mapping-language parser, which is not part of this model. */
    const parse: string -> Result<ParsedMapping, string>
    /** The value comparison the pairs use, which may fail. */
    const compare: (Value, Value) -> Comparison
    /** The synch's reporter, which reports on this synch: it reads the synch's
        name and mode. */
    const rep: Reporter

    var dbs: map<string, Database>
    var tables: map<string, Table>
    var nodes: map<string, Node>
    var mappings: seq<Mapping>

    /** The reporter is this synch's: it carries the synch's name and mode. */
    predicate ReportsOnSelf()
    {
      rep.synchName == name && rep.simulation == simulation
    }

    constructor (name: string, nodeCfgs: seq<NodeConfig>, mappingTexts: seq<string>, initial: bool, simulation: bool,
                 parse: string -> Result<ParsedMapping, string>, compare: (Value, Value) -> Comparison, rep: Reporter)
      requires rep.synchName == name && rep.simulation == simulation
      ensures ReportsOnSelf()
      ensures this.name == name && this.nodeCfgs == nodeCfgs && this.mappingTexts == mappingTexts && this.initial == initial
      ensures this.simulation == simulation && this.parse == parse && this.compare == compare && this.rep == rep
      ensures dbs == map[] && tables == map[] && nodes == map[] && mappings == []
    {
      this.name := name;
      this.nodeCfgs := nodeCfgs;
      this.mappingTexts := mappingTexts;
      this.initial := initial;
      this.simulation := simulation;
      this.parse := parse;
      this.compare := compare;
      this.rep := rep;
      dbs := map[];
      tables := map[];
      nodes := map[];
      mappings := [];
    }

    /**
     * `Init` of a synch that has no mappings yet: the databases, tables and nodes
     * start empty and are built again, then the mappings are parsed, select their
     * active records and build their pairs. The first error stops it.
     */
    method Init(registry: map<string, Database>) returns (err: Option<SynchError>)
      requires mappings == []
      modifies this`dbs, this`tables, this`nodes, this`mappings, registry.Values
      ensures Prepare(registry, nodeCfgs, parse, mappingTexts).Failure? ==>
        err == Some(Prepare(registry, nodeCfgs, parse, mappingTexts).error)
      ensures Prepare(registry, nodeCfgs, parse, mappingTexts).Success? ==>
        var p := Prepare(registry, nodeCfgs, parse, mappingTexts).value;
        err == None && dbs == p.dbs && nodes == p.nodes && Initialized(p, initial, compare, tables, mappings)
    {
      err := Build(registry);
      if err.Some? {
        return;
      }
      Finish(registry);
    }

    /** `selectData` and `pairData` after the first four phases succeeded. */
    method Finish(registry: map<string, Database>)
      requires Prepare(registry, nodeCfgs, parse, mappingTexts).Success?
      requires Prepared(dbs, tables, nodes, mappings) == Prepare(registry, nodeCfgs, parse, mappingTexts).value
      modifies this`tables, this`mappings, registry.Values
      ensures dbs == old(dbs) && nodes == old(nodes)
      ensures Initialized(Prepare(registry, nodeCfgs, parse, mappingTexts).value, initial, compare, tables, mappings)
    {
      PreparedDbs(registry, nodeCfgs, parse, mappingTexts);
      SelectAndPair(Prepare(registry, nodeCfgs, parse, mappingTexts).value);
    }

    /** The last two phases of `Init`, `selectData` then `pairData`, on what the
        first four prepared. */
    method SelectAndPair(ghost p: Prepared)
      requires tables == p.tables && mappings == p.mappings
      requires forall k :: 0 <= k < |mappings| ==> HasTables(tables, mappings[k]) && Indexed(tables, mappings[k])
      modifies this`tables, this`mappings, MappingDbs(mappings)
      ensures Initialized(p, initial, compare, tables, mappings)
    {
      SelectData();
      PairData();
    }

    /** The first four phases of `Init`, from empty databases, tables and nodes. */
    method Build(registry: map<string, Database>) returns (err: Option<SynchError>)
      requires mappings == []
      modifies this`dbs, this`tables, this`nodes, this`mappings, registry.Values
      ensures Prepare(registry, nodeCfgs, parse, mappingTexts).Failure? ==>
        err == Some(Prepare(registry, nodeCfgs, parse, mappingTexts).error)
      ensures Prepare(registry, nodeCfgs, parse, mappingTexts).Success? ==>
        err == None && Prepared(dbs, tables, nodes, mappings) == Prepare(registry, nodeCfgs, parse, mappingTexts).value
    {
      err := OpenDatabases(registry);
      if err.Some? {
        return;
      }
      err := BuildOnDatabases();
      PrepareOutcome(registry, nodeCfgs, parse, mappingTexts, dbs, tables, nodes, mappings, err);
    }

    /** `setDatabases` on a synch whose databases, tables and nodes are reset. */
    method OpenDatabases(registry: map<string, Database>) returns (err: Option<SynchError>)
      modifies this`dbs, this`tables, this`nodes, registry.Values
      ensures tables == map[] && nodes == map[]
      ensures FirstUnconfigured(registry, nodeCfgs) < |nodeCfgs| ==>
        err == Some(DatabaseError(nodeCfgs[FirstUnconfigured(registry, nodeCfgs)].database, NotConfigured))
      ensures FirstUnconfigured(registry, nodeCfgs) == |nodeCfgs| ==>
        && err == None && dbs == OpenAll(map[], registry, nodeCfgs) && dbs.Values <= registry.Values
        && forall k :: 0 <= k < |nodeCfgs| ==> nodeCfgs[k].database in dbs
    {
      dbs := map[];
      tables := map[];
      nodes := map[];
      err := SetDatabases(registry);
      if err.Some? {
        return;
      }
      assert nodeCfgs[..|nodeCfgs|] == nodeCfgs;
      OpenedFromRegistry(registry, nodeCfgs);
    }

    /** `setTables`, `setNodes` and then `parseMappings`, which runs only when
        every node's table exists. */
    method BuildOnDatabases() returns (err: Option<SynchError>)
      requires forall k :: 0 <= k < |nodeCfgs| ==> nodeCfgs[k].database in dbs
      requires tables == map[] && nodes == map[] && mappings == []
      modifies this`tables, this`nodes, this`mappings, dbs.Values
      ensures tables == BuildTables(map[], dbs, nodeCfgs).0
      ensures FirstMissingTable(tables, nodeCfgs) < |nodeCfgs| ==>
        err == Some(TableNotFound(NodeTableId(nodeCfgs[FirstMissingTable(tables, nodeCfgs)])))
      ensures FirstMissingTable(tables, nodeCfgs) == |nodeCfgs| ==> nodes == BuildNodes(map[], dbs, nodeCfgs)
      ensures FirstMissingTable(tables, nodeCfgs) == |nodeCfgs| && ParseAll(nodes, parse, mappingTexts).Failure? ==>
        err == Some(ParseAll(nodes, parse, mappingTexts).error)
      ensures FirstMissingTable(tables, nodeCfgs) == |nodeCfgs| && ParseAll(nodes, parse, mappingTexts).Success? ==>
        err == None && mappings == ParseAll(nodes, parse, mappingTexts).value
    {
      SetTables();
      err := BuildOnTables();
    }

    /** `setNodes`, then `parseMappings` when every node's table exists. */
    method BuildOnTables() returns (err: Option<SynchError>)
      requires forall k :: 0 <= k < |nodeCfgs| ==> nodeCfgs[k].database in dbs
      requires nodes == map[] && mappings == []
      modifies this`nodes, this`mappings
      ensures FirstMissingTable(tables, nodeCfgs) < |nodeCfgs| ==>
        err == Some(TableNotFound(NodeTableId(nodeCfgs[FirstMissingTable(tables, nodeCfgs)])))
      ensures FirstMissingTable(tables, nodeCfgs) == |nodeCfgs| ==> nodes == BuildNodes(map[], dbs, nodeCfgs)
      ensures FirstMissingTable(tables, nodeCfgs) == |nodeCfgs| && ParseAll(nodes, parse, mappingTexts).Failure? ==>
        err == Some(ParseAll(nodes, parse, mappingTexts).error)
      ensures FirstMissingTable(tables, nodeCfgs) == |nodeCfgs| && ParseAll(nodes, parse, mappingTexts).Success? ==>
        err == None && mappings == ParseAll(nodes, parse, mappingTexts).value
    {
      err := SetNodes();
      if err.Some? {
        return;
      }
      assert nodeCfgs[..|nodeCfgs|] == nodeCfgs;
      err := ParseMappings();
    }

    /** `setDatabase`: a configured database is copied into `dbs` and initialised;
        any other name is a `DatabaseError`. */
    method SetDatabase(registry: map<string, Database>, dbName: string) returns (err: Option<SynchError>)
      modifies this`dbs, if dbName in registry then {registry[dbName]} else {}
      ensures dbName in registry ==>
        && err == None && dbs == old(dbs)[dbName := registry[dbName]]
      ensures forall d | d in registry.Values ::
        d.log == old(d.log) + (if dbName in registry && registry[dbName] == d then [InitCall] else [])
      ensures dbName !in registry ==> err == Some(DatabaseError(dbName, NotConfigured)) && dbs == old(dbs)
    {
      if dbName in registry {
        dbs := dbs[dbName := registry[dbName]];
        registry[dbName].Init();
        return None;
      }
      return Some(DatabaseError(dbName, NotConfigured));
    }

    method SetDatabases(registry: map<string, Database>) returns (err: Option<SynchError>)
      modifies this`dbs, registry.Values
      ensures dbs == OpenAll(old(dbs), registry, nodeCfgs[..FirstUnconfigured(registry, nodeCfgs)])
      ensures forall d | d in registry.Values ::
        d.log == old(d.log) + InitsOf(registry, nodeCfgs[..FirstUnconfigured(registry, nodeCfgs)], d)
      ensures err.None? <==> FirstUnconfigured(registry, nodeCfgs) == |nodeCfgs|
      ensures err.Some? ==> err == Some(DatabaseError(nodeCfgs[FirstUnconfigured(registry, nodeCfgs)].database, NotConfigured))
    {
      ghost var stop := FirstUnconfigured(registry, nodeCfgs);
      for j := 0 to |nodeCfgs|
        invariant j <= stop
        invariant dbs == OpenAll(old(dbs), registry, nodeCfgs[..j])
        invariant forall d | d in registry.Values :: d.log == old(d.log) + InitsOf(registry, nodeCfgs[..j], d)
      {
        label pre:
        err := SetDatabase(registry, nodeCfgs[j].database);
        if err.Some? {
          assert j == stop && dbs == old@pre(dbs);
          return;
        }
        assert j < stop;
        OpenAllStep(old(dbs), registry, nodeCfgs, j);
        forall d | d in registry.Values
          ensures d.log == old(d.log) + InitsOf(registry, nodeCfgs[..j + 1], d)
        {
          InitsAppend(old(d.log), old@pre(d.log), d.log, registry, nodeCfgs, j, d);
        }
      }
      assert stop == |nodeCfgs|;
      return None;
    }

    /** `setTable`: get-or-create of the table `"<database name>.<table name>"`; a
        new table is filled by one unfiltered select. */
    method SetTable(tableName: string, db: Database)
      modifies this`tables, db`log
      ensures tables == PutTable(old(tables), db, tableName).0
      ensures db.log == old(db.log) + SelectsOf(PutTable(old(tables), db, tableName).1, db)
      ensures forall d | d in dbs.Values :: d.log == old(d.log) + SelectsOf(PutTable(old(tables), db, tableName).1, d)
    {
      var id := TableId(db.name, tableName);
      if id !in tables {
        var rawRecords := db.Select(tableName, "");
        // the previous snapshot of a table made here is always empty
        var tbl := Table(id, db, tableName, MapToRecords(rawRecords), []);
        tables := tables[id := tbl];
        assert SelectsOf([(db, tableName)], db) == [SelectCall(tableName, "")];
      }
    }

    /** One iteration of `setTables`: `setTable` for node configuration `j`;
        `built` is what the iterations before it built and selected. */
    method SetTableNext(j: nat, ghost tables0: map<string, Table>, ghost logs: map<Database, seq<DbCall>>,
                        ghost built: (map<string, Table>, seq<(Database, string)>))
      returns (ghost built': (map<string, Table>, seq<(Database, string)>))
      requires j < |nodeCfgs| && forall k :: 0 <= k < |nodeCfgs| ==> nodeCfgs[k].database in dbs
      requires dbs.Values <= logs.Keys
      requires built == BuildTables(tables0, dbs, nodeCfgs[..j]) && tables == built.0
      requires forall d | d in dbs.Values :: d.log == logs[d] + SelectsOf(built.1, d)
      modifies this`tables, dbs.Values
      ensures built' == BuildTables(tables0, dbs, nodeCfgs[..j + 1]) && tables == built'.0
      ensures forall d | d in dbs.Values :: d.log == logs[d] + SelectsOf(built'.1, d)
    {
      var c := nodeCfgs[j];
      var db := dbs[c.database];
      ghost var step := PutTable(built.0, db, c.table);
      assert nodeCfgs[..j + 1][..j] == nodeCfgs[..j];
      SetTable(c.table, db);
      built' := (step.0, built.1 + step.1);
      forall d | d in dbs.Values
        ensures d.log == logs[d] + SelectsOf(built'.1, d)
      {
        SelectsAppend(logs[d], old(d.log), d.log, built.1, step.1, d);
      }
    }

    /** `setTables`: `setTable` for each node config's table, in order. */
    method SetTables()
      requires forall k :: 0 <= k < |nodeCfgs| ==> nodeCfgs[k].database in dbs
      modifies this`tables, dbs.Values
      ensures tables == BuildTables(old(tables), dbs, nodeCfgs).0
      ensures forall d | d in dbs.Values :: d.log == old(d.log) + SelectsOf(BuildTables(old(tables), dbs, nodeCfgs).1, d)
    {
      ghost var logs := map d | d in dbs.Values :: d.log;
      ghost var built := BuildTables(tables, dbs, []);
      for j := 0 to |nodeCfgs|
        invariant built == BuildTables(old(tables), dbs, nodeCfgs[..j]) && tables == built.0
        invariant forall d | d in dbs.Values :: d.log == logs[d] + SelectsOf(built.1, d)
      {
        built := SetTableNext(j, old(tables), logs, built);
      }
      assert nodeCfgs[..|nodeCfgs|] == nodeCfgs;
    }

    /** `setNodes`: one node per node config, keyed by its name and bound to the
        table `"<database>.<table>"`; a missing table is fatal. */
    method SetNodes() returns (err: Option<SynchError>)
      requires forall k :: 0 <= k < |nodeCfgs| ==> nodeCfgs[k].database in dbs
      modifies this`nodes
      ensures nodes == BuildNodes(old(nodes), dbs, nodeCfgs[..FirstMissingTable(tables, nodeCfgs)])
      ensures err.None? <==> FirstMissingTable(tables, nodeCfgs) == |nodeCfgs|
      ensures err.Some? ==> err == Some(TableNotFound(NodeTableId(nodeCfgs[FirstMissingTable(tables, nodeCfgs)])))
    {
      ghost var stop := FirstMissingTable(tables, nodeCfgs);
      for i := 0 to |nodeCfgs|
        invariant i <= stop
        invariant nodes == BuildNodes(old(nodes), dbs, nodeCfgs[..i])
      {
        var c := nodeCfgs[i];
        var tableName := c.database + "." + c.table;
        if tableName !in tables {
          assert i == stop;
          return Some(TableNotFound(tableName));
        }
        assert nodeCfgs[..i + 1][..i] == nodeCfgs[..i];
        nodes := nodes[c.name := Node(c, dbs[c.database], tableName)];
      }
      assert stop == |nodeCfgs|;
      return None;
    }

    /** `parseMapping` for one mapping string: its links' mappings, in order. */
    method ParseMapping(text: string) returns (res: Result<seq<Mapping>, SynchError>)
      ensures parse(text).Failure? ==> res == Failure(ParseError(parse(text).error))
      ensures parse(text).Success? ==>
        res == LinkMappings(nodes, parse(text).value.links, parse(text).value.rule, parse(text).value.doList)
    {
      var raw := parse(text);
      if raw.Failure? {
        return Failure(ParseError(raw.error));
      }
      var links := raw.value.links;
      var built: seq<Mapping> := [];
      for j := 0 to |links|
        invariant LinkMappings(nodes, links[..j], raw.value.rule, raw.value.doList) == Success(built)
      {
        assert links[..j + 1][..j] == links[..j];
        var m := CreateMapping(nodes, links[j], raw.value.rule, raw.value.doList);
        if m.Failure? {
          LinkMappingsStop(nodes, links, raw.value.rule, raw.value.doList, j + 1);
          return Failure(m.error);
        }
        built := built + [m.value];
      }
      assert links[..|links|] == links;
      return Success(built);
    }

    /** `parseMappings`: every mapping string's mappings are appended, in string
        order; the first error stops the synch and nothing is appended. */
    method ParseMappings() returns (err: Option<SynchError>)
      modifies this`mappings
      ensures ParseAll(nodes, parse, mappingTexts).Success? ==>
        err == None && mappings == old(mappings) + ParseAll(nodes, parse, mappingTexts).value
      ensures ParseAll(nodes, parse, mappingTexts).Failure? ==>
        err == Some(ParseAll(nodes, parse, mappingTexts).error) && mappings == old(mappings)
    {
      var built: seq<Mapping> := [];
      for i := 0 to |mappingTexts|
        invariant ParseAll(nodes, parse, mappingTexts[..i]) == Success(built)
        invariant mappings == old(mappings)
      {
        assert mappingTexts[..i + 1][..i] == mappingTexts[..i];
        var ms := ParseMapping(mappingTexts[i]);
        if ms.Failure? {
          ParseAllStop(nodes, parse, mappingTexts, i + 1);
          return Some(ms.error);
        }
        built := built + ms.value;
      }
      assert mappingTexts[..|mappingTexts|] == mappingTexts;
      mappings := mappings + built;
      return None;
    }

    /** The two selects of mapping `i`, the source's first; of the databases
        `dbs`, only the mapping's two receive calls. */
    method SelectRows(i: nat, ghost dbs: set<Database>) returns (sourceRows: seq<Row>, targetRows: seq<Row>)
      requires i < |mappings| && HasTables(tables, mappings[i])
      modifies mappings[i].cfg.source.db`log, mappings[i].cfg.target.db`log
      ensures sourceRows == ActiveRows(tables, mappings[i].cfg.source, mappings[i].cfg.sourceWhere)
      ensures targetRows == ActiveRows(tables, mappings[i].cfg.target, mappings[i].cfg.targetWhere)
      ensures forall d | d in dbs :: d.log == old(d.log) + MappingSelects(tables, mappings[i], d)
    {
      var m := mappings[i];
      sourceRows := m.cfg.source.db.Select(tables[m.cfg.source.tableId].name, m.cfg.sourceWhere);
      targetRows := m.cfg.target.db.Select(tables[m.cfg.target.tableId].name, m.cfg.targetWhere);
    }

    /** `selectData` for mapping `i`: both selects, the saved lists, then the
        source rows' and the target rows' records. Of the databases `dbs`, only
        the mapping's two receive calls: the selects of `MappingSelects`. */
    method SelectMapping(i: nat, ghost dbs: set<Database>)
      requires i < |mappings| && HasTables(tables, mappings[i])
      modifies this`tables, this`mappings, mappings[i].cfg.source.db`log, mappings[i].cfg.target.db`log
      ensures tables == SelectStep(old(tables), old(mappings[i]), i, initial).0
      ensures mappings == old(mappings)[i := SelectStep(old(tables), old(mappings[i]), i, initial).1]
      ensures forall d | d in dbs :: d.log == old(d.log) + MappingSelects(old(tables), old(mappings[i]), d)
    {
      var m := mappings[i];
      var sid := m.cfg.source.tableId;
      var tid := m.cfg.target.tableId;
      var sourceRows, targetRows := SelectRows(i, dbs);
      var saved := m;
      if !initial {
        saved := m.(sourceOldActive := m.sourceActive, targetOldActive := m.targetActive);
      }
      var sourceRecords, sourceIds := ActivateRows(tables[sid].records, sourceRows, i);
      tables := tables[sid := tables[sid].(records := sourceRecords)];
      var targetRecords, targetIds := ActivateRows(tables[tid].records, targetRows, i);
      tables := tables[tid := tables[tid].(records := targetRecords)];
      mappings := mappings[i := saved.(sourceActive := m.sourceActive + sourceIds, targetActive := m.targetActive + targetIds)];
    }

    /**
     * One turn of `selectData`'s loop: with the first `i` of the mappings `ms`
     * selected from the tables `tables0`, and the databases `dbs` holding their
     * selects after the logs `logs`, mapping `i` is selected too. The tables only
     * grow and every active index stays valid.
     */
    method SelectNext(i: nat, ghost ms: seq<Mapping>, ghost tables0: map<string, Table>,
                      ghost dbs: set<Database>, ghost logs: map<Database, seq<DbCall>>)
      requires i < |ms| && forall k :: 0 <= k < |ms| ==> HasTables(tables0, ms[k])
      requires dbs == MappingDbs(ms) && dbs <= logs.Keys
      requires tables == SelectAll(tables0, ms, i, initial).0 && mappings == SelectAll(tables0, ms, i, initial).1
      requires Grown(tables0, tables) && forall k :: 0 <= k < |mappings| ==> Indexed(tables, mappings[k])
      requires forall d | d in dbs :: d.log == logs[d] + SelectCallsOf(tables0, ms, i, d)
      modifies this`tables, this`mappings, dbs
      ensures tables == SelectAll(tables0, ms, i + 1, initial).0 && mappings == SelectAll(tables0, ms, i + 1, initial).1
      ensures Grown(tables0, tables) && forall k :: 0 <= k < |mappings| ==> Indexed(tables, mappings[k])
      ensures forall d | d in dbs :: d.log == logs[d] + SelectCallsOf(tables0, ms, i + 1, d)
    {
      assert ms[i].cfg.source.db in dbs && ms[i].cfg.target.db in dbs;
      ghost var grown := tables;
      ghost var before := mappings;
      SelectStepKeepsIndexed(grown, before, i, initial);
      SelectMapping(i, dbs);
      GrownTransitive(tables0, grown, tables);
      forall k | 0 <= k < |mappings|
        ensures Indexed(tables, mappings[k])
      {
        if k != i {
          assert mappings[k] == before[k];
        }
      }
      forall d | d in dbs
        ensures d.log == logs[d] + SelectCallsOf(tables0, ms, i + 1, d)
      {
        SelectCallsStep(logs[d], old(d.log), d.log, tables0, grown, ms, i, d);
      }
    }

    /** The loop of `selectData` over the mappings `ms`, which start out selected
        from the tables `tables0`; `logs` are the logs of their databases `dbs`. */
    method SelectMappings(ms: seq<Mapping>, ghost tables0: map<string, Table>,
                          ghost dbs: set<Database>, ghost logs: map<Database, seq<DbCall>>)
      requires forall k :: 0 <= k < |ms| ==> HasTables(tables0, ms[k]) && Indexed(tables0, ms[k])
      requires dbs == MappingDbs(ms) && dbs <= logs.Keys
      requires tables == tables0 && mappings == ms
      requires forall d | d in dbs :: d.log == logs[d]
      modifies this`tables, this`mappings, dbs
      ensures tables == SelectAll(tables0, ms, |ms|, initial).0 && mappings == SelectAll(tables0, ms, |ms|, initial).1
      ensures forall k :: 0 <= k < |mappings| ==> Indexed(tables, mappings[k])
      ensures forall d | d in dbs :: d.log == logs[d] + SelectCallsOf(tables0, ms, |ms|, d)
    {
      for i := 0 to |ms|
        invariant tables == SelectAll(tables0, ms, i, initial).0 && mappings == SelectAll(tables0, ms, i, initial).1
        invariant Grown(tables0, tables)
        invariant forall k :: 0 <= k < |mappings| ==> Indexed(tables, mappings[k])
        invariant forall d | d in dbs :: d.log == logs[d] + SelectCallsOf(tables0, ms, i, d)
      {
        SelectNext(i, ms, tables0, dbs, logs);
      }
    }

    /** `selectData`: every mapping selects its active records, in order; every
        active index points at a record of its table before and after. */
    method SelectData()
      requires forall k :: 0 <= k < |mappings| ==> HasTables(tables, mappings[k]) && Indexed(tables, mappings[k])
      modifies this`tables, this`mappings, MappingDbs(mappings)
      ensures (tables, mappings) == SelectAll(old(tables), old(mappings), |old(mappings)|, initial)
      ensures forall k :: 0 <= k < |mappings| ==> Indexed(tables, mappings[k])
      ensures forall d | d in MappingDbs(old(mappings)) ::
        d.log == old(d.log) + SelectCallsOf(old(tables), old(mappings), |old(mappings)|, d)
    {
      ghost var dbs := MappingDbs(mappings);
      SelectMappings(mappings, tables, dbs, map d | d in dbs :: d.log);
    }

    /** `pairData`: every mapping builds its pairs from its active records. */
    method PairData()
      requires forall k :: 0 <= k < |mappings| ==> Indexed(tables, mappings[k])
      modifies this`mappings
      ensures |mappings| == |old(mappings)|
      ensures forall k :: 0 <= k < |mappings| ==> mappings[k] == PairStep(tables, old(mappings)[k], compare)
    {
      for i := 0 to |mappings|
        invariant |mappings| == |old(mappings)|
        invariant forall k :: 0 <= k < i ==> mappings[k] == PairStep(tables, old(mappings)[k], compare)
        invariant forall k :: i <= k < |mappings| ==> mappings[k] == old(mappings)[k]
      {
        mappings := mappings[i := PairStep(tables, mappings[i], compare)];
      }
    }

    /** `Synchronize`: every pair of every mapping synchronises, in mapping order
        and then pair order; a pair's error is only logged. */
    method Synchronize()
      requires Runnable(rep.links, AllPairs(mappings), compare)
      modifies rep`links, TargetDbs(mappings)
      ensures rep.links == Sweep(old(rep.links), AllPairs(mappings), compare, simulation)
      ensures forall d | d in TargetDbs(mappings) :: d.log == old(d.log) + WritesTo(AllPairs(mappings), d, compare, simulation)
    {
      ghost var targets := TargetDbs(mappings);
      ghost var logs := map d | d in targets :: d.log;
      SynchronizeMappings(mappings, rep, compare, simulation, targets, logs);
    }

    /**
     * `Synchronize` and then the reporter's `Finalize`: the report holds the
     * actions of all pairs and the summary of this synch's mode, and a simulation
     * has left every target database as it was.
     */
    method Run() returns (bytes: Option<string>, err: Option<ReportError>)
      requires ReportsOnSelf()
      requires Runnable(rep.links, AllPairs(mappings), compare)
      modifies rep`links, rep`msg, TargetDbs(mappings)
      ensures rep.links == Sweep(old(rep.links), AllPairs(mappings), compare, simulation)
      ensures rep.msg == SummaryMessage(name, simulation)
      ensures forall d | d in TargetDbs(mappings) :: d.log == old(d.log) + WritesTo(AllPairs(mappings), d, compare, simulation)
      ensures simulation ==> forall d | d in TargetDbs(mappings) :: d.log == old(d.log)
      ensures rep.encodeReport(rep.msg, rep.links).Success? ==> bytes == Some(rep.encodeReport(rep.msg, rep.links).value)
      ensures rep.encodeReport(rep.msg, rep.links).Failure? ==>
        err == Some(SynchReportError(name, rep.encodeReport(rep.msg, rep.links).error))
    {
      Synchronize();
      forall d | d in TargetDbs(mappings)
        ensures WritesTo(AllPairs(mappings), d, compare, true) == []
      {
        SimulationWritesNothing(AllPairs(mappings), d, compare);
      }
      bytes, err := rep.Finalize();
    }
  }
}
