/**
 * The phases of a synch's initialisation that come before the selection, taken
 * together: the databases, tables, nodes and mappings `Init` has built when it
 * reaches `selectData`, or the first error that stops it.
 */
module Setup {
  import opened Values
  import opened Wrappers
  import opened Store
  import opened Topology
  import opened Plan

  /** What the first four phases of `Init` build. */
  datatype Prepared = Prepared(
    dbs: map<string, Database>,
    tables: map<string, Table>,
    nodes: map<string, Node>,
    mappings: seq<Mapping>)

  /** The databases the mappings read from and write to. */
  function MappingDbs(ms: seq<Mapping>): set<Database>
  {
    (set k | 0 <= k < |ms| :: ms[k].cfg.source.db) + (set k | 0 <= k < |ms| :: ms[k].cfg.target.db)
  }

  /**
   * `setDatabases`, `setTables`, `setNodes` and `parseMappings` on an empty
   * synch: a database that is not configured stops it first, then a node whose
   * table does not exist, then a mapping string that does not parse or names an
   * unknown node. Every mapping built has its two tables and, having selected
   * nothing, only valid indices.
   */
  function Prepare(registry: map<string, Database>, cfgs: seq<NodeConfig>,
                   parse: string -> Result<ParsedMapping, string>, texts: seq<string>)
    : (r: Result<Prepared, SynchError>)
    ensures FirstUnconfigured(registry, cfgs) < |cfgs| ==>
      r == Failure(DatabaseError(cfgs[FirstUnconfigured(registry, cfgs)].database, NotConfigured))
    ensures r.Success? ==> forall k :: 0 <= k < |r.value.mappings| ==>
      HasTables(r.value.tables, r.value.mappings[k]) && Indexed(r.value.tables, r.value.mappings[k])
  {
    var stop := FirstUnconfigured(registry, cfgs);
    if stop < |cfgs| then Failure(DatabaseError(cfgs[stop].database, NotConfigured))
    else
      var dbs := OpenAll(map[], registry, cfgs);
      var tables := BuildTables(map[], dbs, cfgs).0;
      var missing := FirstMissingTable(tables, cfgs);
      if missing < |cfgs| then Failure(TableNotFound(NodeTableId(cfgs[missing])))
      else
        var nodes := BuildNodes(map[], dbs, cfgs);
        match ParseAll(nodes, parse, texts)
        case Failure(e) => Failure(e)
        case Success(ms) =>
          BoundMappingsReady(dbs, tables, cfgs, ms);
          Success(Prepared(dbs, tables, nodes, ms))
  }

  /** The outcome of the phases after `setDatabases` opened every database, stated
      as `Prepare`'s. */
  lemma PrepareOutcome(registry: map<string, Database>, cfgs: seq<NodeConfig>,
                       parse: string -> Result<ParsedMapping, string>, texts: seq<string>,
                       dbs: map<string, Database>, tables: map<string, Table>, nodes: map<string, Node>, ms: seq<Mapping>,
                       err: Option<SynchError>)
    requires FirstUnconfigured(registry, cfgs) == |cfgs| && dbs == OpenAll(map[], registry, cfgs)
    requires forall k :: 0 <= k < |cfgs| ==> cfgs[k].database in dbs
    requires tables == BuildTables(map[], dbs, cfgs).0
    requires FirstMissingTable(tables, cfgs) < |cfgs| ==>
      err == Some(TableNotFound(NodeTableId(cfgs[FirstMissingTable(tables, cfgs)])))
    requires FirstMissingTable(tables, cfgs) == |cfgs| ==> nodes == BuildNodes(map[], dbs, cfgs)
    requires FirstMissingTable(tables, cfgs) == |cfgs| && ParseAll(nodes, parse, texts).Failure? ==>
      err == Some(ParseAll(nodes, parse, texts).error)
    requires FirstMissingTable(tables, cfgs) == |cfgs| && ParseAll(nodes, parse, texts).Success? ==>
      err == None && ms == ParseAll(nodes, parse, texts).value
    ensures Prepare(registry, cfgs, parse, texts).Failure? ==> err == Some(Prepare(registry, cfgs, parse, texts).error)
    ensures Prepare(registry, cfgs, parse, texts).Success? ==>
      err == None && Prepared(dbs, tables, nodes, ms) == Prepare(registry, cfgs, parse, texts).value
  {
  }

  /** A node `setNodes` built, when every node's table exists, has its table and
      one of the synch's databases. */
  lemma NodeReady(dbs: map<string, Database>, tables: map<string, Table>, cfgs: seq<NodeConfig>, n: Node)
    requires forall k :: 0 <= k < |cfgs| ==> cfgs[k].database in dbs
    requires FirstMissingTable(tables, cfgs) == |cfgs|
    requires n in BuildNodes(map[], dbs, cfgs).Values
    ensures n.tableId in tables && n.db in dbs.Values
  {
    var nodes := BuildNodes(map[], dbs, cfgs);
    var name :| name in nodes && nodes[name] == n;
    assert BoundNode(n, dbs, name);
    NodesFromConfigs(map[], dbs, cfgs, name);
    var k :| 0 <= k < |cfgs| && cfgs[k] == n.cfg;
    assert NodeTableId(cfgs[k]) in tables;
  }

  /** Mappings bound to those nodes have their tables, only valid indices, and
      read and write only the synch's databases. */
  lemma BoundMappingsReady(dbs: map<string, Database>, tables: map<string, Table>, cfgs: seq<NodeConfig>, ms: seq<Mapping>)
    requires forall k :: 0 <= k < |cfgs| ==> cfgs[k].database in dbs
    requires FirstMissingTable(tables, cfgs) == |cfgs|
    requires forall k :: 0 <= k < |ms| ==> BoundMapping(BuildNodes(map[], dbs, cfgs), ms[k])
    ensures forall k :: 0 <= k < |ms| ==> Indexed(tables, ms[k])
    ensures MappingDbs(ms) <= dbs.Values
  {
    forall k | 0 <= k < |ms|
      ensures Indexed(tables, ms[k]) && ms[k].cfg.source.db in dbs.Values && ms[k].cfg.target.db in dbs.Values
    {
      NodeReady(dbs, tables, cfgs, ms[k].cfg.source);
      NodeReady(dbs, tables, cfgs, ms[k].cfg.target);
    }
  }

  /** The databases `setDatabases` opens on an empty synch all come from the registry. */
  lemma {:induction false} OpenedFromRegistry(registry: map<string, Database>, cfgs: seq<NodeConfig>)
    requires forall k :: 0 <= k < |cfgs| ==> cfgs[k].database in registry
    ensures OpenAll(map[], registry, cfgs).Values <= registry.Values
    ensures forall k :: 0 <= k < |cfgs| ==> cfgs[k].database in OpenAll(map[], registry, cfgs)
    decreases |cfgs|
  {
    if cfgs != [] {
      var name := cfgs[|cfgs| - 1].database;
      OpenedFromRegistry(registry, cfgs[..|cfgs| - 1]);
      assert OpenAll(map[], registry, cfgs) == OpenAll(map[], registry, cfgs[..|cfgs| - 1])[name := registry[name]];
    }
  }

  /** A successful preparation leaves the selection only the registry's databases
      to call. */
  lemma PreparedDbs(registry: map<string, Database>, cfgs: seq<NodeConfig>,
                    parse: string -> Result<ParsedMapping, string>, texts: seq<string>)
    requires Prepare(registry, cfgs, parse, texts).Success?
    ensures var p := Prepare(registry, cfgs, parse, texts).value;
      p.dbs.Values <= registry.Values && MappingDbs(p.mappings) <= registry.Values
  {
    var dbs := OpenAll(map[], registry, cfgs);
    OpenedFromRegistry(registry, cfgs);
    var tables := BuildTables(map[], dbs, cfgs).0;
    var nodes := BuildNodes(map[], dbs, cfgs);
    BoundMappingsReady(dbs, tables, cfgs, ParseAll(nodes, parse, texts).value);
  }

  /**
   * With a registry keyed by each database's own name, every node finds its
   * table: `setNodes` then never stops the initialisation, and only a database
   * that is not configured or a bad mapping string can.
   */
  lemma NamedRegistryFindsTables(registry: map<string, Database>, cfgs: seq<NodeConfig>,
                                 parse: string -> Result<ParsedMapping, string>, texts: seq<string>)
    requires RegistryNamed(registry)
    ensures Prepare(registry, cfgs, parse, texts).Failure? ==> !Prepare(registry, cfgs, parse, texts).error.TableNotFound?
  {
    if FirstUnconfigured(registry, cfgs) == |cfgs| {
      var dbs := OpenAll(map[], registry, cfgs);
      OpenedFromRegistry(registry, cfgs);
      var tables := BuildTables(map[], dbs, cfgs).0;
      forall k | 0 <= k < |cfgs|
        ensures NodeTableId(cfgs[k]) in tables
      {
        assert dbs[cfgs[k].database] == registry[cfgs[k].database];
        assert TableId(dbs[cfgs[k].database].name, cfgs[k].table) in TableIds(dbs, cfgs);
      }
    }
  }
}
