/**
 * What each phase of a synch's initialisation and run does, as functions of the
 * state before it: the databases it opens, the tables it creates, the nodes,
 * mappings, active records and pairs it builds, and the effect of running every
 * pair. The `Synch` class's methods are proved to follow these.
 */
module Plan {
  import opened Values
  import opened Wrappers
  import opened Store
  import opened Topology
  import opened Pairs
  import opened Report
  import opened Reconcile

  /** The errors that stop an initialisation (a panic or a fatal log in the engine). */
  datatype SynchError =
    | DatabaseError(dbName: string, errMsg: string)
    | TableNotFound(tableId: string)
    | ParseError(msg: string)
    | NodeNotFound(nodeName: string)

  /** The message of the `DatabaseError` raised for a database that is not configured. */
  const NotConfigured := "hasn't been configured"

  /** The registry of configured databases is keyed by each database's own name. */
  predicate RegistryNamed(registry: map<string, Database>)
  {
    forall k | k in registry :: registry[k].name == k
  }

  /* ---------------- databases ---------------- */

  /** Index of the first node config whose database is not configured, or the
      number of node configs when all are. */
  function FirstUnconfigured(registry: map<string, Database>, cfgs: seq<NodeConfig>): (n: nat)
    ensures n <= |cfgs|
    ensures forall k :: 0 <= k < n ==> cfgs[k].database in registry
    ensures n < |cfgs| ==> cfgs[n].database !in registry
    decreases |cfgs|
  {
    if cfgs == [] then 0
    else if cfgs[0].database !in registry then 0
    else 1 + FirstUnconfigured(registry, cfgs[1..])
  }

  /** The names of the databases the node configs refer to. */
  function DatabaseNames(cfgs: seq<NodeConfig>): (r: set<string>)
    ensures forall k :: 0 <= k < |cfgs| ==> cfgs[k].database in r
    decreases |cfgs|
  {
    if cfgs == [] then {} else DatabaseNames(cfgs[..|cfgs| - 1]) + {cfgs[|cfgs| - 1].database}
  }

  /** `setDatabases` over configs whose databases are all configured: each one is
      copied from the registry under its name, the others are kept. */
  function OpenAll(dbs: map<string, Database>, registry: map<string, Database>, cfgs: seq<NodeConfig>)
    : (r: map<string, Database>)
    requires forall k :: 0 <= k < |cfgs| ==> cfgs[k].database in registry
    ensures r.Keys == dbs.Keys + DatabaseNames(cfgs)
    ensures forall k :: 0 <= k < |cfgs| ==> r[cfgs[k].database] == registry[cfgs[k].database]
    ensures forall name | name in dbs && name !in DatabaseNames(cfgs) :: r[name] == dbs[name]
    decreases |cfgs|
  {
    if cfgs == [] then dbs
    else
      var name := cfgs[|cfgs| - 1].database;
      OpenAll(dbs, registry, cfgs[..|cfgs| - 1])[name := registry[name]]
  }

  /** The `Init` calls database `d` receives: one per node config naming it. */
  function InitsOf(registry: map<string, Database>, cfgs: seq<NodeConfig>, d: Database): (r: seq<DbCall>)
    requires forall k :: 0 <= k < |cfgs| ==> cfgs[k].database in registry
    ensures |r| <= |cfgs|
    ensures forall k :: 0 <= k < |r| ==> r[k] == InitCall
    decreases |cfgs|
  {
    if cfgs == [] then []
    else
      var last := cfgs[|cfgs| - 1];
      InitsOf(registry, cfgs[..|cfgs| - 1], d) + (if registry[last.database] == d then [InitCall] else [])
  }

  /** `setDatabases` one config further: that config's database is opened and
      initialised once more. */
  lemma OpenAllStep(dbs: map<string, Database>, registry: map<string, Database>, cfgs: seq<NodeConfig>, j: nat)
    requires j < |cfgs| && forall k :: 0 <= k <= j ==> cfgs[k].database in registry
    ensures OpenAll(dbs, registry, cfgs[..j + 1])
      == OpenAll(dbs, registry, cfgs[..j])[cfgs[j].database := registry[cfgs[j].database]]
    ensures forall d: Database ::
      InitsOf(registry, cfgs[..j + 1], d) == InitsOf(registry, cfgs[..j], d) + (if registry[cfgs[j].database] == d then [InitCall] else [])
  {
    assert cfgs[..j + 1][..j] == cfgs[..j];
  }

  /** A database no node config names is never initialised. */
  lemma {:induction false} InitsOnlyNamed(registry: map<string, Database>, cfgs: seq<NodeConfig>, d: Database)
    requires forall k :: 0 <= k < |cfgs| ==> cfgs[k].database in registry
    requires forall k :: 0 <= k < |cfgs| ==> registry[cfgs[k].database] != d
    ensures InitsOf(registry, cfgs, d) == []
    decreases |cfgs|
  {
    if cfgs != [] {
      InitsOnlyNamed(registry, cfgs[..|cfgs| - 1], d);
    }
  }

  /* ---------------- tables ---------------- */

  /** The table `setTable` creates: its id, database and name, one record per row
      of an unfiltered select, and no previous snapshot. */
  function NewTable(db: Database, tableName: string): (t: Table)
    ensures t.id == TableId(db.name, tableName) && t.db == db && t.name == tableName
    ensures |t.records| == |db.answer(tableName, "")| && t.oldRecords == []
    ensures forall k :: 0 <= k < |t.records| ==> t.records[k] == Record(db.answer(tableName, "")[k], [], [])
  {
    Table(TableId(db.name, tableName), db, tableName, MapToRecords(db.answer(tableName, "")), [])
  }

  /** `setTable`: get-or-create. Returns the tables and the selects issued, as
      (database, table name) pairs; an existing id issues none. */
  function PutTable(tables: map<string, Table>, db: Database, tableName: string)
    : (r: (map<string, Table>, seq<(Database, string)>))
    ensures TableId(db.name, tableName) in tables ==> r == (tables, [])
    ensures TableId(db.name, tableName) !in tables ==>
      r == (tables[TableId(db.name, tableName) := NewTable(db, tableName)], [(db, tableName)])
  {
    var id := TableId(db.name, tableName);
    if id in tables then (tables, []) else (tables[id := NewTable(db, tableName)], [(db, tableName)])
  }

  /** Creating a table a second time changes nothing and selects nothing. */
  lemma PutTableIdempotent(tables: map<string, Table>, db: Database, tableName: string)
    ensures PutTable(PutTable(tables, db, tableName).0, db, tableName) == (PutTable(tables, db, tableName).0, [])
  {
  }

  /** The ids of the tables the node configs name, with the database names the
      databases report. */
  function TableIds(dbs: map<string, Database>, cfgs: seq<NodeConfig>): (r: set<string>)
    requires forall k :: 0 <= k < |cfgs| ==> cfgs[k].database in dbs
    ensures forall k :: 0 <= k < |cfgs| ==> TableId(dbs[cfgs[k].database].name, cfgs[k].table) in r
    decreases |cfgs|
  {
    if cfgs == [] then {}
    else
      var last := cfgs[|cfgs| - 1];
      TableIds(dbs, cfgs[..|cfgs| - 1]) + {TableId(dbs[last.database].name, last.table)}
  }

  /**
   * `setTables`: `setTable` for each node config in order. Returns the tables and
   * the selects issued; one select per table created, so at most one per config.
   */
  function BuildTables(tables: map<string, Table>, dbs: map<string, Database>, cfgs: seq<NodeConfig>)
    : (r: (map<string, Table>, seq<(Database, string)>))
    requires forall k :: 0 <= k < |cfgs| ==> cfgs[k].database in dbs
    ensures r.0.Keys == tables.Keys + TableIds(dbs, cfgs)
    ensures forall id | id in tables :: r.0[id] == tables[id]
    ensures |r.1| <= |cfgs|
    decreases |cfgs|
  {
    if cfgs == [] then (tables, [])
    else
      var before := BuildTables(tables, dbs, cfgs[..|cfgs| - 1]);
      var last := cfgs[|cfgs| - 1];
      var step := PutTable(before.0, dbs[last.database], last.table);
      (step.0, before.1 + step.1)
  }

  /** Every table `setTables` adds is the table `setTable` creates for its database
      and name: filled by one unfiltered select, with no previous snapshot. */
  lemma {:induction false} BuildTablesNew(tables: map<string, Table>, dbs: map<string, Database>, cfgs: seq<NodeConfig>)
    requires forall k :: 0 <= k < |cfgs| ==> cfgs[k].database in dbs
    ensures var r := BuildTables(tables, dbs, cfgs).0;
      forall id | id in r && id !in tables :: r[id] == NewTable(r[id].db, r[id].name)
    decreases |cfgs|
  {
    if cfgs != [] {
      var init := cfgs[..|cfgs| - 1];
      BuildTablesNew(tables, dbs, init);
      var before := BuildTables(tables, dbs, init).0;
      var last := cfgs[|cfgs| - 1];
      var r := BuildTables(tables, dbs, cfgs).0;
      assert r == PutTable(before, dbs[last.database], last.table).0;
      forall id | id in r && id !in tables
        ensures r[id] == NewTable(r[id].db, r[id].name)
      {
        if id in before {
          assert r[id] == before[id];
        }
      }
    }
  }

  /** One select for each table created: a table is filled once. */
  lemma {:induction false} OneSelectPerTable(tables: map<string, Table>, dbs: map<string, Database>, cfgs: seq<NodeConfig>)
    requires forall k :: 0 <= k < |cfgs| ==> cfgs[k].database in dbs
    ensures |BuildTables(tables, dbs, cfgs).0| == |tables| + |BuildTables(tables, dbs, cfgs).1|
    decreases |cfgs|
  {
    if cfgs != [] {
      var init := cfgs[..|cfgs| - 1];
      OneSelectPerTable(tables, dbs, init);
      var before := BuildTables(tables, dbs, init);
      var last := cfgs[|cfgs| - 1];
      var db := dbs[last.database];
      var id := TableId(db.name, last.table);
      if id !in before.0 {
        var after := before.0[id := NewTable(db, last.table)];
        assert after.Keys == before.0.Keys + {id};
        assert |after| == |before.0| + 1;
      }
    }
  }

  /** The calls database `d` receives for the selects of a journal. */
  function SelectsOf(journal: seq<(Database, string)>, d: Database): (r: seq<DbCall>)
    ensures |r| <= |journal|
    ensures forall k :: 0 <= k < |r| ==> r[k].SelectCall? && r[k].where == ""
    decreases |journal|
  {
    if journal == [] then []
    else
      var last := journal[|journal| - 1];
      SelectsOf(journal[..|journal| - 1], d) + (if last.0 == d then [SelectCall(last.1, "")] else [])
  }

  /** The calls of two journals run one after the other are those of each. */
  lemma {:induction false} SelectsOfAppend(a: seq<(Database, string)>, b: seq<(Database, string)>, d: Database)
    ensures SelectsOf(a + b, d) == SelectsOf(a, d) + SelectsOf(b, d)
    decreases |b|
  {
    if b != [] {
      var n := |b| - 1;
      assert (a + b)[..|a + b| - 1] == a + b[..n];
      SelectsOfAppend(a, b[..n], d);
      assert SelectsOf(b, d) == SelectsOf(b[..n], d) + (if b[n].0 == d then [SelectCall(b[n].1, "")] else []);
    } else {
      assert a + b == a;
    }
  }

  /* ---------------- nodes ---------------- */

  /** The table id a node config is resolved against. */
  function NodeTableId(c: NodeConfig): string
  {
    TableId(c.database, c.table)
  }

  /** Index of the first node config whose table does not exist, or the number of
      node configs when all exist. */
  function FirstMissingTable(tables: map<string, Table>, cfgs: seq<NodeConfig>): (n: nat)
    ensures n <= |cfgs|
    ensures forall k :: 0 <= k < n ==> NodeTableId(cfgs[k]) in tables
    ensures n < |cfgs| ==> NodeTableId(cfgs[n]) !in tables
    decreases |cfgs|
  {
    if cfgs == [] then 0
    else if NodeTableId(cfgs[0]) !in tables then 0
    else 1 + FirstMissingTable(tables, cfgs[1..])
  }

  /** A node as `setNodes` makes it for the name it is stored under: from a config
      with that name, bound to that config's database and table. */
  predicate BoundNode(n: Node, dbs: map<string, Database>, name: string)
  {
    n.cfg.name == name && n.cfg.database in dbs && n.db == dbs[n.cfg.database] && n.tableId == NodeTableId(n.cfg)
  }

  /** The node `setNodes` makes of a config (`createNode`): bound to the config's
      database and to its table, under the config's name. */
  function NodeOf(c: NodeConfig, dbs: map<string, Database>): (n: Node)
    requires c.database in dbs
    ensures BoundNode(n, dbs, c.name) && n.cfg == c
  {
    Node(c, dbs[c.database], NodeTableId(c))
  }

  /** `setNodes` over node configs whose tables exist: one node per config, keyed
      by node name, bound to its database and its table; a later config with the
      same name replaces an earlier one. */
  function BuildNodes(nodes: map<string, Node>, dbs: map<string, Database>, cfgs: seq<NodeConfig>)
    : (r: map<string, Node>)
    requires forall k :: 0 <= k < |cfgs| ==> cfgs[k].database in dbs
    ensures forall k :: 0 <= k < |cfgs| ==> cfgs[k].name in r && BoundNode(r[cfgs[k].name], dbs, cfgs[k].name)
    ensures forall name | name in r :: (name in nodes && r[name] == nodes[name]) || BoundNode(r[name], dbs, name)
    ensures |cfgs| > 0 ==> r[cfgs[|cfgs| - 1].name] == NodeOf(cfgs[|cfgs| - 1], dbs)
    decreases |cfgs|
  {
    if cfgs == [] then nodes
    else
      var c := cfgs[|cfgs| - 1];
      BuildNodes(nodes, dbs, cfgs[..|cfgs| - 1])[c.name := NodeOf(c, dbs)]
  }

  /** A node `setNodes` adds comes from one of the node configs. */
  lemma {:induction false} NodesFromConfigs(nodes: map<string, Node>, dbs: map<string, Database>, cfgs: seq<NodeConfig>, name: string)
    requires forall k :: 0 <= k < |cfgs| ==> cfgs[k].database in dbs
    requires name in BuildNodes(nodes, dbs, cfgs) && name !in nodes
    ensures BuildNodes(nodes, dbs, cfgs)[name].cfg in cfgs
    decreases |cfgs|
  {
    var init := cfgs[..|cfgs| - 1];
    if name != cfgs[|cfgs| - 1].name {
      NodesFromConfigs(nodes, dbs, init, name);
    }
  }

  /* ---------------- mappings ---------------- */

  /** One link of a parsed mapping string: its id and command, the two node names,
      the two columns and the two filters. */
  datatype RawLink = RawLink(
    id: string,
    cmd: string,
    sourceNode: string,
    targetNode: string,
    sourceColumn: string,
    targetColumn: string,
    sourceWhere: string,
    targetWhere: string)

  /** What the mapping-language parser returns for one mapping string. */
  datatype ParsedMapping = ParsedMapping(links: seq<RawLink>, rule: MatchRule, doList: seq<string>)

  /** A mapping: its configuration, the indices of its active records in the
      source and target tables, the lists saved from the previous selection, and
      its pairs. */
  datatype Mapping = Mapping(
    cfg: MappingCfg,
    sourceActive: seq<nat>,
    targetActive: seq<nat>,
    sourceOldActive: seq<nat>,
    targetOldActive: seq<nat>,
    pairs: seq<Pair>)

  /** A mapping as it is built: nothing selected and nothing paired yet. */
  predicate Unselected(m: Mapping)
  {
    m.sourceActive == [] && m.targetActive == [] && m.sourceOldActive == [] && m.targetOldActive == [] && m.pairs == []
  }

  /** The mapping of one link, bound to the nodes it names; a node name that is
      not configured is an error. */
  function CreateMapping(nodes: map<string, Node>, link: RawLink, rule: MatchRule, doList: seq<string>)
    : (r: Result<Mapping, SynchError>)
    ensures r.Success? <==> link.sourceNode in nodes && link.targetNode in nodes
    ensures link.sourceNode !in nodes ==> r == Failure(NodeNotFound(link.sourceNode))
    ensures link.sourceNode in nodes && link.targetNode !in nodes ==> r == Failure(NodeNotFound(link.targetNode))
    ensures r.Success? ==>
      && Unselected(r.value)
      && r.value.cfg.source == nodes[link.sourceNode] && r.value.cfg.target == nodes[link.targetNode]
      && r.value.cfg.linkId == link.id && r.value.cfg.doList == doList && r.value.cfg.rule == rule
  {
    if link.sourceNode !in nodes then Failure(NodeNotFound(link.sourceNode))
    else if link.targetNode !in nodes then Failure(NodeNotFound(link.targetNode))
    else
      var cfg := MappingCfg(link.id, nodes[link.sourceNode], nodes[link.targetNode], link.sourceColumn,
                            link.targetColumn, doList, rule, link.sourceWhere, link.targetWhere);
      Success(Mapping(cfg, [], [], [], [], []))
  }

  /** The mappings of the links of one parsed mapping string, in link order, or the
      first link's error. */
  function LinkMappings(nodes: map<string, Node>, links: seq<RawLink>, rule: MatchRule, doList: seq<string>)
    : (r: Result<seq<Mapping>, SynchError>)
    ensures r.Success? <==> forall k :: 0 <= k < |links| ==> CreateMapping(nodes, links[k], rule, doList).Success?
    ensures r.Success? ==> |r.value| == |links|
    ensures r.Success? ==> forall k :: 0 <= k < |links| ==> r.value[k] == CreateMapping(nodes, links[k], rule, doList).value
    ensures r.Failure? ==> r.error.NodeNotFound?
    decreases |links|
  {
    if links == [] then Success([])
    else
      var init := links[..|links| - 1];
      var before := LinkMappings(nodes, init, rule, doList);
      if before.Failure? then before
      else match CreateMapping(nodes, links[|links| - 1], rule, doList)
        case Failure(e) => Failure(e)
        case Success(m) => Success(before.value + [m])
  }

  /** Once a prefix of the links fails, every longer list fails with the same error. */
  lemma {:induction false} LinkMappingsStop(nodes: map<string, Node>, links: seq<RawLink>, rule: MatchRule,
                                            doList: seq<string>, n: nat)
    requires n <= |links| && LinkMappings(nodes, links[..n], rule, doList).Failure?
    ensures LinkMappings(nodes, links, rule, doList) == LinkMappings(nodes, links[..n], rule, doList)
    decreases |links|
  {
    if n == |links| {
      assert links[..n] == links;
    } else {
      var init := links[..|links| - 1];
      assert init[..n] == links[..n];
      LinkMappingsStop(nodes, init, rule, doList, n);
    }
  }

  /** A mapping whose nodes are nodes of the synch and which has selected nothing yet. */
  predicate BoundMapping(nodes: map<string, Node>, m: Mapping)
  {
    Unselected(m) && m.cfg.source in nodes.Values && m.cfg.target in nodes.Values
  }

  /**
   * `parseMappings`: the mappings of every mapping string, in string order and
   * then link order; the first parse or link error stops it.
   */
  function ParseAll(nodes: map<string, Node>, parse: string -> Result<ParsedMapping, string>, texts: seq<string>)
    : (r: Result<seq<Mapping>, SynchError>)
    ensures r.Success? ==> forall k :: 0 <= k < |r.value| ==> BoundMapping(nodes, r.value[k])
    ensures r.Success? ==> forall k :: 0 <= k < |texts| ==> parse(texts[k]).Success?
    ensures r.Failure? ==> r.error.ParseError? || r.error.NodeNotFound?
    decreases |texts|
  {
    if texts == [] then Success([])
    else
      var before := ParseAll(nodes, parse, texts[..|texts| - 1]);
      if before.Failure? then before
      else match parse(texts[|texts| - 1])
        case Failure(msg) => Failure(ParseError(msg))
        case Success(pm) =>
          match LinkMappings(nodes, pm.links, pm.rule, pm.doList)
          case Failure(e) => Failure(e)
          case Success(ms) => Success(before.value + ms)
  }

  /** Once a prefix of the mapping strings fails, every longer list fails with
      the same error. */
  lemma {:induction false} ParseAllStop(nodes: map<string, Node>, parse: string -> Result<ParsedMapping, string>,
                                         texts: seq<string>, n: nat)
    requires n <= |texts| && ParseAll(nodes, parse, texts[..n]).Failure?
    ensures ParseAll(nodes, parse, texts) == ParseAll(nodes, parse, texts[..n])
    decreases |texts|
  {
    if n == |texts| {
      assert texts[..n] == texts;
    } else {
      var init := texts[..|texts| - 1];
      assert init[..n] == texts[..n];
      ParseAllStop(nodes, parse, init, n);
    }
  }

  /* ---------------- active records ---------------- */

  /** The rows a select on node `n`'s table with filter `where` returns. */
  function ActiveRows(tables: map<string, Table>, n: Node, where: string): seq<Row>
    requires n.tableId in tables
  {
    n.db.answer(tables[n.tableId].name, where)
  }

  /** The mapping's two tables exist. */
  predicate HasTables(tables: map<string, Table>, m: Mapping)
  {
    m.cfg.source.tableId in tables && m.cfg.target.tableId in tables
  }

  /** The mapping's tables exist and its active indices point at records in them. */
  predicate Indexed(tables: map<string, Table>, m: Mapping)
  {
    && HasTables(tables, m)
    && (forall k :: 0 <= k < |m.sourceActive| ==> m.sourceActive[k] < |tables[m.cfg.source.tableId].records|)
    && (forall k :: 0 <= k < |m.targetActive| ==> m.targetActive[k] < |tables[m.cfg.target.tableId].records|)
  }

  /** `tables'` has the same tables as `tables`, each with the same identity and
      old records and at least as many records. */
  predicate Grown(tables: map<string, Table>, tables': map<string, Table>)
  {
    && tables'.Keys == tables.Keys
    && forall id {:trigger TableGrown(tables[id], tables'[id])} | id in tables :: TableGrown(tables[id], tables'[id])
  }

  /** `t'` is table `t` with possibly more records. */
  predicate TableGrown(t: Table, t': Table)
  {
    && t'.id == t.id && t'.db == t.db && t'.name == t.name
    && t'.oldRecords == t.oldRecords
    && |t'.records| >= |t.records|
  }

  lemma GrownTransitive(t1: map<string, Table>, t2: map<string, Table>, t3: map<string, Table>)
    requires Grown(t1, t2) && Grown(t2, t3)
    ensures Grown(t1, t3)
  {
    forall id | id in t1
      ensures TableGrown(t1[id], t3[id])
    {
      assert TableGrown(t1[id], t2[id]) && TableGrown(t2[id], t3[id]);
    }
  }

  /** Record `j` of table `id` holds `row` and is active in mapping `i`. */
  predicate Selected(tables: map<string, Table>, id: string, j: nat, row: Row, i: nat)
  {
    id in tables && j < |tables[id].records| && tables[id].records[j].data == row && i in tables[id].records[j].activeIn
  }

  /** The tables with the records of table `id` replaced by those `ActivateAll`
      leaves after activating `rows` in mapping `i`. */
  function ActivatedTables(tables: map<string, Table>, id: string, rows: seq<Row>, i: nat): (r: map<string, Table>)
    requires id in tables
    ensures r.Keys == tables.Keys && r[id].records == ActivateAll(tables[id].records, rows, i).0
    ensures r[id] == tables[id].(records := r[id].records)
    ensures forall t | t in tables && t != id :: r[t] == tables[t]
  {
    tables[id := tables[id].(records := ActivateAll(tables[id].records, rows, i).0)]
  }

  /**
   * `selectData` for mapping number `i`: when the run is not the initial one the
   * active lists are saved as the old ones; then the source rows and the target
   * rows its filters select are looked up or registered, in selection order,
   * appended to its active lists, and each record gets the mapping as a backlink.
   */
  function SelectStep(tables: map<string, Table>, m: Mapping, i: nat, initial: bool): (r: (map<string, Table>, Mapping))
    requires m.cfg.source.tableId in tables && m.cfg.target.tableId in tables
    ensures Grown(tables, r.0)
    ensures r.1.cfg == m.cfg && r.1.pairs == m.pairs
    ensures r.1.sourceOldActive == (if initial then m.sourceOldActive else m.sourceActive)
    ensures r.1.targetOldActive == (if initial then m.targetOldActive else m.targetActive)
    ensures |r.1.sourceActive| == |m.sourceActive| + |ActiveRows(tables, m.cfg.source, m.cfg.sourceWhere)|
    ensures |r.1.targetActive| == |m.targetActive| + |ActiveRows(tables, m.cfg.target, m.cfg.targetWhere)|
    ensures m.sourceActive <= r.1.sourceActive && m.targetActive <= r.1.targetActive
  {
    var sid := m.cfg.source.tableId;
    var tid := m.cfg.target.tableId;
    var sRows := ActiveRows(tables, m.cfg.source, m.cfg.sourceWhere);
    var tRows := ActiveRows(tables, m.cfg.target, m.cfg.targetWhere);
    var t1 := ActivatedTables(tables, sid, sRows, i);
    var sourceIds := ActivateAll(tables[sid].records, sRows, i).1;
    var targetIds := ActivateAll(t1[tid].records, tRows, i).1;
    var saved := if initial then m else m.(sourceOldActive := m.sourceActive, targetOldActive := m.targetActive);
    (ActivatedTables(t1, tid, tRows, i), saved.(sourceActive := m.sourceActive + sourceIds, targetActive := m.targetActive + targetIds))
  }

  /** After activating `rows` in table `id`, the k-th returned index holds the
      k-th row and is active in mapping `i`. */
  lemma ActivatedSelected(tables: map<string, Table>, id: string, rows: seq<Row>, i: nat)
    requires id in tables
    ensures forall k :: 0 <= k < |rows| ==>
      Selected(ActivatedTables(tables, id, rows, i), id, ActivateAll(tables[id].records, rows, i).1[k], rows[k], i)
  {
    ActivateAllSpec(tables[id].records, rows, i);
  }

  /** Activating rows in any table keeps a record selected. */
  lemma ActivatedKeepsSelected(tables: map<string, Table>, id: string, rows: seq<Row>, i: nat,
                               other: string, j: nat, row: Row, mi: nat)
    requires id in tables && Selected(tables, other, j, row, mi)
    ensures Selected(ActivatedTables(tables, id, rows, i), other, j, row, mi)
  {
    ActivateAllSpec(tables[id].records, rows, i);
    if other == id {
      assert tables[id].records[j].activeIn <= ActivatedTables(tables, id, rows, i)[id].records[j].activeIn;
    }
  }

  /** The k-th source row the select returned is held by the record at the k-th
      new source index, and that record is active in the mapping. */
  lemma SelectStepSourceRows(tables: map<string, Table>, m: Mapping, i: nat, initial: bool)
    requires HasTables(tables, m)
    ensures var r := SelectStep(tables, m, i, initial);
      forall k :: 0 <= k < |ActiveRows(tables, m.cfg.source, m.cfg.sourceWhere)| ==>
        Selected(r.0, m.cfg.source.tableId, r.1.sourceActive[|m.sourceActive| + k],
                 ActiveRows(tables, m.cfg.source, m.cfg.sourceWhere)[k], i)
  {
    var sid := m.cfg.source.tableId;
    var tid := m.cfg.target.tableId;
    var sRows := ActiveRows(tables, m.cfg.source, m.cfg.sourceWhere);
    var tRows := ActiveRows(tables, m.cfg.target, m.cfg.targetWhere);
    var r := SelectStep(tables, m, i, initial);
    ActivatedTwiceSelected(tables, sid, sRows, tid, tRows, i, r.0, m.sourceActive, r.1.sourceActive);
  }

  /** Rows activated in table `sid` stay selected when more rows are activated
      in table `tid` afterwards; `active` holds their indices after `prefix`. */
  lemma ActivatedTwiceSelected(tables: map<string, Table>, sid: string, sRows: seq<Row>, tid: string, tRows: seq<Row>, i: nat,
                               after: map<string, Table>, prefix: seq<nat>, active: seq<nat>)
    requires sid in tables && tid in tables
    requires after == ActivatedTables(ActivatedTables(tables, sid, sRows, i), tid, tRows, i)
    requires active == prefix + ActivateAll(tables[sid].records, sRows, i).1
    ensures forall k :: 0 <= k < |sRows| ==> Selected(after, sid, active[|prefix| + k], sRows[k], i)
  {
    var src := ActivateAll(tables[sid].records, sRows, i);
    var t1 := ActivatedTables(tables, sid, sRows, i);
    ActivatedSelected(tables, sid, sRows, i);
    forall k | 0 <= k < |sRows|
      ensures Selected(after, sid, active[|prefix| + k], sRows[k], i)
    {
      assert active[|prefix| + k] == src.1[k];
      ActivatedKeepsSelected(t1, tid, tRows, i, sid, src.1[k], sRows[k], i);
    }
  }

  /** The k-th target row the select returned is held by the record at the k-th
      new target index, and that record is active in the mapping. */
  lemma SelectStepTargetRows(tables: map<string, Table>, m: Mapping, i: nat, initial: bool)
    requires HasTables(tables, m)
    ensures var r := SelectStep(tables, m, i, initial);
      forall k :: 0 <= k < |ActiveRows(tables, m.cfg.target, m.cfg.targetWhere)| ==>
        Selected(r.0, m.cfg.target.tableId, r.1.targetActive[|m.targetActive| + k],
                 ActiveRows(tables, m.cfg.target, m.cfg.targetWhere)[k], i)
  {
    var sid := m.cfg.source.tableId;
    var tid := m.cfg.target.tableId;
    var sRows := ActiveRows(tables, m.cfg.source, m.cfg.sourceWhere);
    var tRows := ActiveRows(tables, m.cfg.target, m.cfg.targetWhere);
    var t1 := ActivatedTables(tables, sid, sRows, i);
    var r := SelectStep(tables, m, i, initial);
    ActivatedSelectedAfter(t1, tid, tRows, i, r.0, m.targetActive, r.1.targetActive);
  }

  /** `ActivatedSelected` with the returned indices appended to `prefix`. */
  lemma ActivatedSelectedAfter(tables: map<string, Table>, id: string, rows: seq<Row>, i: nat,
                               after: map<string, Table>, prefix: seq<nat>, active: seq<nat>)
    requires id in tables
    requires after == ActivatedTables(tables, id, rows, i)
    requires active == prefix + ActivateAll(tables[id].records, rows, i).1
    ensures forall k :: 0 <= k < |rows| ==> Selected(after, id, active[|prefix| + k], rows[k], i)
  {
    ActivatedSelected(tables, id, rows, i);
    forall k | 0 <= k < |rows|
      ensures Selected(after, id, active[|prefix| + k], rows[k], i)
    {
      assert active[|prefix| + k] == ActivateAll(tables[id].records, rows, i).1[k];
    }
  }

  /** Selecting keeps a mapping's indices valid and makes the new ones valid. */
  lemma SelectStepIndexed(tables: map<string, Table>, m: Mapping, i: nat, initial: bool)
    requires Indexed(tables, m)
    ensures Indexed(SelectStep(tables, m, i, initial).0, SelectStep(tables, m, i, initial).1)
  {
    var r := SelectStep(tables, m, i, initial);
    SelectStepSourceRows(tables, m, i, initial);
    SelectStepTargetRows(tables, m, i, initial);
    var sRows := ActiveRows(tables, m.cfg.source, m.cfg.sourceWhere);
    var tRows := ActiveRows(tables, m.cfg.target, m.cfg.targetWhere);
    forall k | 0 <= k < |r.1.sourceActive|
      ensures r.1.sourceActive[k] < |r.0[m.cfg.source.tableId].records|
    {
      if k < |m.sourceActive| {
        assert r.1.sourceActive[k] == m.sourceActive[k];
      } else {
        assert Selected(r.0, m.cfg.source.tableId, r.1.sourceActive[|m.sourceActive| + (k - |m.sourceActive|)], sRows[k - |m.sourceActive|], i);
      }
    }
    forall k | 0 <= k < |r.1.targetActive|
      ensures r.1.targetActive[k] < |r.0[m.cfg.target.tableId].records|
    {
      if k < |m.targetActive| {
        assert r.1.targetActive[k] == m.targetActive[k];
      } else {
        assert Selected(r.0, m.cfg.target.tableId, r.1.targetActive[|m.targetActive| + (k - |m.targetActive|)], tRows[k - |m.targetActive|], i);
      }
    }
  }

  /** Growing the tables keeps a mapping's indices valid. */
  lemma IndexedGrown(tables: map<string, Table>, tables': map<string, Table>, m: Mapping)
    requires Indexed(tables, m) && Grown(tables, tables')
    ensures Indexed(tables', m)
  {
    assert TableGrown(tables[m.cfg.source.tableId], tables'[m.cfg.source.tableId]);
    assert TableGrown(tables[m.cfg.target.tableId], tables'[m.cfg.target.tableId]);
  }

  /**
   * The tables and the mappings after the first `n` turns of `selectData`'s loop:
   * mapping `i < n` is replaced by its `SelectStep`, numbered `i` and made on the
   * tables the turns before it left; the mappings from `n` on are untouched.
   */
  function SelectAll(tables: map<string, Table>, ms: seq<Mapping>, n: nat, initial: bool)
    : (r: (map<string, Table>, seq<Mapping>))
    requires n <= |ms| && forall k :: 0 <= k < |ms| ==> HasTables(tables, ms[k])
    ensures r.0.Keys == tables.Keys
    ensures |r.1| == |ms|
    ensures forall k :: n <= k < |ms| ==> r.1[k] == ms[k]
    decreases n
  {
    if n == 0 then (tables, ms)
    else
      var before := SelectAll(tables, ms, n - 1, initial);
      assert HasTables(before.0, ms[n - 1]) by {
        assert HasTables(tables, ms[n - 1]);
        assert before.0.Keys == tables.Keys;
      }
      var step := SelectStep(before.0, ms[n - 1], n - 1, initial);
      (step.0, before.1[n - 1 := step.1])
  }

  /** Selecting mapping `j` of a list whose indices are all valid keeps them all
      valid, the new ones of mapping `j` included. */
  lemma SelectStepKeepsIndexed(tables: map<string, Table>, ms: seq<Mapping>, j: nat, initial: bool)
    requires j < |ms| && forall k :: 0 <= k < |ms| ==> Indexed(tables, ms[k])
    ensures HasTables(tables, ms[j])
    ensures Indexed(SelectStep(tables, ms[j], j, initial).0, SelectStep(tables, ms[j], j, initial).1)
    ensures forall k :: 0 <= k < |ms| ==> Indexed(SelectStep(tables, ms[j], j, initial).0, ms[k])
  {
    assert Indexed(tables, ms[j]);
    var step := SelectStep(tables, ms[j], j, initial);
    SelectStepIndexed(tables, ms[j], j, initial);
    forall k | 0 <= k < |ms|
      ensures Indexed(step.0, ms[k])
    {
      IndexedGrown(tables, step.0, ms[k]);
    }
  }

  /** The selects database `d` receives from the first `n` turns of `selectData`'s
      loop: for each mapping in order, the source select and then the target
      select, those made on `d`. */
  function SelectCallsOf(tables: map<string, Table>, ms: seq<Mapping>, n: nat, d: Database): (r: seq<DbCall>)
    requires n <= |ms| && forall k :: 0 <= k < |ms| ==> HasTables(tables, ms[k])
    ensures |r| <= 2 * n
    decreases n
  {
    if n == 0 then [] else SelectCallsOf(tables, ms, n - 1, d) + MappingSelects(tables, ms[n - 1], d)
  }

  /** A log that received the selects of the first `i` mappings and then those of
      mapping `i`, made on tables grown from the first ones, has received those of
      the first `i + 1`. */
  lemma SelectCallsStep(base: seq<DbCall>, pre: seq<DbCall>, post: seq<DbCall>, tables: map<string, Table>,
                        grown: map<string, Table>, ms: seq<Mapping>, i: nat, d: Database)
    requires i < |ms| && forall k :: 0 <= k < |ms| ==> HasTables(tables, ms[k])
    requires Grown(tables, grown) && HasTables(grown, ms[i])
    requires pre == base + SelectCallsOf(tables, ms, i, d)
    requires post == pre + MappingSelects(grown, ms[i], d)
    ensures post == base + SelectCallsOf(tables, ms, i + 1, d)
  {
    assert TableGrown(tables[ms[i].cfg.source.tableId], grown[ms[i].cfg.source.tableId]);
    assert TableGrown(tables[ms[i].cfg.target.tableId], grown[ms[i].cfg.target.tableId]);
    assert MappingSelects(grown, ms[i], d) == MappingSelects(tables, ms[i], d);
  }

  /** The selects database `d` receives for one mapping: the source select, then
      the target select, those made on `d`. */
  function MappingSelects(tables: map<string, Table>, m: Mapping, d: Database): (r: seq<DbCall>)
    requires HasTables(tables, m)
    ensures |r| <= 2
  {
    (if m.cfg.source.db == d then [SelectCall(tables[m.cfg.source.tableId].name, m.cfg.sourceWhere)] else [])
    + (if m.cfg.target.db == d then [SelectCall(tables[m.cfg.target.tableId].name, m.cfg.targetWhere)] else [])
  }

  /* ---------------- pairs ---------------- */

  /** The match rule holds: every configured column pair compares equal. */
  predicate Matches(rule: MatchRule, source: Row, target: Row, compare: (Value, Value) -> Comparison)
  {
    forall k :: 0 <= k < |rule| ==> compare(Lookup(source, rule[k].0), Lookup(target, rule[k].1)) == Equal
  }

  /** The first target row, in selection order, the source row matches. */
  function FirstMatch(rule: MatchRule, source: Row, targets: seq<Row>, compare: (Value, Value) -> Comparison)
    : (r: Option<nat>)
    ensures r.Some? ==> r.value < |targets| && Matches(rule, source, targets[r.value], compare)
    ensures r.Some? ==> forall j :: 0 <= j < r.value ==> !Matches(rule, source, targets[j], compare)
    ensures r.None? ==> forall j :: 0 <= j < |targets| ==> !Matches(rule, source, targets[j], compare)
    decreases |targets|
  {
    if targets == [] then None
    else if Matches(rule, source, targets[0], compare) then Some(0)
    else match FirstMatch(rule, source, targets[1..], compare)
      case Some(j) => Some(j + 1)
      case None => None
  }

  /** The data of the records at the given indices. */
  function RowsAt(records: seq<Record>, ids: seq<nat>): (rows: seq<Row>)
    requires forall k :: 0 <= k < |ids| ==> ids[k] < |records|
    ensures |rows| == |ids| && forall k :: 0 <= k < |ids| ==> rows[k] == records[ids[k]].data
  {
    seq(|ids|, k requires 0 <= k < |ids| => records[ids[k]].data)
  }

  /**
   * `createPairs`: one pair per active source row, in order; its target is the
   * first active target row the match rule accepts, or none.
   */
  function PairsOf(cfg: MappingCfg, sources: seq<Row>, targets: seq<Row>, compare: (Value, Value) -> Comparison)
    : (ps: seq<Pair>)
    ensures |ps| == |sources|
    ensures forall k :: 0 <= k < |ps| ==> ps[k].mapping == cfg && ps[k].source == sources[k]
    ensures forall k :: 0 <= k < |ps| ==>
      (ps[k].target.None? <==> forall j :: 0 <= j < |targets| ==> !Matches(cfg.rule, sources[k], targets[j], compare))
    ensures forall k :: 0 <= k < |ps| ==> ps[k].target.Some? ==>
      exists j :: 0 <= j < |targets| && ps[k].target.value == targets[j] && Matches(cfg.rule, sources[k], targets[j], compare)
         && forall j' :: 0 <= j' < j ==> !Matches(cfg.rule, sources[k], targets[j'], compare)
  {
    seq(|sources|, k requires 0 <= k < |sources| =>
      match FirstMatch(cfg.rule, sources[k], targets, compare)
      case Some(j) => Pair(cfg, sources[k], Some(targets[j]))
      case None => Pair(cfg, sources[k], None))
  }

  /** The mapping with its pairs built from its active records. */
  function PairStep(tables: map<string, Table>, m: Mapping, compare: (Value, Value) -> Comparison): (r: Mapping)
    requires Indexed(tables, m)
    ensures r == m.(pairs := r.pairs) && |r.pairs| == |m.sourceActive|
  {
    var sources := RowsAt(tables[m.cfg.source.tableId].records, m.sourceActive);
    var targets := RowsAt(tables[m.cfg.target.tableId].records, m.targetActive);
    m.(pairs := PairsOf(m.cfg, sources, targets, compare))
  }

  /* ---------------- running the pairs ---------------- */

  /** Every pair of every mapping, in mapping order and then pair order. */
  function AllPairs(ms: seq<Mapping>): seq<Pair>
    decreases |ms|
  {
    if ms == [] then [] else AllPairs(ms[..|ms| - 1]) + ms[|ms| - 1].pairs
  }

  /** Every pair runs without a panic: each one that has an action can be reported
      and, when its record exists, its link has an entry. */
  predicate Runnable(links: map<string, LinkReport>, ps: seq<Pair>, compare: (Value, Value) -> Comparison)
  {
    forall p | p in ps :: Runs(links, p, compare)
  }

  /**
   * The reporter's links after `Synchronize` ran on each pair in order. A pair
   * that cannot run (it would panic, see `Runnable`) is passed over; the methods
   * that run pairs require `Runnable`, so that case never arises there.
   */
  function Sweep(links: map<string, LinkReport>, ps: seq<Pair>, compare: (Value, Value) -> Comparison, simulation: bool)
    : (r: map<string, LinkReport>)
    ensures r.Keys == links.Keys
    decreases |ps|
  {
    if ps == [] then links
    else
      var before := Sweep(links, ps[..|ps| - 1], compare, simulation);
      var p := ps[|ps| - 1];
      if Runs(before, p, compare) then Reported(before, p, compare, simulation) else before
  }

  /** The calls database `d` receives when `Synchronize` runs on each pair in order. */
  function WritesTo(ps: seq<Pair>, d: Database, compare: (Value, Value) -> Comparison, simulation: bool): (r: seq<DbCall>)
    ensures |r| <= |ps|
    decreases |ps|
  {
    if ps == [] then []
    else
      var p := ps[|ps| - 1];
      WritesTo(ps[..|ps| - 1], d, compare, simulation) + (if p.mapping.target.db == d then Writes(p, compare, simulation) else [])
  }

  /** A simulation writes nothing to any database. */
  lemma {:induction false} SimulationWritesNothing(ps: seq<Pair>, d: Database, compare: (Value, Value) -> Comparison)
    ensures WritesTo(ps, d, compare, true) == []
    decreases |ps|
  {
    if ps != [] {
      SimulationWritesNothing(ps[..|ps| - 1], d, compare);
    }
  }

  /** A simulation reports exactly what a real run reports. */
  lemma {:induction false} SimulationReportsTheSame(links: map<string, LinkReport>, ps: seq<Pair>, compare: (Value, Value) -> Comparison)
    requires Runnable(links, ps, compare)
    ensures Sweep(links, ps, compare, true) == Sweep(links, ps, compare, false)
    decreases |ps|
  {
    if ps != [] {
      SimulationReportsTheSame(links, ps[..|ps| - 1], compare);
      SimulationOnlySuppressesWrites(ps[|ps| - 1], compare);
    }
  }

  /** The pairs of mappings whose pairs can all run can all run. */
  lemma {:induction false} AllPairsRunnable(links: map<string, LinkReport>, ms: seq<Mapping>,
                                              compare: (Value, Value) -> Comparison)
    requires forall i :: 0 <= i < |ms| ==> Runnable(links, ms[i].pairs, compare)
    ensures Runnable(links, AllPairs(ms), compare)
    decreases |ms|
  {
    if ms != [] {
      AllPairsRunnable(links, ms[..|ms| - 1], compare);
    }
  }

  /** Pair `k` of mapping `j` sits in `AllPairs` right after the pairs of the
      mappings before `j`. */
  lemma {:induction false} AllPairsIndex(ms: seq<Mapping>, j: nat, k: nat)
    requires j < |ms| && k < |ms[j].pairs|
    ensures |AllPairs(ms[..j])| + k < |AllPairs(ms)|
    ensures AllPairs(ms)[|AllPairs(ms[..j])| + k] == ms[j].pairs[k]
    decreases |ms|
  {
    var init := ms[..|ms| - 1];
    if j == |ms| - 1 {
      assert init == ms[..j];
    } else {
      assert init[..j] == ms[..j] && init[j] == ms[j];
      AllPairsIndex(init, j, k);
    }
  }

  /** The pairs of the first `j + 1` mappings are those of the first `j` and then
      those of mapping `j`. */
  lemma AllPairsNext(ms: seq<Mapping>, j: nat)
    requires j < |ms|
    ensures AllPairs(ms[..j + 1]) == AllPairs(ms[..j]) + ms[j].pairs
  {
    assert ms[..j + 1][..j] == ms[..j];
  }

  /** `Sweep` one pair further. */
  lemma SweepStep(links: map<string, LinkReport>, done: seq<Pair>, p: Pair, compare: (Value, Value) -> Comparison,
                  simulation: bool)
    requires Runs(links, p, compare)
    ensures Runs(Sweep(links, done, compare, simulation), p, compare)
    ensures Sweep(links, done + [p], compare, simulation) == Reported(Sweep(links, done, compare, simulation), p, compare, simulation)
  {
    assert (done + [p])[..|done|] == done;
  }

  /** A log that received the writes of the pairs `done` and then those of `p`
      has received those of `done + [p]`. */
  lemma WritesStep(base: seq<DbCall>, pre: seq<DbCall>, post: seq<DbCall>, done: seq<Pair>, p: Pair, d: Database,
                   compare: (Value, Value) -> Comparison, simulation: bool)
    requires pre == base + WritesTo(done, d, compare, simulation)
    requires post == pre + (if p.mapping.target.db == d then Writes(p, compare, simulation) else [])
    ensures post == base + WritesTo(done + [p], d, compare, simulation)
  {
    assert (done + [p])[..|done|] == done;
  }

  /** Whether a pair adds a record to its link: it has an action and its JSON exists. */
  predicate AddsRecord(p: Pair, compare: (Value, Value) -> Comparison)
  {
    var a := PairAction(p, compare);
    a.Some? && Reportable(p) && ReportJson(p, ActionName(a.value)).Success?
  }

  /** How many of the pairs of link `id` add a record. */
  function RecordsFor(ps: seq<Pair>, id: string, compare: (Value, Value) -> Comparison): (n: nat)
    ensures n <= |ps|
    decreases |ps|
  {
    if ps == [] then 0
    else
      var p := ps[|ps| - 1];
      RecordsFor(ps[..|ps| - 1], id, compare) + (if p.mapping.linkId == id && AddsRecord(p, compare) then 1 else 0)
  }

  /** One pair adds at most one record, to its own link, whatever the mode. */
  lemma ReportedCount(links: map<string, LinkReport>, p: Pair, compare: (Value, Value) -> Comparison,
                      simulation: bool, id: string)
    requires Runs(links, p, compare) && id in links
    ensures Count(Reported(links, p, compare, simulation)[id])
      == Count(links[id]) + (if p.mapping.linkId == id && AddsRecord(p, compare) then 1 else 0)
  {
    SimulationOnlySuppressesWrites(p, compare);
    var a := DecidePair(p, compare, simulation).action;
    if a.Some? {
      assert IsActionType(ActionName(a.value));
      assert Reported(links, p, compare, simulation)
        == AfterAction(links, p.mapping.linkId, ActionName(a.value), ReportJson(p, ActionName(a.value)));
    }
  }

  /** Each link gains one record per pair of that link that adds one, and no other. */
  lemma {:induction false} SweepCounts(links: map<string, LinkReport>, ps: seq<Pair>, compare: (Value, Value) -> Comparison,
                                       simulation: bool, id: string)
    requires Runnable(links, ps, compare) && id in links
    ensures Count(Sweep(links, ps, compare, simulation)[id]) == Count(links[id]) + RecordsFor(ps, id, compare)
    decreases |ps|
  {
    if ps != [] {
      var init := ps[..|ps| - 1];
      SweepCounts(links, init, compare, simulation, id);
      SweepStep(links, init, ps[|ps| - 1], compare, simulation);
      ReportedCount(Sweep(links, init, compare, simulation), ps[|ps| - 1], compare, simulation, id);
    }
  }
}
