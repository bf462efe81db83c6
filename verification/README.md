# Unifier synchronisation engine — a Dafny model

Unifier keeps a target data store in agreement with a source data store. A
*synch* names some nodes, each a table of one configured database with a key
column. It also holds mapping strings, each linking a source node column to a
target node column under a match rule and a list of allowed operations
(`INSERT`, `UPDATE`).

`Synch.Init` runs six phases in order:

1. It opens every database the nodes name.
2. It snapshots every node's table.
3. It binds the nodes.
4. It parses the mapping strings into mappings.
5. It selects each mapping's active records from the tables (`selectData`).
6. It pairs each active source record with the first target record its match rule accepts (`pairData`).

`Synch.Synchronize` then visits every pair. A complete pair whose mapping allows
`UPDATE` and whose column values differ is an *update*; outside a simulation
the source value is written into the target row. A complete pair whose mapping
allows `UPDATE` and whose values are equal is *idle*. An incomplete pair whose
mapping allows `INSERT` is an *insert*. The reporter records each decision as a
JSON action record, in the link's idle, inserts or updates bucket, and ends
with a summary message.

The model has ten modules:

- `Values`: cells, rows, Go's `%v` text of a value.
- `Store`: a database as a class whose calls are journalled.
- `Topology`: nodes, tables, records, and activation of records.
- `Pairs`: the pair, its previews, its JSON action record, its text renderings, and the reconciliation decision.
- `Report`: the reporter class.
- `Reconcile`: `Pair.Synchronize`.
- `Plan`: what each phase of the synch computes, as functions.
- `Setup`: the first four phases taken together.
- `Engine`: the `Synch` class whose methods build its state in place and are proved against `Plan` and `Setup`.
- `Wrappers`: `Option` and `Result`.

A few behaviours of the code are worth stating up front:

- Comparison of values is whatever the package's `areEqual` function does. Here it is the parameter `compare`, which may fail.
- The insert path is a stub. An insert is reported but never written.
- The code reports nothing for a complete pair without `UPDATE`, for an incomplete pair without `INSERT`, for a pair whose comparison fails, and for a pair whose JSON cannot be produced. Such a pair gets no action record.
- An unconfigured database, a missing table or a mapping string that does not parse stops `Init` with a returned `SynchError`; the code panics or exits the process there. A link naming an unknown node also stops `Init`, with `NodeNotFound`: that error is this model's own definition, since `createMapping` is not part of this model.

## Model

| member | source | states |
|---|---|---|
| Values.Show | internal/server/synch/pair.go:151-160 | `%v` of nil is `<nil>`, of a boolean `true` or `false`, of a string the string itself; of an integer, a text that starts with `-` exactly when the number is negative, whose digits read back as the number's magnitude |
| Values.DigitsRoundTrip | internal/server/synch/pair.go:151-160 | the decimal text printed for a number reads back as that number |
| Store.Database.Init | internal/server/synch/synch.go:130 | the database records exactly one `Init` call |
| Store.Database.Select | internal/server/synch/synch.go:99-100 | returns the store's rows for the table and filter, and records that select |
| Store.Database.Update | internal/server/synch/pair.go:61 | returns the store's reply to the update and records exactly that update call |
| Topology.MapToRecords | internal/server/synch/synch.go:177 | one record per selected row, holding that row, active in no mapping and paired in none |
| Topology.FindRecord | internal/server/synch/synch.go:112 | the index of the first record holding the row; none exactly when no record holds it |
| Topology.Activate | internal/server/synch/synch.go:111-115 | the row's record gains the mapping in its active list; a new record `[m]` is appended exactly when no record holds the row; either way the returned index holds the row |
| Topology.ActivateAll | internal/server/synch/synch.go:111-120 | one returned index per selected row; records are never removed |
| Topology.ActivateAllSpec | internal/server/synch/synch.go:111-120 | the k-th index points at a record holding the k-th row and active in the mapping; earlier records keep their data and only gain backlinks |
| Pairs.Truncate | internal/server/synch/pair.go:90-93 | a text of at most 25 characters is unchanged; a longer one becomes its first 22 characters and `...`, 25 in all |
| Pairs.SourceNodeKey | internal/server/synch/pair.go:35-37 | `getSourceNodeKey`: the key column named by the config of the mapping's source node |
| Pairs.TargetNodeKey | internal/server/synch/pair.go:39-41 | `getTargetNodeKey`: the key column named by the config of the mapping's target node |
| Pairs.PreviewValue | internal/server/synch/pair.go:103-106 | a string target value of at most 25 characters is kept; a longer one becomes its first 22 characters and `...`, 25 in all; any other value is kept as it is |
| Pairs.ActionOf | internal/server/synch/pair.go:89-133 | the nine fields of the action record: source fields always filled with a truncated source preview; for an incomplete pair an empty key name and nil key and column values; for a complete pair the target key and a non-nil column preview |
| Pairs.Escape | internal/server/synch/pair.go:135 | JSON string escaping never shortens a text and leaves a text without `"` or `\` unchanged; `EscapeInjective` is its partner |
| Pairs.EscapeInjective | internal/server/synch/pair.go:135 | JSON string escaping keeps distinct texts distinct |
| Pairs.EncodeValue | internal/server/synch/pair.go:135 | a value has JSON text exactly when it is not of a kind `json.Marshal` rejects (a NaN or infinite float, a channel, a function); a string encodes as its quoted text |
| Pairs.Braced | internal/server/synch/pair.go:113-135 | an object's text is its members between `{` and `}` |
| Pairs.EncodeAction | internal/server/synch/pair.go:113-135 | an action record encodes exactly when its four dynamic values do, as a braced JSON object |
| Pairs.ReportJson | internal/server/synch/pair.go:89-136 | `ReportJSON` fails exactly when the source key, the target key or the target column value cannot be marshalled |
| Pairs.Spaces | internal/server/synch/pair.go:151 | padding of the given width, all spaces |
| Pairs.Pad | internal/server/synch/pair.go:151 | `%<w>v`: the text right-justified in a field of at least w characters, padded with spaces |
| Pairs.SourceSide | internal/server/synch/pair.go:151-155 | the source side of every rendering starts and ends with a bar |
| Pairs.LineShape | internal/server/synch/pair.go:151 | a rendered line is framed, and its arrow's fourth character sits at a fixed place after the source side |
| Pairs.ArrowsDiffer | internal/server/synch/pair.go:151-208 | two lines with the same source side and different arrows differ |
| Pairs.RenderingsDiffer | internal/server/synch/pair.go:140-208 | the idle, insert and update renderings of one pair are pairwise different |
| Pairs.RenderingsFramed | internal/server/synch/pair.go:140-208 | each rendering starts with a bar and ends with a bar and a newline |
| Pairs.RepIdleString | internal/server/synch/pair.go:140-161 | the idle line starts with the source side and ends with the target column field, 25 wide, then a bar and a newline |
| Pairs.RepInsertString | internal/server/synch/pair.go:165-181 | the insert line starts with the source side and its target column field is the source preview, 25 wide |
| Pairs.RepUpdateString | internal/server/synch/pair.go:186-208 | the update line starts with the source side and ends with the target preview, ` -> `, the source preview, each 25 wide, then a bar and a newline |
| Pairs.LineEnds | internal/server/synch/pair.go:151-208 | every rendering starts with its source side and ends with its target column text, a bar and a newline |
| Pairs.PreviewField | internal/server/synch/pair.go:142-151 | a column field is 25 characters wide: a text of at most 25 characters right-justified with spaces, a longer one its first 22 characters and `...` |
| Pairs.SourcePreviewField | internal/server/synch/pair.go:141-155 | the source column field of every rendering is 25 wide and shows a long source text as its first 22 characters and `...` |
| Pairs.TargetPreviewField | internal/server/synch/pair.go:146-160 | the same for the target column field of the idle and update renderings |
| Pairs.SourceSideEnds | internal/server/synch/pair.go:151-155 | the source side ends with the source column field and a bar |
| Pairs.ActionName | internal/server/synch/pair.go:70-81 | the action type handed to the reporter is one of `idle`, `insert`, `update` |
| Pairs.ActionNameInjective | internal/server/synch/pair.go:70-81 | different actions hand different action types |
| Pairs.Choose | internal/server/synch/pair.go:48-83 | update iff a complete pair allowed to update has unequal values; idle iff its values are equal; insert iff an incomplete pair is allowed to insert; no action otherwise, including a failed comparison |
| Pairs.DecidePair | internal/server/synch/pair.go:48-83 | the action of a pair does not depend on the mode |
| Pairs.Decide | internal/server/synch/pair.go:48-83 | the action is `Choose`'s in either mode; a write exactly when a complete pair allowed to update has unequal values and the run is not a simulation |
| Pairs.UpdateOf | internal/server/synch/pair.go:61 | the write sets the target column, in the target table, of the row with the target key's value, to the source column value |
| Pairs.SimulationOnlySuppressesWrites | internal/server/synch/pair.go:57-81 | a simulation reports the same action as a real run and writes nothing; a real run writes exactly for an update |
| Report.LinkIds | internal/server/report/reporter.go:25-29 | exactly the ids of the configured links |
| Report.Seed | internal/server/report/reporter.go:24-31 | every configured link id gets an entry; existing entries are kept unchanged; new entries hold no action record |
| Report.SeedKeepsFirstCommand | internal/server/report/reporter.go:26-28 | a new entry carries the command of the first link configured with its id |
| Report.AddToBucket | internal/server/report/reporter.go:44-51 | the JSON is appended to the bucket the action type names and to no other; the count grows by one exactly for a known type |
| Report.AfterAction | internal/server/report/reporter.go:38-54 | only the pair's link changes, and only when its JSON exists and the type is known; the link set is unchanged |
| Report.SummaryMessage | internal/server/report/reporter.go:58-64 | the quoted synch name followed by the simulation sentence or the real-run sentence |
| Report.SummaryMessagesDiffer | internal/server/report/reporter.go:58-64 | the two messages of one synch differ |
| Report.Reporter.constructor | internal/server/report/reporter.go:14-21 | a reporter of the synch's name and mode with no link entries |
| Report.Reporter.Init | internal/server/report/reporter.go:24-31 | the links become `Seed` of the links before |
| Report.Reporter.AddAction | internal/server/report/reporter.go:38-54 | appends the pair's JSON to its link's bucket, or returns a `SynchReportError` carrying the synch's name and changes nothing; answers true exactly when the JSON exists |
| Report.Reporter.Finalize | internal/server/report/reporter.go:57-72 | sets the summary message; returns the serialised report, or a `SynchReportError` when serialisation fails |
| Reconcile.Reported | internal/server/synch/pair.go:70-81 | the reporter's links after one pair: only the pair's link may change, and nothing changes when there is no action; a pair without an action needs nothing of the reporter |
| Reconcile.Writes | internal/server/synch/pair.go:60-68 | at most one database call per pair, none in a simulation, and that one is the update of a complete pair |
| Reconcile.UpdateCase | internal/server/synch/pair.go:48-70 | a complete pair allowed to update with unequal values appends one update record; outside a simulation it writes exactly `UpdateOf(p)` |
| Reconcile.IdleCase | internal/server/synch/pair.go:48-74 | a complete pair with equal values appends one idle record and writes nothing |
| Reconcile.InsertCase | internal/server/synch/pair.go:75-82 | an incomplete pair allowed to insert appends one insert record and writes nothing in either mode |
| Reconcile.SilentCases | internal/server/synch/pair.go:48-83 | no record and no write without the allowed operation or when the comparison fails |
| Reconcile.AddDecided | internal/server/synch/pair.go:70-81 | handing the chosen action to the reporter leaves its links as `Reported` says |
| Reconcile.Synchronize | internal/server/synch/pair.go:44-86 | answers `(false, nil)`; the reporter's links become `Reported`; the target database's journal gains exactly `Writes` |
| Plan.FirstUnconfigured | internal/server/synch/synch.go:126-143 | the first node config whose database the registry lacks; every earlier one is configured |
| Plan.DatabaseNames | internal/server/synch/synch.go:138-143 | contains the database name of every node config |
| Plan.OpenAll | internal/server/synch/synch.go:126-143 | `dbs` gains exactly the named databases, each mapped to the registry's database; other entries are kept |
| Plan.InitsOf | internal/server/synch/synch.go:130 | a database receives only `Init` calls, at most one per node config |
| Plan.InitsOnlyNamed | internal/server/synch/synch.go:138-143 | a database no node config names is never initialised |
| Plan.NewTable | internal/server/synch/synch.go:166-178 | the table is `"<database's own name>.<table>"` of that database, with one record per row of an unfiltered select and no old records |
| Plan.PutTable | internal/server/synch/synch.go:161-180 | an existing table id leaves the tables unchanged and selects nothing; otherwise the new table is added after one unfiltered select |
| Plan.PutTableIdempotent | internal/server/synch/synch.go:161-165 | creating a table a second time changes nothing and selects nothing |
| Plan.TableIds | internal/server/synch/synch.go:183-188 | contains the table id of every node config |
| Plan.BuildTables | internal/server/synch/synch.go:183-188 | the tables gain exactly the nodes' table ids; existing tables are kept; at most one select per node config |
| Plan.BuildTablesNew | internal/server/synch/synch.go:166-178 | every table added is the fresh table `setTable` creates for its database and name |
| Plan.OneSelectPerTable | internal/server/synch/synch.go:163-178 | the number of tables created equals the number of selects issued |
| Plan.SelectsOf | internal/server/synch/synch.go:171 | a table snapshot issues only unfiltered selects |
| Plan.SelectsOfAppend | internal/server/synch/synch.go:184-187 | the selects of two runs of `setTable` are those of each in turn |
| Plan.FirstMissingTable | internal/server/synch/synch.go:147-154 | the first node config whose table id (config database name and table) is missing |
| Plan.BuildNodes | internal/server/synch/synch.go:146-157 | every node config's node is stored under its name, bound to its database and table id; every other entry is kept |
| Plan.NodesFromConfigs | internal/server/synch/synch.go:146-157 | every node added comes from one of the node configs |
| Plan.NodeOf | internal/server/synch/synch.go:149-156 | the node made of a config (`createNode`) carries that config and is bound to the config's database and to its table id `<database>.<table>` |
| Plan.CreateMapping | internal/server/synch/synch.go:75-77 | a link's mapping exists exactly when both its node names are known; otherwise the error names the first unknown node |
| Plan.LinkMappings | internal/server/synch/synch.go:75-78 | one mapping per link of a mapping string, in link order, or a `NodeNotFound` error |
| Plan.LinkMappingsStop | internal/server/synch/synch.go:75-78 | the first failing link decides the error |
| Plan.ParseAll | internal/server/synch/synch.go:69-93 | every mapping built is bound to the synch's nodes and has selected nothing; success needs every string to parse; failure is a parse error or an unknown node |
| Plan.ParseAllStop | internal/server/synch/synch.go:82-93 | the first failing mapping string decides the error |
| Plan.ActivatedTables | internal/server/synch/synch.go:111-120 | activation changes only the records of the one table |
| Plan.SelectStep | internal/server/synch/synch.go:97-123 | the tables only grow; the old active lists are saved exactly when the run is not initial; the active lists keep their prefix and gain one index per selected row |
| Plan.SelectStepSourceRows | internal/server/synch/synch.go:111-115 | the k-th selected source row is held by the record at the k-th new source index, which is active in the mapping |
| Plan.SelectStepTargetRows | internal/server/synch/synch.go:116-120 | the same for the target rows |
| Plan.ActivatedSelected | internal/server/synch/synch.go:111-120 | after activating rows in a table, each returned index holds its row and is active in the mapping |
| Plan.ActivatedKeepsSelected | internal/server/synch/synch.go:111-120 | activating rows in any table keeps a selected record selected |
| Plan.SelectStepIndexed | internal/server/synch/synch.go:111-120 | selecting keeps every active index of the mapping valid and makes the new ones valid |
| Plan.IndexedGrown | internal/server/synch/synch.go:97-123 | tables that only grow keep a mapping's indices valid |
| Plan.GrownTransitive | internal/server/synch/synch.go:97-123 | growth of the tables composes over turns |
| Plan.SelectAll | internal/server/synch/synch.go:96-124 | the table set is unchanged; the mappings not yet visited are untouched |
| Plan.SelectStepKeepsIndexed | internal/server/synch/synch.go:97-123 | one mapping's turn keeps every mapping's indices valid |
| Plan.SelectCallsOf | internal/server/synch/synch.go:96-124 | `selectData` issues at most two selects per mapping |
| Plan.MappingSelects | internal/server/synch/synch.go:99-100 | one mapping issues at most two selects, the source's first |
| Plan.FirstMatch | internal/server/synch/synch.go:59-63 | the first target row the match rule accepts; none exactly when it accepts no target row |
| Plan.PairsOf | internal/server/synch/synch.go:59-63 | one pair per active source row, in order, whose target is the first matching target row |
| Plan.PairStep | internal/server/synch/synch.go:59-63 | only the mapping's pairs change, one per active source record |
| Plan.Sweep | internal/server/synch/synch.go:191-203 | synchronising all pairs keeps the reporter's link set; a pair that would panic is passed over |
| Plan.WritesTo | internal/server/synch/synch.go:191-203 | a database receives at most one write per pair |
| Plan.SimulationWritesNothing | internal/server/synch/synch.go:191-203 | a simulation writes nothing to any database |
| Plan.SimulationReportsTheSame | internal/server/synch/synch.go:191-203 | a simulation produces exactly the report of a real run |
| Plan.AllPairsRunnable | internal/server/synch/synch.go:192-196 | when every mapping's pairs run without a panic, all pairs do |
| Plan.AllPairsIndex | internal/server/synch/synch.go:192-196 | pair k of mapping j is visited right after the pairs of the mappings before it |
| Plan.SweepStep | internal/server/synch/synch.go:195-197 | synchronising one more pair applies `Reported` to the links, and a pair that runs on the first links runs on the links reached |
| Plan.RecordsFor | internal/server/synch/synch.go:191-203 | a link gains at most one record per pair |
| Plan.ReportedCount | internal/server/synch/pair.go:70-81 | one pair adds at most one record, to its own link, in either mode |
| Plan.SweepCounts | internal/server/synch/synch.go:191-203 | each link gains exactly one record per pair of that link that adds one, and no other |
| Setup.Prepare | internal/server/synch/synch.go:38-47 | the first unconfigured database stops the initialisation with its `DatabaseError`; on success every mapping has its two tables and only valid indices |
| Setup.PrepareOutcome | internal/server/synch/synch.go:44-47 | the phases after `setDatabases` end as `Prepare` says |
| Setup.NodeReady | internal/server/synch/synch.go:146-157 | a node built when every table exists has its table and one of the synch's databases |
| Setup.BoundMappingsReady | internal/server/synch/synch.go:69-80 | mappings bound to those nodes have valid indices and use only the synch's databases |
| Setup.OpenedFromRegistry | internal/server/synch/synch.go:126-143 | the databases opened all come from the registry, one per node config |
| Setup.PreparedDbs | internal/server/synch/synch.go:96-100 | the selection calls only databases of the registry |
| Setup.NamedRegistryFindsTables | internal/server/synch/synch.go:146-180 | with a registry keyed by each database's own name, no node misses its table |
| Engine.ActivateRows | internal/server/synch/synch.go:111-120 | the loop over the selected rows computes `ActivateAll` |
| Engine.InitsAppend | internal/server/synch/synch.go:139-142 | one more `setDatabase` extends the journal of `Init` calls |
| Engine.SelectsAppend | internal/server/synch/synch.go:184-187 | one more `setTable` extends the journal of selects |
| Engine.SynchronizeNext | internal/server/synch/synch.go:195-201 | one more pair advances the report and the write journals by that pair |
| Engine.SynchronizePairs | internal/server/synch/synch.go:195-201 | the inner loop advances the report and the write journals by the mapping's pairs |
| Engine.SynchronizeMappings | internal/server/synch/synch.go:191-203 | the outer loop makes the report `Sweep` and each target journal `WritesTo` of all pairs |
| Engine.Synch.constructor | internal/server/synch/synch.go:19-29 | a synch with its configuration and no databases, tables, nodes or mappings, whose reporter carries its name and mode, as the reporter created for a synch reads them from it |
| Engine.Synch.Init | internal/server/synch/synch.go:38-53 | the first error of `Prepare` is returned; on success the databases and nodes are `Prepare`'s, and the tables and mappings are those selected and paired from them |
| Engine.Synch.Finish | internal/server/synch/synch.go:48-49 | the last two phases on prepared state keep the databases and nodes and reach `Initialized` |
| Engine.Synch.SelectAndPair | internal/server/synch/synch.go:48-49 | `selectData` then `pairData` reach `Initialized` |
| Engine.Synch.Build | internal/server/synch/synch.go:40-47 | the first four phases end as `Prepare` says |
| Engine.Synch.OpenDatabases | internal/server/synch/synch.go:40-44 | reset, then `setDatabases`: the first unconfigured database's error, or all named databases opened from the registry |
| Engine.Synch.BuildOnDatabases | internal/server/synch/synch.go:45-47 | the tables become `BuildTables`, then nodes and mappings as `BuildOnTables` says |
| Engine.Synch.BuildOnTables | internal/server/synch/synch.go:46-47 | the first missing table's error, or the nodes built and then the mappings parsed or the parse error |
| Engine.Synch.SetDatabase | internal/server/synch/synch.go:126-135 | a configured database is stored under its name and receives one `Init`; an unconfigured one gives a `DatabaseError` with "hasn't been configured" and changes nothing |
| Engine.Synch.SetDatabases | internal/server/synch/synch.go:138-143 | the databases up to the first unconfigured one are opened and initialised; the error exactly when there is one |
| Engine.Synch.SetTable | internal/server/synch/synch.go:161-180 | the tables become `PutTable`'s; the database receives exactly its selects |
| Engine.Synch.SetTableNext | internal/server/synch/synch.go:184-187 | one more turn of `setTables` advances the tables and the select journals |
| Engine.Synch.SetTables | internal/server/synch/synch.go:183-188 | the tables become `BuildTables`; each database receives exactly the selects of its new tables |
| Engine.Synch.SetNodes | internal/server/synch/synch.go:146-158 | the nodes up to the first missing table are built; the `TableNotFound` error exactly when a table is missing |
| Engine.Synch.ParseMapping | internal/server/synch/synch.go:69-80 | a parse failure becomes a `ParseError`; otherwise the mappings are `LinkMappings` of the parsed links |
| Engine.Synch.ParseMappings | internal/server/synch/synch.go:82-93 | the mappings become `ParseAll`'s, or its error is returned |
| Engine.Synch.SelectRows | internal/server/synch/synch.go:99-100 | both selects return the store's rows for the mapping's filters, and the journals gain exactly `MappingSelects` |
| Engine.Synch.SelectMapping | internal/server/synch/synch.go:97-123 | the tables and the mapping become `SelectStep`'s |
| Engine.Synch.SelectNext | internal/server/synch/synch.go:97-123 | one more turn of `selectData` keeps the tables grown and every index valid |
| Engine.Synch.SelectMappings | internal/server/synch/synch.go:96-124 | the loop reaches `SelectAll` with every index valid |
| Engine.Synch.SelectData | internal/server/synch/synch.go:96-124 | tables and mappings become `SelectAll`'s; indices stay valid; each database receives exactly its selects |
| Engine.Synch.PairData | internal/server/synch/synch.go:56-67 | every mapping becomes `PairStep` of itself |
| Engine.Synch.Synchronize | internal/server/synch/synch.go:191-203 | the report becomes `Sweep` of all pairs in mapping order; each target database receives exactly `WritesTo` |
| Engine.Synch.Run | internal/server/report/reporter.go:57-72 | `Synchronize` and then `Finalize`: the report holds every pair's action and the summary of the synch's own mode; a simulation leaves every target database as it was |

## Left out

- Database drivers, connections and the network are out of scope. `Store.Database` is a class whose rows (`answer`) and update replies (`outcome`) are constants, with a ghost journal of the calls made on it.
- Concurrency is not modelled. The goroutines of `parseMappings` and `pairData` run one after the other, in configuration order. In the code, `parseMapping` appends to `s.Mappings` from several goroutines, so the mapping order, and a race on the slice, are left out.
- Timing and console output (`time.Now`, `fmt.Println`, `log.Println`) are left out. A logged error is dropped.
- `lang.ParseMapping`, the mapping-language parser, is not part of this model. It is the parameter `parse`.
- `areEqual` is not part of this model. It is the parameter `compare`.
- The report's `ToJSON` is not part of this model. It is the constant `encodeReport`.
- `createMapping`, `createPairs`, `createNode`, `mapToRecords` and `FindRecordPointer` are not part of this model. They have own definitions (`CreateMapping`, `PairsOf`, `NodeOf`, `MapToRecords`, `FindRecord`), with a match rule that accepts a target row when every configured column pair compares equal.
- Go pointers to records are indices into the table's record list. `SelectData` and `PairData` require the mappings' indices to be valid, which `Prepare` proves for every mapping it builds.
- `Pairs.EncodeAction`: strings, integers, booleans and nil are encoded by the model, with `"` and `\` escaped; other escapes and HTML-safe escaping are left out. Any other marshalable value (a finite float, a timestamp, a byte slice, a driver type) carries its JSON text as given, which is not derived.
- Pairs.Truncate: counts characters, where Go's `len` and slicing count bytes, so multi-byte text is not modelled.
- `pairedIn` backlinks are never set by the code in these files, so the model never sets them.
- The non-simulation insert is an empty block in the code. It is modelled as no write.
- `log.Fatal` and `panic` on an unconfigured database, a missing table or a bad mapping string are modelled as a returned `SynchError` that stops `Init`. The state after such an error is left unspecified, since the process exits there.
- Engine.Synch.Init: requires a synch with no mappings (a first initialisation). A second `Init` in the code would append to the old mappings.
- Engine.Synch.Init: does not restate the calls made on the databases. `SetDatabases`, `SetTables`, `SelectData` and `Synchronize` state them.
- Engine.Synch.ParseMappings: assigns the mappings only on success. On failure the code has already exited.
- Report.Reporter.AddAction: requires a pair whose source column holds a string and whose target column, when there is a target, is not nil (`Reportable`), and whose link has an entry when its JSON exists. `ReportJSON` (its type assertion, or `reflect.TypeOf` of nil) and the bucket append panic otherwise.
- Report.Reporter.Init: takes the configured links as a parameter. The `Links` field it reads is not declared by the `Synch` struct in these files.
- `oldRecords` is assigned from a table's records while they are still nil, so it is always empty. The model keeps it empty.
- Tables are keyed by the database's own name (`GetConfig().GetName()`), while `setNodes` looks them up under the config's database name. `Setup.NamedRegistryFindsTables` shows the two agree when the registry is keyed by the databases' own names. Otherwise `setNodes` stops with `TableNotFound`, as modelled.
- Engine.Synch.Synchronize: requires `Runnable`: every pair that has an action can be handed to `AddAction`. A pair without an action needs nothing. The code panics on a pair that has an action and fails this.
- Pairs.UpdateOf: names the table by the node config's table name. The code passes the name of the table the node resolved to (`tbl.name`). The two differ only when two table ids collide through dotted names.
- The `%v` text of a value other than a string, an integer, a boolean or nil is carried as given by the value (`VOther`, `VUnmarshalable`), not derived.
- Engine.Synch.constructor: the reporter holds copies of the synch's name and mode, required to equal the synch's, where the code's reporter holds a pointer to the synch (`internal/server/report/reporter.go:8-18`).
- Engine.Synch.Run: the application code that calls `Synchronize` and then `Finalize` is not part of this model; `Run` states the two calls in that order.
