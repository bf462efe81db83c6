/**
 * The reporter: one entry per link, seeded before any pair runs, each with three
 * buckets (idle, inserts, updates) of JSON action records, and the summary
 * message written when the run ends.
 */
module Report {
  import opened Values
  import opened Wrappers
  import opened Pairs

  /** A configured link: its id and the command text it came from. */
  datatype LinkCfg = LinkCfg(id: string, cmd: string)

  /** The report entry of one link. */
  datatype LinkReport = LinkReport(cmd: string, idle: seq<string>, inserts: seq<string>, updates: seq<string>)

  /** `SynchReportError`: the synch's name and the underlying error text. */
  datatype ReportError = SynchReportError(synchName: string, errMsg: string)

  /** Number of action records held by one link. */
  function Count(l: LinkReport): nat
  {
    |l.idle| + |l.inserts| + |l.updates|
  }

  predicate IsActionType(actionType: string)
  {
    actionType == "idle" || actionType == "insert" || actionType == "update"
  }

  /** The ids of the configured links. */
  function LinkIds(cfgs: seq<LinkCfg>): (r: set<string>)
    ensures forall k :: 0 <= k < |cfgs| ==> cfgs[k].id in r
    ensures forall id | id in r :: exists k :: 0 <= k < |cfgs| && cfgs[k].id == id
    decreases |cfgs|
  {
    if cfgs == [] then {} else LinkIds(cfgs[..|cfgs| - 1]) + {cfgs[|cfgs| - 1].id}
  }

  /**
   * `Init`: every configured link id gets an entry, and entries that already
   * exist are kept as they are; new entries hold no action record.
   */
  function Seed(links: map<string, LinkReport>, cfgs: seq<LinkCfg>): (r: map<string, LinkReport>)
    ensures r.Keys == links.Keys + LinkIds(cfgs)
    ensures forall id | id in links :: r[id] == links[id]
    ensures forall id | id in r && id !in links :: Count(r[id]) == 0
    decreases |cfgs|
  {
    if cfgs == [] then links
    else
      var before := Seed(links, cfgs[..|cfgs| - 1]);
      var c := cfgs[|cfgs| - 1];
      if c.id in before then before else before[c.id := LinkReport(c.cmd, [], [], [])]
  }

  /** A new entry carries the command of the first link configured with its id. */
  lemma {:induction false} SeedKeepsFirstCommand(links: map<string, LinkReport>, cfgs: seq<LinkCfg>, k: nat)
    requires k < |cfgs| && cfgs[k].id !in links
    requires forall j :: 0 <= j < k ==> cfgs[j].id != cfgs[k].id
    ensures Seed(links, cfgs)[cfgs[k].id].cmd == cfgs[k].cmd
    decreases |cfgs|
  {
    var init := cfgs[..|cfgs| - 1];
    if k < |cfgs| - 1 {
      SeedKeepsFirstCommand(links, init, k);
    }
  }

  /** A link entry with `json` appended to the bucket `actionType` names; an
      unrecognised action type changes nothing. */
  function AddToBucket(l: LinkReport, actionType: string, json: string): (r: LinkReport)
    ensures r.cmd == l.cmd
    ensures Count(r) == Count(l) + (if IsActionType(actionType) then 1 else 0)
    ensures r.idle == l.idle + (if actionType == "idle" then [json] else [])
    ensures r.inserts == l.inserts + (if actionType == "insert" then [json] else [])
    ensures r.updates == l.updates + (if actionType == "update" then [json] else [])
  {
    match actionType
    case "idle" => l.(idle := l.idle + [json])
    case "insert" => l.(inserts := l.inserts + [json])
    case "update" => l.(updates := l.updates + [json])
    case _ => l
  }

  /** What `AddAction(p, actionType)` needs in order not to panic: `ReportJSON` does
      not panic, and an action it appends has its link entry. */
  predicate CanAdd(links: map<string, LinkReport>, p: Pair, actionType: string)
  {
    && Reportable(p)
    && (IsActionType(actionType) && ReportJson(p, actionType).Success? ==> p.mapping.linkId in links)
  }

  /**
   * The links after `AddAction` for a pair of link `id` whose `ReportJSON` gave
   * `json`: when the JSON exists it is appended to one bucket of that link; every
   * other link, and everything when the JSON failed or the type is unknown, is
   * unchanged.
   */
  function AfterAction(links: map<string, LinkReport>, id: string, actionType: string, json: Result<string, string>)
    : (r: map<string, LinkReport>)
    requires json.Success? && IsActionType(actionType) ==> id in links
    ensures r.Keys == links.Keys
    ensures forall other | other in links && other != id :: r[other] == links[other]
    ensures !(json.Success? && IsActionType(actionType)) ==> r == links
    ensures json.Success? && IsActionType(actionType) ==> r[id] == AddToBucket(links[id], actionType, json.value)
  {
    if json.Success? && IsActionType(actionType) then links[id := AddToBucket(links[id], actionType, json.value)]
    else links
  }

  const SimulationSentence := " simulation was successful. The report contains changes that would be made if you requested an actual synchronization."
  const SynchronizationSentence := " synchronization was successful. The report contains changes that have been made to the relevant nodes."

  /** The summary message: the quoted synch name, then the simulation or the
      real-run sentence. */
  function SummaryMessage(synchName: string, simulation: bool): (r: string)
    ensures |r| > |synchName| + 2 && r[..|synchName| + 2] == "'" + synchName + "'"
    ensures r[|synchName| + 2..] == if simulation then SimulationSentence else SynchronizationSentence
  {
    var quoted := "'" + synchName + "'";
    var r := quoted + (if simulation then SimulationSentence else SynchronizationSentence);
    assert r[..|quoted|] == quoted;
    r
  }

  /** The two messages of one synch are different texts. */
  lemma SummaryMessagesDiffer(synchName: string)
    ensures SummaryMessage(synchName, true) != SummaryMessage(synchName, false)
  {
    assert |SimulationSentence| != |SynchronizationSentence|;
  }

  class Reporter {
    /** The synch's name, as `GetConfig().Name` gives it. */
    const synchName: string
    /** `IsSimulation()` of the synch. */
    const simulation: bool
    /** The report's serialiser (`ToJSON`), which is not part of this model. */
    const encodeReport: (string, map<string, LinkReport>) -> Result<string, string>
    var links: map<string, LinkReport>
    var msg: string

    constructor (synchName: string, simulation: bool, encodeReport: (string, map<string, LinkReport>) -> Result<string, string>)
      ensures this.synchName == synchName && this.simulation == simulation && this.encodeReport == encodeReport
      ensures links == map[] && msg == ""
    {
      this.synchName := synchName;
      this.simulation := simulation;
      this.encodeReport := encodeReport;
      links := map[];
      msg := "";
    }

    /** Seeds one entry per configured link, keeping entries that exist. */
    method Init(cfgs: seq<LinkCfg>)
      modifies this`links
      ensures links == Seed(old(links), cfgs)
    {
      for i := 0 to |cfgs|
        invariant links == Seed(old(links), cfgs[..i])
      {
        assert cfgs[..i + 1][..i] == cfgs[..i];
        var lnk := cfgs[i];
        if lnk.id !in links {
          links := links[lnk.id := LinkReport(lnk.cmd, [], [], [])];
        }
      }
      assert cfgs[..|cfgs|] == cfgs;
    }

    /** Appends the pair's JSON action record to the bucket `actionType` names, or
        reports the serialisation error and appends nothing. */
    method AddAction(p: Pair, actionType: string) returns (ok: bool, err: Option<ReportError>)
      requires CanAdd(links, p, actionType)
      modifies this`links
      ensures links == AfterAction(old(links), p.mapping.linkId, actionType, ReportJson(p, actionType))
      ensures ok <==> ReportJson(p, actionType).Success?
      ensures ok ==> err == None
      ensures !ok ==> err == Some(SynchReportError(synchName, ReportJson(p, actionType).error))
    {
      var actionJson := ReportJson(p, actionType);
      if !actionJson.Success? {
        return false, Some(SynchReportError(synchName, actionJson.error));
      }
      var id := p.mapping.linkId;
      var json := actionJson.value;
      match actionType {
        case "idle" =>
          assert AddToBucket(links[id], actionType, json) == links[id].(idle := links[id].idle + [json]);
          links := links[id := links[id].(idle := links[id].idle + [json])];
        case "insert" =>
          assert AddToBucket(links[id], actionType, json) == links[id].(inserts := links[id].inserts + [json]);
          links := links[id := links[id].(inserts := links[id].inserts + [json])];
        case "update" =>
          assert AddToBucket(links[id], actionType, json) == links[id].(updates := links[id].updates + [json]);
          links := links[id := links[id].(updates := links[id].updates + [json])];
        case _ =>
      }
      return true, None;
    }

    /** Writes the summary message and serialises the report. */
    method Finalize() returns (bytes: Option<string>, err: Option<ReportError>)
      modifies this`msg
      ensures msg == SummaryMessage(synchName, simulation)
      ensures encodeReport(msg, links).Success? ==> bytes == Some(encodeReport(msg, links).value) && err == None
      ensures encodeReport(msg, links).Failure? ==>
        bytes == None && err == Some(SynchReportError(synchName, encodeReport(msg, links).error))
    {
      if simulation {
        msg := "'" + synchName + "'" + SimulationSentence;
      } else {
        msg := "'" + synchName + "'" + SynchronizationSentence;
      }
      var toJson := encodeReport(msg, links);
      if toJson.Failure? {
        return None, Some(SynchReportError(synchName, toJson.error));
      }
      return Some(toJson.value), None;
    }
  }
}
