/**
 * `Pair.Synchronize`: the one step that touches state for a single pair. It
 * follows the decision procedure of `Pairs.Decide`, hands the chosen action to
 * the reporter and, for an update outside a simulation, writes the source value
 * into the target row.
 */
module Reconcile {
  import opened Values
  import opened Wrappers
  import opened Store
  import opened Pairs
  import opened Report

  /** What `Synchronize` needs of a pair in order not to panic: when the pair has
      an action, the reporter can take it. A silent pair needs nothing. */
  predicate Runs(links: map<string, LinkReport>, p: Pair, compare: (Value, Value) -> Comparison)
  {
    PairAction(p, compare).Some? ==> CanAdd(links, p, ActionName(PairAction(p, compare).value))
  }

  /** The reporter's links after the pair's action, if it has one, was added. */
  function Reported(links: map<string, LinkReport>, p: Pair, compare: (Value, Value) -> Comparison, simulation: bool)
    : (r: map<string, LinkReport>)
    requires Runs(links, p, compare)
    ensures r.Keys == links.Keys
    ensures forall other | other in links && other != p.mapping.linkId :: r[other] == links[other]
    ensures DecidePair(p, compare, simulation).action.None? ==> r == links
  {
    match DecidePair(p, compare, simulation).action
    case None => links
    case Some(a) => AfterAction(links, p.mapping.linkId, ActionName(a), ReportJson(p, ActionName(a)))
  }

  lemma ReportedSome(links: map<string, LinkReport>, p: Pair, compare: (Value, Value) -> Comparison, simulation: bool, a: Action)
    requires Runs(links, p, compare)
    requires DecidePair(p, compare, simulation).action == Some(a)
    ensures Reported(links, p, compare, simulation) == AfterAction(links, p.mapping.linkId, ActionName(a), ReportJson(p, ActionName(a)))
  {
  }

  /** The calls the pair makes on its target database: the update, when one is written. */
  function Writes(p: Pair, compare: (Value, Value) -> Comparison, simulation: bool): (w: seq<DbCall>)
    ensures |w| <= 1
    ensures simulation ==> w == []
    ensures w != [] ==> p.target.Some? && w == [UpdateCall(UpdateOf(p))]
  {
    if DecidePair(p, compare, simulation).write then [UpdateCall(UpdateOf(p))] else []
  }

  /**
   * A complete pair allowed to update, whose column values differ, gets exactly
   * one "update" record at the end of its link's updates (when its JSON exists),
   * and outside a simulation exactly the one write `UpdateOf(p)`.
   */
  lemma UpdateCase(links: map<string, LinkReport>, p: Pair, compare: (Value, Value) -> Comparison, simulation: bool)
    requires Runs(links, p, compare)
    requires p.target.Some? && "UPDATE" in p.mapping.doList && CompareColumns(p, compare) == Unequal
    ensures ReportJson(p, "update").Success? ==>
      Reported(links, p, compare, simulation)[p.mapping.linkId]
        == links[p.mapping.linkId].(updates := links[p.mapping.linkId].updates + [ReportJson(p, "update").value])
    ensures Writes(p, compare, simulation) == if simulation then [] else [UpdateCall(UpdateOf(p))]
  {
    assert DecidePair(p, compare, simulation).action == Some(Update);
    ReportedSome(links, p, compare, simulation, Update);
  }

  /** A complete pair allowed to update, whose column values are equal, gets one
      "idle" record and no write. */
  lemma IdleCase(links: map<string, LinkReport>, p: Pair, compare: (Value, Value) -> Comparison, simulation: bool)
    requires Runs(links, p, compare)
    requires p.target.Some? && "UPDATE" in p.mapping.doList && CompareColumns(p, compare) == Equal
    ensures ReportJson(p, "idle").Success? ==>
      Reported(links, p, compare, simulation)[p.mapping.linkId]
        == links[p.mapping.linkId].(idle := links[p.mapping.linkId].idle + [ReportJson(p, "idle").value])
    ensures Writes(p, compare, simulation) == []
  {
    assert DecidePair(p, compare, simulation).action == Some(Idle);
    ReportedSome(links, p, compare, simulation, Idle);
  }

  /** An incomplete pair allowed to insert gets one "insert" record and no
      database call in either mode. */
  lemma InsertCase(links: map<string, LinkReport>, p: Pair, compare: (Value, Value) -> Comparison, simulation: bool)
    requires Runs(links, p, compare)
    requires p.target.None? && "INSERT" in p.mapping.doList
    ensures ReportJson(p, "insert").Success? ==>
      Reported(links, p, compare, simulation)[p.mapping.linkId]
        == links[p.mapping.linkId].(inserts := links[p.mapping.linkId].inserts + [ReportJson(p, "insert").value])
    ensures Writes(p, compare, simulation) == []
  {
    assert DecidePair(p, compare, simulation).action == Some(Insert);
    ReportedSome(links, p, compare, simulation, Insert);
  }

  /** Nothing is reported and nothing written for a complete pair without
      "UPDATE", an incomplete pair without "INSERT", or a failed comparison. */
  lemma SilentCases(links: map<string, LinkReport>, p: Pair, compare: (Value, Value) -> Comparison, simulation: bool)
    requires || (p.target.Some? && "UPDATE" !in p.mapping.doList)
             || (p.target.None? && "INSERT" !in p.mapping.doList)
             || (p.target.Some? && CompareColumns(p, compare).Incomparable?)
    ensures Reported(links, p, compare, simulation) == links
    ensures Writes(p, compare, simulation) == []
  {
    assert DecidePair(p, compare, simulation).action.None?;
  }

  /** Hands the action the decision procedure chose for the pair to the reporter;
      its error, if any, is only logged. */
  method AddDecided(p: Pair, rep: Reporter, compare: (Value, Value) -> Comparison, simulation: bool, a: Action)
    requires Runs(rep.links, p, compare)
    requires DecidePair(p, compare, simulation).action == Some(a)
    modifies rep`links
    ensures rep.links == Reported(old(rep.links), p, compare, simulation)
  {
    ReportedSome(rep.links, p, compare, simulation, a);
    var _, _ := rep.AddAction(p, ActionName(a));
  }

  /**
   * `Synchronize`: reports the pair's action and issues its write, if any. The
   * write's own result is only logged, so a failed update is still reported.
   * It always answers `(false, nil)`.
   */
  method Synchronize(p: Pair, rep: Reporter, compare: (Value, Value) -> Comparison, simulation: bool)
    returns (done: bool, err: Option<string>)
    requires Runs(rep.links, p, compare)
    modifies rep`links, p.mapping.target.db`log
    ensures !done && err == None
    ensures rep.links == Reported(old(rep.links), p, compare, simulation)
    ensures p.mapping.target.db.log == old(p.mapping.target.db.log) + Writes(p, compare, simulation)
  {
    var m := p.mapping;
    if p.target.Some? && "UPDATE" in m.doList {
      var sourceColumnValue := Lookup(p.source, m.sourceColumn);
      var targetColumnValue := Lookup(p.target.value, m.targetColumn);
      var cmp := compare(sourceColumnValue, targetColumnValue);
      if cmp.Incomparable? {
        // the comparison error is logged and the pair is left alone
        SilentCases(rep.links, p, compare, simulation);
      } else if cmp == Unequal {
        if !simulation {
          var key := TargetNodeKey(p);
          var _ := m.target.db.Update(m.target.cfg.table, key, Lookup(p.target.value, key), m.targetColumn, sourceColumnValue);
        }
        AddDecided(p, rep, compare, simulation, Update);
      } else {
        AddDecided(p, rep, compare, simulation, Idle);
      }
    } else if p.target.None? && "INSERT" in m.doList {
      // the insert itself is not implemented: only the report is made
      AddDecided(p, rep, compare, simulation, Insert);
    } else {
      SilentCases(rep.links, p, compare, simulation);
    }
    return false, None;
  }
}
