/**
 * Pairs and what can be said about one pair without touching any state: the
 * mapping configuration a pair points to, the preview truncation, the action
 * record and its JSON text, the three one-line renderings, and the decision
 * procedure that `Synchronize` follows.
 */
module Pairs {
  import opened Values
  import opened Wrappers
  import opened Store
  import opened Topology

  /** The column pairs a match rule compares for equality: (source column, target column). */
  type MatchRule = seq<(string, string)>

  /** What a pair reads from its mapping: the link it belongs to, both nodes, the
      synchronised columns, the `do` list, the match rule and the two filters. */
  datatype MappingCfg = MappingCfg(
    linkId: string,
    source: Node,
    target: Node,
    sourceColumn: string,
    targetColumn: string,
    doList: seq<string>,
    rule: MatchRule,
    sourceWhere: string,
    targetWhere: string)

  /** A source row and, for a complete pair, the target row it was matched with
      (`createPair`). */
  datatype Pair = Pair(mapping: MappingCfg, source: Row, target: Option<Row>)

  /** `getSourceNodeKey`: the key column of the mapping's source node. */
  function SourceNodeKey(p: Pair): (r: string)
    ensures r == p.mapping.source.cfg.key
  {
    p.mapping.source.cfg.key
  }

  /** `getTargetNodeKey`: the key column of the mapping's target node. */
  function TargetNodeKey(p: Pair): (r: string)
    ensures r == p.mapping.target.cfg.key
  {
    p.mapping.target.cfg.key
  }

  /* ---------------- previews ---------------- */

  /** Longest preview shown unchanged; longer ones keep `PreviewKeep` characters. */
  const PreviewLimit: nat := 25
  const PreviewKeep: nat := 22

  /** A string longer than 25 becomes its first 22 characters and "...". */
  function Truncate(s: string): (r: string)
    ensures |r| <= PreviewLimit
    ensures |s| <= PreviewLimit ==> r == s
    ensures |s| > PreviewLimit ==> |r| == PreviewLimit && r[..PreviewKeep] == s[..PreviewKeep] && r[PreviewKeep..] == "..."
  {
    if |s| > PreviewLimit then s[..PreviewKeep] + "..." else s
  }

  /** The preview of a target column value: strings are truncated, anything else is kept. */
  function PreviewValue(v: Value): (r: Value)
    ensures r.VStr? <==> v.VStr?
    ensures r.VStr? ==> |r.s| <= PreviewLimit && (|v.s| <= PreviewLimit ==> r == v)
    ensures v.VStr? && |v.s| > PreviewLimit ==>
      |r.s| == PreviewLimit && r.s[..PreviewKeep] == v.s[..PreviewKeep] && r.s[PreviewKeep..] == "..."
    ensures !v.VStr? ==> r == v
  {
    if v.VStr? then VStr(Truncate(v.s)) else v
  }

  /* ---------------- the action record ---------------- */

  /** The nine fields `ReportJSON` serialises, in their JSON order. */
  datatype ActionRecord = ActionRecord(
    sourceNodeKey: string,
    sourceData: Value,
    sourceColumn: string,
    sourceColumnData: Value,
    targetKeyName: string,
    targetKeyValue: Value,
    targetColumn: string,
    targetColumnData: Value,
    actionType: string)

  /** What `ReportJSON` needs in order not to panic: the source column holds a
      string (`.(string)`), and a target column value is present (`.(interface{})`). */
  predicate Reportable(p: Pair)
  {
    && Lookup(p.source, p.mapping.sourceColumn).VStr?
    && (p.target.Some? ==> Lookup(p.target.value, p.mapping.targetColumn) != VNull)
  }

  /** The action record of a pair: source fields always filled, target fields empty
      for an incomplete pair, column values shown as previews. */
  function ActionOf(p: Pair, actionType: string): (r: ActionRecord)
    requires Reportable(p)
    ensures r.sourceNodeKey == SourceNodeKey(p) && r.sourceData == Lookup(p.source, SourceNodeKey(p))
    ensures r.sourceColumn == p.mapping.sourceColumn && r.targetColumn == p.mapping.targetColumn
    ensures r.actionType == actionType
    ensures r.sourceColumnData.VStr? && |r.sourceColumnData.s| <= PreviewLimit
    ensures r.sourceColumnData.s == Truncate(Lookup(p.source, p.mapping.sourceColumn).s)
    ensures p.target.None? ==> r.targetKeyName == "" && r.targetKeyValue == VNull && r.targetColumnData == VNull
    ensures p.target.Some? ==> r.targetKeyName == TargetNodeKey(p)
    ensures p.target.Some? ==> r.targetKeyValue == Lookup(p.target.value, TargetNodeKey(p))
    ensures p.target.Some? ==> r.targetColumnData == PreviewValue(Lookup(p.target.value, p.mapping.targetColumn))
    ensures p.target.Some? ==> r.targetColumnData != VNull
    ensures r.targetColumnData.VStr? ==> |r.targetColumnData.s| <= PreviewLimit
  {
    var sourceColumnData := Truncate(Lookup(p.source, p.mapping.sourceColumn).s);
    var (targetKeyName, targetKeyValue, targetColumnData) :=
      if p.target.Some? then
        (TargetNodeKey(p), Lookup(p.target.value, TargetNodeKey(p)), PreviewValue(Lookup(p.target.value, p.mapping.targetColumn)))
      else ("", VNull, VNull);
    ActionRecord(SourceNodeKey(p), Lookup(p.source, SourceNodeKey(p)), p.mapping.sourceColumn, VStr(sourceColumnData),
                 targetKeyName, targetKeyValue, p.mapping.targetColumn, targetColumnData, actionType)
  }

  /* ---------------- JSON text ---------------- */

  /** A string's characters with `"` and `\` escaped. */
  function Escape(s: string): (r: string)
    ensures |r| >= |s|
    ensures (forall k :: 0 <= k < |s| ==> s[k] != '"' && s[k] != '\\') ==> r == s
    decreases |s|
  {
    if s == [] then ""
    else (if s[0] == '"' || s[0] == '\\' then ['\\', s[0]] else [s[0]]) + Escape(s[1..])
  }

  /** Escaping keeps distinct strings distinct, so a JSON string names one string. */
  lemma {:induction false} EscapeInjective(a: string, b: string)
    requires Escape(a) == Escape(b)
    ensures a == b
    decreases |a|
  {
    if a != [] && b != [] {
      var ea := if a[0] == '"' || a[0] == '\\' then ['\\', a[0]] else [a[0]];
      var eb := if b[0] == '"' || b[0] == '\\' then ['\\', b[0]] else [b[0]];
      assert Escape(a) == ea + Escape(a[1..]);
      assert Escape(b) == eb + Escape(b[1..]);
      assert Escape(a)[0] == ea[0] && Escape(b)[0] == eb[0];
      assert a[0] == b[0] by {
        if ea[0] == '\\' || eb[0] == '\\' {
          assert |ea| == 2 && |eb| == 2;
          assert Escape(a)[1] == ea[1] && Escape(b)[1] == eb[1];
        }
      }
      assert ea == eb;
      assert Escape(a)[|ea|..] == Escape(a[1..]);
      assert Escape(b)[|eb|..] == Escape(b[1..]);
      EscapeInjective(a[1..], b[1..]);
    }
  }

  function Quote(s: string): string
  {
    "\"" + Escape(s) + "\""
  }

  /** JSON text of a value; a value encoding/json cannot marshal has none. */
  function EncodeValue(v: Value): (r: Option<string>)
    ensures r.None? <==> v.VUnmarshalable?
    ensures v.VStr? ==> r == Some(Quote(v.s))
  {
    match v
    case VNull => Some("null")
    case VBool(b) => Some(if b then "true" else "false")
    case VInt(_) => Some(Show(v))
    case VStr(s) => Some(Quote(s))
    case VOther(_, json) => Some(json)
    case VUnmarshalable(_) => None
  }

  predicate Encodable(r: ActionRecord)
  {
    !r.sourceData.VUnmarshalable? && !r.sourceColumnData.VUnmarshalable? && !r.targetKeyValue.VUnmarshalable? && !r.targetColumnData.VUnmarshalable?
  }

  /** One member of a JSON object; the field names are plain identifiers and are
      written as they are. */
  function Member(name: string, text: string): string
  {
    "\"" + name + "\":" + text
  }

  /** Texts joined with commas. */
  function Join(parts: seq<string>): string
    decreases |parts|
  {
    if parts == [] then ""
    else if |parts| == 1 then parts[0]
    else parts[0] + "," + Join(parts[1..])
  }

  /** The members of an action record's JSON object, fields in declaration order,
      given the JSON text of its four values. */
  function Members(r: ActionRecord, sd: string, scd: string, tkv: string, tcd: string): seq<string>
  {
    [ Member("sourceNodeKey", Quote(r.sourceNodeKey)), Member("sourceData", sd),
      Member("sourceColumn", Quote(r.sourceColumn)), Member("sourceColumnData", scd),
      Member("targetKeyName", Quote(r.targetKeyName)), Member("targetKeyValue", tkv),
      Member("targetColumn", Quote(r.targetColumn)), Member("targetColumnData", tcd),
      Member("actionType", Quote(r.actionType)) ]
  }

  function Braced(body: string): (r: string)
    ensures |r| == |body| + 2 && r[0] == '{' && r[|r| - 1] == '}'
  {
    "{" + body + "}"
  }

  /** The JSON object of an action record; it exists exactly when all four values
      can be marshalled. */
  function EncodeAction(r: ActionRecord): (res: Result<string, string>)
    ensures res.Success? <==> Encodable(r)
    ensures res.Success? ==> |res.value| >= 2 && res.value[0] == '{' && res.value[|res.value| - 1] == '}'
  {
    if Encodable(r) then
      Success(Braced(Join(Members(r, EncodeValue(r.sourceData).value, EncodeValue(r.sourceColumnData).value,
                             EncodeValue(r.targetKeyValue).value, EncodeValue(r.targetColumnData).value))))
    else
      Failure("json: unsupported value")
  }

  /** `ReportJSON`: the JSON text of the pair's action record. It fails exactly when
      a key value or a target column value is of a kind encoding/json rejects. */
  function ReportJson(p: Pair, actionType: string): (r: Result<string, string>)
    requires Reportable(p)
    ensures r.Success? <==>
      && !Lookup(p.source, SourceNodeKey(p)).VUnmarshalable?
      && (p.target.Some? ==> !Lookup(p.target.value, TargetNodeKey(p)).VUnmarshalable?
                             && !Lookup(p.target.value, p.mapping.targetColumn).VUnmarshalable?)
  {
    EncodeAction(ActionOf(p, actionType))
  }

  /* ---------------- one-line renderings ---------------- */

  function Spaces(n: nat): (r: string)
    ensures |r| == n && forall k :: 0 <= k < n ==> r[k] == ' '
  {
    seq(n, _ => ' ')
  }

  /** Go's `%<w>v` of a text: right-justified in a field of at least `w` characters. */
  function Pad(s: string, w: nat): (r: string)
    ensures |r| == if |s| < w then w else |s|
    ensures r[|r| - |s|..] == s
    ensures forall k :: 0 <= k < |r| - |s| ==> r[k] == ' '
  {
    if |s| < w then Spaces(w - |s|) + s else s
  }

  predicate SourceColumnIsString(p: Pair)
  {
    Lookup(p.source, p.mapping.sourceColumn).VStr?
  }

  predicate BothColumnsAreStrings(p: Pair)
  {
    && SourceColumnIsString(p)
    && p.target.Some?
    && Lookup(p.target.value, p.mapping.targetColumn).VStr?
  }

  function SourcePreview(p: Pair): string
    requires SourceColumnIsString(p)
  {
    Truncate(Lookup(p.source, p.mapping.sourceColumn).s)
  }

  function TargetPreview(p: Pair): string
    requires BothColumnsAreStrings(p)
  {
    Truncate(Lookup(p.target.value, p.mapping.targetColumn).s)
  }

  /** `|%6v: %3v, %6v: %25v|`: the source side every rendering starts with. */
  function SourceSide(p: Pair): (r: string)
    requires SourceColumnIsString(p)
    ensures |r| >= 2 && r[0] == '|' && r[|r| - 1] == '|'
  {
    "|" + Pad(SourceNodeKey(p), 6) + ": " + Pad(Show(Lookup(p.source, SourceNodeKey(p))), 3) + ", "
    + Pad(p.mapping.sourceColumn, 6) + ": " + Pad(SourcePreview(p), 25) + "|"
  }

  /** `|%6v: %6v, %6s: %25v|`: a target side showing `keyText` and `columnText`. */
  function TargetSide(p: Pair, keyText: string, columnText: string): string
  {
    "|" + Pad(TargetNodeKey(p), 6) + ": " + Pad(keyText, 6) + ", " + Pad(p.mapping.targetColumn, 6) + ": " + columnText
  }

  /** A rendered line: source side, arrow, target side, closing `|` and newline. */
  function Line(side: string, arrow: string, target: string): string
  {
    side + arrow + target + "|\n"
  }

  /** `t` is the head of `s`. */
  predicate StartsWith(s: string, t: string)
  {
    |t| <= |s| && s[..|t|] == t
  }

  /** `t` is the tail of `s`. */
  predicate EndsWith(s: string, t: string)
  {
    |t| <= |s| && s[|s| - |t|..] == t
  }

  lemma ConcatParts(a: string, b: string)
    ensures StartsWith(a + b, a) && EndsWith(a + b, b)
  {
    assert (a + b)[..|a|] == a;
    assert (a + b)[|a|..] == b;
  }

  lemma Regroup(a: string, h: string, c: string, e: string)
    ensures (a + (h + c)) + e == (a + h) + (c + e)
    ensures (a + (h + c)) + e == a + ((h + c) + e)
  {
  }

  /** A line starts with its source side and ends with the column text of its
      target side, then `|` and a newline. */
  lemma LineEnds(side: string, arrow: string, p: Pair, keyText: string, columnText: string)
    ensures StartsWith(Line(side, arrow, TargetSide(p, keyText, columnText)), side)
    ensures EndsWith(Line(side, arrow, TargetSide(p, keyText, columnText)), columnText + "|\n")
  {
    var head := "|" + Pad(TargetNodeKey(p), 6) + ": " + Pad(keyText, 6) + ", " + Pad(p.mapping.targetColumn, 6) + ": ";
    assert TargetSide(p, keyText, columnText) == head + columnText;
    Regroup(side + arrow, head, columnText, "|\n");
    ConcatParts((side + arrow) + head, columnText + "|\n");
    Regroup(side, arrow, TargetSide(p, keyText, columnText), "|\n");
    ConcatParts(side, (arrow + TargetSide(p, keyText, columnText)) + "|\n");
  }

  /** Two records that agree: `... | == | ...`; the target column shows the target
      preview. */
  function RepIdleString(p: Pair): (r: string)
    requires BothColumnsAreStrings(p)
    ensures StartsWith(r, SourceSide(p)) && EndsWith(r, Pad(TargetPreview(p), 25) + "|\n")
  {
    var keyText := Show(Lookup(p.target.value, TargetNodeKey(p)));
    LineEnds(SourceSide(p), "  ==  ", p, keyText, Pad(TargetPreview(p), 25));
    Line(SourceSide(p), "  ==  ", TargetSide(p, keyText, Pad(TargetPreview(p), 25)))
  }

  /** An insert: the target key shows "-" and the target column shows the source
      preview. */
  function RepInsertString(p: Pair): (r: string)
    requires SourceColumnIsString(p)
    ensures StartsWith(r, SourceSide(p)) && EndsWith(r, Pad(SourcePreview(p), 25) + "|\n")
  {
    LineEnds(SourceSide(p), "  =>  ", p, "-", Pad(SourcePreview(p), 25));
    Line(SourceSide(p), "  =>  ", TargetSide(p, "-", Pad(SourcePreview(p), 25)))
  }

  /** An update: the target column shows the target preview, then "->" and the
      source preview. */
  function RepUpdateString(p: Pair): (r: string)
    requires BothColumnsAreStrings(p)
    ensures StartsWith(r, SourceSide(p))
    ensures EndsWith(r, Pad(TargetPreview(p), 25) + " -> " + Pad(SourcePreview(p), 25) + "|\n")
  {
    var keyText := Show(Lookup(p.target.value, TargetNodeKey(p)));
    var columnText := Pad(TargetPreview(p), 25) + " -> " + Pad(SourcePreview(p), 25);
    LineEnds(SourceSide(p), "  =^  ", p, keyText, columnText);
    Line(SourceSide(p), "  =^  ", TargetSide(p, keyText, columnText))
  }

  /** A column text as a rendering shows it: at most 25 characters right-justified
      in 25, a longer one as its first 22 characters and "...". */
  lemma PreviewField(s: string)
    ensures |Pad(Truncate(s), 25)| == 25
    ensures |s| <= 25 ==> Pad(Truncate(s), 25) == Spaces(25 - |s|) + s
    ensures |s| > 25 ==> Pad(Truncate(s), 25) == s[..22] + "..."
  {
    if |s| > 25 {
      assert Truncate(s) == s[..22] + "...";
      assert Pad(Truncate(s), 25) == Truncate(s);
    } else if |s| == 25 {
      assert Spaces(0) == [];
      assert Pad(s, 25) == s;
    }
  }

  /** The source column field of every rendering follows `PreviewField`. */
  lemma SourcePreviewField(p: Pair)
    requires SourceColumnIsString(p)
    ensures |Pad(SourcePreview(p), 25)| == 25
    ensures Pad(SourcePreview(p), 25) == Pad(Truncate(Lookup(p.source, p.mapping.sourceColumn).s), 25)
    ensures |Lookup(p.source, p.mapping.sourceColumn).s| > 25 ==>
      Pad(SourcePreview(p), 25) == Lookup(p.source, p.mapping.sourceColumn).s[..22] + "..."
  {
    PreviewField(Lookup(p.source, p.mapping.sourceColumn).s);
  }

  /** The target column field of the idle and update renderings follows `PreviewField`. */
  lemma TargetPreviewField(p: Pair)
    requires BothColumnsAreStrings(p)
    ensures |Pad(TargetPreview(p), 25)| == 25
    ensures Pad(TargetPreview(p), 25) == Pad(Truncate(Lookup(p.target.value, p.mapping.targetColumn).s), 25)
    ensures |Lookup(p.target.value, p.mapping.targetColumn).s| > 25 ==>
      Pad(TargetPreview(p), 25) == Lookup(p.target.value, p.mapping.targetColumn).s[..22] + "..."
  {
    PreviewField(Lookup(p.target.value, p.mapping.targetColumn).s);
  }

  /** The source side ends with the source column field. */
  lemma SourceSideEnds(p: Pair)
    requires SourceColumnIsString(p)
    ensures EndsWith(SourceSide(p), Pad(SourcePreview(p), 25) + "|")
  {
    var head := "|" + Pad(SourceNodeKey(p), 6) + ": " + Pad(Show(Lookup(p.source, SourceNodeKey(p))), 3) + ", "
      + Pad(p.mapping.sourceColumn, 6) + ": ";
    var field := Pad(SourcePreview(p), 25);
    assert SourceSide(p) == (head + field) + "|";
    assert (head + field) + "|" == head + (field + "|");
    ConcatParts(head, field + "|");
  }

  /** A rendering is framed: it starts with `|` and ends with `|` and a newline. */
  predicate Framed(s: string)
  {
    |s| >= 2 && s[0] == '|' && s[|s| - 2..] == "|\n"
  }

  /** A line is framed, and the fourth character of its arrow stands three places
      after the source side. */
  lemma LineShape(side: string, arrow: string, target: string)
    requires |side| >= 1 && side[0] == '|' && |arrow| == 6
    ensures Framed(Line(side, arrow, target))
    ensures Line(side, arrow, target)[|side| + 3] == arrow[3]
  {
    var l := Line(side, arrow, target);
    assert l == side + (arrow + (target + "|\n"));
    assert l[|l| - 2..] == "|\n";
  }

  /** Two lines on the same source side whose arrows differ in their fourth
      character are different lines. */
  lemma ArrowsDiffer(side: string, arrow: string, target: string, arrow': string, target': string)
    requires |side| >= 1 && side[0] == '|' && |arrow| == 6 && |arrow'| == 6 && arrow[3] != arrow'[3]
    ensures Line(side, arrow, target) != Line(side, arrow', target')
  {
    LineShape(side, arrow, target);
    LineShape(side, arrow', target');
  }

  /** The three renderings of one pair are pairwise different: they differ in the
      arrow. */
  lemma RenderingsDiffer(p: Pair)
    requires BothColumnsAreStrings(p)
    ensures RepIdleString(p) != RepInsertString(p)
    ensures RepIdleString(p) != RepUpdateString(p)
    ensures RepInsertString(p) != RepUpdateString(p)
  {
    var side := SourceSide(p);
    var idleT := TargetSide(p, Show(Lookup(p.target.value, TargetNodeKey(p))), Pad(TargetPreview(p), 25));
    var insertT := TargetSide(p, "-", Pad(SourcePreview(p), 25));
    var updateT := TargetSide(p, Show(Lookup(p.target.value, TargetNodeKey(p))),
                              Pad(TargetPreview(p), 25) + " -> " + Pad(SourcePreview(p), 25));
    assert "  ==  "[3] == '=' && "  =>  "[3] == '>' && "  =^  "[3] == '^';
    ArrowsDiffer(side, "  ==  ", idleT, "  =>  ", insertT);
    ArrowsDiffer(side, "  ==  ", idleT, "  =^  ", updateT);
    ArrowsDiffer(side, "  =>  ", insertT, "  =^  ", updateT);
  }

  /** Each rendering is framed by `|` and ends with a newline. */
  lemma RenderingsFramed(p: Pair)
    requires BothColumnsAreStrings(p)
    ensures Framed(RepIdleString(p)) && Framed(RepInsertString(p)) && Framed(RepUpdateString(p))
  {
    var side := SourceSide(p);
    LineShape(side, "  ==  ", TargetSide(p, Show(Lookup(p.target.value, TargetNodeKey(p))), Pad(TargetPreview(p), 25)));
    LineShape(side, "  =>  ", TargetSide(p, "-", Pad(SourcePreview(p), 25)));
    LineShape(side, "  =^  ", TargetSide(p, Show(Lookup(p.target.value, TargetNodeKey(p))),
                                         Pad(TargetPreview(p), 25) + " -> " + Pad(SourcePreview(p), 25)));
  }

  /* ---------------- the reconciliation decision ---------------- */

  datatype Action = Idle | Insert | Update

  /** The action type string handed to the reporter. */
  function ActionName(a: Action): (r: string)
    ensures r in {"idle", "insert", "update"}
  {
    match a
    case Idle => "idle"
    case Insert => "insert"
    case Update => "update"
  }

  lemma ActionNameInjective(a: Action, b: Action)
    requires ActionName(a) == ActionName(b)
    ensures a == b
  {
    assert ActionName(Idle) != ActionName(Insert) && ActionName(Idle) != ActionName(Update) by {
      assert "idle"[1] == 'd' && "insert"[1] == 'n' && "update"[1] == 'p';
    }
    assert "insert"[1] != "update"[1];
  }

  /** What `Synchronize` does with a pair: the action it reports, if any, and
      whether it issues a database update. */
  datatype Decision = Decision(action: Option<Action>, write: bool)

  /**
   * The action `Synchronize` takes from whether a target record exists, the
   * mapping's `do` list and the comparison of the two column values (consulted
   * only for a complete pair that may be updated); the mode plays no part.
   */
  function Choose(targetPresent: bool, doList: seq<string>, cmp: Comparison): (a: Option<Action>)
    ensures a == Some(Update) <==> targetPresent && "UPDATE" in doList && cmp == Unequal
    ensures a == Some(Idle) <==> targetPresent && "UPDATE" in doList && cmp == Equal
    ensures a == Some(Insert) <==> !targetPresent && "INSERT" in doList
    ensures a == None <==>
      || (targetPresent && ("UPDATE" !in doList || cmp.Incomparable?))
      || (!targetPresent && "INSERT" !in doList)
  {
    if targetPresent && "UPDATE" in doList then
      match cmp
      case Incomparable(_) => None
      case Unequal => Some(Update)
      case Equal => Some(Idle)
    else if !targetPresent && "INSERT" in doList then
      Some(Insert)
    else
      None
  }

  /** The decision of `Synchronize`: the action `Choose` gives, whatever the
      mode, and a write exactly for an update outside a simulation. */
  function Decide(targetPresent: bool, doList: seq<string>, cmp: Comparison, simulation: bool): (d: Decision)
    ensures d.action == Choose(targetPresent, doList, cmp)
    ensures d.write <==> targetPresent && "UPDATE" in doList && cmp == Unequal && !simulation
  {
    var a := Choose(targetPresent, doList, cmp);
    Decision(a, a == Some(Update) && !simulation)
  }

  /** The comparison `Synchronize` makes: source column value against target column value. */
  function CompareColumns(p: Pair, compare: (Value, Value) -> Comparison): Comparison
  {
    if p.target.Some? then compare(Lookup(p.source, p.mapping.sourceColumn), Lookup(p.target.value, p.mapping.targetColumn))
    else Equal
  }

  /** The decision for a pair; its action is `PairAction` whatever the mode. */
  function DecidePair(p: Pair, compare: (Value, Value) -> Comparison, simulation: bool): (d: Decision)
    ensures d.action == PairAction(p, compare)
  {
    Decide(p.target.Some?, p.mapping.doList, CompareColumns(p, compare), simulation)
  }

  /** The action `Synchronize` takes on a pair, in either mode. */
  function PairAction(p: Pair, compare: (Value, Value) -> Comparison): Option<Action>
  {
    Choose(p.target.Some?, p.mapping.doList, CompareColumns(p, compare))
  }

  /** The one write an update issues: the target column of the target row, located
      by the target node's key, set to the source column value. */
  function UpdateOf(p: Pair): (u: UpdateRequest)
    requires p.target.Some?
    ensures u.table == p.mapping.target.cfg.table && u.keyColumn == TargetNodeKey(p)
    ensures u.keyValue == Lookup(p.target.value, TargetNodeKey(p))
    ensures u.column == p.mapping.targetColumn && u.value == Lookup(p.source, p.mapping.sourceColumn)
  {
    UpdateRequest(p.mapping.target.cfg.table, TargetNodeKey(p), Lookup(p.target.value, TargetNodeKey(p)),
                  p.mapping.targetColumn, Lookup(p.source, p.mapping.sourceColumn))
  }

  /** A pair is reported identically whether or not the run is a simulation; only
      the write differs. */
  lemma SimulationOnlySuppressesWrites(p: Pair, compare: (Value, Value) -> Comparison)
    ensures DecidePair(p, compare, true).action == DecidePair(p, compare, false).action
    ensures !DecidePair(p, compare, true).write
    ensures DecidePair(p, compare, false).write <==> DecidePair(p, compare, false).action == Some(Update)
  {
  }
}
