/** The detection rule file as the command-line tool edits it. */
module RuleStore {
  import opened Options

  /** JSON values as far as the tool looks at them: other values by their text, truth and hashability. */
  datatype Json =
    | JNull
    | JBool(b: bool)
    | JStr(s: string)
    | JOther(text: string, truthy: bool, hashable: bool)

  type Rule = map<string, Json>

  function Get(r: Rule, key: string): Json {
    if key in r then r[key] else JNull
  }

  /** Python's str. */
  function Str(v: Json): string {
    match v
    case JNull => "None"
    case JBool(b) => if b then "True" else "False"
    case JStr(s) => s
    case JOther(text, _, _) => text
  }

  predicate Truthy(v: Json) {
    match v
    case JNull => false
    case JBool(b) => b
    case JStr(s) => s != ""
    case JOther(_, truthy, _) => truthy
  }

  predicate Hashable(v: Json) {
    v.JOther? ==> v.hashable
  }

  const SEVERITIES: set<Json> := {JStr("Low"), JStr("Medium"), JStr("High"), JStr("Critical")}
  const ACTIONS: set<Json> := {
    JStr("Pass"), JStr("Log"), JStr("Alert"), JStr("RateLimit"),
    JStr("Block"), JStr("Drop"), JStr("Quarantine"), JStr("Escalate")}

  // ---------- What a valid rule list is ----------

  /** The id as validation reads it: a missing key counts as empty. */
  function RuleId(r: Rule): string {
    if "rule_id" in r then Str(r["rule_id"]) else ""
  }

  /** The id as a search reads it: a missing key counts as the word None. */
  function SearchId(r: Rule): string {
    Str(Get(r, "rule_id"))
  }

  predicate HasPattern(r: Rule) {
    Truthy(Get(r, "match_pattern")) || Truthy(Get(r, "regex_pattern")) || Truthy(Get(r, "fast_pattern"))
  }

  /** Membership tests on an unhashable severity or action raise. */
  predicate Checkable(r: Rule) {
    Hashable(Get(r, "severity")) && Hashable(Get(r, "action"))
  }

  predicate RuleOk(r: Rule) {
    && RuleId(r) != "" && Truthy(Get(r, "name"))
    && Get(r, "severity") in SEVERITIES && Get(r, "action") in ACTIONS && HasPattern(r)
  }

  predicate DistinctIds(rules: seq<Rule>) {
    forall i, j :: 0 <= i < j < |rules| ==> RuleId(rules[i]) != RuleId(rules[j])
  }

  predicate ValidRules(rules: seq<Rule>) {
    (forall i :: 0 <= i < |rules| ==> RuleOk(rules[i])) && DistinctIds(rules)
  }

  predicate AllCheckable(rules: seq<Rule>) {
    forall r :: r in rules ==> Checkable(r)
  }

  datatype Issue = MissingId | DuplicateId | MissingName | InvalidSeverity | InvalidAction | NoPattern

  /** Rule i of the list has this issue. */
  predicate HasIssue(rules: seq<Rule>, i: nat, issue: Issue)
    requires i < |rules|
  {
    var r := rules[i];
    match issue
    case MissingId => RuleId(r) == ""
    case DuplicateId => exists j :: 0 <= j < i && RuleId(rules[j]) == RuleId(r)
    case MissingName => !Truthy(Get(r, "name"))
    case InvalidSeverity => Get(r, "severity") !in SEVERITIES
    case InvalidAction => Get(r, "action") !in ACTIONS
    case NoPattern => !HasPattern(r)
  }

  /** The six issues, word by word. */
  lemma IssuesMean(rules: seq<Rule>, i: nat)
    requires i < |rules|
    ensures var r := rules[i];
      && (HasIssue(rules, i, MissingId) <==> "rule_id" !in r || Str(r["rule_id"]) == "")
      && (HasIssue(rules, i, DuplicateId) <==> exists j :: 0 <= j < i && RuleId(rules[j]) == RuleId(r))
      && (HasIssue(rules, i, MissingName) <==> !("name" in r && Truthy(r["name"])))
      && (HasIssue(rules, i, InvalidSeverity) <==>
            !("severity" in r && r["severity"] in {JStr("Low"), JStr("Medium"), JStr("High"), JStr("Critical")}))
      && (HasIssue(rules, i, InvalidAction) <==>
            !("action" in r && r["action"] in {JStr("Pass"), JStr("Log"), JStr("Alert"), JStr("RateLimit"),
                                               JStr("Block"), JStr("Drop"), JStr("Quarantine"), JStr("Escalate")}))
      && (HasIssue(rules, i, NoPattern) <==>
            !("match_pattern" in r && Truthy(r["match_pattern"])) && !("regex_pattern" in r && Truthy(r["regex_pattern"]))
            && !("fast_pattern" in r && Truthy(r["fast_pattern"])))
  {
    hide Truthy;
    assert !Truthy(JNull) by { NullIsFalse(); }
  }

  lemma NullIsFalse()
    ensures !Truthy(JNull)
  {}

  datatype Error = Error(index: nat, issue: Issue)

  /** The validation loop: it raises exactly for an unhashable value, and otherwise lists exactly the issues. */
  method ValidateRules(rules: seq<Rule>) returns (raised: bool, errors: seq<Error>)
    ensures raised <==> !AllCheckable(rules)
    ensures !raised ==> forall i: nat, x :: Error(i, x) in errors <==> i < |rules| && HasIssue(rules, i, x)
    ensures !raised ==> (errors == [] <==> ValidRules(rules))
  {
    hide Str, Get, RuleId, Truthy, Hashable, Checkable, HasPattern, RuleOk, DistinctIds, ValidRules;
    raised, errors := false, [];
    var ids: set<string> := {};
    for i := 0 to |rules|
      invariant forall j :: 0 <= j < i ==> Checkable(rules[j])
      invariant forall id :: id in ids <==> exists j :: 0 <= j < i && RuleId(rules[j]) == id
      invariant forall j: nat, x :: Error(j, x) in errors <==> j < i && HasIssue(rules, j, x)
    {
      var rule := rules[i];
      var rid := RuleId(rule);
      if !Checkable(rule) {
        return true, [];
      }
      if rid == "" { errors := errors + [Error(i, MissingId)]; }
      if rid in ids { errors := errors + [Error(i, DuplicateId)]; }
      ids := ids + {rid};
      if !Truthy(Get(rule, "name")) { errors := errors + [Error(i, MissingName)]; }
      if Get(rule, "severity") !in SEVERITIES { errors := errors + [Error(i, InvalidSeverity)]; }
      if Get(rule, "action") !in ACTIONS { errors := errors + [Error(i, InvalidAction)]; }
      if !HasPattern(rule) { errors := errors + [Error(i, NoPattern)]; }
    }
    NoErrorsMeansValid(rules, errors);
  }

  lemma NoErrorsMeansValid(rules: seq<Rule>, errors: seq<Error>)
    requires forall i: nat, x :: Error(i, x) in errors <==> i < |rules| && HasIssue(rules, i, x)
    ensures errors == [] <==> ValidRules(rules)
  {
    if errors == [] {
      forall i | 0 <= i < |rules|
        ensures RuleOk(rules[i])
      {
        assert Error(i, MissingId) !in errors && Error(i, MissingName) !in errors && Error(i, NoPattern) !in errors;
        assert Error(i, InvalidSeverity) !in errors && Error(i, InvalidAction) !in errors;
      }
      forall i, j | 0 <= i < j < |rules|
        ensures RuleId(rules[i]) != RuleId(rules[j])
      {
        assert Error(j, DuplicateId) !in errors;
      }
    } else {
      var e := errors[0];
      assert Error(e.index, e.issue) in errors;
    }
  }

  // ---------- Edits ----------

  datatype Flags = Flags(
    name: Option<string>, category: Option<string>, layer: Option<string>, severity: Option<string>,
    action: Option<string>, matchPattern: Option<string>, regexPattern: Option<string>)

  /** Where the new rule comes from: the flags, or the text of --rule-json once parsed. */
  datatype Body = FromFlags(flags: Flags) | InvalidJson | NotAnObject | FromJson(rule: Rule)

  datatype Edit = Add(id: string, body: Body) | Update(id: string, body: Body) | Delete(id: string)

  /** Exit code, or an exception that is not caught. */
  datatype Outcome = Exit(code: int) | Raised

  function OptStr(o: Option<string>): Json {
    if o.None? then JNull else JStr(o.value)
  }

  function Candidate(id: string, f: Flags): Rule {
    map["rule_id" := JStr(id), "name" := OptStr(f.name), "category" := OptStr(f.category),
        "layer" := OptStr(f.layer), "severity" := OptStr(f.severity), "action" := OptStr(f.action),
        "match_pattern" := OptStr(f.matchPattern), "regex_pattern" := OptStr(f.regexPattern)]
  }

  /** The rule an edit brings along, if it brings an object. */
  function BodyRule(id: string, body: Body): Option<Rule> {
    match body
    case FromFlags(flags) => Some(Candidate(id, flags))
    case FromJson(rule) => Some(rule)
    case _ => None
  }

  /** The first rule found under an id. */
  function IndexOf(rules: seq<Rule>, id: string): (r: Option<nat>)
    ensures r.Some? ==> r.value < |rules| && SearchId(rules[r.value]) == id
    ensures r.Some? ==> forall j :: 0 <= j < r.value ==> SearchId(rules[j]) != id
    ensures r.None? ==> forall j :: 0 <= j < |rules| ==> SearchId(rules[j]) != id
  {
    if rules == [] then None
    else if SearchId(rules[0]) == id then Some(0)
    else
      var rest := IndexOf(rules[1..], id);
      assert forall j :: 0 < j < |rules| ==> rules[j] == rules[1..][j - 1];
      if rest.Some? then Some(rest.value + 1) else None
  }

  /** The old rule with every value the candidate gives, and the id it was found under. */
  function Merged(current: Rule, candidate: Rule, id: string): Rule {
    var c := candidate["rule_id" := JStr(id)];
    current + map k | k in c && c[k] != JNull :: c[k]
  }

  function Removed(rules: seq<Rule>, i: nat): seq<Rule>
    requires i < |rules|
  {
    rules[..i] + rules[i + 1..]
  }

  /** Writing the list: only a valid one replaces the file. */
  function Saved(store: seq<Rule>, rules: seq<Rule>): (seq<Rule>, Outcome) {
    if !AllCheckable(rules) then (store, Raised)
    else if !ValidRules(rules) then (store, Exit(1))
    else (rules, Exit(0))
  }

  function Apply(store: seq<Rule>, edit: Edit): (seq<Rule>, Outcome) {
    var index := IndexOf(store, edit.id);
    match edit
    case Delete(id) =>
      if index.None? then (store, Exit(1)) else Saved(store, Removed(store, index.value))
    case Add(id, body) =>
      if body.InvalidJson? then (store, Exit(2))
      else if index.Some? then (store, Exit(1))
      else if body.NotAnObject? then (store, Raised)
      else Saved(store, store + [BodyRule(id, body).value])
    case Update(id, body) =>
      if body.InvalidJson? then (store, Exit(2))
      else if index.None? then (store, Exit(1))
      else if body.NotAnObject? then (store, Raised)
      else
        var i := index.value;
        Saved(store, store[i := Merged(store[i], BodyRule(id, body).value, id)])
  }

  class Store {
    var file: seq<Rule>

    constructor (file: seq<Rule>)
      ensures this.file == file
    {
      this.file := file;
    }

    method SaveRules(rules: seq<Rule>) returns (o: Outcome)
      modifies this
      ensures (file, o) == Saved(old(file), rules)
    {
      var raised, errors := ValidateRules(rules);
      if raised {
        return Raised;
      }
      if errors != [] {
        return Exit(1);
      }
      file := rules;
      return Exit(0);
    }

    method MutateRules(edit: Edit) returns (o: Outcome)
      modifies this
      ensures (file, o) == Apply(old(file), edit)
    {
      var rules := file;
      var index := IndexOf(rules, edit.id);
      match edit {
        case Delete(id) =>
          if index.None? {
            return Exit(1);
          }
          rules := rules[..index.value] + rules[index.value + 1..];
        case Add(id, body) =>
          if body.InvalidJson? {
            return Exit(2);
          }
          if index.Some? {
            return Exit(1);
          }
          if body.NotAnObject? {
            return Raised;
          }
          rules := rules + [BodyRule(id, body).value];
        case Update(id, body) =>
          if body.InvalidJson? {
            return Exit(2);
          }
          if index.None? {
            return Exit(1);
          }
          if body.NotAnObject? {
            return Raised;
          }
          rules := rules[index.value := Merged(rules[index.value], BodyRule(id, body).value, id)];
      }
      o := SaveRules(rules);
    }
  }

  // ---------- What edits keep ----------

  /** An edit that does not succeed leaves the file alone; one that does leaves a valid list. */
  lemma EditIsAllOrNothing(store: seq<Rule>, edit: Edit)
    ensures var (after, o) := Apply(store, edit);
      && (o != Exit(0) ==> after == store)
      && (o == Exit(0) ==> ValidRules(after) && AllCheckable(after))
  {}

  function RunEdits(store: seq<Rule>, edits: seq<Edit>): seq<Rule> {
    if edits == [] then store else Apply(RunEdits(store, edits[..|edits| - 1]), edits[|edits| - 1]).0
  }

  /** Over any run of edits: whatever is on file is either what was there at the start or a valid list. */
  lemma {:induction false} EveryWrittenListIsValid(store: seq<Rule>, edits: seq<Edit>)
    ensures RunEdits(store, edits) == store || ValidRules(RunEdits(store, edits))
    ensures ValidRules(store) ==> ValidRules(RunEdits(store, edits))
  {
    if edits == [] {
    } else {
      EveryWrittenListIsValid(store, edits[..|edits| - 1]);
      EditIsAllOrNothing(RunEdits(store, edits[..|edits| - 1]), edits[|edits| - 1]);
    }
  }

  /** A merge takes what the candidate gives, keeps the rest, and stays under the same id. */
  lemma MergedKeys(current: Rule, candidate: Rule, id: string, key: string)
    ensures SearchId(Merged(current, candidate, id)) == id
    ensures key in current ==> key in Merged(current, candidate, id)
    ensures key != "rule_id" ==>
      Get(Merged(current, candidate, id), key)
      == if Get(candidate, key) != JNull then Get(candidate, key) else Get(current, key)
  {
    var c := candidate["rule_id" := JStr(id)];
    assert "rule_id" in c && c["rule_id"] != JNull;
  }

  /** A successful update keeps length, order, every other rule and every id, and changes in its rule
      exactly what the candidate gives. */
  lemma UpdateKeepsTheRest(store: seq<Rule>, id: string, body: Body)
    requires Apply(store, Update(id, body)).1 == Exit(0)
    ensures var after := Apply(store, Update(id, body)).0;
      var i := IndexOf(store, id).value;
      && |after| == |store| && i < |store|
      && (forall j :: 0 <= j < |store| ==> SearchId(after[j]) == SearchId(store[j]))
      && (forall j :: 0 <= j < |store| && j != i ==> after[j] == store[j])
      && (forall k :: k in store[i] ==> k in after[i])
      && (forall k | k != "rule_id" :: Get(after[i], k)
            == if Get(BodyRule(id, body).value, k) != JNull then Get(BodyRule(id, body).value, k) else Get(store[i], k))
  {
    hide Merged, SearchId, Get, Truthy, Str, RuleOk, Hashable, RuleId, HasPattern;
    var i := IndexOf(store, id).value;
    forall k {
      MergedKeys(store[i], BodyRule(id, body).value, id, k);
    }
    MergedKeys(store[i], BodyRule(id, body).value, id, "");
    assert SearchId(store[i]) == id;
  }

  /** A successful delete takes out the first rule found under the id and keeps all others in order. */
  lemma DeleteRemovesOne(store: seq<Rule>, id: string)
    requires Apply(store, Delete(id)).1 == Exit(0)
    ensures var after := Apply(store, Delete(id)).0;
      exists i: nat ::
        && i < |store| && SearchId(store[i]) == id && (forall j :: 0 <= j < i ==> SearchId(store[j]) != id)
        && |after| == |store| - 1
        && (forall j :: 0 <= j < i ==> after[j] == store[j])
        && (forall j :: i <= j < |after| ==> after[j] == store[j + 1])
  {
    hide SearchId, RuleOk, RuleId, Checkable;
    var i := IndexOf(store, id).value;
    assert forall j :: i <= j < |store| - 1 ==> Removed(store, i)[j] == store[j + 1];
  }

  /** A successful add puts the rule it brings behind the unchanged list. */
  lemma AddAppends(store: seq<Rule>, id: string, body: Body)
    requires Apply(store, Add(id, body)).1 == Exit(0)
    ensures BodyRule(id, body).Some?
    ensures Apply(store, Add(id, body)).0 == store + [BodyRule(id, body).value]
  {
    hide Candidate, RuleOk, RuleId, Checkable;
  }

  /** The rule built from flags holds each flag under its own key, and null for a flag not given. */
  lemma FlagKeys(id: string, f: Flags)
    ensures BodyRule(id, FromFlags(f)).Some?
    ensures var c := BodyRule(id, FromFlags(f)).value;
      && c.Keys == {"rule_id", "name", "category", "layer", "severity", "action", "match_pattern", "regex_pattern"}
      && c["rule_id"] == JStr(id)
      && c["name"] == (if f.name.Some? then JStr(f.name.value) else JNull)
      && c["category"] == (if f.category.Some? then JStr(f.category.value) else JNull)
      && c["layer"] == (if f.layer.Some? then JStr(f.layer.value) else JNull)
      && c["severity"] == (if f.severity.Some? then JStr(f.severity.value) else JNull)
      && c["action"] == (if f.action.Some? then JStr(f.action.value) else JNull)
      && c["match_pattern"] == (if f.matchPattern.Some? then JStr(f.matchPattern.value) else JNull)
      && c["regex_pattern"] == (if f.regexPattern.Some? then JStr(f.regexPattern.value) else JNull)
  {}

  /** What a valid rule is, word by word. */
  lemma ValidRuleMeans(r: Rule)
    ensures RuleOk(r) <==>
      && "rule_id" in r && Str(r["rule_id"]) != ""
      && "name" in r && Truthy(r["name"])
      && "severity" in r && r["severity"].JStr? && r["severity"].s in {"Low", "Medium", "High", "Critical"}
      && "action" in r && r["action"].JStr?
      && r["action"].s in {"Pass", "Log", "Alert", "RateLimit", "Block", "Drop", "Quarantine", "Escalate"}
      && exists key :: key in {"match_pattern", "regex_pattern", "fast_pattern"} && key in r && Truthy(r[key])
    ensures RuleOk(r) ==> Checkable(r) && RuleId(r) == SearchId(r)
  {
    assert !Truthy(JNull) && Str(JNull) == "None";
    var p, q, f := "match_pattern", "regex_pattern", "fast_pattern";
    assert p in {p, q, f} && q in {p, q, f} && f in {p, q, f};
    hide Truthy;
  }

  /** The refusals: text that is not JSON is 2; an id that is taken, or not there, is 1; what is not an object
      raises; a list that does not pass validation raises or is 1. */
  lemma RefusalCodes(store: seq<Rule>, edit: Edit)
    ensures var o := Apply(store, edit).1;
      && (edit.Delete? && !Known(store, edit.id) ==> o == Exit(1))
      && (!edit.Delete? && edit.body.InvalidJson? ==> o == Exit(2))
      && (!edit.Delete? && !edit.body.InvalidJson? ==>
            && (edit.Add? && Known(store, edit.id) ==> o == Exit(1))
            && (edit.Update? && !Known(store, edit.id) ==> o == Exit(1))
            && (edit.body.NotAnObject? && (edit.Add? <==> !Known(store, edit.id)) ==> o == Raised))
      && (o == Exit(2) ==> !edit.Delete? && edit.body.InvalidJson?)
      && (o == Raised || o in {Exit(0), Exit(1), Exit(2)})
  {
    hide SearchId, RuleOk, Checkable, RuleId, Merged, Candidate, ValidRules, AllCheckable;
    if IndexOf(store, edit.id).Some? {
      assert store[IndexOf(store, edit.id).value] in store;
    }
  }

  /** Some rule is found under the id. */
  predicate Known(store: seq<Rule>, id: string) {
    exists r :: r in store && SearchId(r) == id
  }

  /** On a valid list an edit succeeds exactly when: a delete finds its id; an add finds its id free and brings a
      rule that is valid and whose own id is free; an update finds its id and leaves a valid rule there. */
  lemma EditSucceedsExactly(store: seq<Rule>, edit: Edit)
    requires ValidRules(store)
    ensures edit.Delete? ==> (Apply(store, edit).1 == Exit(0) <==> Known(store, edit.id))
    ensures edit.Add? ==>
      (Apply(store, edit).1 == Exit(0)
       <==> !Known(store, edit.id) && BodyRule(edit.id, edit.body).Some?
            && RuleOk(BodyRule(edit.id, edit.body).value)
            && forall r :: r in store ==> RuleId(r) != RuleId(BodyRule(edit.id, edit.body).value))
    ensures edit.Update? ==>
      (Apply(store, edit).1 == Exit(0)
       <==> Known(store, edit.id) && BodyRule(edit.id, edit.body).Some? && IndexOf(store, edit.id).Some?
            && RuleOk(Merged(store[IndexOf(store, edit.id).value], BodyRule(edit.id, edit.body).value, edit.id)))
  {
    hide RuleOk, Checkable, SearchId, RuleId, Merged, Candidate;
    forall r | r in store
      ensures RuleOk(r) && Checkable(r) && RuleId(r) == SearchId(r)
    {
      ValidRuleMeans(r);
    }
    match edit
    case Delete(id) =>
      if IndexOf(store, id).Some? {
        RemovedStaysValid(store, IndexOf(store, id).value);
      }
    case Add(id, body) =>
      if BodyRule(id, body).Some? {
        AppendedValid(store, BodyRule(id, body).value);
      }
    case Update(id, body) =>
      if IndexOf(store, id).Some? && BodyRule(id, body).Some? {
        MergedKeys(store[IndexOf(store, id).value], BodyRule(id, body).value, id, "");
        ReplacedValid(store, IndexOf(store, id).value, Merged(store[IndexOf(store, id).value], BodyRule(id, body).value, id));
      }
  }

  lemma RemovedStaysValid(store: seq<Rule>, i: nat)
    requires ValidRules(store) && AllCheckable(store) && i < |store|
    ensures ValidRules(Removed(store, i)) && AllCheckable(Removed(store, i))
  {
    hide RuleOk, Checkable, RuleId;
    var rest := Removed(store, i);
    assert forall j :: 0 <= j < |rest| ==> rest[j] == store[if j < i then j else j + 1];
    forall j, k | 0 <= j < k < |rest|
      ensures RuleId(rest[j]) != RuleId(rest[k])
    {
      assert (if j < i then j else j + 1) < if k < i then k else k + 1;
    }
  }

  lemma AppendedValid(store: seq<Rule>, rule: Rule)
    requires ValidRules(store) && AllCheckable(store)
    ensures ValidRules(store + [rule]) && AllCheckable(store + [rule])
      <==> RuleOk(rule) && forall r :: r in store ==> RuleId(r) != RuleId(rule)
  {
    hide RuleOk, Checkable, RuleId;
    ValidRuleMeans(rule);
    var all := store + [rule];
    assert all[|store|] == rule && forall j :: 0 <= j < |store| ==> all[j] == store[j];
    if ValidRules(all) {
      forall r | r in store
        ensures RuleId(r) != RuleId(rule)
      {
        var j :| 0 <= j < |store| && store[j] == r;
        assert RuleId(all[j]) != RuleId(all[|store|]);
      }
    }
  }

  lemma ReplacedValid(store: seq<Rule>, i: nat, rule: Rule)
    requires ValidRules(store) && AllCheckable(store) && i < |store| && SearchId(rule) == SearchId(store[i])
    ensures ValidRules(store[i := rule]) && AllCheckable(store[i := rule]) <==> RuleOk(rule)
  {
    hide RuleOk, Checkable, RuleId, SearchId;
    ValidRuleMeans(rule);
    ValidRuleMeans(store[i]);
    var all := store[i := rule];
    assert all[i] == rule && forall j :: 0 <= j < |store| && j != i ==> all[j] == store[j];
    assert rule in all;
  }

  /** A rule added and then deleted under the same id leaves the file as it was exactly when the added
      rule carries that id; a rule built from flags always does. */
  lemma AddThenDelete(store: seq<Rule>, id: string, body: Body)
    requires Apply(store, Add(id, body)).1 == Exit(0)
    ensures var added := Apply(store, Add(id, body)).0;
      var own := SearchId(BodyRule(id, body).value) == id;
      && (Apply(added, Delete(id)) == (store, Exit(0)) <==> own)
      && (!own ==> Apply(added, Delete(id)) == (added, Exit(1)))
    ensures body.FromFlags? ==> SearchId(BodyRule(id, body).value) == id
  {
    hide Merged, RuleOk, Checkable, DistinctIds, SearchId, IndexOf, Candidate, Removed;
    var rule := BodyRule(id, body).value;
    var added := store + [rule];
    OnlyLastCanMatch(store, rule, id);
    if SearchId(rule) == id {
      PrefixValid(store, rule);
    }
    FlagsCarryId(id, body);
  }

  lemma OnlyLastCanMatch(store: seq<Rule>, rule: Rule, id: string)
    requires IndexOf(store, id).None?
    ensures IndexOf(store + [rule], id) == if SearchId(rule) == id then Some(|store|) else None
    ensures Removed(store + [rule], |store|) == store != store + [rule]
  {
    hide IndexOf, SearchId;
    var added := store + [rule];
    assert added[|store|] == rule;
    assert forall j :: 0 <= j < |store| ==> added[j] == store[j];
    assert |added| != |store|;
  }

  lemma FlagsCarryId(id: string, body: Body)
    ensures body.FromFlags? ==> SearchId(BodyRule(id, body).value) == id
  {}

  lemma PrefixValid(store: seq<Rule>, rule: Rule)
    requires ValidRules(store + [rule]) && AllCheckable(store + [rule])
    ensures ValidRules(store) && AllCheckable(store)
  {
    var added := store + [rule];
    assert forall j :: 0 <= j < |store| ==> added[j] == store[j];
    assert forall r :: r in store ==> r in added;
  }
}
