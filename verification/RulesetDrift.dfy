/** Drift detection between a desired and a live repository ruleset.
    Models _strip_comments, _filter_for_compare, _content_equal and _first_structural_diff of
    src/baton_harness/chain/ruleset_status.py. */
module RulesetDrift {
  import opened Prelude
  import opened JsonValues
  import opened RuleMatching
  import opened RuleComparison

  // ----- Comments -----

  const COMMENT := "_comment"

  function StripComments(value: Json): Json {
    match value
    case Obj(fields) => Obj(map key | key in fields && key != COMMENT :: StripComments(fields[key]))
    case Arr(items) => Arr(seq(|items|, i requires 0 <= i < |items| => StripComments(items[i])))
    case _ => value
  }

  ghost predicate CommentFree(value: Json) {
    match value
    case Obj(fields) => COMMENT !in fields && forall key :: key in fields ==> CommentFree(fields[key])
    case Arr(items) => forall i :: 0 <= i < |items| ==> CommentFree(items[i])
    case _ => true
  }

  datatype Step = Key(key: string) | Index(i: nat)

  /** The value a path leads to. */
  function At(value: Json, path: seq<Step>): Option<Json> {
    if path == [] then Some(value)
    else match (value, path[0])
      case (Obj(fields), Key(key)) => if key in fields then At(fields[key], path[1..]) else None
      case (Arr(items), Index(i)) => if i < |items| then At(items[i], path[1..]) else None
      case _ => None
  }

  function StripFound(found: Option<Json>): Option<Json> {
    if found.Some? then Some(StripComments(found.value)) else None
  }

  /** Nothing but comments goes: along a path that names no comment the same value is found, stripped. */
  lemma {:induction false} StripKeepsPaths(value: Json, path: seq<Step>)
    requires Key(COMMENT) !in path
    ensures At(StripComments(value), path) == StripFound(At(value, path))
    decreases |path|
  {
    if path != [] {
      match (value, path[0])
      case (Obj(fields), Key(key)) =>
        if key in fields { StripKeepsPaths(fields[key], path[1..]); }
      case (Arr(items), Index(i)) =>
        if i < |items| { StripKeepsPaths(items[i], path[1..]); }
      case _ =>
    }
  }

  /** And every comment goes. */
  lemma {:induction false} StripLeavesNoComment(value: Json)
    ensures CommentFree(StripComments(value))
  {
    match value
    case Obj(fields) =>
      forall key | key in fields ensures CommentFree(StripComments(fields[key])) {
        StripLeavesNoComment(fields[key]);
      }
    case Arr(items) =>
      forall i | 0 <= i < |items| ensures CommentFree(StripComments(items[i])) {
        StripLeavesNoComment(items[i]);
      }
    case _ =>
  }

  lemma {:induction false} StripFixesCommentFree(value: Json)
    requires CommentFree(value)
    ensures StripComments(value) == value
  {
    match value
    case Obj(fields) =>
      forall key | key in fields ensures StripComments(fields[key]) == fields[key] {
        StripFixesCommentFree(fields[key]);
      }
    case Arr(items) =>
      forall i | 0 <= i < |items| ensures StripComments(items[i]) == items[i] {
        StripFixesCommentFree(items[i]);
      }
      assert StripComments(value).items == items;
    case _ =>
  }

  lemma StripIsIdempotent(value: Json)
    ensures StripComments(StripComments(value)) == StripComments(value)
  {
    StripLeavesNoComment(value);
    StripFixesCommentFree(StripComments(value));
  }

  // ----- The compared fields of a ruleset -----

  type Document = map<string, Json>

  /** The comment-free fields of `keys`. */
  function FilterForCompare(doc: Document, keys: seq<string>): Document {
    map key | key in keys && key in doc && key != COMMENT :: StripComments(doc[key])
  }

  /** An absent `rules` field compares as an empty list. */
  function RulesField(doc: Document): Json {
    if "rules" in doc && "rules" != COMMENT then StripComments(doc["rules"]) else Arr([])
  }

  predicate RuleShaped(value: Json, nullParameters: bool) {
    value.Obj? && "type" in value.fields && value.fields["type"].Str?
    && ("parameters" in value.fields ==>
          value.fields["parameters"].Obj? || (nullParameters && value.fields["parameters"].Null?))
  }

  /** A list of rule objects; only the live side may say `"parameters": null`. */
  predicate RulesShaped(value: Json, nullParameters: bool) {
    value.Arr? && forall i :: 0 <= i < |value.items| ==> RuleShaped(value.items[i], nullParameters)
  }

  function RuleOf(value: Json): Rule
    requires RuleShaped(value, true)
  {
    Rule(value.fields["type"].s,
         if "parameters" in value.fields && value.fields["parameters"].Obj?
         then Some(value.fields["parameters"].fields) else None)
  }

  function RulesOf(value: Json): seq<Rule>
    requires RulesShaped(value, true)
  {
    seq(|value.items|, i requires 0 <= i < |value.items| => RuleOf(value.items[i]))
  }

  /** A rule as a JSON object. */
  function ToJson(rule: Rule): Json {
    Obj(map["type" := Str(rule.kind)]
        + if rule.parameters.Some? then map["parameters" := Obj(rule.parameters.value)] else map[])
  }

  /** Reading a list of rules gives back what was written. */
  lemma RulesAreRead(rules: seq<Rule>)
    ensures var value := Arr(seq(|rules|, i requires 0 <= i < |rules| => ToJson(rules[i])));
            RulesShaped(value, false) && RulesShaped(value, true) && RulesOf(value) == rules
  {
  }

  /** What comparing the `rules` field needs of the two documents not to raise. */
  predicate Comparable(desired: Document, live: Document) {
    RulesShaped(RulesField(desired), false) && RulesShaped(RulesField(live), true)
  }

  ghost predicate RulesFieldAgrees(desired: Document, live: Document)
    requires Comparable(desired, live)
  {
    RulesAgree(GitHubDefaults, RulesOf(RulesField(desired)), RulesOf(RulesField(live)))
  }

  function Field(doc: Document, key: string): Option<Json> {
    if key in doc && key != COMMENT then Some(StripComments(doc[key])) else None
  }

  // ----- _content_equal -----

  /** Both documents have the key with the same comment-free value, or neither has it; `rules` by matching. */
  ghost predicate FieldAgrees(desired: Document, live: Document, key: string)
    requires key == "rules" ==> Comparable(desired, live)
  {
    if key == "rules" then RulesFieldAgrees(desired, live) else Field(desired, key) == Field(live, key)
  }

  method ContentEqual(desired: Document, live: Document, keys: seq<string>) returns (equal: bool)
    requires "rules" in keys ==> Comparable(desired, live)
    ensures equal <==> forall key :: key in keys ==> FieldAgrees(desired, live, key)
    ensures equal <==>
            && ("rules" in keys ==> RulesFieldAgrees(desired, live))
            && forall key :: key in keys && key != "rules" && key != "_comment" ==>
                 && (key in desired <==> key in live)
                 && (key in desired && key in live ==> StripComments(desired[key]) == StripComments(live[key]))
  {
    var d, c := FilterForCompare(desired, keys), FilterForCompare(live, keys);
    if "rules" in d || "rules" in c {
      var same := RulesEqual(GitHubDefaults, RulesOf(RulesField(desired)), RulesOf(RulesField(live)));
      if !same {
        assert !FieldAgrees(desired, live, "rules");
        return false;
      }
    } else if "rules" in keys {
      assert RulesOf(RulesField(desired)) == [] == RulesOf(RulesField(live));
    }
    assert "rules" in keys ==> FieldAgrees(desired, live, "rules");
    equal := d - {"rules"} == c - {"rules"};
    SameFields(desired, live, keys);
  }

  lemma SameFields(desired: Document, live: Document, keys: seq<string>)
    ensures FilterForCompare(desired, keys) - {"rules"} == FilterForCompare(live, keys) - {"rules"} <==>
            forall key :: key in keys && key != "rules" ==> Field(desired, key) == Field(live, key)
  {
    var d, c := FilterForCompare(desired, keys) - {"rules"}, FilterForCompare(live, keys) - {"rules"};
    forall key | key in keys && key != "rules"
      ensures Field(desired, key) == (if key in d then Some(d[key]) else None)
      ensures Field(live, key) == (if key in c then Some(c[key]) else None)
    {
    }
    if forall key :: key in keys && key != "rules" ==> Field(desired, key) == Field(live, key) {
      assert d.Keys == c.Keys;
    }
  }

  // ----- _first_structural_diff -----

  function GetField(doc: Document, key: string): Json {
    if Field(doc, key).Some? then Field(doc, key).value else Null
  }

  /** As FieldAgrees, but an absent key reads as null. */
  ghost predicate FieldLooksEqual(desired: Document, live: Document, key: string)
    requires key == "rules" ==> Comparable(desired, live)
  {
    if key == "rules" then RulesFieldAgrees(desired, live) else GetField(desired, key) == GetField(live, key)
  }

  ghost predicate FirstDifference(desired: Document, live: Document, keys: seq<string>, i: nat)
    requires "rules" in keys ==> Comparable(desired, live)
  {
    i < |keys| && !FieldLooksEqual(desired, live, keys[i])
    && forall j :: 0 <= j < i ==> FieldLooksEqual(desired, live, keys[j])
  }

  method FirstStructuralDiff(desired: Document, live: Document, keys: seq<string>) returns (diff: Option<string>)
    requires "rules" in keys ==> Comparable(desired, live)
    ensures diff == None <==> forall key :: key in keys ==> FieldLooksEqual(desired, live, key)
    ensures diff == None <==>
            && ("rules" in keys ==> RulesFieldAgrees(desired, live))
            && forall key :: key in keys && key != "rules" && key != "_comment" ==>
                 StripComments(Get(desired, key)) == StripComments(Get(live, key))
    ensures diff.Some? ==> exists i: nat :: FirstDifference(desired, live, keys, i) && keys[i] == diff.value
  {
    var d, c := FilterForCompare(desired, keys), FilterForCompare(live, keys);
    for i := 0 to |keys|
      invariant forall j :: 0 <= j < i ==> FieldLooksEqual(desired, live, keys[j])
    {
      var key := keys[i];
      if key == "rules" {
        var same := RulesEqual(GitHubDefaults, RulesOf(RulesField(desired)), RulesOf(RulesField(live)));
        if !same {
          assert FirstDifference(desired, live, keys, i);
          return Some(key);
        }
      } else if Get(d, key) != Get(c, key) {
        assert FirstDifference(desired, live, keys, i);
        return Some(key);
      }
    }
    return None;
  }

  // ----- The two comparators -----

  /** One side says null, the other says nothing. */
  ghost predicate NullAgainstAbsent(desired: Document, live: Document, key: string) {
    key != "rules" && ((Field(desired, key) == Some(Null) && Field(live, key) == None)
                       || (Field(desired, key) == None && Field(live, key) == Some(Null)))
  }

  /** _content_equal accepts exactly when _first_structural_diff finds nothing and no compared key is null on one
      side and absent on the other. */
  lemma ComparatorsAgree(desired: Document, live: Document, keys: seq<string>)
    requires "rules" in keys ==> Comparable(desired, live)
    ensures (forall key :: key in keys ==> FieldAgrees(desired, live, key)) <==>
            (forall key :: key in keys ==> FieldLooksEqual(desired, live, key))
            && (forall key :: key in keys ==> !NullAgainstAbsent(desired, live, key))
  {
    forall key | key in keys
      ensures FieldAgrees(desired, live, key) <==>
              FieldLooksEqual(desired, live, key) && !NullAgainstAbsent(desired, live, key)
    {
    }
  }

  /** So they can disagree. */
  lemma ComparatorsDisagree()
    ensures var desired, live, keys := map["target" := Null], map[], ["target"];
            Comparable(desired, live)
            && (forall key :: key in keys ==> FieldLooksEqual(desired, live, key))
            && !(forall key :: key in keys ==> FieldAgrees(desired, live, key))
  {
    assert "target" in ["target"];
    assert Field(map["target" := Null], "target") == Some(Null);
  }

  /** A ruleset compared with itself shows no drift, whatever the order of its rules. */
  lemma NoDriftFromItself(doc: Document, keys: seq<string>)
    requires "rules" in keys ==> Comparable(doc, doc)
    ensures forall key :: key in keys ==> FieldAgrees(doc, doc, key)
  {
    if "rules" in keys { AgreementIsReflexive(GitHubDefaults, RulesOf(RulesField(doc))); }
  }
}
