/** Kubernetes label selectors translated to SQL conditions on a JSON column. SQL is
    three-valued: a missing label makes a comparison unknown, and a row is kept only
    when every condition is true. */
module LabelSelector {
  import opened Ordering

  datatype Operator =
    | Equals | DoubleEquals | NotEquals | In | NotIn | Exists | DoesNotExist | GreaterThan | LessThan

  datatype Requirement = Requirement(key: string, operator: Operator, values: seq<string>)

  /** A selector, or one that can select nothing. */
  datatype Selector = Selectable(requirements: seq<Requirement>) | Nothing

  predicate Unsupported(op: Operator) { op.GreaterThan? || op.LessThan? }

  predicate Negative(op: Operator) { op.NotEquals? || op.NotIn? }

  /** What the constructor of a requirement guarantees. */
  predicate WellFormed(r: Requirement) {
    && (r.operator.Equals? || r.operator.DoubleEquals? || r.operator.NotEquals? ==> |r.values| == 1)
    && (r.operator.In? || r.operator.NotIn? ==> r.values != [])
  }

  // --- What Kubernetes says -----------------------------------------------------------

  /** A row's labels; None when the object has no labels field. */
  type Labels = Option<map<string, string>>

  predicate HasLabel(labels: Labels, key: string) { labels.Some? && key in labels.value }

  predicate RequirementMatches(r: Requirement, labels: Labels)
    requires !Unsupported(r.operator)
  {
    var has := HasLabel(labels, r.key);
    match r.operator
    case NotEquals => !has || labels.value[r.key] !in r.values
    case NotIn => !has || labels.value[r.key] !in r.values
    case Exists => has
    case DoesNotExist => !has
    case _ => has && labels.value[r.key] in r.values
  }

  predicate Supported(selector: Selector) {
    selector.Selectable? ==> forall r :: r in selector.requirements ==> !Unsupported(r.operator)
  }

  predicate Matches(selector: Selector, labels: Labels)
    requires Supported(selector)
  {
    match selector
    case Nothing => false
    case Selectable(requirements) => forall r :: r in requirements ==> RequirementMatches(r, labels)
  }

  // --- What SQL says ---------------------------------------------------------------------

  datatype Ternary = Yes | No | Unknown

  function Negated(t: Ternary): Ternary {
    match t case Yes => No case No => Yes case Unknown => Unknown
  }

  function Both(a: Ternary, b: Ternary): Ternary {
    if a == No || b == No then No else if a == Unknown || b == Unknown then Unknown else Yes
  }

  function Either(a: Ternary, b: Ternary): Ternary { Negated(Both(Negated(a), Negated(b))) }

  function Decided(b: bool): Ternary { if b then Yes else No }

  datatype Sql =
    | Equal(key: string, value: string)
    | Different(key: string, value: string)
    | EqualAny(key: string, values: seq<string>)
    | DifferentAll(key: string, values: seq<string>)
    | KeyExists(key: string)
    | Not(inner: Sql)

  /** The text of a label: NULL when the label, or the labels object, is missing. */
  function Text(labels: Labels, key: string): Option<string> {
    if HasLabel(labels, key) then Some(labels.value[key]) else None
  }

  function Compare(a: Option<string>, b: string): Ternary { if a == None then Unknown else Decided(a.value == b) }

  /** `= ANY`: a disjunction over the array. */
  function AnyEqual(a: Option<string>, values: seq<string>): Ternary {
    if values == [] then No else Either(Compare(a, values[0]), AnyEqual(a, values[1..]))
  }

  /** `!= ALL`: a conjunction over the array. */
  function AllDifferent(a: Option<string>, values: seq<string>): Ternary {
    if values == [] then Yes else Both(Negated(Compare(a, values[0])), AllDifferent(a, values[1..]))
  }

  function Eval(e: Sql, labels: Labels): Ternary {
    match e
    case Equal(key, value) => Compare(Text(labels, key), value)
    case Different(key, value) => Negated(Compare(Text(labels, key), value))
    case EqualAny(key, values) => AnyEqual(Text(labels, key), values)
    case DifferentAll(key, values) => AllDifferent(Text(labels, key), values)
    case KeyExists(key) => if labels == None then Unknown else Decided(key in labels.value)
    case Not(inner) => Negated(Eval(inner, labels))
  }

  /** All WHERE conditions together. */
  function Where(conditions: seq<Sql>, labels: Labels): Ternary {
    if conditions == [] then Yes
    else Both(Where(conditions[..|conditions| - 1], labels), Eval(conditions[|conditions| - 1], labels))
  }

  predicate Kept(conditions: seq<Sql>, labels: Labels) { Where(conditions, labels) == Yes }

  // --- The translation --------------------------------------------------------------------

  function Translate(r: Requirement): Sql
    requires WellFormed(r) && !Unsupported(r.operator)
  {
    match r.operator
    case Equals => Equal(r.key, r.values[0])
    case DoubleEquals => Equal(r.key, r.values[0])
    case NotEquals => Different(r.key, r.values[0])
    case In => EqualAny(r.key, r.values)
    case NotIn => DifferentAll(r.key, r.values)
    case Exists => KeyExists(r.key)
    case DoesNotExist => Not(KeyExists(r.key))
  }

  ghost predicate Translates(conditions: seq<Sql>, requirements: seq<Requirement>) {
    && |conditions| == |requirements|
    && forall i :: 0 <= i < |conditions| ==>
         && WellFormed(requirements[i]) && !Unsupported(requirements[i].operator)
         && conditions[i] == Translate(requirements[i])
  }

  /** No conditions for a selector that can select nothing; None, an error, for an
      operator SQL has no form for. */
  method BuildLabelSelectorExpressions(selector: Selector) returns (conditions: Option<seq<Sql>>)
    requires selector.Selectable? ==> forall r :: r in selector.requirements ==> WellFormed(r)
    ensures selector == Nothing ==> conditions == Some([])
    ensures conditions.Some? <==> Supported(selector)
    ensures selector.Selectable? && conditions.Some? ==> Translates(conditions.value, selector.requirements)
  {
    if selector == Nothing { return Some([]); }
    var requirements := selector.requirements;
    var result := [];
    for i := 0 to |requirements|
      invariant Translates(result, requirements[..i])
    {
      var r := requirements[i];
      assert r in requirements;
      if r.operator.GreaterThan? || r.operator.LessThan? { return None; }
      var condition;
      match r.operator {
        case Equals => condition := Equal(r.key, r.values[0]);
        case DoubleEquals => condition := Equal(r.key, r.values[0]);
        case NotEquals => condition := Different(r.key, r.values[0]);
        case In => condition := EqualAny(r.key, r.values);
        case NotIn => condition := DifferentAll(r.key, r.values);
        case Exists => condition := KeyExists(r.key);
        case DoesNotExist => condition := Not(KeyExists(r.key));
      }
      result := result + [condition];
    }
    assert requirements[..|requirements|] == requirements;
    forall r | r in requirements ensures !Unsupported(r.operator) {
      var i :| 0 <= i < |requirements| && requirements[i] == r;
    }
    return Some(result);
  }

  // --- Agreement ------------------------------------------------------------------------------

  lemma {:induction false} AnyEqualTruth(a: Option<string>, values: seq<string>)
    ensures AnyEqual(a, values) == Yes <==> a.Some? && a.value in values
    ensures a.Some? ==> AnyEqual(a, values) != Unknown
  {
    if values != [] { AnyEqualTruth(a, values[1..]); }
  }

  lemma {:induction false} AllDifferentTruth(a: Option<string>, values: seq<string>)
    ensures AllDifferent(a, values) == Yes <==> values == [] || (a.Some? && a.value !in values)
    ensures a.Some? ==> AllDifferent(a, values) != Unknown
  {
    if values != [] { AllDifferentTruth(a, values[1..]); }
  }

  lemma {:induction false} WhereAll(conditions: seq<Sql>, labels: Labels)
    ensures Kept(conditions, labels) <==> forall i :: 0 <= i < |conditions| ==> Eval(conditions[i], labels) == Yes
  {
    if conditions != [] {
      var front := conditions[..|conditions| - 1];
      WhereAll(front, labels);
      assert forall i :: 0 <= i < |front| ==> front[i] == conditions[i];
    }
  }

  /** What SQL asks of a row beyond the selector: a label under every key compared
      by `!=` or `notin`, and a labels object for `!key`. */
  predicate Visible(r: Requirement, labels: Labels) {
    && (Negative(r.operator) ==> HasLabel(labels, r.key))
    && (r.operator.DoesNotExist? ==> labels.Some?)
  }

  lemma OneAgrees(r: Requirement, labels: Labels)
    requires WellFormed(r) && !Unsupported(r.operator)
    ensures Eval(Translate(r), labels) == Yes <==> RequirementMatches(r, labels) && Visible(r, labels)
  {
    AnyEqualTruth(Text(labels, r.key), r.values);
    AllDifferentTruth(Text(labels, r.key), r.values);
    if |r.values| == 1 { assert r.values == [r.values[0]]; }
  }

  /** A row is kept by the generated conditions if and only if it matches the
      selector and shows SQL every label the selector's negations compare. */
  lemma KeptIffMatchesVisibly(requirements: seq<Requirement>, conditions: seq<Sql>, labels: Labels)
    requires Translates(conditions, requirements)
    ensures Supported(Selectable(requirements))
    ensures Kept(conditions, labels) <==>
        Matches(Selectable(requirements), labels) && forall r :: r in requirements ==> Visible(r, labels)
  {
    hide RequirementMatches, Visible, Eval;
    WhereAll(conditions, labels);
    forall r | r in requirements ensures !Unsupported(r.operator) {
      var i :| 0 <= i < |requirements| && requirements[i] == r;
    }
    forall i | 0 <= i < |requirements|
      ensures Eval(conditions[i], labels) == Yes <==>
                RequirementMatches(requirements[i], labels) && Visible(requirements[i], labels)
    {
      OneAgrees(requirements[i], labels);
    }
    if Kept(conditions, labels) {
      forall r | r in requirements ensures RequirementMatches(r, labels) && Visible(r, labels) {
        var i :| 0 <= i < |requirements| && requirements[i] == r;
      }
    }
    if Matches(Selectable(requirements), labels) && forall r :: r in requirements ==> Visible(r, labels) {
      forall i | 0 <= i < |conditions| ensures Eval(conditions[i], labels) == Yes {
        assert requirements[i] in requirements;
      }
    }
  }

  /** A row that lacks a label, be it that it has others or none, is matched by `!=` on
      that label, and dropped. */
  lemma NegationDropsRow(key: string, value: string, labels: Labels)
    requires labels == None || key !in labels.value
    ensures var r := Requirement(key, NotEquals, [value]);
            Matches(Selectable([r]), labels) && !Kept([Translate(r)], labels)
  {
    var conditions := [Different(key, value)];
    assert conditions[..|conditions| - 1] == [];
    assert Eval(conditions[0], labels) == Unknown;
  }

  /** A selector that selects nothing lets every row through. */
  lemma NothingKeepsAll(labels: Labels)
    ensures !Matches(Nothing, labels) && Kept([], labels)
  {
  }
}
