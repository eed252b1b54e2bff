/**
 * The block search compiler: a block criteria object, or an array of them,
 * becomes one expression tree. Each recognised field contributes at most one
 * comparison, the comparisons of one object are joined with `and` in the
 * field table's order, and the objects of an array are joined with `or` in
 * input order. A single comparison or a single alternative is returned
 * unwrapped, and an object with nothing recognised compiles to `void`.
 */
module BlockFilter {

  import opened Wrappers
  import opened Expressions

  /** One filterable block property: its wire name and whether it takes `{from, to}` ranges. */
  datatype FieldRule = FieldRule(name: string, rangeCapable: bool)

  /** The block fields in declaration order. */
  const BlockFields: seq<FieldRule> := [
    FieldRule("id", false),
    FieldRule("version", false),
    FieldRule("timestamp", true),
    FieldRule("previousBlock", false),
    FieldRule("height", true),
    FieldRule("numberOfTransactions", true),
    FieldRule("totalAmount", true),
    FieldRule("totalFee", true),
    FieldRule("reward", true),
    FieldRule("payloadLength", true),
    FieldRule("payloadHash", false),
    FieldRule("generatorPublicKey", false),
    FieldRule("blockSignature", false)
  ]

  /** What one field of a criteria object holds: a bare value or a range with optional bounds. */
  datatype Criterion = Exact(value: Value) | Range(from: Option<Value>, to: Option<Value>)

  /** A criteria object: any keys, of which only the field table's names are read. */
  type Criteria = map<string, Criterion>

  /** The argument of `getExpression`: one criteria object or an array of alternatives. */
  datatype OrCriteria = One(criteria: Criteria) | Many(alternatives: seq<Criteria>)

  predicate DistinctNames(table: seq<FieldRule>)
  {
    forall i, j :: 0 <= i < j < |table| ==> table[i].name != table[j].name
  }

  /** A recognised field holds a bare value, or a range when the field is range-capable. */
  predicate Shaped(rule: FieldRule, c: Criterion)
  {
    c.Exact? || rule.rangeCapable
  }

  predicate ShapedCriteria(table: seq<FieldRule>, c: Criteria)
  {
    forall i :: 0 <= i < |table| && table[i].name in c ==> Shaped(table[i], c[table[i].name])
  }

  predicate ShapedOr(table: seq<FieldRule>, oc: OrCriteria)
  {
    match oc
    case One(c) => ShapedCriteria(table, c)
    case Many(cs) => forall k :: 0 <= k < |cs| ==> ShapedCriteria(table, cs[k])
  }

  /** The empty range `{}`, which constrains nothing. */
  const NoBounds: Criterion := Range(None, None)

  /**
   * One field: a bare value is `equal`, `{from, to}` is `between`, `{from}` is
   * `greaterThanEqual`, `{to}` is `lessThanEqual`, and `{}` gives nothing.
   */
  function CompileField(rule: FieldRule, c: Criterion): (r: Option<Expression>)
    requires Shaped(rule, c)
    ensures r.None? <==> c == NoBounds
    ensures r.Some? ==> r.value.Compare? && r.value.property == rule.name
  {
    match c
    case Exact(v) => Some(Compare(rule.name, Equal(v)))
    case Range(Some(f), Some(t)) => Some(Compare(rule.name, Between(f, t)))
    case Range(Some(f), None) => Some(Compare(rule.name, GreaterThanEqual(f)))
    case Range(None, Some(t)) => Some(Compare(rule.name, LessThanEqual(t)))
    case Range(None, None) => None
  }

  /** The comparisons of one criteria object, in field table order. */
  function Collect(table: seq<FieldRule>, c: Criteria): (r: seq<Expression>)
    requires ShapedCriteria(table, c)
    ensures |r| <= |table|
    ensures forall k :: 0 <= k < |r| ==> r[k].Compare?
    decreases |table|
  {
    if table == [] then []
    else
      var rest := Collect(table[1..], c);
      var rule := table[0];
      if rule.name in c then
        match CompileField(rule, c[rule.name])
        case Some(e) => [e] + rest
        case None => rest
      else rest
  }

  /** `and` over the members, with no wrapper for zero or one member. */
  function MakeAnd(es: seq<Expression>): Expression
  {
    if |es| == 0 then Void else if |es| == 1 then es[0] else And(es)
  }

  /** `or` over the members, with no wrapper for zero or one member. */
  function MakeOr(es: seq<Expression>): Expression
  {
    if |es| == 0 then Void else if |es| == 1 then es[0] else Or(es)
  }

  /** `void`, one comparison, or an `and` of at least two comparisons. */
  predicate Conjunctive(e: Expression)
  {
    match e
    case Void => true
    case Compare(_, _) => true
    case And(es) => |es| >= 2 && forall k :: 0 <= k < |es| ==> es[k].Compare?
    case Or(_) => false
  }

  /** One criteria object compiled to a single expression. */
  function CompileCriteria(table: seq<FieldRule>, c: Criteria): (e: Expression)
    requires ShapedCriteria(table, c)
    ensures Conjunctive(e) && Minimal(e)
  {
    MakeAnd(Collect(table, c))
  }

  /** Each alternative compiled on its own, in input order. */
  function CompileAll(table: seq<FieldRule>, cs: seq<Criteria>): (es: seq<Expression>)
    requires forall k :: 0 <= k < |cs| ==> ShapedCriteria(table, cs[k])
    ensures |es| == |cs|
    ensures forall k :: 0 <= k < |cs| ==> es[k] == CompileCriteria(table, cs[k])
    decreases |cs|
  {
    if cs == [] then [] else [CompileCriteria(table, cs[0])] + CompileAll(table, cs[1..])
  }

  /** `getExpression`: a criteria object, or an array of them joined with `or`. */
  function GetExpression(table: seq<FieldRule>, oc: OrCriteria): (e: Expression)
    requires ShapedOr(table, oc)
    ensures Minimal(e)
  {
    match oc
    case One(c) => CompileCriteria(table, c)
    case Many(cs) => MakeOr(CompileAll(table, cs))
  }

}
