/**
 * What the block search compiler promises: the shape-to-comparison mapping
 * per field, `void` for objects with nothing recognised, `and` in field
 * order without singleton wrappers, `or` in input order, agreement with a
 * direct reading of the criteria, and that the compiled tree gives back the
 * criteria it came from.
 */
module BlockFilterProperties {

  import opened Wrappers
  import opened Expressions
  import opened BlockFilter

  lemma BlockFieldsDistinct()
    ensures DistinctNames(BlockFields)
  {
  }

  // ---------------------------------------------------------------------
  // Which comparisons an object yields, and in what order

  /** The field is present in the object and is not the empty range. */
  predicate Contributes(rule: FieldRule, c: Criteria)
  {
    rule.name in c && c[rule.name] != NoBounds
  }

  /** The comparisons of a non-empty table: the first field's, if it contributes, then the rest's. */
  lemma CollectStep(table: seq<FieldRule>, c: Criteria)
    requires ShapedCriteria(table, c) && table != []
    ensures Collect(table, c) ==
      (if Contributes(table[0], c) then [CompileField(table[0], c[table[0].name]).value] else []) +
      Collect(table[1..], c)
  {
  }

  function Shift(idx: seq<nat>): (r: seq<nat>)
    ensures |r| == |idx| && forall k :: 0 <= k < |idx| ==> r[k] == idx[k] + 1
  {
    seq(|idx|, k requires 0 <= k < |idx| => idx[k] + 1)
  }

  predicate Ascending(idx: seq<nat>)
  {
    forall a, b :: 0 <= a < b < |idx| ==> idx[a] < idx[b]
  }

  lemma ShiftAscending(idx: seq<nat>)
    requires Ascending(idx)
    ensures Ascending(Shift(idx)) && Ascending([0] + Shift(idx))
  {
    var s := Shift(idx);
    var t := [0] + s;
    assert t[1..] == s;
    forall a, b | 0 <= a < b < |t| ensures t[a] < t[b] {
      assert t[b] == s[b - 1];
      if a > 0 { assert t[a] == s[a - 1]; }
    }
  }

  /**
   * `out` holds the comparisons of the table's contributing fields, one each, in
   * table order: `idx` lists those fields' indices, ascending, and `out[k]` is
   * the compiled field `idx[k]`.
   */
  predicate InTableOrder(table: seq<FieldRule>, c: Criteria, out: seq<Expression>, idx: seq<nat>)
    requires ShapedCriteria(table, c)
  {
    && |idx| == |out|
    && Ascending(idx)
    && (forall k :: 0 <= k < |idx| ==>
          idx[k] < |table| && Contributes(table[idx[k]], c) &&
          out[k] == CompileField(table[idx[k]], c[table[idx[k]].name]).value)
    && (forall i :: 0 <= i < |table| && Contributes(table[i], c) ==> i in idx)
  }

  /** Indices into the tail of a table, as indices into the whole table. */
  lemma ShiftedInOrder(table: seq<FieldRule>, c: Criteria, outTail: seq<Expression>, rest: seq<nat>)
    requires ShapedCriteria(table, c) && table != []
    requires InTableOrder(table[1..], c, outTail, rest)
    ensures forall k :: 0 <= k < |rest| ==>
      Shift(rest)[k] < |table| && Contributes(table[Shift(rest)[k]], c) &&
      outTail[k] == CompileField(table[Shift(rest)[k]], c[table[Shift(rest)[k]].name]).value
    ensures forall i :: 1 <= i < |table| && Contributes(table[i], c) ==> i in Shift(rest)
  {
    var tail := table[1..];
    var shifted := Shift(rest);
    forall k | 0 <= k < |rest|
      ensures shifted[k] < |table| && Contributes(table[shifted[k]], c)
      ensures outTail[k] == CompileField(table[shifted[k]], c[table[shifted[k]].name]).value
    {
      assert table[shifted[k]] == tail[rest[k]];
    }
    forall i | 1 <= i < |table| && Contributes(table[i], c) ensures i in shifted {
      assert tail[i - 1] == table[i];
      assert i - 1 in rest;
      var k :| 0 <= k < |rest| && rest[k] == i - 1;
      assert shifted[k] == i;
    }
  }

  /** The first field contributes `e`: its index goes in front of the tail's, shifted. */
  lemma InTableOrderCons(table: seq<FieldRule>, c: Criteria, e: Expression, outTail: seq<Expression>, rest: seq<nat>)
    requires ShapedCriteria(table, c) && table != [] && Contributes(table[0], c)
    requires e == CompileField(table[0], c[table[0].name]).value
    requires InTableOrder(table[1..], c, outTail, rest)
    ensures InTableOrder(table, c, [e] + outTail, [0] + Shift(rest))
  {
    ShiftedInOrder(table, c, outTail, rest);
    ShiftAscending(rest);
    var shifted := Shift(rest);
    var out := [e] + outTail;
    var idx := [0] + shifted;
    assert out[1..] == outTail && idx[1..] == shifted;
    forall k | 1 <= k < |idx|
      ensures idx[k] < |table| && Contributes(table[idx[k]], c)
      ensures out[k] == CompileField(table[idx[k]], c[table[idx[k]].name]).value
    {
      assert idx[k] == shifted[k - 1];
      assert out[k] == out[1..][k - 1];
    }
    forall i | 1 <= i < |table| && Contributes(table[i], c) ensures i in idx {
      var k :| 0 <= k < |shifted| && shifted[k] == i;
      assert idx[k + 1] == i;
    }
  }

  /** The first field contributes nothing: the tail's indices, shifted. */
  lemma InTableOrderSkip(table: seq<FieldRule>, c: Criteria, outTail: seq<Expression>, rest: seq<nat>)
    requires ShapedCriteria(table, c) && table != [] && !Contributes(table[0], c)
    requires InTableOrder(table[1..], c, outTail, rest)
    ensures InTableOrder(table, c, outTail, Shift(rest))
  {
    ShiftedInOrder(table, c, outTail, rest);
    ShiftAscending(rest);
  }

  /** An object's comparisons are its contributing fields', one each, in field table order. */
  lemma {:induction false} CollectInTableOrder(table: seq<FieldRule>, c: Criteria) returns (idx: seq<nat>)
    requires ShapedCriteria(table, c)
    ensures InTableOrder(table, c, Collect(table, c), idx)
    decreases |table|
  {
    if table == [] {
      idx := [];
    } else {
      var rest := CollectInTableOrder(table[1..], c);
      CollectStep(table, c);
      if Contributes(table[0], c) {
        InTableOrderCons(table, c, CompileField(table[0], c[table[0].name]).value, Collect(table[1..], c), rest);
        idx := [0] + Shift(rest);
      } else {
        InTableOrderSkip(table, c, Collect(table[1..], c), rest);
        idx := Shift(rest);
      }
    }
  }

  // ---------------------------------------------------------------------
  // Which objects compile to `void`

  lemma {:induction false} CollectEmptyIff(table: seq<FieldRule>, c: Criteria)
    requires ShapedCriteria(table, c)
    ensures Collect(table, c) == [] <==>
      forall i :: 0 <= i < |table| && table[i].name in c ==> c[table[i].name] == NoBounds
    decreases |table|
  {
    if table != [] {
      CollectEmptyIff(table[1..], c);
      assert forall i :: 1 <= i < |table| ==> table[i] == table[1..][i - 1];
    }
  }

  /** An object compiles to `void` exactly when no recognised field is present with a bound or value. */
  lemma CompileVoidIff(table: seq<FieldRule>, c: Criteria)
    requires ShapedCriteria(table, c)
    ensures CompileCriteria(table, c) == Void <==>
      forall i :: 0 <= i < |table| && table[i].name in c ==> c[table[i].name] == NoBounds
  {
    CollectEmptyIff(table, c);
  }

  /** An object holding only keys the field table does not know compiles to `void`. */
  lemma UnrecognisedKeysCompileToVoid(table: seq<FieldRule>, c: Criteria)
    requires forall i :: 0 <= i < |table| ==> table[i].name !in c
    ensures ShapedOr(table, One(c)) && GetExpression(table, One(c)) == Void
  {
    CompileVoidIff(table, c);
  }

  /** `{unknown: v}` compiles to `{op: "void"}` for every value; the test uses `"123"`. */
  lemma UnknownBlockCriteria(v: Value)
    ensures ShapedOr(BlockFields, One(map["unknown" := Exact(v)]))
    ensures GetExpression(BlockFields, One(map["unknown" := Exact(v)])) == Void
  {
    var c := map["unknown" := Exact(v)];
    forall i | 0 <= i < |BlockFields| ensures BlockFields[i].name !in c {
      assert BlockFields[i].name != "unknown";
    }
    UnrecognisedKeysCompileToVoid(BlockFields, c);
  }

  // ---------------------------------------------------------------------
  // One recognised field

  /** When a single table field is present, the object's comparisons are that field's, if any. */
  lemma {:induction false} CollectOnly(table: seq<FieldRule>, c: Criteria, i: nat)
    requires ShapedCriteria(table, c)
    requires i < |table| && table[i].name in c
    requires forall j :: 0 <= j < |table| && j != i ==> table[j].name !in c
    ensures Collect(table, c) ==
      match CompileField(table[i], c[table[i].name])
      case Some(e) => [e]
      case None => []
    decreases |table|
  {
    assert forall j :: 1 <= j < |table| ==> table[j] == table[1..][j - 1];
    if i == 0 {
      CollectEmptyIff(table[1..], c);
    } else {
      CollectOnly(table[1..], c, i - 1);
    }
  }

  /** A criteria object with one recognised field compiles to that field's comparison, unwrapped. */
  lemma OnlyFieldCompiles(table: seq<FieldRule>, c: Criteria, i: nat)
    requires ShapedCriteria(table, c)
    requires i < |table| && table[i].name in c
    requires forall j :: 0 <= j < |table| && j != i ==> table[j].name !in c
    ensures CompileCriteria(table, c) ==
      match CompileField(table[i], c[table[i].name])
      case Some(e) => e
      case None => Void
  {
    CollectOnly(table, c, i);
  }

  /** The single-field object `{name: criterion}` for block field `i`. */
  lemma SingleBlockField(i: nat, crit: Criterion)
    requires i < |BlockFields| && Shaped(BlockFields[i], crit)
    ensures var c := map[BlockFields[i].name := crit];
      ShapedOr(BlockFields, One(c)) &&
      GetExpression(BlockFields, One(c)) ==
        match CompileField(BlockFields[i], crit)
        case Some(e) => e
        case None => Void
  {
    BlockFieldsDistinct();
    OnlyFieldCompiles(BlockFields, map[BlockFields[i].name := crit], i);
  }

  /** A bare value on any field compiles to `equal` with that field name and the value unchanged. */
  lemma BareValueCompilesToEqual(table: seq<FieldRule>, i: nat, v: Value)
    requires DistinctNames(table) && i < |table|
    ensures ShapedOr(table, One(map[table[i].name := Exact(v)]))
    ensures GetExpression(table, One(map[table[i].name := Exact(v)])) == Compare(table[i].name, Equal(v))
  {
    OnlyFieldCompiles(table, map[table[i].name := Exact(v)], i);
  }

  /** `{from, to}` on a range-capable field compiles to `between` with both bounds unchanged. */
  lemma FromToCompilesToBetween(table: seq<FieldRule>, i: nat, from: Value, to: Value)
    requires DistinctNames(table) && i < |table| && table[i].rangeCapable
    ensures ShapedOr(table, One(map[table[i].name := Range(Some(from), Some(to))]))
    ensures GetExpression(table, One(map[table[i].name := Range(Some(from), Some(to))])) ==
      Compare(table[i].name, Between(from, to))
  {
    OnlyFieldCompiles(table, map[table[i].name := Range(Some(from), Some(to))], i);
  }

  /** `{from}` on a range-capable field compiles to `greaterThanEqual` on the `from` bound. */
  lemma FromCompilesToGreaterThanEqual(table: seq<FieldRule>, i: nat, from: Value)
    requires DistinctNames(table) && i < |table| && table[i].rangeCapable
    ensures ShapedOr(table, One(map[table[i].name := Range(Some(from), None)]))
    ensures GetExpression(table, One(map[table[i].name := Range(Some(from), None)])) ==
      Compare(table[i].name, GreaterThanEqual(from))
  {
    OnlyFieldCompiles(table, map[table[i].name := Range(Some(from), None)], i);
  }

  /** `{to}` on a range-capable field compiles to `lessThanEqual` on the `to` bound. */
  lemma ToCompilesToLessThanEqual(table: seq<FieldRule>, i: nat, to: Value)
    requires DistinctNames(table) && i < |table| && table[i].rangeCapable
    ensures ShapedOr(table, One(map[table[i].name := Range(None, Some(to))]))
    ensures GetExpression(table, One(map[table[i].name := Range(None, Some(to))])) ==
      Compare(table[i].name, LessThanEqual(to))
  {
    OnlyFieldCompiles(table, map[table[i].name := Range(None, Some(to))], i);
  }

  /** `{}` on a range-capable field contributes nothing. */
  lemma NoBoundsCompilesToVoid(table: seq<FieldRule>, i: nat)
    requires DistinctNames(table) && i < |table| && table[i].rangeCapable
    ensures ShapedOr(table, One(map[table[i].name := NoBounds]))
    ensures GetExpression(table, One(map[table[i].name := NoBounds])) == Void
  {
    OnlyFieldCompiles(table, map[table[i].name := NoBounds], i);
  }

  /**
   * `{totalAmount: n}` for a big number `n` compiles to `equal` carrying exactly `n`;
   * the test uses `BigNumber.make("10000")`.
   */
  lemma TotalAmountBigNumber(n: int)
    ensures ShapedOr(BlockFields, One(map["totalAmount" := Exact(Big(n))]))
    ensures GetExpression(BlockFields, One(map["totalAmount" := Exact(Big(n))])) == Compare("totalAmount", Equal(Big(n)))
  {
    BlockFieldsDistinct();
    BareValueCompilesToEqual(BlockFields, 6, Big(n));
  }

  // ---------------------------------------------------------------------
  // Two recognised fields

  lemma {:induction false} CollectTwo(table: seq<FieldRule>, c: Criteria, i: nat, j: nat)
    requires ShapedCriteria(table, c)
    requires i < j < |table| && table[i].name in c && table[j].name in c
    requires c[table[i].name] != NoBounds && c[table[j].name] != NoBounds
    requires forall k :: 0 <= k < |table| && k != i && k != j ==> table[k].name !in c
    ensures Collect(table, c) ==
      [CompileField(table[i], c[table[i].name]).value, CompileField(table[j], c[table[j].name]).value]
    decreases |table|
  {
    assert forall k :: 1 <= k < |table| ==> table[k] == table[1..][k - 1];
    if i == 0 {
      CollectOnly(table[1..], c, j - 1);
    } else {
      CollectTwo(table[1..], c, i - 1, j - 1);
    }
  }

  /**
   * Two recognised fields compile to an `and` of exactly their two comparisons,
   * the one earlier in the field table first.
   */
  lemma TwoFieldsCompileToAnd(table: seq<FieldRule>, c: Criteria, i: nat, j: nat)
    requires ShapedCriteria(table, c)
    requires i < j < |table| && table[i].name in c && table[j].name in c
    requires c[table[i].name] != NoBounds && c[table[j].name] != NoBounds
    requires forall k :: 0 <= k < |table| && k != i && k != j ==> table[k].name !in c
    ensures CompileCriteria(table, c) ==
      And([CompileField(table[i], c[table[i].name]).value, CompileField(table[j], c[table[j].name]).value])
  {
    CollectTwo(table, c, i, j);
  }

  /** `{height: {from}, generatorPublicKey}` for one `from` and one public key. */
  function HeightAndKey(from: int, key: string): Criteria
  {
    map["height" := Range(Some(Int(from)), None), "generatorPublicKey" := Exact(Str(key))]
  }

  lemma HeightAndKeyCompiles(from: int, key: string)
    ensures ShapedCriteria(BlockFields, HeightAndKey(from, key))
    ensures CompileCriteria(BlockFields, HeightAndKey(from, key)) ==
      And([Compare("height", GreaterThanEqual(Int(from))), Compare("generatorPublicKey", Equal(Str(key)))])
  {
    var c := HeightAndKey(from, key);
    BlockFieldsDistinct();
    assert BlockFields[4].name == "height" && BlockFields[11].name == "generatorPublicKey";
    assert c.Keys == {BlockFields[4].name, BlockFields[11].name};
    forall k | 0 <= k < |BlockFields| && k != 4 && k != 11 ensures BlockFields[k].name !in c {
      assert BlockFields[k].name != BlockFields[4].name && BlockFields[k].name != BlockFields[11].name;
    }
    TwoFieldsCompileToAnd(BlockFields, c, 4, 11);
  }

  // ---------------------------------------------------------------------
  // Arrays of alternatives

  /**
   * An array of N alternatives compiles to an `or` of N members in input order,
   * each compiled on its own; one alternative is returned unwrapped and none is `void`.
   */
  lemma AlternativesCompileToOr(table: seq<FieldRule>, cs: seq<Criteria>)
    requires ShapedOr(table, Many(cs))
    ensures |cs| == 0 ==> GetExpression(table, Many(cs)) == Void
    ensures |cs| == 1 ==> GetExpression(table, Many(cs)) == CompileCriteria(table, cs[0])
    ensures |cs| >= 2 ==> GetExpression(table, Many(cs)) == Or(CompileAll(table, cs))
    ensures forall k :: 0 <= k < |cs| ==> CompileAll(table, cs)[k] == CompileCriteria(table, cs[k])
  {
  }

  /**
   * Two `{height: {from}, generatorPublicKey}` alternatives compile to an `or` of
   * their two `and`s, in input order; the test uses 100/"123" and 300/"456".
   */
  lemma OrBlockCriteria(from1: int, key1: string, from2: int, key2: string)
    ensures ShapedOr(BlockFields, Many([HeightAndKey(from1, key1), HeightAndKey(from2, key2)]))
    ensures GetExpression(BlockFields, Many([HeightAndKey(from1, key1), HeightAndKey(from2, key2)])) ==
      Or([
        And([Compare("height", GreaterThanEqual(Int(from1))), Compare("generatorPublicKey", Equal(Str(key1)))]),
        And([Compare("height", GreaterThanEqual(Int(from2))), Compare("generatorPublicKey", Equal(Str(key2)))])
      ])
  {
    var c1, c2 := HeightAndKey(from1, key1), HeightAndKey(from2, key2);
    var cs := [c1, c2];
    HeightAndKeyCompiles(from1, key1);
    HeightAndKeyCompiles(from2, key2);
    assert cs[0] == c1 && cs[1] == c2;
    assert ShapedOr(BlockFields, Many(cs));
    var es := CompileAll(BlockFields, cs);
    assert es == [CompileCriteria(BlockFields, c1), CompileCriteria(BlockFields, c2)];
    assert GetExpression(BlockFields, Many(cs)) == Or(es);
  }


  // ---------------------------------------------------------------------
  // Agreement with a direct reading of the criteria

  /** What one field's criterion asks of a stored block, read directly. */
  predicate CriterionHolds(name: string, crit: Criterion, row: Row)
  {
    match crit
    case Exact(v) => name in row && row[name] == v
    case Range(None, None) => true
    case Range(f, t) =>
      name in row &&
      (f.Some? ==> AtMost(f.value, row[name])) &&
      (t.Some? ==> AtMost(row[name], t.value))
  }

  /** Every recognised field of the object holds of the block; other keys are ignored. */
  predicate Matches(table: seq<FieldRule>, c: Criteria, row: Row)
  {
    forall i :: 0 <= i < |table| && table[i].name in c ==> CriterionHolds(table[i].name, c[table[i].name], row)
  }

  lemma FieldSound(rule: FieldRule, crit: Criterion, row: Row)
    requires Shaped(rule, crit)
    ensures match CompileField(rule, crit)
      case Some(e) => Eval(e, row) == CriterionHolds(rule.name, crit, row)
      case None => CriterionHolds(rule.name, crit, row)
  {
  }

  /** Every member holds, which is what an `and` of the members means. */
  predicate AllHold(es: seq<Expression>, row: Row)
  {
    forall k :: 0 <= k < |es| ==> Eval(es[k], row)
  }

  lemma {:induction false} CollectSound(table: seq<FieldRule>, c: Criteria, row: Row)
    requires ShapedCriteria(table, c)
    ensures AllHold(Collect(table, c), row) <==> Matches(table, c, row)
    decreases |table|
  {
    if table != [] {
      var tail := table[1..];
      CollectSound(tail, c, row);
      assert forall j :: 1 <= j < |table| ==> table[j] == tail[j - 1];
      var n := table[0].name;
      var head := n in c ==> CriterionHolds(n, c[n], row);
      assert Matches(table, c, row) <==> head && Matches(tail, c, row) by {
        if head && Matches(tail, c, row) {
          forall i | 0 <= i < |table| && table[i].name in c
            ensures CriterionHolds(table[i].name, c[table[i].name], row)
          {
            if i > 0 { assert tail[i - 1] == table[i]; }
          }
        }
      }
      var rest := Collect(tail, c);
      if n in c {
        FieldSound(table[0], c[n], row);
        match CompileField(table[0], c[n])
        case Some(e) =>
          assert Collect(table, c) == [e] + rest;
          AllHoldCons(e, rest, row);
        case None =>
      }
    }
  }

  lemma AllHoldCons(e: Expression, rest: seq<Expression>, row: Row)
    ensures AllHold([e] + rest, row) <==> Eval(e, row) && AllHold(rest, row)
  {
    var es := [e] + rest;
    assert es[0] == e;
    assert forall k :: 1 <= k < |es| ==> es[k] == rest[k - 1];
    if Eval(e, row) && AllHold(rest, row) {
      forall k | 0 <= k < |es| ensures Eval(es[k], row) {
        if k > 0 { assert Eval(rest[k - 1], row); }
      }
    }
    if AllHold(es, row) {
      forall k | 0 <= k < |rest| ensures Eval(rest[k], row) {
        assert Eval(es[k + 1], row);
      }
    }
  }

  lemma EvalMakeAnd(es: seq<Expression>, row: Row)
    ensures Eval(MakeAnd(es), row) <==> AllHold(es, row)
  {
  }

  /** A compiled object holds of a block exactly when the block matches the object. */
  lemma CompileSound(table: seq<FieldRule>, c: Criteria, row: Row)
    requires ShapedCriteria(table, c)
    ensures Eval(CompileCriteria(table, c), row) <==> Matches(table, c, row)
  {
    CollectSound(table, c, row);
    EvalMakeAnd(Collect(table, c), row);
  }

  /**
   * A compiled non-empty array holds of a block exactly when the block matches
   * one of the alternatives.
   */
  lemma AlternativesSound(table: seq<FieldRule>, cs: seq<Criteria>, row: Row)
    requires ShapedOr(table, Many(cs)) && |cs| >= 1
    ensures Eval(GetExpression(table, Many(cs)), row) <==>
      exists k :: 0 <= k < |cs| && Matches(table, cs[k], row)
  {
    forall k | 0 <= k < |cs| ensures Eval(CompileCriteria(table, cs[k]), row) <==> Matches(table, cs[k], row) {
      CompileSound(table, cs[k], row);
    }
    if |cs| == 1 {
      assert Matches(table, cs[0], row) ==> exists k :: 0 <= k < |cs| && Matches(table, cs[k], row);
    }
  }

  // ---------------------------------------------------------------------
  // The compiled tree gives back its criteria

  /** The criterion a comparison was compiled from. */
  function CriterionOf(cmp: Comparison): Criterion
  {
    match cmp
    case Equal(v) => Exact(v)
    case GreaterThanEqual(v) => Range(Some(v), None)
    case LessThanEqual(v) => Range(None, Some(v))
    case Between(f, t) => Range(Some(f), Some(t))
  }

  function DecompileAll(es: seq<Expression>): Criteria
    requires forall k :: 0 <= k < |es| ==> es[k].Compare?
    decreases |es|
  {
    if es == [] then map[] else DecompileAll(es[1..])[es[0].property := CriterionOf(es[0].comparison)]
  }

  /** Reads a conjunctive expression back as a criteria object. */
  function Decompile(e: Expression): Criteria
    requires Conjunctive(e)
  {
    match e
    case Void => map[]
    case Compare(p, cmp) => map[p := CriterionOf(cmp)]
    case And(es) => DecompileAll(es)
  }

  function Names(table: seq<FieldRule>): set<string>
  {
    set i | 0 <= i < |table| :: table[i].name
  }

  /** The part of a criteria object the compiler reads: recognised fields that are not `{}`. */
  function Normalize(table: seq<FieldRule>, c: Criteria): Criteria
  {
    map k | k in c && k in Names(table) && c[k] != NoBounds :: c[k]
  }

  lemma FieldRoundTrip(rule: FieldRule, crit: Criterion)
    requires Shaped(rule, crit) && crit != NoBounds
    ensures CriterionOf(CompileField(rule, crit).value.comparison) == crit
  {
  }

  lemma {:induction false} DecompileCollect(table: seq<FieldRule>, c: Criteria)
    requires ShapedCriteria(table, c)
    ensures DecompileAll(Collect(table, c)) == Normalize(table, c)
    decreases |table|
  {
    if table == [] {
      assert Normalize(table, c) == map[];
    } else {
      var tail := table[1..];
      DecompileCollect(tail, c);
      assert forall j :: 1 <= j < |table| ==> table[j] == tail[j - 1];
      assert Names(table) == {table[0].name} + Names(tail) by {
        forall n | n in Names(table) ensures n in {table[0].name} + Names(tail) {
          var i :| 0 <= i < |table| && table[i].name == n;
          if i > 0 { assert tail[i - 1].name == n; }
        }
      }
      var n := table[0].name;
      if n in c && c[n] != NoBounds {
        FieldRoundTrip(table[0], c[n]);
        assert Normalize(table, c) == Normalize(tail, c)[n := c[n]];
      } else {
        assert Normalize(table, c) == Normalize(tail, c);
      }
    }
  }

  /** The compiled expression determines exactly the recognised, non-empty fields of its object. */
  lemma DecompileCompile(table: seq<FieldRule>, c: Criteria)
    requires ShapedCriteria(table, c)
    ensures Decompile(CompileCriteria(table, c)) == Normalize(table, c)
  {
    DecompileCollect(table, c);
    var es := Collect(table, c);
    if |es| == 1 {
      assert DecompileAll(es) == DecompileAll(es[1..])[es[0].property := CriterionOf(es[0].comparison)];
    }
  }

  /** Two objects that agree on every recognised, non-empty field have the same comparisons. */
  lemma {:induction false} CollectAgree(table: seq<FieldRule>, c1: Criteria, c2: Criteria)
    requires ShapedCriteria(table, c1) && ShapedCriteria(table, c2)
    requires Normalize(table, c1) == Normalize(table, c2)
    ensures Collect(table, c1) == Collect(table, c2)
    decreases |table|
  {
    if table != [] {
      var tail := table[1..];
      assert forall j :: 1 <= j < |table| ==> table[j] == tail[j - 1];
      assert Names(tail) <= Names(table) by {
        forall n | n in Names(tail) ensures n in Names(table) {
          var i :| 0 <= i < |tail| && tail[i].name == n;
          assert table[i + 1].name == n;
        }
      }
      assert Normalize(tail, c1) == Normalize(tail, c2) by {
        forall k | k in Normalize(tail, c1) ensures k in Normalize(tail, c2) && Normalize(tail, c1)[k] == Normalize(tail, c2)[k] {
          assert k in Normalize(table, c1);
        }
        forall k | k in Normalize(tail, c2) ensures k in Normalize(tail, c1) {
          assert k in Normalize(table, c2);
        }
      }
      CollectAgree(tail, c1, c2);
      var n := table[0].name;
      assert n in Names(table);
      if n in c1 && c1[n] != NoBounds {
        assert n in Normalize(table, c1);
      }
      if n in c2 && c2[n] != NoBounds {
        assert n in Normalize(table, c2);
      }
    }
  }

  /** Compiling the criteria read back from a compiled object gives the same expression again. */
  lemma RecompileIsIdentity(table: seq<FieldRule>, c: Criteria)
    requires ShapedCriteria(table, c)
    ensures var e := CompileCriteria(table, c);
      ShapedCriteria(table, Decompile(e)) && CompileCriteria(table, Decompile(e)) == e
  {
    var e := CompileCriteria(table, c);
    DecompileCompile(table, c);
    var d := Decompile(e);
    assert ShapedCriteria(table, d) by {
      forall i | 0 <= i < |table| && table[i].name in d ensures Shaped(table[i], d[table[i].name]) {
        assert table[i].name in c;
      }
    }
    assert Normalize(table, d) == Normalize(table, c) by {
      assert forall k :: k in d ==> k in Names(table) && d[k] != NoBounds;
    }
    CollectAgree(table, d, c);
  }

}
