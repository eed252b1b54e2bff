/**
 * The expression tree a block search is compiled into, and the reading of
 * that tree a query executor gives it: a comparison holds of a stored block
 * when the block's property satisfies it, `and` when every member holds,
 * `or` when some member holds, and `void` always (no constraint).
 */
module Expressions {

  /**
   * A criteria value, tagged with its domain. Integers and big numbers are
   * both exact mathematical integers; a big number built from "10000" and
   * one built from "010000" are the same value.
   */
  datatype Value = Str(s: string) | Int(i: int) | Big(n: int)

  /** The comparison kinds with the operands each carries on the wire. */
  datatype Comparison =
    | Equal(value: Value)
    | GreaterThanEqual(value: Value)
    | LessThanEqual(value: Value)
    | Between(from: Value, to: Value)

  /**
   * `{op: "void"}`, `{property, op, value}` / `{property, op: "between", from, to}`,
   * `{op: "and", expressions}` and `{op: "or", expressions}`.
   */
  datatype Expression =
    | Void
    | Compare(property: string, comparison: Comparison)
    | And(expressions: seq<Expression>)
    | Or(expressions: seq<Expression>)

  /** No `and` or `or` anywhere in the tree has fewer than two members. */
  predicate Minimal(e: Expression)
  {
    match e
    case Void => true
    case Compare(_, _) => true
    case And(es) => |es| >= 2 && forall k :: 0 <= k < |es| ==> Minimal(es[k])
    case Or(es) => |es| >= 2 && forall k :: 0 <= k < |es| ==> Minimal(es[k])
  }

  /** A stored block as the executor sees it: property name to value. */
  type Row = map<string, Value>

  /**
   * Inclusive order between two values of the same numeric domain; values of
   * different domains, and strings, are not ordered.
   */
  predicate AtMost(a: Value, b: Value)
  {
    match (a, b)
    case (Int(x), Int(y)) => x <= y
    case (Big(x), Big(y)) => x <= y
    case _ => false
  }

  predicate Holds(c: Comparison, v: Value)
  {
    match c
    case Equal(w) => v == w
    case GreaterThanEqual(w) => AtMost(w, v)
    case LessThanEqual(w) => AtMost(v, w)
    case Between(f, t) => AtMost(f, v) && AtMost(v, t)
  }

  predicate Eval(e: Expression, row: Row)
  {
    match e
    case Void => true
    case Compare(p, c) => p in row && Holds(c, row[p])
    case And(es) => forall k :: 0 <= k < |es| ==> Eval(es[k], row)
    case Or(es) => exists k :: 0 <= k < |es| && Eval(es[k], row)
  }

}
