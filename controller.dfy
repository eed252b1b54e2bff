/**
 * The API controller's query normalisation: offset and limit from `page`,
 * `limit` and `offset`; the ordering from `orderBy`; and the criteria object
 * from every other query key.
 *
 * Query parameters arrive already validated: numeric ones are integers or
 * absent (`undefined`). The arithmetic follows JavaScript's: `undefined`
 * turns into NaN, NaN propagates, and `x || d` gives `d` when `x` is 0 or NaN.
 */
module Controller {

  import opened Wrappers
  import opened Strings

  /** A JavaScript number as the pagination arithmetic produces it: an integer or NaN. */
  datatype JsNumber = Finite(n: int) | NaN

  /** Numeric conversion of an optional query parameter: `undefined` is NaN. */
  function ToNumber(p: Option<int>): JsNumber
  {
    match p
    case Some(n) => Finite(n)
    case None => NaN
  }

  function Minus(a: JsNumber, b: JsNumber): JsNumber
  {
    if a.Finite? && b.Finite? then Finite(a.n - b.n) else NaN
  }

  function Times(a: JsNumber, b: JsNumber): JsNumber
  {
    if a.Finite? && b.Finite? then Finite(a.n * b.n) else NaN
  }

  /** JavaScript truthiness of a number: neither 0 nor NaN. */
  predicate Truthy(x: JsNumber)
  {
    x.Finite? && x.n != 0
  }

  /** Truthiness of an optional numeric query parameter. */
  predicate Given(p: Option<int>)
  {
    Truthy(ToNumber(p))
  }

  /**
   * `(page - 1) * limit || 0`: the offset of the first row of page `page`
   * when both are given, and 0 when either is absent (NaN) or the product is 0.
   */
  function PageOffset(page: Option<int>, limit: Option<int>): (offset: int)
    ensures page.Some? && limit.Some? ==> offset == (page.value - 1) * limit.value
    ensures page.None? || limit.None? ==> offset == 0
    ensures page == Some(1) ==> offset == 0
  {
    var product := Times(Minus(ToNumber(page), Finite(1)), ToNumber(limit));
    if Truthy(product) then product.n else 0
  }

  const DefaultLimit: int := 100

  datatype Pagination = Pagination(offset: int, limit: int)

  /**
   * `getPagination`: the page-derived offset and the given or default limit,
   * then a truthy explicit `offset` overwrites the offset and nothing else.
   */
  method GetPagination(page: Option<int>, limit: Option<int>, offset: Option<int>) returns (pagination: Pagination)
    ensures pagination.limit == if Given(limit) then limit.value else DefaultLimit
    ensures pagination.limit != 0
    ensures Given(offset) ==> pagination.offset == offset.value
    ensures !Given(offset) && page.Some? && limit.Some? ==> pagination.offset == (page.value - 1) * limit.value
    ensures !Given(offset) && (page.None? || limit.None?) ==> pagination.offset == 0
  {
    pagination := Pagination(PageOffset(page, limit), if Given(limit) then limit.value else DefaultLimit);
    if Given(offset) {
      pagination := pagination.(offset := offset.value);
    }
  }

  /** `getOrdering`: the comma-separated pieces of a non-empty `orderBy`, otherwise none. */
  function GetOrdering(orderBy: Option<string>): (ordering: seq<string>)
    ensures orderBy.None? || orderBy.value == "" ==> ordering == []
    ensures orderBy.Some? && orderBy.value != "" ==>
      |ordering| == CountOf(orderBy.value, ',') + 1 && Join(ordering, ',') == orderBy.value
    ensures forall k :: 0 <= k < |ordering| ==> ',' !in ordering[k]
  {
    if orderBy.Some? && orderBy.value != "" then
      SplitCount(orderBy.value, ',');
      Split(orderBy.value, ',')
    else []
  }

  /** The keys `getCriteria` skips unless its caller passes another list. */
  const DefaultExcludes: seq<string> := ["page", "limit", "offset", "orderBy", "transform"]

  /** The property path `set` writes a query key to: its dot-separated segments. */
  function KeyToPath(key: string): (path: seq<string>)
    ensures |path| >= 1
  {
    Split(key, '.')
  }

  /** The entries of a JavaScript object have distinct keys. */
  predicate DistinctKeys<V>(entries: seq<(string, V)>)
  {
    forall i, j :: 0 <= i < j < |entries| ==> entries[i].0 != entries[j].0
  }

  /**
   * `getCriteria`: every query entry whose key is not excluded, written at the
   * key's path with its value unchanged; nothing else.
   */
  method GetCriteria<V>(entries: seq<(string, V)>, excludes: seq<string>) returns (query: map<seq<string>, V>)
    requires DistinctKeys(entries)
    ensures forall i :: 0 <= i < |entries| && entries[i].0 !in excludes ==>
      KeyToPath(entries[i].0) in query && query[KeyToPath(entries[i].0)] == entries[i].1
    ensures forall p :: p in query ==>
      exists i :: 0 <= i < |entries| && entries[i].0 !in excludes && KeyToPath(entries[i].0) == p
    ensures forall x :: x in excludes ==> [x] !in query
  {
    query := map[];
    var i := 0;
    while i < |entries|
      invariant 0 <= i <= |entries|
      invariant forall j :: 0 <= j < i && entries[j].0 !in excludes ==>
        KeyToPath(entries[j].0) in query && query[KeyToPath(entries[j].0)] == entries[j].1
      invariant forall p :: p in query ==>
        exists j :: 0 <= j < i && entries[j].0 !in excludes && KeyToPath(entries[j].0) == p
    {
      var (key, value) := entries[i];
      if key in excludes {
        i := i + 1;
        continue;
      }
      forall j | 0 <= j < i ensures KeyToPath(entries[j].0) != KeyToPath(key) {
        if KeyToPath(entries[j].0) == KeyToPath(key) {
          SplitInjective(entries[j].0, key, '.');
        }
      }
      query := query[KeyToPath(key) := value];
      i := i + 1;
    }
  }

  /** `getCriteria` called without its second argument: the default keys are never copied. */
  method GetDefaultCriteria<V>(entries: seq<(string, V)>) returns (query: map<seq<string>, V>)
    requires DistinctKeys(entries)
    ensures forall i :: 0 <= i < |entries| && entries[i].0 !in DefaultExcludes ==>
      KeyToPath(entries[i].0) in query && query[KeyToPath(entries[i].0)] == entries[i].1
    ensures forall p :: p in query ==>
      exists i :: 0 <= i < |entries| && entries[i].0 !in DefaultExcludes && KeyToPath(entries[i].0) == p
    ensures ["page"] !in query && ["limit"] !in query && ["offset"] !in query
    ensures ["orderBy"] !in query && ["transform"] !in query
  {
    query := GetCriteria(entries, DefaultExcludes);
  }

  /** A key without a dot is written at the top level under its own name. */
  lemma FlatKeyPath(key: string)
    requires '.' !in key
    ensures KeyToPath(key) == [key]
  {
    SplitWithoutSeparator(key, '.');
  }

}
