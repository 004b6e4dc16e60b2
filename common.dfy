/** Shared vocabulary: optional values, results, the ways an operation of the
    backend can fail, partial-update fields and the `.first()` / offset-limit
    helpers the record store offers. */
module Common {

  datatype Option<T> = None | Some(value: T)

  /** The failures the modelled code raises.  HTTP errors carry the status
      code and the `detail` string; the others are the Python exceptions that
      escape to the framework. */
  datatype Error =
    | HttpError(status: nat, detail: string)
      // FastAPI rejected a query parameter before the handler ran (status 422)
    | RequestValidation(parameter: string)
    | ValueError(message: string)
    | InvalidCredentials(detail: string)
    | TokenExpired(detail: string)
      // a call of an attribute the object does not have (status 500)
    | AttributeError(attribute: string)
      // the database refused the commit (a unique or NOT NULL constraint
      // on that column)
    | IntegrityError(column: string)
      // a None reached a call that needs a string (the parameter's name)
    | TypeError(parameter: string)

  /** The authenticated user a handler receives from its dependency: the
      only two attributes the authorisation rules read. */
  datatype Caller = Caller(id: int, isSuperuser: bool)

  datatype Result<T> = Ok(value: T) | Err(error: Error)

  datatype Outcome = Pass | Fail(error: Error)

  /** A field of a Pydantic update schema: left out of the request (not in
      `model_dump(exclude_unset=True)`) or explicitly given. */
  datatype Patch<T> = Unset | Set(value: T) {
    function Apply(current: T): T {
      if Set? then value else current
    }
  }

  /** Whether a field of schema type `T | None` is given as an explicit
      JSON `null` (which `model_dump(exclude_unset=True)` keeps). */
  predicate GivesNull<T>(p: Patch<Option<T>>) {
    p.Set? && p.value.None?
  }

  /** A field of schema type `T | None` applied to a column that holds a
      `T`: a given value replaces the current one. */
  function ApplyValue<T>(p: Patch<Option<T>>, current: T): T {
    if p.Set? && p.value.Some? then p.value.value else current
  }

  /** Rows `[skip, skip + limit)` of a table, as `offset(skip).limit(limit)`. */
  function Window<T>(rows: seq<T>, skip: nat, limit: nat): (r: seq<T>)
    ensures |r| == if skip >= |rows| then 0 else Min(limit, |rows| - skip)
    ensures forall i :: 0 <= i < |r| ==> r[i] == rows[skip + i]
  {
    if skip >= |rows| then []
    else rows[skip .. skip + Min(limit, |rows| - skip)]
  }

  function Min(a: int, b: int): int { if a <= b then a else b }

  /** Position of the first element satisfying `p`, as `filter(...).first()`. */
  function FirstIndex<T>(rows: seq<T>, p: T -> bool): (r: Option<nat>)
    ensures r.Some? ==> r.value < |rows| && p(rows[r.value])
    ensures r.Some? ==> forall j :: 0 <= j < r.value ==> !p(rows[j])
    ensures r.None? ==> forall j :: 0 <= j < |rows| ==> !p(rows[j])
  {
    if |rows| == 0 then None
    else if p(rows[0]) then Some(0)
    else match FirstIndex(rows[1..], p)
      case None => None
      case Some(k) => Some(k + 1)
  }

  /** The first element satisfying `p`, or None. */
  function First<T>(rows: seq<T>, p: T -> bool): (r: Option<T>)
    ensures r.Some? ==> r.value in rows && p(r.value)
    ensures r.Some? ==> exists i :: 0 <= i < |rows| && rows[i] == r.value
                                 && forall j :: 0 <= j < i ==> !p(rows[j])
    ensures r.None? <==> forall j :: 0 <= j < |rows| ==> !p(rows[j])
  {
    match FirstIndex(rows, p)
    case None => None
    case Some(i) => Some(rows[i])
  }

  /** Only the element at index `i` is gone; the others keep their order. */
  function RemoveAt<T>(rows: seq<T>, i: nat): (r: seq<T>)
    requires i < |rows|
    ensures |r| == |rows| - 1
    ensures forall j :: 0 <= j < i ==> r[j] == rows[j]
    ensures forall j :: i <= j < |r| ==> r[j] == rows[j + 1]
  {
    rows[..i] + rows[i + 1..]
  }
}
