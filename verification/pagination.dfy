/** Page parameters of the product listings (API/RequestHelpers/PaginationParams.cs). */
module Pagination {
  /** Largest page size a request may ask for. */
  const MaxPageSize: int := 50

  datatype PaginationParams = PaginationParams(pageNumber: int, pageSize: int)

  /** The state every sequence of assignments keeps. */
  predicate Valid(p: PaginationParams)
  {
    p.pageNumber >= 1 && p.pageSize <= MaxPageSize
  }

  /** A freshly bound parameter object. */
  function Default(): (r: PaginationParams)
    ensures r.pageNumber == 1 && r.pageSize == 8
    ensures Valid(r)
  {
    PaginationParams(1, 8)
  }

  /** The `PageNumber` setter: anything below 1 is stored as 1. */
  function SetPageNumber(p: PaginationParams, value: int): (r: PaginationParams)
    ensures r.pageSize == p.pageSize
    ensures value < 1 ==> r.pageNumber == 1
    ensures value >= 1 ==> r.pageNumber == value
  {
    p.(pageNumber := if value < 1 then 1 else value)
  }

  /** The `PageSize` setter: anything above 50 is stored as 50; no lower bound. */
  function SetPageSize(p: PaginationParams, value: int): (r: PaginationParams)
    ensures r.pageNumber == p.pageNumber
    ensures value > MaxPageSize ==> r.pageSize == MaxPageSize
    ensures value <= MaxPageSize ==> r.pageSize == value
  {
    p.(pageSize := if value > MaxPageSize then MaxPageSize else value)
  }

  /** One property assignment, as model binding performs it. */
  datatype Assignment = PageNumberTo(n: int) | PageSizeTo(n: int)

  function Assign(p: PaginationParams, a: Assignment): PaginationParams
  {
    match a
    case PageNumberTo(n) => SetPageNumber(p, n)
    case PageSizeTo(n) => SetPageSize(p, n)
  }

  /** A sequence of assignments applied left to right. */
  function AssignAll(p: PaginationParams, xs: seq<Assignment>): PaginationParams
    decreases |xs|
  {
    if |xs| == 0 then p else AssignAll(Assign(p, xs[0]), xs[1..])
  }

  /** Whatever values are bound, starting from the defaults, page number >= 1 and page size <= 50. */
  lemma {:induction false} AssignAllValid(p: PaginationParams, xs: seq<Assignment>)
    requires Valid(p)
    ensures Valid(AssignAll(p, xs))
    decreases |xs|
  {
    if |xs| > 0 {
      AssignAllValid(Assign(p, xs[0]), xs[1..]);
    }
  }

  /** Re-assigning a valid object's own values changes nothing. */
  lemma ReassignIsIdentity(p: PaginationParams)
    requires Valid(p)
    ensures SetPageNumber(p, p.pageNumber) == p
    ensures SetPageSize(p, p.pageSize) == p
  {
  }

  /** The setters are idempotent: applying the same value twice is applying it once. */
  lemma SettersIdempotent(p: PaginationParams, n: int)
    ensures SetPageNumber(SetPageNumber(p, n), n) == SetPageNumber(p, n)
    ensures SetPageSize(SetPageSize(p, n), n) == SetPageSize(p, n)
  {
  }
}
