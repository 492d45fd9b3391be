/** The page arithmetic every `findAll` shares: `skip((page - 1) * limit)`,
    `take(limit)` and `Math.ceil(total / limit)`, with `page >= 1` and
    `limit >= 1` as the filter DTOs demand through `@Min(1)`. */
module Pagination {
  import opened Common

  datatype SortOrder = Asc | Desc

  /** The `page`, `limit` and `sortOrder` query fields of a filter DTO, each
      optional; `@Min(1)` bounds the first two. */
  datatype Paging = Paging(page: Option<int>, limit: Option<int>, order: Option<SortOrder>) {
    predicate Valid() {
      page.GetOr(1) >= 1 && limit.GetOr(10) >= 1
    }

    /** `const { page = 1 } = dto`. */
    function PageNo(): int {
      page.GetOr(1)
    }

    /** `const { limit = 10 } = dto`. */
    function Limit(): int {
      limit.GetOr(10)
    }
  }

  /** The `{ data, total, page, totalPages }` object of a `findAll`. */
  datatype Page<T> = Page(data: seq<T>, total: nat, page: int, totalPages: nat)

  /** Rows skipped before page `page`. */
  function Skip(page: int, limit: int): nat
    requires page >= 1 && limit >= 1
  {
    (page - 1) * limit
  }

  /** `Math.ceil(total / limit)`: the fewest pages of `limit` rows that hold
      `total` rows. */
  function TotalPages(total: nat, limit: int): (r: nat)
    requires limit >= 1
    ensures total <= r * limit
    ensures r == 0 || (r - 1) * limit < total
    ensures r == 0 <==> total == 0
  {
    var r := (total + limit - 1) / limit;
    CeilingBounds(total, limit, r);
    r
  }

  lemma CeilingBounds(total: nat, limit: int, r: nat)
    requires limit >= 1 && r == (total + limit - 1) / limit
    ensures total <= r * limit
    ensures r == 0 || (r - 1) * limit < total
  {
    var q := total + limit - 1;
    assert q == r * limit + q % limit;
    assert r * limit + limit - 1 >= q;
  }

  /** Row `k` (counted from 0) is on page `page` exactly when `page` is
      `k / limit + 1`: successive pages partition the rows. */
  lemma RowOnPage(k: nat, page: int, limit: int)
    requires page >= 1 && limit >= 1
    ensures Skip(page, limit) <= k < Skip(page, limit) + limit <==> page == k / limit + 1
  {
    var p := k / limit;
    var q := page - 1;
    assert k == p * limit + k % limit;
    assert (q + 1) * limit == q * limit + limit;
    assert (p + 1) * limit == p * limit + limit;
    if q < p {
      MulMonotone(q + 1, p, limit);
    } else if q > p {
      MulMonotone(p + 1, q, limit);
    }
  }

  lemma MulMonotone(a: int, b: int, c: nat)
    requires a <= b
    ensures a * c <= b * c
  {
    assert b * c - a * c == (b - a) * c;
  }

  /** A page holds at least one row exactly when its number is at most
      `totalPages`. */
  lemma PageNonEmptyIffWithinTotal(total: nat, page: int, limit: int)
    requires page >= 1 && limit >= 1
    ensures Skip(page, limit) < total <==> page <= TotalPages(total, limit)
  {
    var n := TotalPages(total, limit);
    if page <= n {
      assert (page - 1) * limit <= (n - 1) * limit;
    } else {
      assert (page - 1) * limit >= n * limit;
    }
  }

  function Min(a: int, b: int): int {
    if a <= b then a else b
  }

  /** `.skip(skip).take(take)` on the ordered result. */
  function Window<T>(rows: seq<T>, skip: nat, take: nat): (r: seq<T>)
    ensures |r| == if skip >= |rows| then 0 else Min(take, |rows| - skip)
    ensures forall i :: 0 <= i < |r| ==> r[i] == rows[skip + i]
  {
    if skip >= |rows| then [] else rows[skip..Min(skip + take, |rows|)]
  }

  function Reverse<T>(s: seq<T>): (r: seq<T>)
    ensures |r| == |s|
    ensures forall i :: 0 <= i < |s| ==> r[i] == s[|s| - 1 - i]
  {
    if s == [] then [] else Reverse(s[1..]) + [s[0]]
  }

  function Ordered<T>(rows: seq<T>, order: SortOrder): seq<T> {
    if order == Asc then rows else Reverse(rows)
  }

  /** `getManyAndCount()` followed by the page arithmetic: `data` is the
      requested window of the ordered matches and `total` counts all of them. */
  function Paginate<T>(matching: seq<T>, page: int, limit: int, order: SortOrder): (r: Page<T>)
    requires page >= 1 && limit >= 1
    ensures r.total == |matching| && r.page == page
    ensures r.totalPages == TotalPages(|matching|, limit)
    ensures |r.data| <= limit
    ensures forall x :: x in r.data ==> x in matching
    ensures r.data != [] <==> page <= r.totalPages
    ensures var sk := Skip(page, limit);
            |r.data| == if sk >= |matching| then 0 else Min(limit, |matching| - sk)
    ensures var sk := Skip(page, limit);
            forall i :: 0 <= i < |r.data| ==>
              r.data[i] == if order == Asc then matching[sk + i] else matching[|matching| - 1 - (sk + i)]
  {
    var ordered := Ordered(matching, order);
    var data := Window(ordered, Skip(page, limit), limit);
    PageNonEmptyIffWithinTotal(|matching|, page, limit);
    assert forall x :: x in data ==> x in ordered;
    assert forall i :: 0 <= i < |ordered| ==> ordered[i] in matching;
    Page(data, |matching|, page, TotalPages(|matching|, limit))
  }

  /** In ascending order, row `k` of the matches is row `k % limit` of page
      `k / limit + 1`. */
  lemma RowInItsPage<T>(matching: seq<T>, k: nat, limit: int)
    requires k < |matching| && limit >= 1
    ensures var p := Paginate(matching, k / limit + 1, limit, Asc);
            k % limit < |p.data| && p.data[k % limit] == matching[k]
  {
    var page := k / limit + 1;
    RowOnPage(k, page, limit);
    assert Skip(page, limit) + k % limit == k;
  }
}
