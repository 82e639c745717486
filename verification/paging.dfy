/** The page-count arithmetic that the server (when it answers a page
    request) and the client (when it draws the controls) both perform. */
module Paging {
  import opened Wrappers
  import opened MachineInt

  /** Records per page. */
  const PER_PAGE: U32 := 10

  /** `(total + PER_PAGE - 1) / PER_PAGE` in `u32`. Rust groups the
      expression as `((total + PER_PAGE) - 1) / PER_PAGE`, so the sum
      overflows as soon as `total > u32::MAX - PER_PAGE`. Where it does not
      overflow the result is the ceiling of `total / PER_PAGE`: the least
      number of pages that holds every record. */
  function TotalPages(total: U32): (pages: Option<U32>)
    ensures pages.Some? <==> total <= U32_MAX - PER_PAGE
    ensures pages.Some? ==> (pages.value - 1) * PER_PAGE < total <= pages.value * PER_PAGE
    ensures pages.Some? ==> forall n: nat :: total <= n * PER_PAGE ==> pages.value <= n
    ensures pages.Some? ==> (pages.value == 0 <==> total == 0)
  {
    var sum :- CheckedAdd(total, PER_PAGE);
    // sum >= PER_PAGE, so the `- 1` cannot underflow
    Some((sum - 1) / PER_PAGE)
  }
}
