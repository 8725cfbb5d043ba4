/** The pagination loop of the JSON report export. The backend answers each page once, so
    what it answers is a function of the page number. */
module ReportExport {
  import opened Wrappers

  const U32_MAX: int := 0xFFFF_FFFF
  type U32 = n: int | 0 <= n <= U32_MAX

  const JSON_EXPORT_PAGE_SIZE: nat := 1000

  datatype Page<T> = Page(totalPages: U32, data: seq<T>)

  /** The page is the last one asked for. */
  predicate Stops<T>(number: U32, page: Page<T>) {
    |page.data| == 0 || number >= page.totalPages
  }

  /** The results from page `number` on. */
  function PagesFrom<T>(backend: U32 -> Result<Page<T>, string>, number: U32): Result<seq<T>, string>
    decreases U32_MAX - number
  {
    match backend(number)
    case Err(error) => Err(error)
    case Ok(page) =>
      if Stops(number, page) then Ok(page.data)
      else Followed(page.data, PagesFrom(backend, number + 1))
  }

  /** Results followed by the rest of the export, if that succeeds. */
  function Followed<T>(results: seq<T>, rest: Result<seq<T>, string>): Result<seq<T>, string> {
    match rest
    case Err(error) => Err(error)
    case Ok(more) => Ok(results + more)
  }

  lemma FollowedTwice<T>(first: seq<T>, second: seq<T>, rest: Result<seq<T>, string>)
    ensures Followed(first, Followed(second, rest)) == Followed(first + second, rest)
    ensures Followed([], rest) == rest
  {
    if rest.Ok? {
      assert first + (second + rest.value) == first + second + rest.value;
      assert [] + rest.value == rest.value;
    }
  }

  /** Ends against any backend, and never asks for a page beyond the 32-bit range. */
  method ExportResults<T>(backend: U32 -> Result<Page<T>, string>) returns (r: Result<seq<T>, string>)
    ensures r == PagesFrom(backend, 1)
  {
    var page: U32 := 1;
    var results: seq<T> := [];
    FollowedTwice([], [], PagesFrom(backend, 1));
    while true
      invariant page >= 1
      invariant PagesFrom(backend, 1) == Followed(results, PagesFrom(backend, page))
      decreases U32_MAX - page
    {
      var answer := backend(page);
      if answer.Err? {
        return Err(answer.error);
      }
      var totalPages, itemCount := answer.value.totalPages, |answer.value.data|;
      if !Stops(page, answer.value) {
        FollowedTwice(results, answer.value.data, PagesFrom(backend, page + 1));
      }
      results := results + answer.value.data;
      if itemCount == 0 || page >= totalPages {
        return Ok(results);
      }
      page := page + 1;
    }
  }

  /** Pages `first` to `last`, one after the other. */
  function Joined<T>(backend: U32 -> Result<Page<T>, string>, first: U32, last: U32): seq<T>
    requires first <= last
    requires forall n: U32 :: first <= n <= last ==> backend(n).Ok?
    decreases last - first
  {
    backend(first).value.data + if first == last then [] else Joined(backend, first + 1, last)
  }

  /** What an export holds, against any backend: every page once and in order, up to the
      first one that is empty or not before its own page total. */
  lemma {:induction false} ExportIsJoinedPages<T>(backend: U32 -> Result<Page<T>, string>, first: U32) returns (last: U32)
    requires PagesFrom(backend, first).Ok?
    ensures first <= last
    ensures forall n: U32 :: first <= n <= last ==> backend(n).Ok? && (Stops(n, backend(n).value) <==> n == last)
    ensures PagesFrom(backend, first).value == Joined(backend, first, last)
    decreases U32_MAX - first
  {
    last := first;
    if !Stops(first, backend(first).value) {
      last := ExportIsJoinedPages(backend, first + 1);
    }
  }

  /** Pages from `first` up to before page `n` are answered, and none of them is empty or
      reaches its page total. */
  ghost predicate GoesOnTo<T>(backend: U32 -> Result<Page<T>, string>, first: U32, n: U32) {
    first <= n && forall k: U32 :: first <= k < n ==>
      backend(k).Ok? && |backend(k).value.data| > 0 && k < backend(k).value.totalPages
  }

  /** Page `n` is the last one asked for: the first that is empty or reaches its total. */
  ghost predicate EndsAt<T>(backend: U32 -> Result<Page<T>, string>, first: U32, n: U32) {
    GoesOnTo(backend, first, n) && backend(n).Ok?
    && (|backend(n).value.data| == 0 || n >= backend(n).value.totalPages)
  }

  /** Page `n` is the first that is not answered. */
  ghost predicate FailsAt<T>(backend: U32 -> Result<Page<T>, string>, first: U32, n: U32) {
    GoesOnTo(backend, first, n) && backend(n).Err?
  }

  /** An export whose pages up to the last one are all answered holds all of them. */
  lemma {:induction false} ExportSucceeds<T>(backend: U32 -> Result<Page<T>, string>, first: U32, n: U32)
    requires EndsAt(backend, first, n)
    ensures PagesFrom(backend, first) == Ok(Joined(backend, first, n))
    decreases n - first
  {
    if first < n {
      assert backend(first).Ok?;
      ExportSucceeds(backend, first + 1, n);
    } else {
      assert backend(n).value.data + [] == backend(n).value.data;
    }
  }

  /** An export fails with the error of the first page that is not answered. */
  lemma {:induction false} ExportFails<T>(backend: U32 -> Result<Page<T>, string>, first: U32, n: U32)
    requires FailsAt(backend, first, n)
    ensures PagesFrom(backend, first) == Err(backend(n).error)
    decreases n - first
  {
    if first < n {
      assert backend(first).Ok?;
      ExportFails(backend, first + 1, n);
    }
  }

  /** One of the two happens against any backend, as page totals are 32-bit numbers. */
  lemma {:induction false} SomePageDecides<T>(backend: U32 -> Result<Page<T>, string>, first: U32) returns (n: U32)
    ensures EndsAt(backend, first, n) || FailsAt(backend, first, n)
    decreases U32_MAX - first
  {
    n := first;
    if backend(first).Ok? && |backend(first).value.data| > 0 && first < backend(first).value.totalPages {
      n := SomePageDecides(backend, first + 1);
    }
  }

  function Min(a: nat, b: nat): nat {
    if a <= b then a else b
  }

  /** How many pages hold `n` results. */
  function PageCount(n: nat): nat {
    if n == 0 then 0 else (n - 1) / JSON_EXPORT_PAGE_SIZE + 1
  }

  /** A backend that cuts one fixed sequence of results into pages. */
  ghost predicate Serves<T(!new)>(backend: U32 -> Result<Page<T>, string>, all: seq<T>) {
    && PageCount(|all|) <= U32_MAX
    && forall n: U32 :: n >= 1 ==>
         backend(n) == Ok(Page(PageCount(|all|),
                               all[Min(JSON_EXPORT_PAGE_SIZE * (n - 1), |all|)..Min(JSON_EXPORT_PAGE_SIZE * n, |all|)]))
  }

  lemma {:induction false} ServedFrom<T(!new)>(backend: U32 -> Result<Page<T>, string>, all: seq<T>, number: U32)
    requires Serves(backend, all) && 1 <= number
    requires number <= PageCount(|all|) || number == 1
    ensures PagesFrom(backend, number) == Ok(all[Min(JSON_EXPORT_PAGE_SIZE * (number - 1), |all|)..])
    decreases U32_MAX - number
  {
    var from, to := Min(JSON_EXPORT_PAGE_SIZE * (number - 1), |all|), Min(JSON_EXPORT_PAGE_SIZE * number, |all|);
    if number < PageCount(|all|) {
      ServedFrom(backend, all, number + 1);
      assert all[from..] == all[from..to] + all[to..];
    } else {
      assert all[from..to] == all[from..];
    }
  }

  /** Complete export: every result exactly once and in order. */
  lemma CompleteExport<T(!new)>(backend: U32 -> Result<Page<T>, string>, all: seq<T>)
    requires Serves(backend, all)
    ensures PagesFrom(backend, 1) == Ok(all)
  {
    ServedFrom(backend, all, 1);
    assert all[0..] == all;
  }
}
