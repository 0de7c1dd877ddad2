/**
 The budgeted reads of the board tools (agentboard/tools.go): the requested read first,
 then with all limits halved until the serialized result fits or every limit is one.
 */
module BoundedRead {
  import opened Common
  import opened Paging

  datatype ReadError<+E> = FetchFailed(error: E) | BudgetTooSmall

  /** Integer division of the original: the quotient is truncated. */
  function TruncDiv(a: int, b: int): int
    requires b > 0
  {
    if a >= 0 then a / b else -(-a / b)
  }

  /** `messageBoardNonZero`. */
  function NonZero(value: int): (n: int)
    ensures n >= 1 && (value >= 1 ==> n == value)
  {
    if value < 1 then 1 else value
  }

  function Pow2(k: nat): (p: int)
    ensures p >= 1
  {
    if k == 0 then 1 else 2 * Pow2(k - 1)
  }

  /** The limit actually requested at a scale. */
  function Scaled(limit: int, scale: int): int
    requires scale > 0
  {
    NonZero(TruncDiv(limit, scale))
  }

  lemma AtMostOne(a: int, d: int)
    requires d > 0
    ensures TruncDiv(a, d) <= 1 <==> a < 2 * d
    ensures Scaled(a, d) == 1 <==> a < 2 * d
  {
  }

  lemma {:induction false} Pow2Monotone(k: nat, m: nat)
    requires k <= m
    ensures Pow2(k) <= Pow2(m)
    decreases m
  {
    if k < m { Pow2Monotone(k, m - 1); }
  }

  /** A scale at which the largest limit is used up turns every limit into one, at any later scale too. */
  lemma AllLimitsOne(limit: int, largest: int, k: nat, m: nat)
    requires limit <= largest && TruncDiv(largest, Pow2(k)) <= 1 && k <= m
    ensures Scaled(limit, Pow2(m)) == 1
  {
    Pow2Monotone(k, m);
    AtMostOne(largest, Pow2(k));
    AtMostOne(limit, Pow2(m));
  }

  /** The read at scale 2^k was made and its result did not fit. */
  ghost predicate TooLarge<T, E>(fetch: int -> Result<T, E>, size: T -> nat, budget: int, k: nat) {
    var result := fetch(Pow2(k));
    result.Ok? && size(result.value) > budget
  }

  /**
   What a bounded read may answer after `n` halvings: every earlier read was too large,
   and the read at scale 2^n failed, or fitted, or was too large with the largest limit
   used up. The number of reads is logarithmic in that limit.
   */
  ghost predicate Settles<T, E>(budget: int, largestLimit: int, fetch: int -> Result<T, E>, size: T -> nat,
                                r: Result<T, ReadError<E>>, n: nat)
  {
    && Pow2(n) <= Max(1, largestLimit)
    && (forall k :: 0 <= k < n ==> TooLarge(fetch, size, budget, k))
    && match r
       case Ok(value) => fetch(Pow2(n)) == Ok(value) && size(value) <= budget
       case Err(FetchFailed(error)) => fetch(Pow2(n)) == Err(error)
       case Err(BudgetTooSmall) => TooLarge(fetch, size, budget, n) && TruncDiv(largestLimit, Pow2(n)) <= 1
  }

  /** The number of halvings and the answer are determined by the reads. */
  lemma SettlesOnce<T, E>(budget: int, largestLimit: int, fetch: int -> Result<T, E>, size: T -> nat,
                          r: Result<T, ReadError<E>>, m: nat, q: Result<T, ReadError<E>>, n: nat)
    requires Settles(budget, largestLimit, fetch, size, r, m) && Settles(budget, largestLimit, fetch, size, q, n)
    ensures m == n && r == q
  {
    if m < n {
      GivesUpLast(budget, largestLimit, fetch, size, r, m, n);
    }
    if n < m {
      GivesUpLast(budget, largestLimit, fetch, size, q, n, m);
    }
  }

  /** A read that settles is not followed by another. */
  lemma GivesUpLast<T, E>(budget: int, largestLimit: int, fetch: int -> Result<T, E>, size: T -> nat,
                          r: Result<T, ReadError<E>>, m: nat, n: nat)
    requires Settles(budget, largestLimit, fetch, size, r, m) && TooLarge(fetch, size, budget, m)
    requires Pow2(n) <= Max(1, largestLimit)
    ensures n <= m
  {
    AtMostOne(largestLimit, Pow2(m));
    if n > m { Pow2Monotone(m + 1, n); }
  }

  /** `messageBoardBoundedRead`. */
  method MessageBoardBoundedRead<T, E>(budget: int, largestLimit: int, fetch: int -> Result<T, E>, size: T -> nat)
      returns (r: Result<T, ReadError<E>>)
    ensures exists n: nat :: Settles(budget, largestLimit, fetch, size, r, n)
  {
    var scale := 1;
    ghost var n: nat := 0;
    while true
      invariant scale == Pow2(n) && scale <= Max(1, largestLimit)
      invariant forall k :: 0 <= k < n ==> TooLarge(fetch, size, budget, k)
      decreases largestLimit - scale
    {
      var result := fetch(scale);
      if result.Err? {
        r := Err(FetchFailed(result.error));
        assert Settles(budget, largestLimit, fetch, size, r, n);
        return;
      }
      if size(result.value) <= budget {
        r := Ok(result.value);
        assert Settles(budget, largestLimit, fetch, size, r, n);
        return;
      }
      if TruncDiv(largestLimit, scale) <= 1 {
        break;
      }
      AtMostOne(largestLimit, scale);
      scale := scale * 2;
      n := n + 1;
    }
    r := Err(BudgetTooSmall);
    assert Settles(budget, largestLimit, fetch, size, r, n);
  }

  const DEFAULT_PREVIEW_CHARS: int := 1000
  const MAX_PREVIEW_CHARS: int := 20000

  /** `pageLimit` of the tools. */
  function PageLimit(limit: Option<int>): int {
    Min(if limit.Some? then limit.value else DEFAULT_PAGE_LIMIT, MAX_PAGE_LIMIT)
  }

  /** `previewLimit` of the tools. */
  function PreviewLimit(limit: Option<int>): int {
    Min(if limit.Some? then limit.value else DEFAULT_PREVIEW_CHARS, MAX_PREVIEW_CHARS)
  }

  /** The read of a listing tool at one scale: a page and the preview length used for it. */
  function FetchAt<T>(items: seq<T>, cursor: Option<string>, limit: int, chars: int, scale: int): Result<(Page<T>, int), PageError>
    requires scale > 0
  {
    match PageItems(PageRequest(cursor, Scaled(limit, scale)), items)
    case Ok(page) => Ok((page, Scaled(chars, scale)))
    case Err(error) => Err(error)
  }

  function AskedFor(limit: Option<int>, default: int, most: int): int {
    if limit.None? then default else if limit.value > most then most else limit.value
  }

  /** The read after `n` halvings of these limits. */
  function ReadAfter<T>(items: seq<T>, cursor: Option<string>, limit: int, chars: int, n: nat): Result<(Page<T>, int), PageError> {
    match PageItems(PageRequest(cursor, Max(1, limit / Pow2(n))), items)
    case Ok(page) => Ok((page, Max(1, chars / Pow2(n))))
    case Err(error) => Err(error)
  }

  lemma HalvedLimit(limit: int, n: nat)
    ensures Scaled(limit, Pow2(n)) == Max(1, limit / Pow2(n))
  {
    if limit < 0 { NegativeQuotients(-limit, Pow2(n)); }
  }

  lemma NegativeQuotients(a: int, d: int)
    requires a >= 0 && d > 0
    ensures -(a / d) <= 0 && -a / d <= 0
  {
  }

  lemma FetchIsRead<T>(items: seq<T>, cursor: Option<string>, limit: int, chars: int, n: nat)
    ensures FetchAt(items, cursor, limit, chars, Pow2(n)) == ReadAfter(items, cursor, limit, chars, n)
  {
    HalvedLimit(limit, n);
    HalvedLimit(chars, n);
  }

  /** The answer is that of the read after `n` halvings, and no earlier read fits. */
  ghost predicate IsFirst<T>(items: seq<T>, cursor: Option<string>, limit: int, chars: int, budget: int, size: ((Page<T>, int)) -> nat,
                             answer: Result<(Page<T>, int), PageError>, n: nat) {
    && ReadAfter(items, cursor, limit, chars, n) == answer
    && forall k: nat | k < n :: OverBudget(ReadAfter(items, cursor, limit, chars, k), budget, size)
  }

  predicate OverBudget<T>(read: Result<(Page<T>, int), PageError>, budget: int, size: ((Page<T>, int)) -> nat) {
    read.Ok? && size(read.value) > budget
  }

  lemma SettlesFirst<T>(items: seq<T>, cursor: Option<string>, limit: int, chars: int, budget: int, size: ((Page<T>, int)) -> nat,
                        fetch: int -> Result<(Page<T>, int), PageError>, n: nat)
    requires forall k: nat :: fetch(Pow2(k)) == FetchAt(items, cursor, limit, chars, Pow2(k))
    requires forall k: nat | k < n :: TooLarge(fetch, size, budget, k)
    ensures IsFirst(items, cursor, limit, chars, budget, size, fetch(Pow2(n)), n)
  {
    FetchIsRead(items, cursor, limit, chars, n);
    forall k: nat | k < n ensures OverBudget(ReadAfter(items, cursor, limit, chars, k), budget, size) {
      assert TooLarge(fetch, size, budget, k);
      FetchIsRead(items, cursor, limit, chars, k);
    }
  }

  lemma FirstIsPage<T>(items: seq<T>, cursor: Option<string>, limit: int, chars: int, budget: int, size: ((Page<T>, int)) -> nat,
                       read: (Page<T>, int), n: nat)
    requires IsFirst(items, cursor, limit, chars, budget, size, Ok(read), n)
    ensures PageAt(items, cursor, read.0)
  {
  }

  /** A read with every limit at one that is too large. */
  lemma OneDoesNotFit<T>(items: seq<T>, cursor: Option<string>, limit: int, chars: int, budget: int, size: ((Page<T>, int)) -> nat,
                         fetch: int -> Result<(Page<T>, int), PageError>, n: nat)
    requires fetch(Pow2(n)) == FetchAt(items, cursor, limit, chars, Pow2(n)) && TooLarge(fetch, size, budget, n)
    requires TruncDiv(Max(limit, chars), Pow2(n)) <= 1
    ensures exists page :: PageItems(PageRequest(cursor, 1), items) == Ok(page) && size((page, 1)) > budget
  {
    AllLimitsOne(limit, Max(limit, chars), n, n);
    AllLimitsOne(chars, Max(limit, chars), n, n);
  }

  /**
   A paged tool read of a listing, with a limit on items and one on preview characters.
   It returns the first of these reads that fits: with the limits asked for (20 items and
   1000 characters by default, at most 50 and 20000), then with both halved again and
   again, down to one. It gives up only when one item with one preview character does not fit.
   */
  method ReadListing<T>(items: seq<T>, cursor: Option<string>, limitArg: Option<int>, charsArg: Option<int>,
                        budget: int, size: ((Page<T>, int)) -> nat)
      returns (r: Result<(Page<T>, int), ReadError<PageError>>)
    ensures r.Ok? ==> PageAt(items, cursor, r.value.0) && size(r.value) <= budget
    ensures var limit, chars := AskedFor(limitArg, 20, 50), AskedFor(charsArg, 1000, 20000);
      match r
      case Ok(read) => exists n: nat :: IsFirst(items, cursor, limit, chars, budget, size, Ok(read), n)
      case Err(FetchFailed(error)) => exists n: nat :: IsFirst(items, cursor, limit, chars, budget, size, Err(error), n)
      case Err(BudgetTooSmall) => true
    ensures r.Err? && r.error.BudgetTooSmall? ==>
      exists page :: PageItems(PageRequest(cursor, 1), items) == Ok(page) && size((page, 1)) > budget
  {
    hide PageItems, FetchAt, TooLarge, IsFirst, PageAt, TruncDiv, Pow2;
    var limit, chars := PageLimit(limitArg), PreviewLimit(charsArg);
    var largest := Max(limit, chars);
    var fetch := (scale: int) => FetchAt(items, cursor, limit, chars, if scale > 0 then scale else 1);
    r := MessageBoardBoundedRead(budget, largest, fetch, size);
    assert limit == AskedFor(limitArg, 20, 50) && chars == AskedFor(charsArg, 1000, 20000);
    ghost var last: nat :| Settles(budget, largest, fetch, size, r, last);
    SettlesFirst(items, cursor, limit, chars, budget, size, fetch, last);
    if r.Ok? {
      assert IsFirst(items, cursor, limit, chars, budget, size, Ok(r.value), last);
      FirstIsPage(items, cursor, limit, chars, budget, size, r.value, last);
    } else if r.error.BudgetTooSmall? {
      OneDoesNotFit(items, cursor, limit, chars, budget, size, fetch, last);
    } else {
      assert IsFirst(items, cursor, limit, chars, budget, size, Err(r.error.error), last);
    }
  }
}
