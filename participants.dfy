/** Summing the entry counts of every participant over the paginated
    participant endpoint: the `while` loop of the calculate handler. */
module Participants {
  import opened Wrappers
  import opened Coercion

  /** A participant record; only its entry count is read. */
  datatype Participant = Participant(entryCount: JsNumber)

  /** A delivered page. A missing or null `items` list reads as the empty
      sequence; a missing `pageCount` is NaN. */
  datatype ParticipantPage = ParticipantPage(items: seq<Participant>, pageCount: JsNumber)

  /** The upstream's answer to one page request. In a sequence of these,
      index k holds the answer to the request for page k + 1. */
  type Response = Result<ParticipantPage>

  /** Sum of the coerced entry counts of `items`, accumulated front to back. */
  function ItemsTotal(items: seq<Participant>): real
  {
    if items == [] then 0.0
    else ItemsTotal(items[..|items| - 1]) + OrZero(items[|items| - 1].entryCount)
  }

  /** What one response adds to the running total. */
  function PageTotal(r: Response): real
  {
    if r.Success? then ItemsTotal(r.value.items) else 0.0
  }

  /** The running total after the responses `rs`, in order. */
  function Total(rs: seq<Response>): real
  {
    if rs == [] then 0.0 else Total(rs[..|rs| - 1]) + PageTotal(rs[|rs| - 1])
  }

  /** `pageCount = data.pageCount || pageCount`. */
  function NextBound(bound: real, r: Response): real
  {
    if r.Success? && Truthy(r.value.pageCount) then r.value.pageCount.value else bound
  }

  /** The loop's `pageCount` after the responses `rs`; it starts at 1. */
  function BoundAfter(rs: seq<Response>): real
  {
    if rs == [] then 1.0 else NextBound(BoundAfter(rs[..|rs| - 1]), rs[|rs| - 1])
  }

  /** The loop condition `page <= pageCount` once the pages `rs` have been
      read: the next page number is |rs| + 1. */
  predicate Continues(rs: seq<Response>)
  {
    (|rs| + 1) as real <= BoundAfter(rs)
  }

  /** The upstream serves page 1, and no page count it reports names a page
      beyond the ones it serves, so the loop cannot run past its answers. */
  predicate PageCountsWithin(up: seq<Response>)
  {
    && |up| >= 1
    && forall i :: 0 <= i < |up| && up[i].Success? && Truthy(up[i].value.pageCount) ==>
         up[i].value.pageCount.value <= |up| as real
  }

  /** The number of pages requested when the search resumes at page k + 1:
      the loop stops after a failed request or once the next page lies
      beyond the bound. */
  function StopFrom(up: seq<Response>, k: nat): (n: nat)
    requires k < |up|
    ensures k < n <= |up|
    decreases |up| - k
  {
    if up[k].Failure? || !Continues(up[..k + 1]) || k + 1 == |up| then k + 1
    else StopFrom(up, k + 1)
  }

  /** How many participant pages the handler requests. */
  function PagesRequested(up: seq<Response>): nat
    requires |up| >= 1
  {
    StopFrom(up, 0)
  }

  /** What the aggregation yields: the first thrown error, or the total over
      exactly the pages requested. */
  function CrawlResult(up: seq<Response>): Result<real>
    requires |up| >= 1
  {
    var n := PagesRequested(up);
    if up[n - 1].Failure? then Failure(up[n - 1].error) else Success(Total(up[..n]))
  }

  /** The loop bound never exceeds the number of pages the upstream serves. */
  lemma {:induction false} BoundWithin(up: seq<Response>, k: nat)
    requires PageCountsWithin(up) && k <= |up|
    ensures BoundAfter(up[..k]) <= |up| as real
  {
    if k > 0 {
      BoundWithin(up, k - 1);
      assert up[..k][..k - 1] == up[..k - 1];
    }
  }

  /** Pages j+1 to n-1 were delivered, and each of them left the loop
      willing to read the next page. */
  predicate ProgressesThrough(up: seq<Response>, j: nat, n: nat)
    requires n <= |up|
  {
    forall k :: j <= k < n - 1 ==> up[k].Success? && Continues(up[..k + 1])
  }

  lemma {:induction false} StopFromSpec(up: seq<Response>, j: nat)
    requires PageCountsWithin(up) && j < |up|
    ensures ProgressesThrough(up, j, StopFrom(up, j))
    ensures up[StopFrom(up, j) - 1].Failure? || !Continues(up[..StopFrom(up, j)])
    decreases |up| - j
  {
    if up[j].Failure? || !Continues(up[..j + 1]) {
    } else if j + 1 == |up| {
      BoundWithin(up, |up|);
      assert false;
    } else {
      var n := StopFrom(up, j + 1);
      assert StopFrom(up, j) == n;
      StopFromSpec(up, j + 1);
      assert ProgressesThrough(up, j, n) by {
        forall k | j <= k < n - 1 ensures up[k].Success? && Continues(up[..k + 1]) {
          if k > j {
            assert ProgressesThrough(up, j + 1, n);
          }
        }
      }
    }
  }

  /** The pages requested are 1, 2, ..., n with no gap: page 1 always, each
      next page only while it is within the bound read so far and the pages
      before it were delivered; the loop ends at the first failure or the
      first page beyond the current bound. */
  lemma PagesRequestedSpec(up: seq<Response>)
    requires PageCountsWithin(up)
    ensures var n := PagesRequested(up);
      && 1 <= n <= |up|
      && (forall k :: 0 <= k < n - 1 ==> up[k].Success?)
      && (forall k :: 0 <= k < n ==> Continues(up[..k]))
      && (up[n - 1].Failure? || !Continues(up[..n]))
  {
    var n := PagesRequested(up);
    StopFromSpec(up, 0);
    assert ProgressesThrough(up, 0, n);
    forall k | 0 <= k < n ensures Continues(up[..k]) {
      if k == 0 {
        assert up[..0] == [];
      }
    }
  }

  /** The description in PagesRequestedSpec fixes the number of pages. */
  lemma PagesRequestedUnique(up: seq<Response>, m: nat)
    requires PageCountsWithin(up)
    requires 1 <= m <= |up|
    requires forall k :: 0 <= k < m - 1 ==> up[k].Success?
    requires forall k :: 0 <= k < m ==> Continues(up[..k])
    requires up[m - 1].Failure? || !Continues(up[..m])
    ensures m == PagesRequested(up)
  {
    PagesRequestedSpec(up);
  }

  /** Page 1 is always requested, and when it reports no page count the
      loop ends after it. */
  lemma SinglePageWithoutCount(up: seq<Response>)
    requires PageCountsWithin(up)
    requires up[0].Success? && !Truthy(up[0].value.pageCount)
    ensures PagesRequested(up) == 1
    ensures CrawlResult(up) == Success(ItemsTotal(up[0].value.items))
  {
    assert up[..1][..0] == [] && up[..1][0] == up[0];
    assert BoundAfter(up[..1]) == 1.0;
    assert Total(up[..1]) == ItemsTotal(up[0].value.items);
  }

  lemma {:induction false} ItemsTotalAppend(a: seq<Participant>, b: seq<Participant>)
    ensures ItemsTotal(a + b) == ItemsTotal(a) + ItemsTotal(b)
    decreases |b|
  {
    if b == [] {
      assert a + b == a;
    } else {
      var b' := b[..|b| - 1];
      assert (a + b)[..|a + b| - 1] == a + b';
      ItemsTotalAppend(a, b');
    }
  }

  /** A participant whose entry count is not a number adds nothing. */
  lemma NonNumericCountAddsNothing(a: seq<Participant>, b: seq<Participant>)
    ensures ItemsTotal(a + [Participant(NaN)] + b) == ItemsTotal(a + b)
  {
    ItemsTotalAppend(a + [Participant(NaN)], b);
    ItemsTotalAppend(a, b);
    assert (a + [Participant(NaN)])[..|a|] == a;
  }

  /** A page whose `items` is missing or empty adds nothing to the total. */
  lemma EmptyPageAddsNothing(rs: seq<Response>, pageCount: JsNumber)
    ensures Total(rs + [Success(ParticipantPage([], pageCount))]) == Total(rs)
  {
    assert (rs + [Success(ParticipantPage([], pageCount))])[..|rs|] == rs;
  }

  /** The pagination loop of the calculate handler. `requested` is the
      number of page requests made (pages 1 to `requested`). */
  method SumParticipants(up: seq<Response>) returns (requested: nat, result: Result<real>)
    requires PageCountsWithin(up)
    ensures requested == PagesRequested(up)
    ensures result == CrawlResult(up)
  {
    var total := 0.0;
    var page: nat := 1;
    var pageCount := 1.0;
    assert up[..0] == [];
    while page as real <= pageCount
      invariant 1 <= page <= |up| + 1
      invariant pageCount == BoundAfter(up[..page - 1])
      invariant total == Total(up[..page - 1])
      invariant forall k :: 0 <= k < page - 1 ==> up[k].Success?
      invariant page == 1 || StopFrom(up, page - 2) == PagesRequested(up)
      decreases |up| + 1 - page
    {
      BoundWithin(up, page - 1);
      assert StopFrom(up, page - 1) == PagesRequested(up);
      var response := up[page - 1];
      if response.Failure? {
        return page, Failure(response.error);
      }
      var data := response.value;
      assert up[..page][..page - 1] == up[..page - 1];
      if |data.items| > 0 {
        var i := 0;
        while i < |data.items|
          invariant 0 <= i <= |data.items|
          invariant total == Total(up[..page - 1]) + ItemsTotal(data.items[..i])
        {
          assert data.items[..i + 1][..i] == data.items[..i];
          total := total + OrZero(data.items[i].entryCount);
          i := i + 1;
        }
        assert data.items[..i] == data.items;
      }
      pageCount := if Truthy(data.pageCount) then data.pageCount.value else pageCount;
      page := page + 1;
    }
    requested := page - 1;
    result := Success(total);
  }
}
