/** Paginated API answers. The fetching scripts ask for page 1, 2, ... and
    stop after the first page whose `next` link is JSON null; here the answers
    are an input sequence, page number `p` being `pages[p - 1]`. */
module Paging {
  import opened Wrappers

  /** One page of an answer: its records and the link to the next page
      (None for JSON null). */
  datatype Page<T> = Page(results: seq<T>, next: Option<string>)

  /** Raised by the scripts as a KeyError when the page they ask for has no
      `results`, because the API has no page with that number. */
  datatype FetchError = MissingPage(page: nat)

  /** Index of the first page whose `next` is null: the last page read. */
  function LastPage<T>(pages: seq<Page<T>>): (r: Option<nat>)
    ensures r.Some? ==> r.value < |pages| && pages[r.value].next.None?
    ensures r.Some? ==> forall j :: 0 <= j < r.value ==> pages[j].next.Some?
    ensures r.None? ==> forall j :: 0 <= j < |pages| ==> pages[j].next.Some?
  {
    if pages == [] then None
    else if pages[0].next.None? then Some(0)
    else
      match LastPage(pages[1..])
      case None => None
      case Some(i) => Some(i + 1)
  }

  /** The records of the given pages, page after page, record after record. */
  function Records<T>(pages: seq<Page<T>>): seq<T> {
    if pages == [] then [] else Records(pages[..|pages| - 1]) + pages[|pages| - 1].results
  }

  /** The first page with a null `next` is the one `LastPage` names. */
  lemma {:induction false} LastPageIs<T>(pages: seq<Page<T>>, i: nat)
    requires i < |pages| && pages[i].next.None?
    requires forall j :: 0 <= j < i ==> pages[j].next.Some?
    ensures LastPage(pages) == Some(i)
  {
    if i > 0 {
      LastPageIs(pages[1..], i - 1);
    }
  }

  /** Reading one more page appends its records. */
  lemma RecordsStep<T>(pages: seq<Page<T>>, p: nat)
    requires 1 <= p <= |pages|
    ensures Records(pages[..p]) == Records(pages[..p - 1]) + pages[p - 1].results
  {
    assert pages[..p][..p - 1] == pages[..p - 1];
  }

  /** Page numbers 1, ..., n: the requests a script sends to read n pages. */
  function PageNumbers(n: nat): (r: seq<nat>)
    ensures |r| == n && forall j :: 0 <= j < n ==> r[j] == j + 1
  {
    if n == 0 then [] else PageNumbers(n - 1) + [n]
  }
}
