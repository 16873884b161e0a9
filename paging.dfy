/** The incremental paged fetch `getItems` (index.js:105-120).

    A remote listing is a finite sequence of pages; the cursor of page `i`
    (`pagination.next_uri`) leads to page `i + 1`, and the last page has
    none. Pages after the first are reached by position; the cursor only
    says whether there is a further page. */
module Paging {
  import opened Wrappers
  import opened Ledger

  datatype Page<T> = Page(data: seq<Raw<T>>, nextUri: Option<string>)

  /** The resource a listing is nested under (`{name}/{id}/`). */
  datatype Context = Context(name: string, id: Id)

  /** The remote API: the listing that starts at each path. */
  type Api<T> = string -> seq<Page<T>>

  /** The page's cursor leads on: `while (path)` stops on a cursor that is
      absent or empty (index.js:117-118). */
  predicate HasNext<T>(p: Page<T>) {
    p.nextUri.Some? && p.nextUri.value != ""
  }

  /** Every page but the last has a cursor that leads on, the last has
      none. A listing whose page `k` has an empty cursor is modelled by its
      first `k + 1` pages: the loop never reaches the rest. */
  predicate Linked<T(==,!new)>(pages: seq<Page<T>>) {
    |pages| > 0 &&
    forall i :: 0 <= i < |pages| ==> (HasNext(pages[i]) <==> i < |pages| - 1)
  }

  /** The path of a listing's first page (index.js:107-108). */
  function FirstPath(name: string, context: Option<Context>): string {
    "/v2/" + (match context case None => "" case Some(c) => c.name + "/" + c.id + "/") + name
  }

  /** No record of `data` has a known id. */
  predicate AllNew<T(==,!new)>(data: seq<Raw<T>>, known: seq<Id>) {
    forall x :: x in data ==> x.id !in known
  }

  /** The records of a page whose id is not known, in page order
      (index.js:112-114). */
  function Fresh<T(==,!new)>(data: seq<Raw<T>>, known: seq<Id>): (r: seq<Raw<T>>)
    ensures forall x :: x in r <==> x in data && x.id !in known
    ensures |r| <= |data|
    ensures |r| == |data| <==> AllNew(data, known)
  {
    if data == [] then []
    else
      assert data == [data[0]] + data[1..];
      (if data[0].id in known then [] else [data[0]]) + Fresh(data[1..], known)
  }

  /** What `getItems` returns when it fetches page `i` of `pages`: the
      page's new records, then, if all of the page was new and it has a
      cursor, what the walk from the next page returns. */
  function Walk<T(==,!new)>(pages: seq<Page<T>>, i: nat, known: seq<Id>): (r: seq<Raw<T>>)
    requires Linked(pages) && i < |pages|
    ensures forall x :: x in r ==> x.id !in known && x in Flatten(pages[i..])
    decreases |pages| - i
  {
    FlattenStep(pages, i);
    var newItems := Fresh(pages[i].data, known);
    if |newItems| == |pages[i].data| && HasNext(pages[i]) then
      newItems + Walk(pages, i + 1, known)
    else
      newItems
  }

  /** All records of `pages`, in order. */
  function Flatten<T(==,!new)>(pages: seq<Page<T>>): seq<Raw<T>> {
    if pages == [] then [] else pages[0].data + Flatten(pages[1..])
  }

  /** The new records of each of `pages`, in order. */
  function FreshPages<T(==,!new)>(pages: seq<Page<T>>, known: seq<Id>): seq<Raw<T>> {
    if pages == [] then [] else Fresh(pages[0].data, known) + FreshPages(pages[1..], known)
  }

  lemma FlattenStep<T(!new)>(pages: seq<Page<T>>, i: nat)
    requires i < |pages|
    ensures Flatten(pages[i..]) == pages[i].data + Flatten(pages[i + 1..])
  {
    assert pages[i..][1..] == pages[i + 1..];
  }

  /** `getItems` (index.js:105-120). The do-while loop fetches a page,
      keeps its new records and moves to the next page only while every
      record of the page was new. */
  method GetItems<T(==,!new)>(api: Api<T>, name: string, known: seq<Id>, context: Option<Context>)
    returns (items: seq<Raw<T>>)
    requires Linked(api(FirstPath(name, context)))
    ensures items == Walk(api(FirstPath(name, context)), 0, known)
  {
    var pages := api(FirstPath(name, context));
    items := [];
    var i := 0;
    var more := true;
    while more
      invariant 0 <= i <= |pages|
      invariant more ==> i < |pages|
      invariant !more ==> 0 < i
      invariant Walk(pages, 0, known) == items + (if more then Walk(pages, i, known) else [])
      decreases |pages| - i
    {
      var page := pages[i];
      var newItems := Fresh(page.data, known);
      items := items + newItems;
      var allNew := |newItems| == |page.data|;
      more := allNew && HasNext(page);
      i := i + 1;
    }
  }

  /** The walk from page `i` is the new records of pages `i` to `k`, where
      `k` is the first page holding a known id, or the last page: pages
      after it are never fetched, even if `k` has a cursor. */
  lemma {:induction false} WalkFrom<T(!new)>(pages: seq<Page<T>>, i: nat, k: nat, known: seq<Id>)
    requires Linked(pages) && i <= k < |pages|
    requires forall j :: i <= j < k ==> AllNew(pages[j].data, known)
    requires k == |pages| - 1 || !AllNew(pages[k].data, known)
    ensures Walk(pages, i, known) == FreshPages(pages[i..k + 1], known)
    decreases k - i
  {
    var ps := pages[i..k + 1];
    assert ps[1..] == pages[i + 1..k + 1];
    if i < k {
      WalkFrom(pages, i + 1, k, known);
    } else {
      assert ps[1..] == [];
    }
  }

  /** The result of `getItems`: the new records of the pages up to the
      first one that holds a known id, page by page in fetch order. */
  lemma WalkStopsAtFirstKnownPage<T(!new)>(pages: seq<Page<T>>, k: nat, known: seq<Id>)
    requires Linked(pages) && k < |pages|
    requires forall j :: 0 <= j < k ==> AllNew(pages[j].data, known)
    requires k == |pages| - 1 || !AllNew(pages[k].data, known)
    ensures Walk(pages, 0, known) == FreshPages(pages[..k + 1], known)
  {
    WalkFrom(pages, 0, k, known);
  }

  /** An empty page counts as all new: its cursor is followed, and the
      walk goes on as from the next page. */
  lemma EmptyPageIsFollowed<T(!new)>(pages: seq<Page<T>>, i: nat, known: seq<Id>)
    requires Linked(pages) && i < |pages| - 1 && pages[i].data == []
    ensures Walk(pages, i, known) == Walk(pages, i + 1, known)
  {
    assert Fresh(pages[i].data, known) == [];
  }

  lemma {:induction false} FreshOfNothingKnown<T(!new)>(data: seq<Raw<T>>)
    ensures Fresh(data, []) == data
  {
    if data != [] {
      FreshOfNothingKnown(data[1..]);
      assert data == [data[0]] + data[1..];
    }
  }

  lemma {:induction false} FreshPagesOfNothingKnown<T(!new)>(pages: seq<Page<T>>)
    ensures FreshPages(pages, []) == Flatten(pages)
  {
    if pages != [] {
      FreshOfNothingKnown(pages[0].data);
      FreshPagesOfNothingKnown(pages[1..]);
    }
  }

  /** With nothing saved (a first run), `getItems` returns every record of
      every page, in order. */
  lemma FirstWalkFetchesEverything<T(!new)>(pages: seq<Page<T>>)
    requires Linked(pages)
    ensures Walk(pages, 0, []) == Flatten(pages)
  {
    var k := |pages| - 1;
    forall j | 0 <= j < k ensures AllNew(pages[j].data, []) { }
    WalkStopsAtFirstKnownPage(pages, k, []);
    assert pages[..k + 1] == pages;
    FreshPagesOfNothingKnown(pages);
  }

  /** Filtering keeps order: the new records of two pieces are the new
      records of the first followed by those of the second. */
  lemma {:induction false} FreshAppend<T(!new)>(a: seq<Raw<T>>, b: seq<Raw<T>>, known: seq<Id>)
    ensures Fresh(a + b, known) == Fresh(a, known) + Fresh(b, known)
  {
    if a != [] {
      var head := if a[0].id in known then [] else [a[0]];
      assert (a + b)[0] == a[0] && (a + b)[1..] == a[1..] + b;
      assert Fresh(a + b, known) == head + Fresh(a[1..] + b, known);
      FreshAppend(a[1..], b, known);
    } else {
      assert a + b == b;
    }
  }

  lemma {:induction false} FreshOfAllKnown<T(!new)>(data: seq<Raw<T>>, known: seq<Id>)
    requires forall x :: x in data ==> x.id in known
    ensures Fresh(data, known) == []
  {
    if data != [] {
      FreshOfAllKnown(data[1..], known);
    }
  }

  /** Idempotence: once everything a walk returned is known, the same
      listing yields nothing new. */
  lemma {:induction false} WalkAgainFindsNothing<T(!new)>(pages: seq<Page<T>>, i: nat, known: seq<Id>, known': seq<Id>)
    requires Linked(pages) && i < |pages|
    requires forall id :: id in known ==> id in known'
    requires forall x :: x in Walk(pages, i, known) ==> x.id in known'
    ensures Walk(pages, i, known') == []
    decreases |pages| - i
  {
    var data := pages[i].data;
    var first := Fresh(data, known);
    var again := Fresh(data, known');
    if |first| == |data| && HasNext(pages[i]) {
      assert Walk(pages, i, known) == first + Walk(pages, i + 1, known);
    }
    forall x | x in data ensures x.id in known' {
      if x.id !in known {
        assert x in first;
      }
    }
    FreshOfAllKnown(data, known');
    if |again| == |data| && HasNext(pages[i]) {
      WalkAgainFindsNothing(pages, i + 1, known, known');
    }
  }

  // ------------------------------------------------------------ uniqueness

  /** No two records share an id. */
  predicate DistinctIds<T>(s: seq<Raw<T>>) {
    forall i, j :: 0 <= i < j < |s| ==> s[i].id != s[j].id
  }

  lemma DistinctAppend<T>(a: seq<Raw<T>>, b: seq<Raw<T>>)
    requires DistinctIds(a) && DistinctIds(b)
    requires forall x, y :: x in a && y in b ==> x.id != y.id
    ensures DistinctIds(a + b)
  {
    var s := a + b;
    forall i, j | 0 <= i < j < |s| ensures s[i].id != s[j].id {
      if j < |a| {
        assert s[i] == a[i] && s[j] == a[j];
      } else if |a| <= i {
        assert s[i] == b[i - |a|] && s[j] == b[j - |a|];
      } else {
        assert s[i] == a[i] && s[j] == b[j - |a|];
      }
    }
  }

  lemma DistinctSplit<T>(a: seq<Raw<T>>, b: seq<Raw<T>>)
    requires DistinctIds(a + b)
    ensures DistinctIds(a) && DistinctIds(b)
    ensures forall x, y :: x in a && y in b ==> x.id != y.id
  {
    var s := a + b;
    forall i, j | 0 <= i < j < |a| ensures a[i].id != a[j].id {
      assert s[i] == a[i] && s[j] == a[j];
    }
    forall i, j | 0 <= i < j < |b| ensures b[i].id != b[j].id {
      assert s[|a| + i] == b[i] && s[|a| + j] == b[j];
    }
    forall x, y | x in a && y in b ensures x.id != y.id {
      var i :| 0 <= i < |a| && a[i] == x;
      var j :| 0 <= j < |b| && b[j] == y;
      assert s[i] == x && s[|a| + j] == y;
    }
  }

  /** Filtering keeps ids distinct. */
  lemma {:induction false} FreshDistinct<T(!new)>(data: seq<Raw<T>>, known: seq<Id>)
    requires DistinctIds(data)
    ensures DistinctIds(Fresh(data, known))
  {
    if data != [] {
      var head := if data[0].id in known then [] else [data[0]];
      assert data == [data[0]] + data[1..];
      DistinctSplit([data[0]], data[1..]);
      FreshDistinct(data[1..], known);
      DistinctAppend(head, Fresh(data[1..], known));
    }
  }

  /** A listing without repeated ids yields records without repeated ids. */
  lemma {:induction false} WalkDistinct<T(!new)>(pages: seq<Page<T>>, i: nat, known: seq<Id>)
    requires Linked(pages) && i < |pages|
    requires DistinctIds(Flatten(pages[i..]))
    ensures DistinctIds(Walk(pages, i, known))
    decreases |pages| - i
  {
    var data := pages[i].data;
    FlattenStep(pages, i);
    DistinctSplit(data, Flatten(pages[i + 1..]));
    FreshDistinct(data, known);
    if |Fresh(data, known)| == |data| && HasNext(pages[i]) {
      WalkDistinct(pages, i + 1, known);
      DistinctAppend(Fresh(data, known), Walk(pages, i + 1, known));
    }
  }
}
