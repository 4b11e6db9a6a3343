/**
 Bounded collection of paged Graph answers, in the form the permission-grant, owner and
 posture collectors share: it succeeds only when it has proved the collection complete.

 A server is a script: the page it answers to the first request, the second, and so on.
 */
module Pagination {
  import opened Common
  import opened Ordering

  /** An item is `None` when it is not a record the collector accepts. */
  datatype Items<+R> = NotAList | Items(items: seq<Option<R>>)

  datatype Next = End | Malformed | Link(target: nat)

  datatype Page<+R> = Page(value: Items<R>, next: Next)

  datatype Collected<+R> = Collected(records: seq<R>, pages: nat)

  // ---------------------------------------------------------------------------------
  // What a complete collection is
  // ---------------------------------------------------------------------------------

  predicate WellFormed<R>(page: Page<R>) {
    page.value.Items? && forall i | 0 <= i < |page.value.items| :: page.value.items[i].Some?
  }

  function Values<R>(items: seq<Option<R>>): seq<R>
    requires forall i | 0 <= i < |items| :: items[i].Some?
  {
    seq(|items|, i requires 0 <= i < |items| => items[i].value)
  }

  /** The records of the first `n` pages in order. */
  function Concat<R>(script: nat -> Page<R>, n: nat): seq<R>
    requires forall i: nat | i < n :: WellFormed(script(i))
  {
    if n == 0 then []
    else
      assert WellFormed(script(n - 1));
      Concat(script, n - 1) + Values(script(n - 1).value.items)
  }

  /** Item `j` of page `i` comes right after the items of the pages before it and `j` items of its own page. */
  lemma {:induction false} RecordsKeepTheirPlace<R>(script: nat -> Page<R>, n: nat, i: nat, j: nat)
    requires i < n && forall k: nat | k < n :: WellFormed(script(k))
    requires WellFormed(script(i)) && j < |script(i).value.items|
    ensures |Concat(script, i + 1)| == |Concat(script, i)| + |script(i).value.items| <= |Concat(script, n)|
    ensures Concat(script, n)[|Concat(script, i)| + j] == script(i).value.items[j].value
  {
    assert WellFormed(script(i)) && WellFormed(script(n - 1));
    if i < n - 1 {
      RecordsKeepTheirPlace(script, n - 1, i, j);
    }
  }

  /** The links after the first `n` pages are all there and all different. */
  predicate Links<R>(script: nat -> Page<R>, n: nat) {
    && (forall i: nat | i < n :: script(i).next.Link?)
    && forall i: nat, j: nat | i < j < n :: script(i).next.target != script(j).next.target
  }

  /** The chain of pages ends after `n` well-formed pages. */
  predicate EndsAfter<R>(script: nat -> Page<R>, n: nat) {
    n > 0 && Links(script, n - 1) && script(n - 1).next == End && forall i: nat | i < n :: WellFormed(script(i))
  }

  /** It also stays within the bounds. */
  predicate CompleteWithin<R>(script: nat -> Page<R>, n: nat, maxRecords: nat, maxPages: nat) {
    EndsAfter(script, n) && n <= maxPages && |Concat(script, n)| <= maxRecords
  }

  // ---------------------------------------------------------------------------------
  // The loop
  // ---------------------------------------------------------------------------------

  lemma {:induction false} ConcatGrows<R>(script: nat -> Page<R>, n: nat, m: nat)
    requires n <= m && forall i: nat | i < m :: WellFormed(script(i))
    ensures |Concat(script, n)| <= |Concat(script, m)|
  {
    if n < m {
      ConcatGrows(script, n, m - 1);
    }
  }

  lemma OnePageMore<R>(script: nat -> Page<R>, page: nat)
    requires forall i: nat | i < page :: WellFormed(script(i))
    ensures WellFormed(script(page)) ==>
      && (forall i: nat | i < page + 1 :: WellFormed(script(i)))
      && Concat(script, page + 1) == Concat(script, page) + Values(script(page).value.items)
  {
  }

  /** The links seen in the first `n` pages. */
  function Seen<R>(script: nat -> Page<R>, n: nat): (links: set<nat>)
    ensures forall x :: x in links <==> exists i: nat :: i < n && script(i).next == Link(x)
  {
    if n == 0 then {}
    else Seen(script, n - 1) + if script(n - 1).next.Link? then {script(n - 1).next.target} else {}
  }

  lemma LinkIsNew<R>(script: nat -> Page<R>, n: nat)
    requires Links(script, n) && script(n).next.Link?
    ensures Links(script, n + 1) <==> script(n).next.target !in Seen(script, n)
  {
  }

  /** A page that ends, breaks or overflows the collection. */
  predicate Blocks<R>(script: nat -> Page<R>, page: nat, maxRecords: nat, maxPages: nat) {
    || page >= maxPages
    || !WellFormed(script(page))
    || ((forall i: nat | i <= page :: WellFormed(script(i))) && |Concat(script, page + 1)| > maxRecords)
    || (script(page).next != End && (page + 1 >= maxPages || !Links(script, page + 1)))
  }

  /** No later page can make up for it. */
  lemma StopsHere<R>(script: nat -> Page<R>, page: nat, maxRecords: nat, maxPages: nat)
    requires forall i: nat | i < page :: script(i).next.Link?
    requires Blocks(script, page, maxRecords, maxPages)
    ensures !exists n: nat :: CompleteWithin(script, n, maxRecords, maxPages)
  {
    forall n: nat ensures !CompleteWithin(script, n, maxRecords, maxPages) {
      if n > page && forall i: nat | i < n :: WellFormed(script(i)) {
        ConcatGrows(script, page + 1, n);
      } else if 0 < n <= page {
        assert script(n - 1).next.Link?;
      }
    }
  }

  lemma PagePrefix<R>(items: seq<Option<R>>, k: nat)
    requires k < |items| && forall i | 0 <= i <= k :: items[i].Some?
    ensures Values(items[..k]) + [items[k].value] == Values(items[..k + 1])
  {
  }

  /** The loop's verdict from page number `page` on. */
  function Collect<R>(script: nat -> Page<R>, page: nat, records: seq<R>, seen: set<nat>, maxRecords: nat, maxPages: nat)
    : Option<Collected<R>>
    decreases if page < maxPages then maxPages - page else 0
  {
    var data := script(page);
    if page >= maxPages || !WellFormed(data) || |records| + |data.value.items| > maxRecords then None
    else
      var longer := records + Values(data.value.items);
      if data.next == End then Some(Collected(longer, page + 1))
      else if data.next == Malformed || data.next.target in seen || page + 1 >= maxPages then None
      else Collect(script, page + 1, longer, seen + {data.next.target}, maxRecords, maxPages)
  }

  ghost predicate Collecting<R>(script: nat -> Page<R>, page: nat, records: seq<R>, seen: set<nat>, maxRecords: nat) {
    && (forall i: nat | i < page :: WellFormed(script(i)))
    && Links(script, page) && seen == Seen(script, page)
    && records == Concat(script, page) && |records| <= maxRecords
  }

  lemma CollectingMore<R>(script: nat -> Page<R>, page: nat, records: seq<R>, seen: set<nat>, maxRecords: nat)
    requires Collecting(script, page, records, seen, maxRecords)
    requires WellFormed(script(page)) && |records| + |script(page).value.items| <= maxRecords
    requires script(page).next.Link? && script(page).next.target !in seen
    ensures Collecting(script, page + 1, records + Values(script(page).value.items),
                       seen + {script(page).next.target}, maxRecords)
  {
    OnePageMore(script, page);
    LinkIsNew(script, page);
  }

  lemma {:induction false} CollectIsSound<R>(script: nat -> Page<R>, page: nat, records: seq<R>, seen: set<nat>,
                                             maxRecords: nat, maxPages: nat)
    requires Collecting(script, page, records, seen, maxRecords)
    requires Collect(script, page, records, seen, maxRecords, maxPages).Some?
    ensures
      var r := Collect(script, page, records, seen, maxRecords, maxPages);
      CompleteWithin(script, r.value.pages, maxRecords, maxPages) && r.value.records == Concat(script, r.value.pages)
    decreases if page < maxPages then maxPages - page else 0
  {
    if script(page).next == End {
      OnePageMore(script, page);
    } else {
      CollectingMore(script, page, records, seen, maxRecords);
      CollectIsSound(script, page + 1, records + Values(script(page).value.items), seen + {script(page).next.target},
                     maxRecords, maxPages);
    }
  }

  lemma GivesUp<R>(script: nat -> Page<R>, page: nat, records: seq<R>, seen: set<nat>, maxRecords: nat, maxPages: nat)
    requires Collecting(script, page, records, seen, maxRecords)
    ensures Blocks(script, page, maxRecords, maxPages) <==>
      || page >= maxPages
      || !WellFormed(script(page)) || |records| + |script(page).value.items| > maxRecords
      || script(page).next == Malformed
      || (script(page).next.Link? && (script(page).next.target in seen || page + 1 >= maxPages))
  {
    OnePageMore(script, page);
    if script(page).next.Link? {
      LinkIsNew(script, page);
    }
  }

  lemma {:induction false} CollectIsComplete<R>(script: nat -> Page<R>, page: nat, records: seq<R>, seen: set<nat>,
                                                maxRecords: nat, maxPages: nat)
    requires Collecting(script, page, records, seen, maxRecords)
    requires Collect(script, page, records, seen, maxRecords, maxPages).None?
    ensures !exists n: nat :: CompleteWithin(script, n, maxRecords, maxPages)
    decreases if page < maxPages then maxPages - page else 0
  {
    GivesUp(script, page, records, seen, maxRecords, maxPages);
    if Blocks(script, page, maxRecords, maxPages) {
      StopsHere(script, page, maxRecords, maxPages);
    } else {
      CollectingMore(script, page, records, seen, maxRecords);
      CollectIsComplete(script, page + 1, records + Values(script(page).value.items), seen + {script(page).next.target},
                        maxRecords, maxPages);
    }
  }

  /** The loop succeeds exactly on complete collections within the bounds. */
  lemma CollectExactly<R>(script: nat -> Page<R>, maxRecords: nat, maxPages: nat)
    ensures
      var r := Collect(script, 0, [], {}, maxRecords, maxPages);
      if r.Some? then
        CompleteWithin(script, r.value.pages, maxRecords, maxPages) && r.value.records == Concat(script, r.value.pages)
      else
        !exists n: nat :: CompleteWithin(script, n, maxRecords, maxPages)
  {
    assert Collecting(script, 0, [], {}, maxRecords);
    if Collect(script, 0, [], {}, maxRecords, maxPages).Some? {
      CollectIsSound(script, 0, [], {}, maxRecords, maxPages);
    } else {
      CollectIsComplete(script, 0, [], {}, maxRecords, maxPages);
    }
  }

  /**
   Follows next-links until the collection is proved complete. It sends at most
   max(1, maxPages) requests, and succeeds exactly when some number of well-formed pages
   within the bounds ends the chain, with the concatenation of those pages.
   */
  method CollectCollection<R>(script: nat -> Page<R>, maxRecords: nat, maxPages: nat)
    returns (r: Option<Collected<R>>, fetched: nat)
    ensures r.Some? <==> exists n: nat :: CompleteWithin(script, n, maxRecords, maxPages)
    ensures r.Some? ==>
      && CompleteWithin(script, r.value.pages, maxRecords, maxPages)
      && r.value.records == Concat(script, r.value.pages)
    ensures fetched <= if maxPages > 1 then maxPages else 1
  {
    CollectExactly(script, maxRecords, maxPages);
    var data := script(0);
    fetched := 1;
    var records: seq<R> := [];
    var pages := 0;
    var seenNextLinks: set<nat> := {};
    while true
      invariant fetched == pages + 1 && data == script(pages)
      invariant pages == 0 || pages < maxPages
      invariant |records| <= maxRecords
      invariant Collect(script, 0, [], {}, maxRecords, maxPages)
        == Collect(script, pages, records, seenNextLinks, maxRecords, maxPages)
      decreases maxPages - pages
    {
      pages := pages + 1;
      if pages > maxPages {
        return None, fetched;
      }
      var longer := ReadPage(records, data, maxRecords);
      if longer.None? {
        return None, fetched;
      }
      records := longer.value;
      if data.next == End {
        return Some(Collected(records, pages)), fetched;
      }
      if data.next == Malformed || data.next.target in seenNextLinks || pages >= maxPages {
        return None, fetched;
      }
      seenNextLinks := seenNextLinks + {data.next.target};
      data := script(pages);
      fetched := fetched + 1;
    }
  }

  /** One page added to what was collected before. */
  method ReadPage<R>(records: seq<R>, page: Page<R>, maxRecords: nat) returns (longer: Option<seq<R>>)
    requires |records| <= maxRecords
    ensures longer.Some? <==> WellFormed(page) && |records| + |page.value.items| <= maxRecords
    ensures longer.Some? ==> longer.value == records + Values(page.value.items)
  {
    if page.value.NotAList? {
      return None;
    }
    var fits, all := AppendItems(records, page.value.items, maxRecords);
    return if fits then Some(all) else None;
  }

  /** The inner loop: items of one page, with the record bound checked after each. */
  method AppendItems<R>(records: seq<R>, items: seq<Option<R>>, maxRecords: nat) returns (fits: bool, longer: seq<R>)
    requires |records| <= maxRecords
    ensures fits <==>
      (forall i | 0 <= i < |items| :: items[i].Some?) && |records| + |items| <= maxRecords
    ensures fits ==> longer == records + Values(items)
  {
    longer := records;
    for k := 0 to |items|
      invariant forall i | 0 <= i < k :: items[i].Some?
      invariant longer == records + Values(items[..k])
      invariant |longer| <= maxRecords
    {
      if items[k].None? {
        return false, longer;
      }
      PagePrefix(items, k);
      longer := longer + [items[k].value];
      if |longer| > maxRecords {
        return false, longer;
      }
    }
    assert items[..|items|] == items;
    return true, longer;
  }

  // ---------------------------------------------------------------------------------
  // Servers whose links mean something
  // ---------------------------------------------------------------------------------

  /** A server that answers a link with the same page whenever it is asked. */
  function Served<R>(first: Page<R>, follow: nat -> Page<R>, i: nat): Page<R> {
    if i == 0 then first
    else
      var before := Served(first, follow, i - 1);
      if before.next.Link? then follow(before.next.target) else before
  }

  lemma {:induction false} ServedRepeats<R>(first: Page<R>, follow: nat -> Page<R>, i: nat, j: nat, k: nat)
    requires Served(first, follow, i) == Served(first, follow, j)
    ensures Served(first, follow, i + k) == Served(first, follow, j + k)
  {
    if k > 0 {
      ServedRepeats(first, follow, i, j, k - 1);
    }
  }

  /** The pages lead from one to the next and end after `n`. */
  predicate ChainEnds<R>(first: Page<R>, follow: nat -> Page<R>, n: nat) {
    && n > 0 && Served(first, follow, n - 1).next == End
    && (forall i: nat | i < n - 1 :: Served(first, follow, i).next.Link?)
    && forall i: nat | i < n :: WellFormed(Served(first, follow, i))
  }

  function AsScript<R>(first: Page<R>, follow: nat -> Page<R>): nat -> Page<R> {
    (i: nat) => Served(first, follow, i)
  }

  /** A repeated link would bring the end of the chain forward. */
  lemma RepeatedLinkEndsEarlier<R>(first: Page<R>, follow: nat -> Page<R>, n: nat, i: nat, j: nat)
    requires ChainEnds(first, follow, n) && i < j < n - 1
    ensures Served(first, follow, i).next == Served(first, follow, j).next ==>
      Served(first, follow, n - 1 - (j - i)).next == End
  {
    if Served(first, follow, i).next == Served(first, follow, j).next {
      ServedRepeats(first, follow, i + 1, j + 1, n - 1 - (j + 1));
    }
  }

  lemma ChainEndsExactly<R>(first: Page<R>, follow: nat -> Page<R>, n: nat)
    ensures ChainEnds(first, follow, n) <==> EndsAfter(AsScript(first, follow), n)
  {
    var script := AsScript(first, follow);
    assert forall i: nat :: script(i) == Served(first, follow, i);
    if ChainEnds(first, follow, n) {
      forall i: nat, j: nat | i < j < n - 1 ensures script(i).next.target != script(j).next.target {
        RepeatedLinkEndsEarlier(first, follow, n, i, j);
      }
    }
  }

  /** For such a server the collector succeeds exactly when the chain ends within the bounds. */
  lemma HonestServersAreCollected<R>(first: Page<R>, follow: nat -> Page<R>, maxRecords: nat, maxPages: nat)
    ensures
      var script := AsScript(first, follow);
      Collect(script, 0, [], {}, maxRecords, maxPages).Some? <==>
        exists n: nat :: ChainEnds(first, follow, n) && n <= maxPages && RecordsOf(script) <= maxRecords
  {
    var script := AsScript(first, follow);
    CollectExactly(script, maxRecords, maxPages);
    FitsExactly(script, maxRecords, maxPages);
    forall n: nat ensures ChainEnds(first, follow, n) <==> EndsAfter(script, n) {
      ChainEndsExactly(first, follow, n);
    }
    forall n: nat | EndsAfter(script, n) ensures n == PagesOf(script) {
      EndsOnce(script, n, PagesOf(script));
    }
  }

  // ---------------------------------------------------------------------------------
  // Budgets shared by several targets
  // ---------------------------------------------------------------------------------

  ghost predicate Ends<R>(script: nat -> Page<R>) {
    exists n: nat :: EndsAfter(script, n)
  }

  lemma EndsOnce<R>(script: nat -> Page<R>, n: nat, m: nat)
    requires EndsAfter(script, n) && EndsAfter(script, m)
    ensures n == m
  {
  }

  ghost function PagesOf<R>(script: nat -> Page<R>): (n: nat)
    ensures Ends(script) ==> EndsAfter(script, n)
  {
    if Ends(script) then
      var n: nat :| EndsAfter(script, n);
      n
    else 0
  }

  ghost function RecordsOf<R>(script: nat -> Page<R>): nat {
    if Ends(script) then |Concat(script, PagesOf(script))| else 0
  }

  lemma FitsExactly<R>(script: nat -> Page<R>, maxRecords: nat, maxPages: nat)
    ensures (exists n: nat :: CompleteWithin(script, n, maxRecords, maxPages)) <==>
      Ends(script) && PagesOf(script) <= maxPages && RecordsOf(script) <= maxRecords
    ensures forall n: nat | CompleteWithin(script, n, maxRecords, maxPages) ::
      n == PagesOf(script) && |Concat(script, n)| == RecordsOf(script)
  {
    forall n: nat | CompleteWithin(script, n, maxRecords, maxPages)
      ensures Ends(script) && n == PagesOf(script) && |Concat(script, n)| == RecordsOf(script)
    {
      assert EndsAfter(script, n);
      EndsOnce(script, n, PagesOf(script));
    }
    if Ends(script) && PagesOf(script) <= maxPages && RecordsOf(script) <= maxRecords {
      assert CompleteWithin(script, PagesOf(script), maxRecords, maxPages);
    }
  }

  ghost function TotalPages<R>(scripts: seq<nat -> Page<R>>): nat {
    if scripts == [] then 0 else TotalPages(scripts[..|scripts| - 1]) + PagesOf(scripts[|scripts| - 1])
  }

  ghost function TotalRecords<R>(scripts: seq<nat -> Page<R>>): nat {
    if scripts == [] then 0 else TotalRecords(scripts[..|scripts| - 1]) + RecordsOf(scripts[|scripts| - 1])
  }

  lemma {:induction false} TotalsGrow<R>(scripts: seq<nat -> Page<R>>, k: nat)
    requires k < |scripts|
    ensures TotalPages(scripts[..k + 1]) == TotalPages(scripts[..k]) + PagesOf(scripts[k]) <= TotalPages(scripts)
    ensures TotalRecords(scripts[..k + 1]) == TotalRecords(scripts[..k]) + RecordsOf(scripts[k]) <= TotalRecords(scripts)
    decreases |scripts|
  {
    assert scripts[..k + 1][..k] == scripts[..k];
    if k + 1 == |scripts| {
      assert scripts[..k + 1] == scripts;
    } else {
      var init := scripts[..|scripts| - 1];
      TotalsGrow(init, k);
      assert init[..k + 1] == scripts[..k + 1] && init[..k] == scripts[..k] && init[k] == scripts[k];
    }
  }

  /** All chains of one domain end, and together they stay within the domain's limits. */
  ghost predicate DomainFits<R>(scripts: seq<nat -> Page<R>>, maxRecords: nat, maxPages: nat) {
    && (forall i | 0 <= i < |scripts| :: Ends(scripts[i]))
    && TotalPages(scripts) <= maxPages && TotalRecords(scripts) <= maxRecords
  }

  /** One domain's running totals, updated in place as targets are collected. */
  class Budget {
    const maxRecords: nat
    const maxPages: nat
    var records: nat
    var pages: nat

    constructor (maxRecords: nat, maxPages: nat)
      ensures this.maxRecords == maxRecords && this.maxPages == maxPages && records == pages == 0
    {
      this.maxRecords, this.maxPages, records, pages := maxRecords, maxPages, 0, 0;
    }

    predicate Valid()
      reads this
    {
      records <= maxRecords && pages <= maxPages
    }

    /** Collects one target's pages out of what the earlier targets left. */
    method Draw<R>(script: nat -> Page<R>) returns (r: Option<Collected<R>>)
      requires Valid()
      modifies this
      ensures Valid()
      ensures r.Some? <==> Ends(script) && old(pages) + PagesOf(script) <= maxPages
                           && old(records) + RecordsOf(script) <= maxRecords
      ensures r.Some? ==> records == old(records) + RecordsOf(script) && pages == old(pages) + PagesOf(script)
                          && EndsAfter(script, PagesOf(script)) && r.value == Collected(Concat(script, PagesOf(script)), PagesOf(script))
      ensures r.None? ==> records == old(records) && pages == old(pages)
    {
      FitsExactly(script, maxRecords - records, maxPages - pages);
      var fetched;
      r, fetched := CollectCollection(script, maxRecords - records, maxPages - pages);
      if r.Some? {
        records := records + |r.value.records|;
        pages := pages + r.value.pages;
      }
    }
  }

  /** When a domain fits, every target finds enough left. */
  lemma FitsSoFar<R>(scripts: seq<nat -> Page<R>>, k: nat, maxRecords: nat, maxPages: nat)
    requires k < |scripts|
    ensures DomainFits(scripts, maxRecords, maxPages) ==>
      && Ends(scripts[k]) && TotalPages(scripts[..k]) + PagesOf(scripts[k]) <= maxPages
      && TotalRecords(scripts[..k]) + RecordsOf(scripts[k]) <= maxRecords
    ensures TotalPages(scripts[..k + 1]) == TotalPages(scripts[..k]) + PagesOf(scripts[k])
    ensures TotalRecords(scripts[..k + 1]) == TotalRecords(scripts[..k]) + RecordsOf(scripts[k])
  {
    TotalsGrow(scripts, k);
  }

  /** One target: its delegated grants, then its application grants. */
  method DrawBoth<R>(first: Budget, second: Budget, delegated: nat -> Page<R>, application: nat -> Page<R>)
    returns (ok: bool)
    requires first != second && first.Valid() && second.Valid()
    modifies first, second
    ensures first.Valid() && second.Valid()
    ensures ok <==>
      && Ends(delegated) && old(first.pages) + PagesOf(delegated) <= first.maxPages
      && old(first.records) + RecordsOf(delegated) <= first.maxRecords
      && Ends(application) && old(second.pages) + PagesOf(application) <= second.maxPages
      && old(second.records) + RecordsOf(application) <= second.maxRecords
    ensures ok ==>
      && first.records == old(first.records) + RecordsOf(delegated) && first.pages == old(first.pages) + PagesOf(delegated)
      && second.records == old(second.records) + RecordsOf(application)
      && second.pages == old(second.pages) + PagesOf(application)
  {
    var grants := first.Draw(delegated);
    if grants.None? {
      return false;
    }
    var roles := second.Draw(application);
    ok := roles.Some?;
  }

  /** The budget shows what the first `k` targets used. */
  ghost predicate Used<R>(budget: Budget, scripts: seq<nat -> Page<R>>, k: nat)
    requires k <= |scripts|
    reads budget
  {
    && budget.Valid() && budget.records == TotalRecords(scripts[..k]) && budget.pages == TotalPages(scripts[..k])
    && forall i | 0 <= i < k :: Ends(scripts[i])
  }

  /** Target number `k` out of what the earlier ones left. */
  method CollectTarget<R>(first: Budget, second: Budget, delegated: seq<nat -> Page<R>>, application: seq<nat -> Page<R>>, k: nat)
    returns (ok: bool)
    requires first != second && k < |delegated| == |application|
    requires Used(first, delegated, k) && Used(second, application, k)
    modifies first, second
    ensures ok ==> Used(first, delegated, k + 1) && Used(second, application, k + 1)
    ensures !ok ==> !DomainFits(delegated, first.maxRecords, first.maxPages)
                    || !DomainFits(application, second.maxRecords, second.maxPages)
  {
    FitsSoFar(delegated, k, first.maxRecords, first.maxPages);
    FitsSoFar(application, k, second.maxRecords, second.maxPages);
    ok := DrawBoth(first, second, delegated[k], application[k]);
  }

  /**
   Collects the delegated and the application grants of all targets. It succeeds exactly
   when every chain ends and each domain's totals over all targets are within its limits.
   */
  method CollectTargets<R>(delegated: seq<nat -> Page<R>>, application: seq<nat -> Page<R>>, maxRecords: nat, maxPages: nat)
    returns (ok: bool, totals: (nat, nat))
    requires |delegated| == |application|
    ensures ok <==> DomainFits(delegated, maxRecords, maxPages) && DomainFits(application, maxRecords, maxPages)
    ensures ok ==> totals == (TotalRecords(delegated), TotalRecords(application))
  {
    var first := new Budget(maxRecords, maxPages);
    var second := new Budget(maxRecords, maxPages);
    for k := 0 to |delegated|
      invariant Used(first, delegated, k) && Used(second, application, k)
    {
      ok := CollectTarget(first, second, delegated, application, k);
      if !ok {
        return false, (0, 0);
      }
    }
    assert delegated[..|delegated|] == delegated && application[..|application|] == application;
    return true, (first.records, second.records);
  }

  // ---------------------------------------------------------------------------------
  // Sorted collections
  // ---------------------------------------------------------------------------------

  /** A role-assignment or policy record, by the five fields its sort key is made of. */
  datatype PostureRecord = PostureRecord(
    id: string, principal: Option<string>, role: Option<string>,
    directoryScope: Option<string>, appScope: Option<string>, rest: nat)

  function TextOf(field: Option<string>): string {
    if field.Some? then field.value else ""
  }

  function SortKey(r: PostureRecord): seq<string> {
    [r.id, TextOf(r.principal), TextOf(r.role), TextOf(r.directoryScope), TextOf(r.appScope)]
  }

  predicate KeyLe(a: PostureRecord, b: PostureRecord) {
    TupleLe(SortKey(a), SortKey(b))
  }

  /** Different records have different sort keys. */
  predicate DistinctKeys(records: seq<PostureRecord>) {
    forall a, b | a in records && b in records && SortKey(a) == SortKey(b) :: a == b
  }

  /** Absent and empty count as the same. */
  ghost predicate SameField(a: Option<string>, b: Option<string>) {
    a == b || (a in {None, Some("")} && b in {None, Some("")})
  }

  ghost predicate FieldLe(a: Option<string>, b: Option<string>) {
    a in {None, Some("")} || (a.Some? && b.Some? && StringLe(a.value, b.value))
  }

  /** The first of the five fields that differ decides, in this order. */
  ghost predicate FieldsLe(a: PostureRecord, b: PostureRecord) {
    if a.id != b.id then StringLe(a.id, b.id)
    else if !SameField(a.principal, b.principal) then FieldLe(a.principal, b.principal)
    else if !SameField(a.role, b.role) then FieldLe(a.role, b.role)
    else if !SameField(a.directoryScope, b.directoryScope) then FieldLe(a.directoryScope, b.directoryScope)
    else FieldLe(a.appScope, b.appScope)
  }

  lemma FieldsByText(a: Option<string>, b: Option<string>)
    ensures (TextOf(a) == TextOf(b)) == SameField(a, b)
    ensures StringLe(TextOf(a), TextOf(b)) == FieldLe(a, b)
  {
    StringOrder();
    StringLeExactly(TextOf(a), "");
    assert StringLe("", TextOf(b));
  }

  lemma TupleStep(a: seq<string>, b: seq<string>)
    requires |a| == |b| > 0
    ensures TupleLe(a, b) == if a[0] == b[0] then TupleLe(a[1..], b[1..]) else StringLe(a[0], b[0])
  {
  }

  lemma LastFieldDecides(a: string, b: string)
    ensures TupleLe([a], [b]) == StringLe(a, b)
  {
    StringOrder();
    TupleStep([a], [b]);
  }

  /** Which records the sort key separates, and how it orders them. */
  lemma SortKeyExactly(a: PostureRecord, b: PostureRecord)
    ensures SortKey(a) == SortKey(b) <==>
      && a.id == b.id && SameField(a.principal, b.principal) && SameField(a.role, b.role)
      && SameField(a.directoryScope, b.directoryScope) && SameField(a.appScope, b.appScope)
    ensures KeyLe(a, b) <==> FieldsLe(a, b)
  {
    FieldsByText(a.principal, b.principal);
    FieldsByText(a.role, b.role);
    FieldsByText(a.directoryScope, b.directoryScope);
    FieldsByText(a.appScope, b.appScope);
    var x, y := SortKey(a), SortKey(b);
    TupleStep(x, y);
    TupleStep(x[1..], y[1..]);
    TupleStep(x[2..], y[2..]);
    TupleStep(x[3..], y[3..]);
    assert x[1..][1..] == x[2..] && y[1..][1..] == y[2..] && x[2..][1..] == x[3..] && y[2..][1..] == y[3..];
    assert x[3..][1..] == [x[4]] && y[3..][1..] == [y[4]];
    LastFieldDecides(x[4], y[4]);
    assert x == y <==> x[0] == y[0] && x[1] == y[1] && x[2] == y[2] && x[3] == y[3] && x[4] == y[4];
  }

  lemma KeyOrder()
    ensures Preorder(KeyLe)
    ensures forall a, b :: KeyLe(a, b) && KeyLe(b, a) ==> SortKey(a) == SortKey(b)
  {
    TupleOrder();
    forall a, b, c | KeyLe(a, b) && KeyLe(b, c) ensures KeyLe(a, c) {
      assert TupleLe(SortKey(a), SortKey(b)) && TupleLe(SortKey(b), SortKey(c));
    }
  }

  /** The posture collector: pages first, then the sort. */
  method CollectDomain(script: nat -> Page<PostureRecord>, maxRecords: nat, maxPages: nat)
    returns (r: Option<Collected<PostureRecord>>)
    ensures r.Some? <==> Ends(script) && PagesOf(script) <= maxPages && RecordsOf(script) <= maxRecords
    ensures r.Some? ==> r.value.pages == PagesOf(script) && r.value.records == Sort(KeyLe, Concat(script, PagesOf(script)))
  {
    FitsExactly(script, maxRecords, maxPages);
    var collected, fetched := CollectCollection(script, maxRecords, maxPages);
    if collected.None? {
      return None;
    }
    return Some(Collected(Sort(KeyLe, collected.value.records), collected.value.pages));
  }

  /**
   Two servers with the same records, in any order and cut into pages anywhere, give the
   same collection, provided the sort key tells the records apart.
   */
  lemma OrderAndPagesDoNotMatter(a: nat -> Page<PostureRecord>, b: nat -> Page<PostureRecord>)
    requires Ends(a) && Ends(b)
    requires multiset(Concat(a, PagesOf(a))) == multiset(Concat(b, PagesOf(b)))
    requires DistinctKeys(Concat(a, PagesOf(a)))
    ensures Sort(KeyLe, Concat(a, PagesOf(a))) == Sort(KeyLe, Concat(b, PagesOf(b)))
  {
    KeyOrder();
    SortForgetsOrder(KeyLe, Concat(a, PagesOf(a)), Concat(b, PagesOf(b)));
  }

  lemma TiedExactly(a: PostureRecord, b: PostureRecord)
    ensures (KeyLe(a, b) && KeyLe(b, a)) == (SortKey(a) == SortKey(b))
  {
    TupleOrder();
    assert TupleLe(SortKey(a), SortKey(b)) || TupleLe(SortKey(b), SortKey(a));
  }

  lemma KeysSeparate(records: seq<PostureRecord>)
    ensures Separates(KeyLe, records) == DistinctKeys(records)
  {
    forall a, b | a in records && b in records
      ensures (KeyLe(a, b) && KeyLe(b, a)) == (SortKey(a) == SortKey(b))
    {
      TiedExactly(a, b);
    }
  }

  /**
   The collection forgets the order in which the server sent its records exactly when
   different records have different sort keys.
   */
  lemma ServerOrderIsForgottenExactly(records: seq<PostureRecord>)
    ensures (forall t | multiset(t) == multiset(records) :: Sort(KeyLe, t) == Sort(KeyLe, records)) <==> DistinctKeys(records)
  {
    KeysSeparate(records);
    assert Preorder(KeyLe) by { KeyOrder(); }
    SortForgetsOrderExactly(KeyLe, records);
  }
}
