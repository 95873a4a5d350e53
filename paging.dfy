// The paginated lists of user requests on the statistics pages (both the older
// `mon-entreprise` site and the current `site`): ten items per page, one pager
// button per page, the current page remembered by the component, and the way one
// request is shown. Rendering is reduced to what is shown: the items of the page,
// the buttons with their label and whether they are the current one (bold in the
// older site, `aria-selected`/`aria-current` in the current one).
module Paging {
  import opened Wrappers

  const PageSize: nat := 10

  function Min(a: int, b: int): int {
    if a <= b then a else b
  }

  /** `Math.ceil(n / 10)`: the number of pages, hence of pager buttons. */
  function PageCount(n: nat): (r: nat)
    ensures r == 0 <==> n == 0
    ensures PageSize * r >= n
    ensures r > 0 ==> PageSize * (r - 1) < n
  {
    (n + PageSize - 1) / PageSize
  }

  /** `items.slice(p * 10, (p + 1) * 10)`: both bounds clamped to the length. */
  function PageItems<T>(items: seq<T>, p: nat): (r: seq<T>)
    ensures |r| == if PageSize * p >= |items| then 0 else Min(PageSize, |items| - PageSize * p)
    ensures forall k :: 0 <= k < |r| ==> r[k] == items[PageSize * p + k]
  {
    items[Min(PageSize * p, |items|) .. Min(PageSize * p + PageSize, |items|)]
  }

  /** Every page that has a button shows between one and ten items. */
  lemma PagesNonEmpty<T>(items: seq<T>, p: nat)
    requires p < PageCount(|items|)
    ensures 1 <= |PageItems(items, p)| <= PageSize
  {
  }

  /** Past the last button a page shows nothing. */
  lemma PastLastPageEmpty<T>(items: seq<T>, p: nat)
    requires p >= PageCount(|items|)
    ensures PageItems(items, p) == []
  {
  }

  /** The first `k` pages, one after the other. */
  function Pages<T>(items: seq<T>, k: nat): seq<T>
    decreases k
  {
    if k == 0 then [] else Pages(items, k - 1) + PageItems(items, k - 1)
  }

  /** The first `k` pages are the first `10k` items (or all of them). */
  lemma {:induction false} PagesPrefix<T>(items: seq<T>, k: nat)
    ensures Pages(items, k) == items[..Min(PageSize * k, |items|)]
    decreases k
  {
    if k > 0 {
      PagesPrefix(items, k - 1);
      var lo := Min(PageSize * (k - 1), |items|);
      var hi := Min(PageSize * k, |items|);
      assert PageItems(items, k - 1) == items[lo..hi];
      assert items[..lo] + items[lo..hi] == items[..hi];
    }
  }

  /** Reading every page in button order gives the whole list back, in order. */
  lemma AllPagesGiveItems<T>(items: seq<T>)
    ensures Pages(items, PageCount(|items|)) == items
  {
    PagesPrefix(items, PageCount(|items|));
  }

  /** One pager button: its label and whether it is the current page's. */
  datatype Button = Button(caption: nat, current: bool)

  /** `[...Array(Math.ceil(n / 10)).keys()].map(...)`: buttons labelled 1.., the
      current one marked. */
  function PagerButtons(n: nat, currentPage: nat): (r: seq<Button>)
    ensures |r| == PageCount(n)
    ensures forall i :: 0 <= i < |r| ==> r[i].caption == i + 1
  {
    seq(PageCount(n), i requires 0 <= i < PageCount(n) => Button(i + 1, i == currentPage))
  }

  /** Only the current page's button is marked: never two of them, and exactly one
      when the current page has a button. */
  lemma OnlyCurrentMarked(n: nat, currentPage: nat)
    ensures var r := PagerButtons(n, currentPage);
            (forall i, j :: 0 <= i < j < |r| ==> !(r[i].current && r[j].current)) &&
            (currentPage < |r| ==> r[currentPage].current) &&
            (currentPage >= |r| ==> forall i :: 0 <= i < |r| ==> !r[i].current)
  {
  }

  /** With no items there is no pager button at all. */
  lemma NoItemsNoButtons(currentPage: nat)
    ensures PagerButtons(0, currentPage) == []
  {
  }

  /** The paginator's state: the list it is given and the page it shows. */
  class Pagination<T> {
    const items: seq<T>
    var currentPage: nat

    /** The page shown is the first one or one that has a button. */
    predicate Valid()
      reads this
    {
      currentPage == 0 || currentPage < PageCount(|items|)
    }

    /** `useState(0)`. */
    constructor (items: seq<T>)
      ensures this.items == items && currentPage == 0
      ensures Valid()
    {
      this.items := items;
      currentPage := 0;
    }

    /** A press on button `i` (`setCurrentPage(i)`); only existing buttons can be pressed. */
    method Press(i: nat)
      requires i < PageCount(|items|)
      modifies this
      ensures currentPage == i
      ensures Valid()
    {
      currentPage := i;
    }

    /** The items of the current page. */
    function Displayed(): (r: seq<T>)
      reads this
      requires Valid()
      ensures r == [] <==> items == []
      ensures |r| <= PageSize
    {
      PageItems(items, currentPage)
    }

    /** The pager. */
    function Buttons(): (r: seq<Button>)
      reads this
      ensures |r| == PageCount(|items|)
      ensures forall i :: 0 <= i < |r| ==> (r[i].current <==> i == currentPage)
    {
      PagerButtons(|items|, currentPage)
    }
  }

  /** A user request as the statistics list it. */
  datatype Issue = Issue(title: string, number: int, count: int, closedAt: Option<string>)

  /** What a list entry shows: the request counter, the linked title and issue
      number, and the resolution date. */
  datatype IssueView = IssueView(counter: Option<int>, title: string, number: int, resolvedAt: Option<string>)

  /** `count > 1 && <label>` and `closedAt && <small>`: the empty date is falsy. */
  function ShowIssue(issue: Issue): (r: IssueView)
    ensures r.counter.Some? <==> issue.count > 1
    ensures r.counter.Some? ==> r.counter.value == issue.count
    ensures r.resolvedAt.Some? <==> issue.closedAt.Some? && issue.closedAt.value != ""
    ensures r.resolvedAt.Some? ==> Some(r.resolvedAt.value) == issue.closedAt
    ensures r.title == issue.title && r.number == issue.number
  {
    IssueView(if issue.count > 1 then Some(issue.count) else None,
              issue.title, issue.number,
              match issue.closedAt
              case Some(d) => if d != "" then Some(d) else None
              case None => None)
  }

  /** An open request asked for once shows only its title. */
  lemma ShowSingleOpenIssue(title: string, number: int)
    ensures ShowIssue(Issue(title, number, 1, None)) == IssueView(None, title, number, None)
  {
  }

  // ---------------------------------------------------------------------------
  // The current site's list

  /** `stats?.retoursUtilisateurs.open ?? []`: no list until the statistics load. */
  function ItemsOrEmpty(stats: Option<seq<Issue>>): (r: seq<Issue>)
    ensures stats.None? ==> r == []
    ensures stats.Some? ==> r == stats.value
  {
    stats.GetOr([])
  }

  /** Before the statistics load there is no pager button. */
  lemma NoStatsNoButtons(currentPage: nat)
    ensures PagerButtons(|ItemsOrEmpty(None)|, currentPage) == []
  {
  }

  /** The five requests written into the current site's component. */
  const LiteralIssues: seq<Issue> := [
    Issue("mon-entreprise: bug scrolling de la popup Answers (desktop et mobile)", 1326, 1, Some("2021-01-12T16:22:52Z")),
    Issue("Question vide avec le lien direct \"impot\"", 1311, 2, Some("2021-01-05T16:18:10Z")),
    Issue("Abattament fiscal de 10% seulement sur les traitements et salaires", 1306, 2, Some("2021-01-05T14:02:59Z")),
    Issue("Franchise de TVA pour les professions libérales", 1216, 1, Some("2021-01-04T11:35:22Z")),
    Issue("Simulateur Auto-Entrepreneur : chiffre d'affaire affiché à 100 000 000 €/an", 1246, 1, Some("2020-12-10T11:10:13Z"))
  ]

  /** The current site's list as written: the five written-in requests are sliced,
      whatever `items` holds; `items` only counts the pager buttons. */
  function SiteDisplayedAsWritten(items: seq<Issue>, currentPage: nat): (r: seq<Issue>)
    ensures currentPage == 0 ==> r == LiteralIssues
    ensures currentPage > 0 ==> r == []
  {
    PageItems(LiteralIssues, currentPage)
  }

  /** As written, with eleven requests or more the second button exists and shows
      an empty page, while the page of `items` it stands for is not empty. */
  lemma SiteSecondPageEmpty(items: seq<Issue>)
    requires |items| > PageSize
    ensures 1 < PageCount(|items|)
    ensures SiteDisplayedAsWritten(items, 1) == []
    ensures PageItems(items, 1) != []
  {
  }

  /** As written, the first page never shows the requests the list was given. */
  lemma SiteFirstPageIgnoresItems(items: seq<Issue>)
    ensures SiteDisplayedAsWritten(items, 0) == LiteralIssues
  {
  }

  /** The list as intended: the current page of the given requests, as the older site
      does (it is `Pagination.Displayed` over `items`). */
  function SiteDisplayed(items: seq<Issue>, currentPage: nat): (r: seq<Issue>)
    requires currentPage == 0 || currentPage < PageCount(|items|)
    ensures r == [] <==> items == []
    ensures |r| <= PageSize
    ensures forall k :: 0 <= k < |r| ==> PageSize * currentPage + k < |items| && r[k] == items[PageSize * currentPage + k]
  {
    PageItems(items, currentPage)
  }

  /** Intended, every button's page is non-empty and together the pages show every
      request given, in order. */
  lemma SiteDisplayedCoversItems(items: seq<Issue>)
    ensures forall p: nat :: p < PageCount(|items|) ==> SiteDisplayed(items, p) != []
    ensures Pages(items, PageCount(|items|)) == items
  {
    AllPagesGiveItems(items);
  }
}
