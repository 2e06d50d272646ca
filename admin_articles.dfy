/** The admin article list of src/app/admin/articles/page.tsx: debounced
    search, category filter, paging with a windowed pager, the delete
    confirmation and the admin gate.  The 500 ms timer is a pending-commit
    slot with an explicit step at which it fires. */
module AdminArticles {
  import opened Common
  import opened Shared
  import CategoryApi
  import Auth

  const PageSize: nat := 10
  const ArticlesLoadFailed: string := "Gagal memuat artikel"
  const ArticleDeleted: string := "Artikel berhasil dihapus!"
  const DeleteFailed: string := "Gagal menghapus artikel"

  // ---------------------------------------------------------------------------
  // Fetch parameters

  /** The parameters `fetchArticles` sends: always the page and the limit; the
      committed search, trimmed, only when it is not blank; the category only
      when it is not "all". */
  function BuildQuery(page: int, limit: int, appliedSearch: string, category: string): (q: ArticleQuery)
    ensures q.page == page && q.limit == limit
    ensures q.search.Some? <==> !IsBlank(appliedSearch)
    ensures q.search.Some? ==> q.search.value == Trim(appliedSearch) && q.search.value != []
    ensures q.category.Some? <==> category != AllCategories
    ensures q.category.Some? ==> q.category.value == category
    ensures q.title.None? && q.sortBy.None? && q.sortOrder.None?
  {
    var trimmed := Trim(appliedSearch);
    ArticleQuery(
      page, limit,
      if trimmed != [] then Some(trimmed) else None,
      None,
      if category != AllCategories then Some(category) else None,
      None, None)
  }

  /** The search sent is already trimmed: trimming it again changes nothing. */
  lemma SearchParameterIsTrimmed(page: int, limit: int, appliedSearch: string, category: string)
    ensures var q := BuildQuery(page, limit, appliedSearch, category);
      q.search.Some? ==> Trim(q.search.value) == q.search.value
  {
    TrimIdempotent(appliedSearch);
  }

  // ---------------------------------------------------------------------------
  // The query state and its transitions

  /** The state the fetch depends on: the text in the box, the committed
      search, the value of the pending commit (if a timer is scheduled), the
      category and the page. */
  datatype ListQuery = ListQuery(
    searchInput: string, appliedSearch: string, pending: Option<string>,
    category: string, page: int)

  /** The user events and the timer. */
  datatype QueryEvent =
    | Keystroke(value: string)
    | TimerFires
    | CategoryPicked(id: string)
    | PreviousClicked
    | NextClicked
    | PageClicked(n: int)

  /** How each handler changes the query state.  A keystroke shows its value
      at once and replaces any pending commit by one for that value; the
      timer commits the pending value and goes back to page 1; a category
      change goes back to page 1; the pager controls move the page. */
  function Step(q: ListQuery, e: QueryEvent, totalPages: int): ListQuery {
    match e
    case Keystroke(v) => q.(searchInput := v, pending := Some(v))
    case TimerFires =>
      if q.pending.Some? then q.(appliedSearch := q.pending.value, page := 1, pending := None) else q
    case CategoryPicked(c) => q.(category := c, page := 1)
    case PreviousClicked => q.(page := PreviousPage(q.page))
    case NextClicked => q.(page := NextPage(q.page, totalPages))
    case PageClicked(n) => q.(page := n)
  }

  /** The state after a burst of keystrokes with no timer firing in between. */
  function TypeAll(q: ListQuery, values: seq<string>): ListQuery
    decreases |values|
  {
    if values == [] then q else TypeAll(Step(q, Keystroke(values[0]), 0), values[1..])
  }

  /** A burst of keystrokes commits nothing by itself and leaves exactly one
      commit pending, for the last value typed; when the timer fires that value
      becomes the committed search and the page goes back to 1, once: a second
      firing changes nothing. */
  lemma {:induction false} DebounceCommitsLastValue(q: ListQuery, values: seq<string>, totalPages: int)
    requires values != []
    ensures var t := TypeAll(q, values);
      t.searchInput == values[|values| - 1] && t.pending == Some(values[|values| - 1]) &&
      t.appliedSearch == q.appliedSearch && t.page == q.page && t.category == q.category
    ensures var f := Step(TypeAll(q, values), TimerFires, totalPages);
      f.appliedSearch == values[|values| - 1] && f.page == 1 && f.pending == None &&
      f.category == q.category
    ensures var f := Step(TypeAll(q, values), TimerFires, totalPages);
      Step(f, TimerFires, totalPages) == f
    decreases |values|
  {
    if |values| > 1 {
      DebounceCommitsLastValue(Step(q, Keystroke(values[0]), 0), values[1..], totalPages);
    }
  }

  /** A keystroke never changes what is fetched. */
  lemma KeystrokeFetchesNothingNew(q: ListQuery, v: string, totalPages: int, limit: int)
    ensures var t := Step(q, Keystroke(v), totalPages);
      BuildQuery(t.page, limit, t.appliedSearch, t.category) == BuildQuery(q.page, limit, q.appliedSearch, q.category)
  {
  }

  /** Whenever a step changes the committed search or the category, it also
      puts the list back on page 1. */
  lemma FilterChangeResetsPage(q: ListQuery, e: QueryEvent, totalPages: int)
    ensures var r := Step(q, e, totalPages);
      (r.appliedSearch != q.appliedSearch || r.category != q.category) ==> r.page == 1
  {
  }

  /** The pager controls move only the page. */
  lemma PagerKeepsFilters(q: ListQuery, e: QueryEvent, totalPages: int)
    requires e.PreviousClicked? || e.NextClicked? || e.PageClicked?
    ensures var r := Step(q, e, totalPages);
      r.searchInput == q.searchInput && r.appliedSearch == q.appliedSearch &&
      r.pending == q.pending && r.category == q.category
  {
  }

  /** The page stays at least 1, given that Next is only offered when there
      are pages and a page link only for a page number. */
  lemma StepKeepsPagePositive(q: ListQuery, e: QueryEvent, totalPages: int)
    requires q.page >= 1
    requires e.NextClicked? ==> totalPages >= 1
    requires e.PageClicked? ==> e.n >= 1
    ensures Step(q, e, totalPages).page >= 1
  {
  }

  // ---------------------------------------------------------------------------
  // The windowed pager

  /** `showPage`: the first three pages, the last three, and the neighbours
      of the current page. */
  predicate ShowPage(n: int, page: int, totalPages: int) {
    n <= 3 || n >= totalPages - 2 || (n >= page - 1 && n <= page + 1)
  }

  /** What the pager renders for page number `n`: its link, an ellipsis at
      position 4 or `totalPages - 3`, or nothing. */
  function Slot(n: int, page: int, totalPages: int): seq<PageItem> {
    if ShowPage(n, page, totalPages) then [PageLink(n, n == page)]
    else if n == 4 && page > 6 then [Ellipsis]
    else if n == totalPages - 3 && page < totalPages - 5 then [Ellipsis]
    else []
  }

  /** The items for page numbers `lo` to `hi`, in order. */
  function Slots(lo: int, hi: int, page: int, totalPages: int): seq<PageItem>
    decreases hi - lo + 1
  {
    if lo > hi then [] else Slot(lo, page, totalPages) + Slots(lo + 1, hi, page, totalPages)
  }

  lemma {:induction false} SlotsMember(x: PageItem, lo: int, hi: int, page: int, totalPages: int)
    ensures x in Slots(lo, hi, page, totalPages) <==>
      (exists n :: lo <= n <= hi && x in Slot(n, page, totalPages))
    decreases hi - lo + 1
  {
    if lo <= hi {
      var head, rest := Slot(lo, page, totalPages), Slots(lo + 1, hi, page, totalPages);
      assert Slots(lo, hi, page, totalPages) == head + rest;
      SlotsMember(x, lo + 1, hi, page, totalPages);
      if x in head {
        assert lo <= lo <= hi;
      } else if x !in rest {
        forall n | lo <= n <= hi
          ensures x !in Slot(n, page, totalPages)
        {
          if n != lo {
            assert lo + 1 <= n <= hi;
          }
        }
      }
    }
  }

  /** The one link the slot of page `m` can hold is the link to `m`. */
  lemma SlotLink(m: int, n: int, active: bool, page: int, totalPages: int)
    ensures PageLink(n, active) in Slot(m, page, totalPages) <==>
      m == n && ShowPage(n, page, totalPages) && active == (n == page)
  {
  }

  /** The pager as the page renders it: page numbers 1 to `min(totalPages, 10)`
      only. */
  function Window(page: int, totalPages: int): seq<PageItem> {
    Slots(1, Min(totalPages, 10), page, totalPages)
  }

  /** A link for page `n` appears exactly when `n` is among the first ten
      pages and shown; it is marked active exactly for the current page. */
  lemma WindowLinks(page: int, totalPages: int, n: int, active: bool)
    ensures PageLink(n, active) in Window(page, totalPages) <==>
      1 <= n <= Min(totalPages, 10) && ShowPage(n, page, totalPages) && active == (n == page)
  {
    SlotsMember(PageLink(n, active), 1, Min(totalPages, 10), page, totalPages);
    if PageLink(n, active) in Window(page, totalPages) {
      var m :| 1 <= m <= Min(totalPages, 10) && PageLink(n, active) in Slot(m, page, totalPages);
      SlotLink(m, n, active, page, totalPages);
    } else if 1 <= n <= Min(totalPages, 10) && ShowPage(n, page, totalPages) && active == (n == page) {
      SlotLink(n, n, active, page, totalPages);
    }
  }

  /** An ellipsis appears only in position 4 when the current page is past 6,
      or in position `totalPages - 3` when the current page is more than five
      before the end, and only where no link is shown. */
  lemma WindowEllipsis(page: int, totalPages: int)
    ensures Ellipsis in Window(page, totalPages) <==>
      (4 <= Min(totalPages, 10) && !ShowPage(4, page, totalPages) && page > 6) ||
      (1 <= totalPages - 3 <= Min(totalPages, 10) && !ShowPage(totalPages - 3, page, totalPages) &&
       page < totalPages - 5)
  {
    var m := Min(totalPages, 10);
    SlotsMember(Ellipsis, 1, m, page, totalPages);
    if 4 <= m && !ShowPage(4, page, totalPages) && page > 6 {
      assert Ellipsis in Slot(4, page, totalPages);
    } else if 1 <= totalPages - 3 <= m && !ShowPage(totalPages - 3, page, totalPages) && page < totalPages - 5 {
      assert Ellipsis in Slot(totalPages - 3, page, totalPages);
    }
  }

  /** As written, the pager never renders a page after the tenth: with twelve
      pages, on the last page, neither that page nor its neighbour is shown. */
  lemma WindowOmitsCurrentPage()
    ensures PageLink(12, true) !in Window(12, 12)
    ensures PageLink(11, false) !in Window(12, 12)
  {
    WindowLinks(12, 12, 12, true);
    WindowLinks(12, 12, 11, false);
  }

  /** The pager as evidently intended: the same rule over every page number. */
  function CorrectedWindow(page: int, totalPages: int): seq<PageItem> {
    Slots(1, totalPages, page, totalPages)
  }

  /** The intended pager always shows the first page, the last page and the
      current page, the current one active, and nothing past the last page. */
  lemma CorrectedWindowShowsEndsAndCurrent(page: int, totalPages: int)
    requires 1 <= page <= totalPages
    ensures PageLink(page, true) in CorrectedWindow(page, totalPages)
    ensures PageLink(1, page == 1) in CorrectedWindow(page, totalPages)
    ensures PageLink(totalPages, page == totalPages) in CorrectedWindow(page, totalPages)
    ensures forall n, a :: PageLink(n, a) in CorrectedWindow(page, totalPages) ==> 1 <= n <= totalPages
  {
    SlotsMember(PageLink(page, true), 1, totalPages, page, totalPages);
    assert PageLink(page, true) in Slot(page, page, totalPages);
    SlotsMember(PageLink(1, page == 1), 1, totalPages, page, totalPages);
    assert PageLink(1, page == 1) in Slot(1, page, totalPages);
    SlotsMember(PageLink(totalPages, page == totalPages), 1, totalPages, page, totalPages);
    assert PageLink(totalPages, page == totalPages) in Slot(totalPages, page, totalPages);
    forall n, a | PageLink(n, a) in CorrectedWindow(page, totalPages) ensures 1 <= n <= totalPages {
      SlotsMember(PageLink(n, a), 1, totalPages, page, totalPages);
    }
  }

  /** On twelve pages the intended pager does show the last page. */
  lemma CorrectedWindowShowsPageTwelve()
    ensures PageLink(12, true) in CorrectedWindow(12, 12)
  {
    CorrectedWindowShowsEndsAndCurrent(12, 12);
  }

  // ---------------------------------------------------------------------------
  // Deleting

  datatype DeleteDialog = DeleteDialog(isOpen: bool, articleId: string, articleTitle: string, isDeleting: bool)

  const ClosedDialog: DeleteDialog := DeleteDialog(false, "", "", false)

  /** The page after a successful delete and refetch: moved back to the new
      last page when the current one no longer exists and some page does. */
  function ClampAfterDelete(page: int, total: nat, limit: nat): (r: int)
    requires limit > 0
    ensures page > TotalPages(total, limit) && TotalPages(total, limit) > 0 ==> r == TotalPages(total, limit)
    ensures !(page > TotalPages(total, limit) && TotalPages(total, limit) > 0) ==> r == page
  {
    var last := TotalPages(total, limit);
    if page > last && last > 0 then last else page
  }

  /** The clamp never moves forward, keeps the page at least 1, and lands on
      an existing page whenever there are articles. */
  lemma ClampLandsOnExistingPage(page: int, total: nat, limit: nat)
    requires limit > 0 && page >= 1
    ensures 1 <= ClampAfterDelete(page, total, limit) <= page
    ensures total > 0 ==> ClampAfterDelete(page, total, limit) <= TotalPages(total, limit)
  {
  }

  /** Deleting the only article on the last page, beyond page 1, moves the
      list back exactly one page. */
  lemma LastArticleOfLastPageDeleted(page: int, limit: nat)
    requires page > 1 && limit > 0
    ensures TotalPages((page - 1) * limit + 1, limit) == page
    ensures ClampAfterDelete(page, (page - 1) * limit, limit) == page - 1
  {
    CeilDivExact(page - 1, limit);
    var t := TotalPages((page - 1) * limit + 1, limit);
    TotalPagesBounds((page - 1) * limit + 1, limit);
    MulCancel(t, page - 1, limit);
    MulCancel(t - 1, page - 1, limit);
  }

  // ---------------------------------------------------------------------------
  // The page

  class ArticleListPage {
    const session: Auth.SessionStore
    const limit: nat := PageSize

    var profile: Option<Profile>
    var loading: bool
    var searchInput: string
    var appliedSearch: string
    var pending: Option<string>
    var category: string
    var categories: seq<CategoryApi.Category>
    var articles: seq<Article>
    var page: int
    var total: nat
    var articlesLoading: bool
    var deleteDialog: DeleteDialog
    var redirect: Option<string>
    var toasts: seq<Toast>

    /** The query state held in the fields. */
    function Query(): ListQuery
      reads this
    {
      ListQuery(searchInput, appliedSearch, pending, category, page)
    }

    function PageCount(): nat
      reads this
    {
      TotalPages(total, limit)
    }

    /** The parameters the next fetch sends. */
    function FetchParams(): ArticleQuery
      reads this
    {
      BuildQuery(page, limit, appliedSearch, category)
    }

    /** The pager items: none unless there is more than one page. */
    function PagerItems(): (items: seq<PageItem>)
      reads this
      ensures PageCount() <= 1 ==> items == []
      ensures PageCount() > 1 ==> items == CorrectedWindow(page, PageCount())
    {
      if PageCount() > 1 then CorrectedWindow(page, PageCount()) else []
    }

    /** Everything outside the query state is as it was. */
    twostate predicate OnlyQueryChanged()
      reads this
    {
      old(profile) == profile && old(loading) == loading && old(categories) == categories &&
      old(articles) == articles && old(total) == total && old(articlesLoading) == articlesLoading &&
      old(deleteDialog) == deleteDialog && old(redirect) == redirect && old(toasts) == toasts
    }

    /** The initial state: no profile yet, loading, empty search, all
        categories, page 1, no articles, dialog closed. */
    constructor (session: Auth.SessionStore)
      ensures this.session == session
      ensures profile == None && loading && !articlesLoading
      ensures Query() == ListQuery("", "", None, AllCategories, 1)
      ensures categories == [] && articles == [] && total == 0
      ensures deleteDialog == ClosedDialog && redirect == None && toasts == []
    {
      this.session := session;
      profile := None;
      loading := true;
      searchInput, appliedSearch, pending := "", "", None;
      category := AllCategories;
      categories := [];
      articles := [];
      page := 1;
      total := 0;
      articlesLoading := false;
      deleteDialog := ClosedDialog;
      redirect := None;
      toasts := [];
    }

    /** The category effect: `getCategories` never throws, so whatever it
        returns becomes the option list. */
    method LoadCategories(reply: Reply<Option<seq<CategoryApi.Category>>>)
      modifies this
      ensures categories == CategoryApi.GetCategories(reply)
      ensures profile == old(profile) && Query() == old(Query()) && articles == old(articles)
      ensures total == old(total) && deleteDialog == old(deleteDialog)
      ensures redirect == old(redirect) && toasts == old(toasts) && loading == old(loading)
      ensures articlesLoading == old(articlesLoading)
    {
      categories := CategoryApi.GetCategories(reply);
    }

    /** `fetchProfile`: an admin profile is kept; another role is sent home
        with the session intact; a failed call clears the session and sends
        the user to the login page.  Loading ends in every case. */
    method ProfileLoaded(reply: Reply<Profile>)
      modifies this, session
      ensures var d := Gate(reply);
        && profile == (if d.Admitted? then Some(d.profile) else old(profile))
        && session.items == (if d.LoginRequired? then Auth.WithoutSession(old(session.items)) else old(session.items))
        && redirect == (if d.Admitted? then old(redirect) else GateRedirect(d))
        && toasts == old(toasts) + (if d.Admitted? then [] else [GateToast(d).value])
      ensures !loading
      ensures Query() == old(Query()) && articles == old(articles) && total == old(total)
      ensures categories == old(categories) && deleteDialog == old(deleteDialog)
      ensures articlesLoading == old(articlesLoading)
    {
      var d := Gate(reply);
      match d {
        case NotAuthorized =>
          toasts := toasts + [ErrorToast(NotAuthorizedMessage)];
          redirect := Some(HomeRoute);
        case Admitted(p) =>
          profile := Some(p);
        case LoginRequired =>
          toasts := toasts + [ErrorToast(LoginFirstMessage)];
          session.ClearAuth();
          redirect := Some(LoginRoute);
      }
      loading := false;
    }

    /** The article effect starting: nothing is fetched before a profile is
        set; otherwise the loading flag rises and the current parameters are
        sent. */
    method FetchArticles() returns (request: Option<ArticleQuery>)
      modifies this
      ensures request.Some? <==> old(profile).Some?
      ensures request.Some? ==> request.value == old(FetchParams()) && articlesLoading
      ensures request.None? ==> articlesLoading == old(articlesLoading)
      ensures searchInput == old(searchInput) && appliedSearch == old(appliedSearch) && pending == old(pending)
      ensures category == old(category) && page == old(page)
      ensures profile == old(profile) && loading == old(loading) && categories == old(categories)
      ensures articles == old(articles) && total == old(total) && deleteDialog == old(deleteDialog)
      ensures redirect == old(redirect) && toasts == old(toasts)
    {
      if profile.Some? {
        request := Some(FetchParams());
        articlesLoading := true;
      } else {
        request := None;
      }
    }

    /** The article fetch settling: a result replaces the list and the count
        wholesale; a failure keeps both and reports it; loading ends either way. */
    method ArticlesLoaded(reply: Reply<ArticleList>)
      modifies this
      ensures reply.Ok? ==> articles == ListedArticles(reply.body) && total == ListedTotal(reply.body)
      ensures reply.Ok? ==> toasts == old(toasts)
      ensures reply.Failed? ==> articles == old(articles) && total == old(total)
      ensures reply.Failed? ==> toasts == old(toasts) + [ErrorToast(ArticlesLoadFailed)]
      ensures !articlesLoading
      ensures Query() == old(Query()) && profile == old(profile) && deleteDialog == old(deleteDialog)
      ensures redirect == old(redirect) && categories == old(categories) && loading == old(loading)
    {
      match reply {
        case Ok(body) =>
          articles := ListedArticles(body);
          total := ListedTotal(body);
        case Failed(_) =>
          toasts := toasts + [ErrorToast(ArticlesLoadFailed)];
      }
      articlesLoading := false;
    }

    /** `handleSearchChange`: the box shows the value at once; the pending
        commit, if any, is cancelled and one for this value is scheduled. */
    method HandleSearchChange(value: string)
      modifies this
      ensures Query() == Step(old(Query()), Keystroke(value), old(PageCount()))
      ensures OnlyQueryChanged()
    {
      searchInput := value;
      pending := Some(value);
    }

    /** The scheduled commit firing: the committed search takes the pending
        value and the page goes back to 1. */
    method SearchTimerFires()
      modifies this
      ensures Query() == Step(old(Query()), TimerFires, old(PageCount()))
      ensures OnlyQueryChanged()
    {
      if pending.Some? {
        appliedSearch := pending.value;
        page := 1;
        pending := None;
      }
    }

    /** `handleCategoryChange`: sets the category and goes back to page 1,
        leaving the search alone. */
    method HandleCategoryChange(value: string)
      modifies this
      ensures Query() == Step(old(Query()), CategoryPicked(value), old(PageCount()))
      ensures OnlyQueryChanged()
    {
      category := value;
      page := 1;
    }

    /** The Previous control. */
    method GoToPreviousPage()
      modifies this
      ensures Query() == Step(old(Query()), PreviousClicked, old(PageCount()))
      ensures OnlyQueryChanged()
    {
      page := PreviousPage(page);
    }

    /** The Next control. */
    method GoToNextPage()
      modifies this
      ensures Query() == Step(old(Query()), NextClicked, old(PageCount()))
      ensures OnlyQueryChanged()
    {
      page := NextPage(page, PageCount());
    }

    /** A page link. */
    method GoToPage(n: int)
      modifies this
      ensures Query() == Step(old(Query()), PageClicked(n), old(PageCount()))
      ensures OnlyQueryChanged()
    {
      page := n;
    }

    /** `handleDeleteClick`: opens the dialog for that article, not yet busy. */
    method HandleDeleteClick(articleId: string, articleTitle: string)
      modifies this
      ensures deleteDialog == DeleteDialog(true, articleId, articleTitle, false)
      ensures Query() == old(Query()) && articles == old(articles) && total == old(total)
      ensures profile == old(profile) && toasts == old(toasts) && redirect == old(redirect)
      ensures categories == old(categories) && loading == old(loading) && articlesLoading == old(articlesLoading)
    {
      deleteDialog := DeleteDialog(true, articleId, articleTitle, false);
    }

    /** `handleDeleteCancel` (also the dialog's `onOpenChange`): closed and
        emptied. */
    method HandleDeleteCancel()
      modifies this
      ensures deleteDialog == ClosedDialog
      ensures Query() == old(Query()) && articles == old(articles) && total == old(total)
      ensures profile == old(profile) && toasts == old(toasts) && redirect == old(redirect)
      ensures categories == old(categories) && loading == old(loading) && articlesLoading == old(articlesLoading)
    {
      deleteDialog := ClosedDialog;
    }

    /** `handleDeleteConfirm` up to the delete call: without an article id it
        does nothing; otherwise the dialog turns busy and the id is deleted. */
    method HandleDeleteConfirm() returns (target: Option<string>)
      modifies this
      ensures old(deleteDialog).articleId == [] ==> target == None && deleteDialog == old(deleteDialog)
      ensures old(deleteDialog).articleId != [] ==>
        target == Some(old(deleteDialog).articleId) && deleteDialog == old(deleteDialog).(isDeleting := true)
      ensures Query() == old(Query()) && articles == old(articles) && total == old(total)
      ensures profile == old(profile) && toasts == old(toasts) && redirect == old(redirect)
      ensures categories == old(categories) && loading == old(loading) && articlesLoading == old(articlesLoading)
    {
      if deleteDialog.articleId == [] {
        target := None;
      } else {
        deleteDialog := deleteDialog.(isDeleting := true);
        target := Some(deleteDialog.articleId);
      }
    }

    /** The delete call of `handleDeleteConfirm` settling.  A failure is
        reported with the error's message or a fixed fallback, and the dialog
        closes.  A success is announced and the list is fetched again with the
        current parameters; the dialog stays busy until that fetch ends. */
    method DeleteSettled(deleteReply: Reply<()>) returns (refreshRequest: Option<ArticleQuery>)
      modifies this
      ensures deleteReply.Failed? ==>
        && refreshRequest == None && deleteDialog == ClosedDialog
        && toasts == old(toasts) + [ErrorToast(OrElse(deleteReply.message, DeleteFailed))]
      ensures deleteReply.Ok? ==>
        && refreshRequest == Some(old(FetchParams())) && deleteDialog == old(deleteDialog)
        && toasts == old(toasts) + [SuccessToast(ArticleDeleted)]
      ensures articles == old(articles) && total == old(total) && page == old(page)
      ensures searchInput == old(searchInput) && appliedSearch == old(appliedSearch)
      ensures pending == old(pending) && category == old(category)
      ensures profile == old(profile) && redirect == old(redirect)
      ensures categories == old(categories) && loading == old(loading) && articlesLoading == old(articlesLoading)
    {
      match deleteReply {
        case Failed(message) =>
          toasts := toasts + [ErrorToast(OrElse(message, DeleteFailed))];
          refreshRequest := None;
          deleteDialog := ClosedDialog;
        case Ok(_) =>
          refreshRequest := Some(FetchParams());
          toasts := toasts + [SuccessToast(ArticleDeleted)];
      }
    }

    /** The refetch after a delete settling.  A result replaces the list and
        the count and moves the page back when it no longer exists; a failure
        is reported like a failed delete and leaves the list as it was.  The
        dialog ends closed and emptied either way. */
    method RefreshSettled(refresh: Reply<ArticleList>)
      modifies this
      ensures refresh.Failed? ==>
        && toasts == old(toasts) + [ErrorToast(OrElse(refresh.message, DeleteFailed))]
        && articles == old(articles) && total == old(total) && page == old(page)
      ensures refresh.Ok? ==>
        && toasts == old(toasts)
        && articles == ListedArticles(refresh.body) && total == ListedTotal(refresh.body)
        && page == ClampAfterDelete(old(page), ListedTotal(refresh.body), limit)
      ensures deleteDialog == ClosedDialog
      ensures searchInput == old(searchInput) && appliedSearch == old(appliedSearch)
      ensures pending == old(pending) && category == old(category)
      ensures profile == old(profile) && redirect == old(redirect)
      ensures categories == old(categories) && loading == old(loading) && articlesLoading == old(articlesLoading)
    {
      match refresh {
        case Failed(message) =>
          toasts := toasts + [ErrorToast(OrElse(message, DeleteFailed))];
        case Ok(body) =>
          articles := ListedArticles(body);
          total := ListedTotal(body);
          page := ClampAfterDelete(page, total, limit);
      }
      deleteDialog := ClosedDialog;
    }
  }
}
