/** The admin dashboard of src/app/admin/page.tsx: the admin gate, and a
    paged article table with a search box and a fixed set of category
    choices.  Unlike the article list page it fetches on every change of
    page, search or category without waiting for the gate, sends the search
    untrimmed and lists every page in its pager. */
module AdminDashboard {
  import opened Common
  import opened Shared
  import Auth
  import AdminArticles

  const PageSize: nat := 10
  const DeleteNotImplemented: string := "Delete not implemented"

  /** The category select's fixed choices. */
  const CategoryChoices: seq<string> := ["all", "Technology", "Business", "Lifestyle"]

  /** The first choice of the select fetches every category; each of the
      others narrows the fetch to itself. */
  lemma ChoicesNarrowExceptAll(page: int, search: string, i: int)
    requires 0 <= i < |CategoryChoices|
    ensures var q := DashboardQuery(page, PageSize, search, CategoryChoices[i]);
      (q.category.None? <==> i == 0) && (i > 0 ==> q.category == Some(CategoryChoices[i]))
  {
  }

  /** The parameters of the dashboard's fetch: the page and the limit, the
      search exactly as typed when it is not empty, and the category when it
      is not "all". */
  function DashboardQuery(page: int, limit: int, search: string, category: string): (q: ArticleQuery)
    ensures q.page == page && q.limit == limit
    ensures q.search.Some? <==> search != []
    ensures q.search.Some? ==> q.search.value == search
    ensures q.category.Some? <==> category != AllCategories
    ensures q.category.Some? ==> q.category.value == category
    ensures q.title.None? && q.sortBy.None? && q.sortOrder.None?
  {
    ArticleQuery(
      page, limit,
      if Truthy(search) then Some(search) else None,
      None,
      if category != AllCategories then Some(category) else None,
      None, None)
  }

  /** The two admin lists agree on every search that is already trimmed and
      not empty, and on every category. */
  lemma AgreesWithArticleListOnTrimmedSearch(page: int, limit: int, search: string, category: string)
    requires search != [] && Trim(search) == search
    ensures DashboardQuery(page, limit, search, category) == AdminArticles.BuildQuery(page, limit, search, category)
  {
  }

  /** A search of spaces only: the dashboard sends it, the article list page
      sends no search at all. */
  lemma BlankSearchSentOnlyHere()
    ensures DashboardQuery(1, PageSize, "  ", AllCategories).search == Some("  ")
    ensures AdminArticles.BuildQuery(1, PageSize, "  ", AllCategories).search == None
  {
    assert IsBlank("  ") by {
      assert IsJsSpace("  "[0]) && IsJsSpace("  "[1]);
    }
  }

  class DashboardPage {
    const session: Auth.SessionStore
    const limit: nat := PageSize

    var profile: Option<Profile>
    var loading: bool
    var search: string
    var category: string
    var articles: seq<Article>
    var page: int
    var total: nat
    var redirect: Option<string>
    var toasts: seq<Toast>

    function PageCount(): nat
      reads this
    {
      TotalPages(total, limit)
    }

    function FetchParams(): ArticleQuery
      reads this
    {
      DashboardQuery(page, limit, search, category)
    }

    /** The pager: shown as soon as there is one page, with every page listed. */
    function PagerItems(): (items: seq<PageItem>)
      reads this
      ensures PageCount() == 0 <==> items == []
      ensures PageCount() >= 1 ==> items == AllLinks(page, PageCount())
    {
      if PageCount() >= 1 then AllLinks(page, PageCount()) else []
    }

    /** What the page renders: nothing but the loading text while the gate
        runs, nothing at all without an admin profile. */
    predicate ShowsTable()
      reads this
    {
      !loading && profile.Some?
    }

    /** The list, the count and the notifications are as they were. */
    twostate predicate ListUnchanged()
      reads this
    {
      old(articles) == articles && old(total) == total && old(toasts) == toasts &&
      old(profile) == profile && old(loading) == loading && old(redirect) == redirect
    }

    constructor (session: Auth.SessionStore)
      ensures this.session == session
      ensures profile == None && loading
      ensures search == "" && category == AllCategories && page == 1
      ensures articles == [] && total == 0 && redirect == None && toasts == []
    {
      this.session := session;
      profile := None;
      loading := true;
      search := "";
      category := AllCategories;
      articles := [];
      page := 1;
      total := 0;
      redirect := None;
      toasts := [];
    }

    /** `fetchProfile`: the same gate as the article list page. */
    method ProfileLoaded(reply: Reply<Profile>)
      modifies this, session
      ensures var d := Gate(reply);
        && profile == (if d.Admitted? then Some(d.profile) else old(profile))
        && session.items == (if d.LoginRequired? then Auth.WithoutSession(old(session.items)) else old(session.items))
        && redirect == (if d.Admitted? then old(redirect) else GateRedirect(d))
        && toasts == old(toasts) + (if d.Admitted? then [] else [GateToast(d).value])
      ensures !loading
      ensures search == old(search) && category == old(category) && page == old(page)
      ensures articles == old(articles) && total == old(total)
    {
      var d := Gate(reply);
      match d {
        case NotAuthorized =>
          toasts := toasts + [ErrorToast(NotAuthorizedMessage)];
          redirect := Some(HomeRoute);
        case Admitted(p) =>
          profile := Some(p);
        case LoginRequired =>
          toasts := toasts + [ErrorToast(LoginFirstMessage)];
          session.ClearAuth();
          redirect := Some(LoginRoute);
      }
      loading := false;
    }

    /** The article effect: it runs whatever the gate's state, and sends the
        current parameters. */
    method FetchArticles() returns (request: ArticleQuery)
      ensures request == FetchParams()
    {
      request := FetchParams();
    }

    /** The fetch settling: a result replaces the list and the count; a
        failure changes nothing and shows nothing. */
    method ArticlesLoaded(reply: Reply<ArticleList>)
      modifies this
      ensures reply.Ok? ==> articles == ListedArticles(reply.body) && total == ListedTotal(reply.body)
      ensures reply.Failed? ==> articles == old(articles) && total == old(total)
      ensures toasts == old(toasts) && profile == old(profile) && loading == old(loading)
      ensures search == old(search) && category == old(category) && page == old(page)
      ensures redirect == old(redirect)
    {
      if reply.Ok? {
        articles := ListedArticles(reply.body);
        total := ListedTotal(reply.body);
      }
    }

    /** The category select: new category, back to page 1. */
    method HandleCategoryChange(value: string)
      modifies this
      ensures category == value && page == 1 && search == old(search)
      ensures ListUnchanged()
    {
      category := value;
      page := 1;
    }

    /** The search box: the new text is the search at once, back to page 1. */
    method HandleSearchChange(value: string)
      modifies this
      ensures search == value && page == 1 && category == old(category)
      ensures ListUnchanged()
    {
      search := value;
      page := 1;
    }

    method GoToPreviousPage()
      modifies this
      ensures page == PreviousPage(old(page))
      ensures search == old(search) && category == old(category) && ListUnchanged()
    {
      page := PreviousPage(page);
    }

    method GoToNextPage()
      modifies this
      ensures page == NextPage(old(page), old(PageCount()))
      ensures search == old(search) && category == old(category) && ListUnchanged()
    {
      page := NextPage(page, PageCount());
    }

    method GoToPage(n: int)
      modifies this
      ensures page == n
      ensures search == old(search) && category == old(category) && ListUnchanged()
    {
      page := n;
    }

    /** The table's Delete button only says that deleting is not available. */
    method DeleteClicked()
      modifies this
      ensures toasts == old(toasts) + [ErrorToast(DeleteNotImplemented)]
      ensures articles == old(articles) && total == old(total) && page == old(page)
      ensures search == old(search) && category == old(category)
      ensures profile == old(profile) && loading == old(loading) && redirect == old(redirect)
    {
      toasts := toasts + [ErrorToast(DeleteNotImplemented)];
    }
  }
}
