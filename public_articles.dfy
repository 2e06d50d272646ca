/** The public article list of src/app/articles/page.tsx: newest first, ten
    to a page, narrowed by a title search and a category chosen among the
    loaded ones.  There is no gate.  A new search goes back to page 1; a new
    category does not. */
module PublicArticles {
  import opened Common
  import opened Shared
  import CategoryApi
  import AdminDashboard

  const PerPage: nat := 10
  const SortField: string := "createdAt"
  const SortDescending: string := "desc"
  const NoCategoriesMessage: string := "Tidak ada kategori yang tersedia"

  /** The parameters of the public fetch: the search goes as the title
      filter when it is not empty, untrimmed; the category when one is chosen
      and not empty; always newest first, ten to a page. */
  function PublicQuery(page: int, search: string, category: Option<string>): (q: ArticleQuery)
    ensures q.page == page && q.limit == PerPage
    ensures q.search.None?
    ensures q.title.Some? <==> search != []
    ensures q.title.Some? ==> q.title.value == search
    ensures q.category.Some? <==> category.Some? && category.value != []
    ensures q.category.Some? ==> q.category.value == category.value
    ensures q.sortBy == Some(SortField) && q.sortOrder == Some(SortDescending)
  {
    ArticleQuery(
      page, PerPage,
      None,
      if Truthy(search) then Some(search) else None,
      if category.Some? && Truthy(category.value) then category else None,
      Some(SortField), Some(SortDescending))
  }

  /** The public list filters by title where the dashboard searches: the
      same text reaches the server under a different parameter, sorted. */
  lemma SearchSentAsTitle(page: int, search: string)
    ensures PublicQuery(page, search, None).title == AdminDashboard.DashboardQuery(page, PerPage, search, AllCategories).search
    ensures PublicQuery(page, search, None).search.None?
  {
  }

  class ArticlesPage {
    var articles: seq<Article>
    var total: nat
    var categories: seq<CategoryApi.Category>
    var search: string
    var category: Option<string>
    var page: int
    var toasts: seq<Toast>

    function PageCount(): nat
      reads this
    {
      TotalPages(total, PerPage)
    }

    function FetchParams(): ArticleQuery
      reads this
    {
      PublicQuery(page, search, category)
    }

    /** The pager: only when there is more than one page, every page listed. */
    function PagerItems(): (items: seq<PageItem>)
      reads this
      ensures PageCount() <= 1 ==> items == []
      ensures PageCount() > 1 ==> items == AllLinks(page, PageCount())
    {
      if PageCount() > 1 then AllLinks(page, PageCount()) else []
    }

    /** The choices of the category select: one per loaded category, valued
        by its id. */
    function CategoryChoices(): (ids: seq<string>)
      reads this
      ensures |ids| == |categories|
      ensures forall i :: 0 <= i < |categories| ==> ids[i] == categories[i].id
    {
      seq(|categories|, i requires 0 <= i < |categories| reads this => categories[i].id)
    }

    constructor ()
      ensures articles == [] && total == 0 && categories == []
      ensures search == "" && category == None && page == 1 && toasts == []
    {
      articles := [];
      total := 0;
      categories := [];
      search := "";
      category := None;
      page := 1;
      toasts := [];
    }

    /** The article effect: sends the current parameters. */
    method FetchArticles() returns (request: ArticleQuery)
      ensures request == FetchParams()
    {
      request := FetchParams();
    }

    /** The fetch settling: a result replaces the list and the count; a
        failure changes nothing and shows nothing. */
    method ArticlesLoaded(reply: Reply<ArticleList>)
      modifies this
      ensures reply.Ok? ==> articles == ListedArticles(reply.body) && total == ListedTotal(reply.body)
      ensures reply.Failed? ==> articles == old(articles) && total == old(total)
      ensures categories == old(categories) && toasts == old(toasts)
      ensures search == old(search) && category == old(category) && page == old(page)
    {
      if reply.Ok? {
        articles := ListedArticles(reply.body);
        total := ListedTotal(reply.body);
      }
    }

    /** The category effect: only rows with a non-blank id are offered, and
        an empty offer is reported.  Every value the select then offers is a
        non-blank id. */
    method CategoriesLoaded(reply: Reply<Option<seq<CategoryApi.Category>>>)
      modifies this
      ensures categories == KeepNonBlankIds(CategoryApi.GetCategories(reply))
      ensures forall i :: 0 <= i < |CategoryChoices()| ==> !IsBlank(CategoryChoices()[i])
      ensures toasts == old(toasts) + (if categories == [] then [ErrorToast(NoCategoriesMessage)] else [])
      ensures articles == old(articles) && total == old(total)
      ensures search == old(search) && category == old(category) && page == old(page)
    {
      categories := KeepNonBlankIds(CategoryApi.GetCategories(reply));
      forall i | 0 <= i < |categories| ensures !IsBlank(categories[i].id) {
        assert categories[i] in categories;
      }
      if categories == [] {
        toasts := toasts + [ErrorToast(NoCategoriesMessage)];
      }
    }

    /** The category select: the chosen id, the page left where it is. */
    method HandleCategoryChange(id: string)
      modifies this
      ensures category == Some(id) && page == old(page) && search == old(search)
      ensures articles == old(articles) && total == old(total)
      ensures categories == old(categories) && toasts == old(toasts)
    {
      category := Some(id);
    }

    /** The search box: the new text at once, back to page 1. */
    method HandleSearchChange(value: string)
      modifies this
      ensures search == value && page == 1 && category == old(category)
      ensures articles == old(articles) && total == old(total)
      ensures categories == old(categories) && toasts == old(toasts)
    {
      search := value;
      page := 1;
    }

    method GoToPreviousPage()
      modifies this
      ensures page == PreviousPage(old(page))
      ensures search == old(search) && category == old(category)
      ensures articles == old(articles) && total == old(total)
      ensures categories == old(categories) && toasts == old(toasts)
    {
      page := PreviousPage(page);
    }

    method GoToNextPage()
      modifies this
      ensures page == NextPage(old(page), old(PageCount()))
      ensures search == old(search) && category == old(category)
      ensures articles == old(articles) && total == old(total)
      ensures categories == old(categories) && toasts == old(toasts)
    {
      page := NextPage(page, PageCount());
    }

    method GoToPage(n: int)
      modifies this
      ensures page == n
      ensures search == old(search) && category == old(category)
      ensures articles == old(articles) && total == old(total)
      ensures categories == old(categories) && toasts == old(toasts)
    {
      page := n;
    }
  }

  /** Every id offered by the category select is a real, non-blank id of a
      loaded category. */
  lemma ChoicesAreNonBlankIds(reply: Reply<Option<seq<CategoryApi.Category>>>, i: int)
    requires 0 <= i < |KeepNonBlankIds(CategoryApi.GetCategories(reply))|
    ensures var c := KeepNonBlankIds(CategoryApi.GetCategories(reply))[i];
      !IsBlank(c.id) && c.id != [] && c in CategoryApi.GetCategories(reply)
  {
    var rows := CategoryApi.GetCategories(reply);
    assert KeepNonBlankIds(rows)[i] in KeepNonBlankIds(rows);
  }
}
