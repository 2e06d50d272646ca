/** What the article pages have in common: the records they receive from the
    server, the admin gate that both admin list pages apply to the profile
    reply, the page arithmetic of their pagers, and the stricter category
    filter of the edit page and the public list. */
module Shared {
  import opened Common
  import CategoryApi
  import Auth

  datatype CategoryRef = CategoryRef(id: string, name: string)

  /** An article as the pages read it; absent string fields are "". */
  datatype Article = Article(
    id: string, title: string, content: string,
    categoryId: string, category: Option<CategoryRef>, image: string)

  datatype Profile = Profile(id: string, username: string, role: string)

  /** The body of `GET /articles`; either field may be missing. */
  datatype ArticleList = ArticleList(data: Option<seq<Article>>, total: Option<nat>)

  /** The parameters of `getArticles`; an absent field is not sent. */
  datatype ArticleQuery = ArticleQuery(
    page: int, limit: int,
    search: Option<string>, title: Option<string>, category: Option<string>,
    sortBy: Option<string>, sortOrder: Option<string>)

  /** The value of the admin category selects that stands for no filter. */
  const AllCategories: string := "all"

  /** `res.data || []` and `res.total || 0`: a result replaces the list and the
      count wholesale, a missing field counts as empty. */
  function ListedArticles(body: ArticleList): (r: seq<Article>)
    ensures body.data.Some? ==> r == body.data.value
    ensures body.data.None? ==> r == []
  {
    body.data.GetOr([])
  }

  function ListedTotal(body: ArticleList): (t: nat)
    ensures body.total.Some? ==> t == body.total.value
    ensures body.total.None? ==> t == 0
  {
    body.total.GetOr(0)
  }

  // ---------------------------------------------------------------------------
  // The admin gate on the profile reply

  const HomeRoute: string := "/"
  const LoginRoute: string := "/login"
  const AdminRoute: string := "/admin"
  const NotAuthorizedMessage: string := "You are not authorized to access admin page"
  const LoginFirstMessage: string := "Please login first"

  datatype GateDecision = Admitted(profile: Profile) | NotAuthorized | LoginRequired

  /** The decision of `fetchProfile`: an admin profile is admitted; any other
      role is turned away without touching the session; a failed profile call
      means the session is no good. */
  function Gate(reply: Reply<Profile>): (d: GateDecision)
    ensures d.Admitted? <==> reply.Ok? && reply.body.role == Auth.AdminRole
    ensures d.Admitted? ==> d.profile == reply.body
    ensures d.NotAuthorized? <==> reply.Ok? && reply.body.role != Auth.AdminRole
    ensures d.LoginRequired? <==> reply.Failed?
  {
    match reply
    case Failed(_) => LoginRequired
    case Ok(p) => if p.role != Auth.AdminRole then NotAuthorized else Admitted(p)
  }

  /** Where the gate sends the user, if anywhere. */
  function GateRedirect(d: GateDecision): (r: Option<string>)
    ensures d.Admitted? <==> r.None?
    ensures d.NotAuthorized? ==> r == Some(HomeRoute)
    ensures d.LoginRequired? ==> r == Some(LoginRoute)
  {
    match d
    case Admitted(_) => None
    case NotAuthorized => Some(HomeRoute)
    case LoginRequired => Some(LoginRoute)
  }

  /** The notification the gate shows, if any. */
  function GateToast(d: GateDecision): (t: Option<Toast>)
    ensures d.Admitted? <==> t.None?
    ensures d.NotAuthorized? ==> t == Some(ErrorToast(NotAuthorizedMessage))
    ensures d.LoginRequired? ==> t == Some(ErrorToast(LoginFirstMessage))
  {
    match d
    case Admitted(_) => None
    case NotAuthorized => Some(ErrorToast(NotAuthorizedMessage))
    case LoginRequired => Some(ErrorToast(LoginFirstMessage))
  }

  // ---------------------------------------------------------------------------
  // Pager arithmetic

  /** `Math.ceil(total / limit)`: no pages exactly when there are no
      articles. */
  function TotalPages(total: nat, limit: nat): (n: nat)
    requires limit > 0
    ensures n == 0 <==> total == 0
  {
    CeilDiv(total, limit)
  }

  /** The pages hold every article, and the last page is not empty. */
  lemma TotalPagesBounds(total: nat, limit: nat)
    requires limit > 0
    ensures total <= TotalPages(total, limit) * limit
    ensures TotalPages(total, limit) > 0 ==> (TotalPages(total, limit) - 1) * limit < total
  {
    CeilDivBounds(total, limit);
  }

  /** The Previous control: `Math.max(p - 1, 1)`. */
  function PreviousPage(p: int): int {
    Max(p - 1, 1)
  }

  /** The Next control: `Math.min(p + 1, totalPages)`. */
  function NextPage(p: int, totalPages: int): int {
    Min(p + 1, totalPages)
  }

  /** From a page in range the two controls stay in range, stop at the ends,
      and undo each other away from the ends. */
  lemma PreviousNextInRange(p: int, totalPages: int)
    requires 1 <= p <= totalPages
    ensures 1 <= PreviousPage(p) <= totalPages && 1 <= NextPage(p, totalPages) <= totalPages
    ensures PreviousPage(p) == p <==> p == 1
    ensures NextPage(p, totalPages) == p <==> p == totalPages
    ensures p < totalPages ==> PreviousPage(NextPage(p, totalPages)) == p
    ensures p > 1 ==> NextPage(PreviousPage(p), totalPages) == p
  {
  }

  /** One entry of a pager: a link to a page, marked when it is the current
      page, or an ellipsis. */
  datatype PageItem = PageLink(n: int, active: bool) | Ellipsis

  /** A pager that lists every page: one link per page, in order, the
      current one active. */
  function AllLinks(page: int, totalPages: nat): (r: seq<PageItem>)
    ensures |r| == totalPages
    ensures forall i :: 0 <= i < totalPages ==> r[i] == PageLink(i + 1, page == i + 1)
  {
    seq(totalPages, i => PageLink(i + 1, page == i + 1))
  }

  /** Such a pager has a link for exactly the pages 1 to `totalPages`, no
      ellipsis, and marks exactly the current page. */
  lemma AllLinksMember(page: int, totalPages: nat, n: int, active: bool)
    ensures PageLink(n, active) in AllLinks(page, totalPages) <==>
      1 <= n <= totalPages && active == (n == page)
    ensures Ellipsis !in AllLinks(page, totalPages)
  {
    if 1 <= n <= totalPages && active == (n == page) {
      assert AllLinks(page, totalPages)[n - 1] == PageLink(n, active);
    }
  }

  // ---------------------------------------------------------------------------
  // The page-level category filter

  /** `cat.id && cat.id.trim() !== ""`. */
  predicate HasNonBlankId(c: CategoryApi.Category) {
    Truthy(c.id) && Trim(c.id) != []
  }

  /** The selectable categories: exactly the rows whose id is not blank, in
      their original order, with their multiplicities. */
  function KeepNonBlankIds(rows: seq<CategoryApi.Category>): (r: seq<CategoryApi.Category>)
    ensures forall c :: c in r <==> c in rows && !IsBlank(c.id)
    ensures Subsequence(r, rows)
    ensures forall c :: c in rows ==> multiset(r)[c] == if !IsBlank(c.id) then multiset(rows)[c] else 0
  {
    var r := Filter(rows, HasNonBlankId);
    FilterMember(rows, HasNonBlankId);
    assert forall c :: c in rows ==> multiset(r)[c] == if !IsBlank(c.id) then multiset(rows)[c] else 0 by {
      forall c | c in rows ensures multiset(r)[c] == if !IsBlank(c.id) then multiset(rows)[c] else 0 {
        FilterMultiset(rows, HasNonBlankId, c);
      }
    }
    r
  }

  /** Applied after `getCategories`, the page filter gives what it would give
      on the raw rows: the API filter adds nothing to it. */
  lemma PageFilterAbsorbsApiFilter(rows: seq<CategoryApi.Category>)
    ensures KeepNonBlankIds(CategoryApi.KeepWithId(rows)) == KeepNonBlankIds(rows)
  {
    FilterOfFilter(rows, CategoryApi.HasId, HasNonBlankId);
  }

  /** An id of white space only survives the API filter but not the page
      filter. */
  lemma WhitespaceIdDroppedByPage(rows: seq<CategoryApi.Category>, c: CategoryApi.Category)
    requires c in rows && c.id != [] && IsBlank(c.id)
    ensures c in CategoryApi.KeepWithId(rows)
    ensures c !in KeepNonBlankIds(rows)
  {
  }

  /** A category row with an empty id is never selectable. */
  lemma EmptyIdNotSelectable()
    ensures KeepNonBlankIds([CategoryApi.Category("", "Ghost", ""), CategoryApi.Category("cat-1", "Tech", "")])
            == [CategoryApi.Category("cat-1", "Tech", "")]
  {
    var ghostRow := CategoryApi.Category("", "Ghost", "");
    var tech := CategoryApi.Category("cat-1", "Tech", "");
    assert !HasNonBlankId(ghostRow);
    assert !IsJsSpace('c');
    assert HasNonBlankId(tech);
    assert [ghostRow, tech][1..] == [tech];
    assert [tech][1..] == [];
  }
}
