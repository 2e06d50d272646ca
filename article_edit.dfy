/** The article edit page of src/app/admin/articles/edit/page.tsx: it loads
    the selectable categories and the article, lets the user change the
    title, category and content, checks the form before sending and sends
    the update. */
module ArticleEdit {
  import opened Common
  import opened Shared
  import CategoryApi
  import Validations
  import ZodSchemas

  /** What the editor holds when the user has cleared it. */
  const EmptyEditorContent: string := "<p></p>"

  const NoCategoriesMessage: string := "Tidak ada kategori yang tersedia"
  const MissingIdMessage: string := "ID artikel tidak ditemukan"
  const LoadFailedMessage: string := "Gagal memuat data artikel"
  const UpdatedMessage: string := "Artikel berhasil diperbarui!"
  const UpdateFailedMessage: string := "Gagal memperbarui artikel"

  // ---------------------------------------------------------------------------
  // The pre-submit check

  /** The reasons `handleSubmit` refuses to send, in the order it checks them. */
  datatype Rejection = TitleMissing | ContentMissing | CategoryMissing | CategoryUnknown

  function RejectionMessage(r: Rejection): string {
    match r
    case TitleMissing => "Judul tidak boleh kosong"
    case ContentMissing => "Konten tidak boleh kosong"
    case CategoryMissing => "Kategori harus dipilih"
    case CategoryUnknown => "Kategori yang dipilih tidak valid"
  }

  /** The body of `updateArticle`. */
  datatype UpdatePayload = UpdatePayload(title: string, content: string, categoryId: string)

  datatype Checked = Accepted(payload: UpdatePayload) | Rejected(reason: Rejection)

  /** `categories.find(cat => cat.id === category)` finds something. */
  predicate Listed(categories: seq<CategoryApi.Category>, id: string) {
    exists c :: c in categories && c.id == id
  }

  /** The blank-content test: white space only, or the empty paragraph the
      editor produces. */
  predicate ContentEmpty(content: string) {
    Trim(content) == [] || content == EmptyEditorContent
  }

  /** The checks of `handleSubmit`, first failure wins. */
  function CheckSubmission(title: string, content: string, category: string,
                           categories: seq<CategoryApi.Category>): Checked
  {
    if Trim(title) == [] then Rejected(TitleMissing)
    else if ContentEmpty(content) then Rejected(ContentMissing)
    else if !Truthy(category) || Trim(category) == [] then Rejected(CategoryMissing)
    else if !Listed(categories, category) then Rejected(CategoryUnknown)
    else Accepted(UpdatePayload(Trim(title), content, category))
  }

  /** Each rejection happens exactly when its own test fails and every earlier
      one passed: a blank title, then empty content, then a blank category,
      then a category that is not among the loaded ones.  What is sent is the
      trimmed title, the content as it is and the category id as it is. */
  lemma CheckSubmissionOutcome(title: string, content: string, category: string,
                               categories: seq<CategoryApi.Category>)
    ensures var r := CheckSubmission(title, content, category, categories);
      && (r == Rejected(TitleMissing) <==> IsBlank(title))
      && (r == Rejected(ContentMissing) <==>
            !IsBlank(title) && (IsBlank(content) || content == EmptyEditorContent))
      && (r == Rejected(CategoryMissing) <==>
            !IsBlank(title) && !ContentEmpty(content) && IsBlank(category))
      && (r == Rejected(CategoryUnknown) <==>
            !IsBlank(title) && !ContentEmpty(content) && !IsBlank(category) && !Listed(categories, category))
      && (r.Accepted? <==>
            !IsBlank(title) && !ContentEmpty(content) && !IsBlank(category) && Listed(categories, category))
      && (r.Accepted? ==> r.payload == UpdatePayload(Trim(title), content, category))
  {
    if IsBlank(title) {
    } else if ContentEmpty(content) {
    } else if IsBlank(category) {
    } else if !Listed(categories, category) {
    } else {
    }
  }

  /** What an accepted form sends: a non-empty title with no white space at
      either end, content that is neither blank nor the empty paragraph, and
      the id of one of the loaded categories. */
  lemma AcceptedPayloadIsClean(title: string, content: string, category: string,
                               categories: seq<CategoryApi.Category>)
    requires CheckSubmission(title, content, category, categories).Accepted?
    ensures var p := CheckSubmission(title, content, category, categories).payload;
      && p.title != [] && Trim(p.title) == p.title
      && !ContentEmpty(p.content)
      && Listed(categories, p.categoryId) && !IsBlank(p.categoryId)
  {
    CheckSubmissionOutcome(title, content, category, categories);
    TrimIdempotent(title);
  }

  /** With no categories loaded nothing is ever sent, which is why the submit
      button is disabled then. */
  lemma NoCategoriesNothingSent(title: string, content: string, category: string)
    ensures CheckSubmission(title, content, category, []).Rejected?
  {
  }

  /** Unlike the article schema, the edit check lets a two-letter title
      through: any two characters of the Basic Multilingual Plane that are not
      white space pass here, while the schema's three-character minimum
      rejects them. */
  lemma ShortTitleAccepted(a: char, b: char, content: string, category: string,
                           categories: seq<CategoryApi.Category>)
    requires !IsJsSpace(a) && !IsJsSpace(b) && a as int <= 0xFFFF && b as int <= 0xFFFF
    requires !ContentEmpty(content) && !IsBlank(category) && Listed(categories, category)
    ensures CheckSubmission([a, b], content, category, categories)
      == Accepted(UpdatePayload([a, b], content, category))
    ensures ZodSchemas.Issue("title", Some(Validations.TitleMessage))
      in Validations.ValidateArticle(Validations.ArticleForm([a, b], content, category))
  {
    CheckSubmissionOutcome([a, b], content, category, categories);
    TrimUnpadded([a, b]);
    assert Utf16Length([a, b]) == 2 by {
      assert [a, b][1..] == [b];
      assert [b][1..] == [];
    }
  }

  // ---------------------------------------------------------------------------
  // Loading the article

  /** `data.categoryId || data.category?.id || ""`: the article's own category
      id, else the id of its embedded category, else nothing. */
  function InitialCategory(a: Article): (id: string)
    ensures a.categoryId != [] ==> id == a.categoryId
    ensures a.categoryId == [] && a.category.Some? ==> id == a.category.value.id
    ensures id == [] <==> a.categoryId == [] && (a.category.None? || a.category.value.id == [])
  {
    if Truthy(a.categoryId) then a.categoryId
    else if a.category.Some? && Truthy(a.category.value.id) then a.category.value.id
    else ""
  }

  /** An article loaded from the server and sent back unchanged passes the
      check whenever its fields do, and sends its own title (trimmed),
      content and category. */
  lemma UnchangedArticleResubmits(a: Article, categories: seq<CategoryApi.Category>)
    requires !IsBlank(a.title) && !ContentEmpty(a.content)
    requires !IsBlank(a.categoryId) && Listed(categories, a.categoryId)
    ensures CheckSubmission(a.title, a.content, InitialCategory(a), categories)
      == Accepted(UpdatePayload(Trim(a.title), a.content, a.categoryId))
  {
  }

  // ---------------------------------------------------------------------------
  // The page

  class EditArticlePage {
    /** The `id` route parameter; "" when it is missing. */
    const articleId: string

    var title: string
    var category: string
    var content: string
    var categories: seq<CategoryApi.Category>
    var loading: bool
    var initialLoading: bool
    var article: Option<Article>
    var redirect: Option<string>
    var toasts: seq<Toast>

    /** The fields the form edits, unchanged. */
    twostate predicate FormUnchanged()
      reads this
    {
      old(title) == title && old(category) == category && old(content) == content
    }

    constructor (articleId: string)
      ensures this.articleId == articleId
      ensures title == "" && category == "" && content == ""
      ensures categories == [] && !loading && initialLoading && article == None
      ensures redirect == None && toasts == []
    {
      this.articleId := articleId;
      title, category, content := "", "", "";
      categories := [];
      loading := false;
      initialLoading := true;
      article := None;
      redirect := None;
      toasts := [];
    }

    /** The category effect: only rows with a non-blank id are offered, and an
        empty offer is reported. */
    method CategoriesLoaded(reply: Reply<Option<seq<CategoryApi.Category>>>)
      modifies this
      ensures categories == KeepNonBlankIds(CategoryApi.GetCategories(reply))
      ensures toasts == old(toasts) + (if categories == [] then [ErrorToast(NoCategoriesMessage)] else [])
      ensures FormUnchanged() && loading == old(loading) && initialLoading == old(initialLoading)
      ensures article == old(article) && redirect == old(redirect)
    {
      categories := KeepNonBlankIds(CategoryApi.GetCategories(reply));
      if categories == [] {
        toasts := toasts + [ErrorToast(NoCategoriesMessage)];
      }
    }

    /** `fetchArticle` up to the request: without an id it reports the fact
        and sends the user back to the dashboard, and the spinner stays;
        otherwise the article with that id is requested. */
    method BeginFetchArticle() returns (request: Option<string>)
      modifies this
      ensures articleId == [] ==>
        && request == None && redirect == Some(AdminRoute)
        && toasts == old(toasts) + [ErrorToast(MissingIdMessage)] && initialLoading == old(initialLoading)
      ensures articleId != [] ==>
        && request == Some(articleId) && initialLoading
        && redirect == old(redirect) && toasts == old(toasts)
      ensures FormUnchanged() && categories == old(categories) && loading == old(loading)
      ensures article == old(article)
    {
      if articleId == [] {
        toasts := toasts + [ErrorToast(MissingIdMessage)];
        redirect := Some(AdminRoute);
        request := None;
      } else {
        initialLoading := true;
        request := Some(articleId);
      }
    }

    /** The article request settling: a loaded article fills the form; a
        failure is reported and sends the user back to the dashboard.  The
        spinner ends either way. */
    method ArticleFetched(reply: Reply<Article>)
      modifies this
      ensures reply.Ok? ==>
        && article == Some(reply.body) && title == reply.body.title
        && category == InitialCategory(reply.body) && content == reply.body.content
        && redirect == old(redirect) && toasts == old(toasts)
      ensures reply.Failed? ==>
        && FormUnchanged() && article == old(article)
        && redirect == Some(AdminRoute)
        && toasts == old(toasts) + [ErrorToast(LoadFailedMessage)]
      ensures !initialLoading
      ensures categories == old(categories) && loading == old(loading)
    {
      match reply {
        case Ok(a) =>
          article := Some(a);
          title := a.title;
          category := InitialCategory(a);
          content := a.content;
        case Failed(_) =>
          toasts := toasts + [ErrorToast(LoadFailedMessage)];
          redirect := Some(AdminRoute);
      }
      initialLoading := false;
    }

    /** The title input. */
    method SetTitle(value: string)
      modifies this
      ensures title == value && category == old(category) && content == old(content)
      ensures categories == old(categories) && loading == old(loading) && initialLoading == old(initialLoading)
      ensures article == old(article) && redirect == old(redirect) && toasts == old(toasts)
    {
      title := value;
    }

    /** The category select. */
    method SetCategory(value: string)
      modifies this
      ensures category == value && title == old(title) && content == old(content)
      ensures categories == old(categories) && loading == old(loading) && initialLoading == old(initialLoading)
      ensures article == old(article) && redirect == old(redirect) && toasts == old(toasts)
    {
      category := value;
    }

    /** The editor's update callback, with the editor's HTML. */
    method SetContent(html: string)
      modifies this
      ensures content == html && title == old(title) && category == old(category)
      ensures categories == old(categories) && loading == old(loading) && initialLoading == old(initialLoading)
      ensures article == old(article) && redirect == old(redirect) && toasts == old(toasts)
    {
      content := html;
    }

    /** Whether the save button can be pressed. */
    function SubmitEnabled(): (enabled: bool)
      reads this
      ensures enabled ==> categories != []
      ensures enabled <==> !loading && |categories| > 0
    {
      !loading && |categories| != 0
    }

    /** The outcome of the pre-submit check on the form as it stands. */
    function Check(): Checked
      reads this
    {
      CheckSubmission(title, content, category, categories)
    }

    /** `handleSubmit` up to the update call: a form that fails the check is
        reported and nothing is sent; otherwise the page turns busy and the
        checked payload is sent for this article. */
    method Submit() returns (request: Option<(string, UpdatePayload)>)
      modifies this
      ensures old(Check()).Rejected? ==>
        && request == None && loading == old(loading)
        && toasts == old(toasts) + [ErrorToast(RejectionMessage(old(Check()).reason))]
      ensures old(Check()).Accepted? ==>
        && request == Some((articleId, old(Check()).payload))
        && toasts == old(toasts) && loading
      ensures FormUnchanged() && categories == old(categories) && initialLoading == old(initialLoading)
      ensures article == old(article) && redirect == old(redirect)
    {
      var c := Check();
      match c {
        case Rejected(reason) =>
          toasts := toasts + [ErrorToast(RejectionMessage(reason))];
          request := None;
        case Accepted(payload) =>
          loading := true;
          request := Some((articleId, payload));
      }
    }

    /** The update call settling: success is announced and goes back to the
        dashboard; a failure shows the error's message or a fixed fallback.
        The page is no longer busy either way. */
    method UpdateSettled(reply: Reply<()>)
      modifies this
      ensures reply.Ok? ==> toasts == old(toasts) + [SuccessToast(UpdatedMessage)] && redirect == Some(AdminRoute)
      ensures reply.Failed? ==> toasts == old(toasts) + [ErrorToast(OrElse(reply.message, UpdateFailedMessage))]
                                && redirect == old(redirect)
      ensures !loading
      ensures FormUnchanged() && categories == old(categories) && initialLoading == old(initialLoading)
      ensures article == old(article)
    {
      match reply {
        case Ok(_) =>
          toasts := toasts + [SuccessToast(UpdatedMessage)];
          redirect := Some(AdminRoute);
        case Failed(message) =>
          toasts := toasts + [ErrorToast(OrElse(message, UpdateFailedMessage))];
      }
      loading := false;
    }
  }
}
