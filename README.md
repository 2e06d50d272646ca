# Articles: a model of the blog front end

The system is a Next.js front end for a blog. It has these parts:

- A public article list.
- An admin area with a dashboard, an article list with delete, add and edit forms, and category management.
- Small libraries for the session store in `localStorage`, the HTTP client with its bearer-token interceptor, the category API calls and the form schemas.

Each module models one source file:

- Pure code: functions and lemmas.
- A page component: a `class`. Its React state is the fields, and each event handler is a method with a `modifies` clause.
- An asynchronous handler: two methods. One runs up to the network call and returns the request it would send. The other takes the reply (`Reply<T>`: a body, or a failure with an optional message) and applies what the handler does after the `await`. In a page's `Reply.Failed`, the message is the thrown error's own `message`. In `CategoryApi.Settle` it is the server's `response.data.message`, which the category API unwraps. A handler that awaits twice, such as the article delete that fetches the list again, has one settling method per `await`.
- The 500 ms search debounce on the admin article list: a pending-commit slot plus an explicit `TimerFires` step.
- Toasts and router pushes: recorded in the `toasts` and `redirect` fields.

`AdminArticles.Step` is a pure transition function for the admin list's query state. Each query handler of that page (the search box, the timer, the category select and the pager controls) is proved to move the query fields exactly as `Step` does and to leave everything else alone. The other handlers of the page state every field as well. The debounce, the page reset and the pager properties are lemmas about `Step`.

JavaScript semantics the pages depend on are written out in `Common`:

- Truthiness of strings.
- `trim`, with the ECMAScript white-space set.
- `x || fallback`.
- `String.length` in UTF-16 code units.
- `includes`.
- `filter`, which keeps order and multiplicity.
- `Math.ceil` of a quotient.

## Model

| member | source | states |
|---|---|---|
| Common.TrimStart | src/app/admin/articles/edit/page.tsx:156 | the leading half of `trim()`: the result is a suffix of the input that does not start with white space, and everything cut off is white space |
| Common.TrimEnd | src/app/admin/articles/edit/page.tsx:156 | the trailing half of `trim()`: the result is a prefix of the input that does not end with white space, and everything cut off is white space |
| Common.Trim | src/app/admin/articles/edit/page.tsx:90-92 | the result neither starts nor ends with white space, and is empty exactly when the input is blank |
| Common.TrimWithinSpaces | src/app/admin/articles/page.tsx:163-164 | trim removes only white space at the two ends: the result occurs in the input with only white space around it |
| Common.TrimIdempotent | src/app/admin/articles/page.tsx:163-164 | trimming twice is trimming once |
| Common.OrElse | src/lib/apiCategories.ts:35-37 | `message \|\| fallback`: the message when present and non-empty, otherwise the fallback; never empty when the fallback is not |
| Common.Utf16Length | src/lib/zodSchemas.ts:3-6 | string length counts UTF-16 code units: between the number of characters and twice that, zero only for the empty string |
| Common.Includes | src/app/admin/category/page.tsx:138 | `String.prototype.includes` as a scan from the left; what it means is stated by `Common.IncludesIff` |
| Common.IncludesIff | src/app/admin/category/page.tsx:137-139 | the left-to-right substring scan succeeds exactly when the term occurs at some position |
| Common.IncludesEmpty | src/app/admin/category/page.tsx:137-139 | the empty term is contained in every name |
| Common.Lowered | src/app/admin/category/page.tsx:137-139 | lower-casing keeps the length and maps each character by the given mapping |
| Common.Filter | src/lib/apiCategories.ts:9-11 | `Array.filter`: everything kept satisfies the predicate, every element that satisfies it is kept, and the result is a subsequence |
| Common.FilterMember | src/lib/apiCategories.ts:9-11 | an element is in the filtered array exactly when it is in the input and satisfies the predicate |
| Common.FilterMultiset | src/lib/apiCategories.ts:9-11 | filtering keeps every multiplicity of the elements that satisfy the predicate and drops the others |
| Common.FilterOfFilter | src/lib/apiCategories.ts:9-11 | filtering by a stricter predicate after a laxer one is filtering by the stricter one alone |
| Common.FilterKeepsAll | src/app/admin/articles/edit/page.tsx:90-92 | filtering with a predicate that every element satisfies changes nothing |
| Common.TrimUnpadded | src/app/admin/articles/edit/page.tsx:156-160 | `trim()` leaves a string that neither starts nor ends with white space unchanged |
| Common.SubsequenceMember | src/lib/apiCategories.ts:9-11 | a subsequence holds only elements of the sequence it was taken from |
| Common.CeilDiv | src/app/admin/articles/page.tsx:291 | `Math.ceil(n / d)`: zero exactly when n is zero |
| Common.CeilDivBounds | src/app/admin/articles/page.tsx:291 | the least number of whole pages of size d that hold n items: they hold all n, and one page fewer would not |
| Common.CeilDivExact | src/app/admin/articles/page.tsx:291 | an exact multiple of the page size fills exactly that many pages |
| Auth.WithoutSession | src/lib/auth.ts:11-14 | clearing the session removes the keys `token` and `role` and keeps every other key and value |
| Auth.ClearIdempotent | src/lib/auth.ts:11-14 | clearing the session twice is clearing it once |
| Auth.ClearedSessionIsEmpty | src/lib/auth.ts:11-14 | after clearing, neither a token nor a role can be read |
| Auth.SessionStore.constructor | src/lib/auth.ts:1-14 | the store starts with the given browser storage |
| Auth.SessionStore.SetToken | src/lib/auth.ts:1 | stores the token under `token`; the role is untouched |
| Auth.SessionStore.GetToken | src/lib/auth.ts:2 | the stored token, or none when the key is missing |
| Auth.SessionStore.SetRole | src/lib/auth.ts:7 | stores the role under `role`; the token is untouched |
| Auth.SessionStore.GetRole | src/lib/auth.ts:8 | the stored role, or none when the key is missing |
| Auth.SessionStore.IsAdmin | src/lib/auth.ts:9 | true exactly when the stored role is the string "Admin"; a missing role is not admin |
| Auth.SessionStore.ClearToken | src/lib/auth.ts:3-6 | removes both the token and the role, and nothing else |
| Auth.SessionStore.ClearAuth | src/lib/auth.ts:11-14 | removes both the token and the role, and nothing else |
| ApiClient.CreateClient | src/lib/axios.ts:3-8 | the base URL is the environment variable when it is set and non-empty, the fixed default URL otherwise; the only default header is JSON content type |
| ApiClient.AttachesToken | src/lib/axios.ts:11-13 | when the interceptor adds a credential: in a browser, with a truthy stored token; `ApiClient.WithAuthorization` states the effect |
| ApiClient.BearerValue | src/lib/axios.ts:14-16 | the header value is "Bearer " followed by the token |
| ApiClient.WithAuthorization | src/lib/axios.ts:10-20 | in a browser with a truthy token the Authorization header is the bearer value; otherwise the headers are unchanged; every other header is kept |
| ApiClient.RequestConfig.constructor | src/lib/axios.ts:10 | a request configuration with the given URL and headers |
| ApiClient.Intercept | src/lib/axios.ts:10-20 | the interceptor returns the same configuration object, with its headers updated as `WithAuthorization` says and its URL unchanged |
| ZodSchemas.MinRule | src/lib/zodSchemas.ts:3-11 | `min(n, message)` reports no issue exactly when the value has at least n code units, otherwise one issue with that message |
| ZodSchemas.ThreeRules | src/lib/zodSchemas.ts:7-11 | rules on three different fields, each reporting at most its own issue, together report only those issues and at most one per field |
| ZodSchemas.ValidateLogin | src/lib/zodSchemas.ts:3-6 | the login form is valid exactly when the username is non-empty and the password has at least 6 code units; each failing field has its message, and there is no other issue and at most one per field |
| ZodSchemas.RoleRule | src/lib/zodSchemas.ts:10 | the role is accepted exactly when it is "User" or "Admin" |
| ZodSchemas.ValidateRegister | src/lib/zodSchemas.ts:7-11 | the registration is valid exactly when the username has at least 3 code units, the password at least 6 and the role is one of the two; each failing field has its issue, and there is no other issue and at most one per field |
| ZodSchemas.RegisterAcceptsSixCharacterPassword | src/lib/zodSchemas.ts:9 | a six-character password is accepted, although the message speaks of eight |
| ZodSchemas.PasswordRuleCountsCodeUnits | src/lib/zodSchemas.ts:9 | three characters outside the Basic Multilingual Plane satisfy the six-unit password rule |
| Validations.ValidateArticle | src/lib/validations.ts:3-7 | an article form is valid exactly when the title has at least 3 code units, the content at least 10 and a category is chosen; each failing field has its own message, and there is no other issue and at most one per field |
| Validations.IssuesInFieldOrder | src/lib/validations.ts:3-7 | a title issue comes first and a category issue comes last |
| CategoryApi.KeepWithId | src/lib/apiCategories.ts:9-11 | keeps exactly the rows with a non-empty id, in order and with their multiplicities |
| CategoryApi.GetCategories | src/lib/apiCategories.ts:4-24 | a failure or a body without data gives the empty list; otherwise the rows with a truthy id |
| CategoryApi.WhitespaceIdKept | src/lib/apiCategories.ts:9-11 | an id made only of spaces passes the API filter |
| CategoryApi.CreateRequest | src/lib/apiCategories.ts:28-30 | a POST to /categories with the name exactly as given |
| CategoryApi.UpdateRequest | src/lib/apiCategories.ts:42-44 | a PUT to /categories/<id> with the new name |
| CategoryApi.DeleteRequest | src/lib/apiCategories.ts:55-57 | a DELETE of /categories/<id>, also for an empty id |
| CategoryApi.Settle | src/lib/apiCategories.ts:28-63 | success returns the body; a failure throws the server's message when it is non-empty and the fixed message otherwise |
| CategoryApi.CreateCategory | src/lib/apiCategories.ts:28-38 | returns exactly on success; a thrown message is never empty and falls back to "Failed to create category" |
| CategoryApi.UpdateCategory | src/lib/apiCategories.ts:42-51 | as above, with the fallback "Failed to update category" |
| CategoryApi.DeleteCategory | src/lib/apiCategories.ts:55-63 | as above, with the fallback "Failed to delete category" |
| Shared.ListedArticles | src/app/admin/articles/page.tsx:177 | a result replaces the article list; missing data is the empty list |
| Shared.ListedTotal | src/app/admin/articles/page.tsx:178 | a result replaces the count; a missing total is 0 |
| Shared.Gate | src/app/admin/articles/page.tsx:130-141 | admits exactly an admin profile; any other role is not authorized; a failed call means login is required |
| Shared.GateRedirect | src/app/admin/articles/page.tsx:130-141 | a non-admin goes to the home page and a failed call to the login page |
| Shared.GateToast | src/app/admin/articles/page.tsx:130-141 | the message shown for each refusal, and none on admission |
| Shared.TotalPages | src/app/admin/articles/page.tsx:291 | the page count is zero exactly when there are no articles |
| Shared.TotalPagesBounds | src/app/admin/articles/page.tsx:291 | the pages hold every article and the last page is not empty |
| Shared.PreviousPage | src/app/admin/articles/page.tsx:460 | the Previous control, `Math.max(p - 1, 1)`; its range and inverse properties are in `Shared.PreviousNextInRange` |
| Shared.NextPage | src/app/admin/articles/page.tsx:516 | the Next control, `Math.min(p + 1, totalPages)`; its properties are in `Shared.PreviousNextInRange` |
| Shared.PreviousNextInRange | src/app/admin/articles/page.tsx:460-516 | from a page in range Previous and Next stay in range, stop at the ends and undo each other away from the ends |
| Shared.AllLinks | src/app/admin/page.tsx:277-286 | one link per page from 1 to the page count, in order, with the current page active |
| Shared.AllLinksMember | src/app/admin/page.tsx:277-286 | such a pager has a link exactly for the pages 1 to the count, marks exactly the current page, and has no ellipsis |
| Shared.KeepNonBlankIds | src/app/admin/articles/edit/page.tsx:90-92 | keeps exactly the rows whose id is not blank, in order and with their multiplicities |
| Shared.PageFilterAbsorbsApiFilter | src/app/articles/page.tsx:86-88 | applying the page filter after `getCategories` gives what it gives on the raw rows |
| Shared.WhitespaceIdDroppedByPage | src/app/admin/articles/edit/page.tsx:90-92 | an id of spaces only survives the API filter but not the page filter |
| Shared.EmptyIdNotSelectable | src/app/articles/page.tsx:86-88 | a row with an empty id is never offered |
| AdminArticles.BuildQuery | src/app/admin/articles/page.tsx:157-170 | always page and limit; the committed search trimmed, exactly when it is not blank; the category exactly when it is not "all" |
| AdminArticles.SearchParameterIsTrimmed | src/app/admin/articles/page.tsx:163-164 | the search sent is already trimmed |
| AdminArticles.Step | src/app/admin/articles/page.tsx:193-213 | how each handler and the debounce timer move the query state; its properties are the debounce, page-reset and pager lemmas below |
| AdminArticles.DebounceCommitsLastValue | src/app/admin/articles/page.tsx:193-206 | a burst of keystrokes commits nothing and leaves one pending commit for the last value; the timer commits that value and returns to page 1, once |
| AdminArticles.KeystrokeFetchesNothingNew | src/app/admin/articles/page.tsx:193-206 | a keystroke never changes the fetch parameters |
| AdminArticles.FilterChangeResetsPage | src/app/admin/articles/page.tsx:193-213 | every step that changes the committed search or the category puts the list back on page 1 |
| AdminArticles.PagerKeepsFilters | src/app/admin/articles/page.tsx:455-523 | the pager controls change only the page |
| AdminArticles.StepKeepsPagePositive | src/app/admin/articles/page.tsx:455-523 | the page number stays at least 1 |
| AdminArticles.ShowPage | src/app/admin/articles/page.tsx:473-476 | `showPage`: the first three pages, the last three and the neighbours of the current page |
| AdminArticles.Slot | src/app/admin/articles/page.tsx:470-510 | what one page number renders: its link, an ellipsis at position 4 or `totalPages - 3`, or nothing; `AdminArticles.SlotLink` and the window lemmas state it |
| AdminArticles.Slots | src/app/admin/articles/page.tsx:470-510 | the items of a range of page numbers in order; `AdminArticles.SlotsMember` states its membership |
| AdminArticles.Window | src/app/admin/articles/page.tsx:470 | the pager as written, over page numbers 1 to `min(totalPages, 10)`; stated by `AdminArticles.WindowLinks` and `AdminArticles.WindowEllipsis` |
| AdminArticles.SlotsMember | src/app/admin/articles/page.tsx:470-498 | an item is rendered for a range of page numbers exactly when some number in the range renders it |
| AdminArticles.WindowLinks | src/app/admin/articles/page.tsx:470-503 | as written, a link for page n appears exactly when n is among the first ten pages and `showPage` holds; it is active exactly for the current page |
| AdminArticles.WindowEllipsis | src/app/admin/articles/page.tsx:478-494 | an ellipsis appears exactly in position 4 when the page is past 6, or in position count−3 when the page is more than five before the end, where no link is shown |
| AdminArticles.WindowOmitsCurrentPage | src/app/admin/articles/page.tsx:470 | with twelve pages, on page 12, neither page 12 nor page 11 is rendered |
| AdminArticles.CorrectedWindow | src/app/admin/articles/page.tsx:470-510 | the pager as evidently intended, the same rule over every page number |
| AdminArticles.CorrectedWindowShowsEndsAndCurrent | src/app/admin/articles/page.tsx:470-503 | the intended pager always shows the first, the last and the current page, the current one active, and nothing past the last page |
| AdminArticles.CorrectedWindowShowsPageTwelve | src/app/admin/articles/page.tsx:470 | with twelve pages the intended pager shows page 12 |
| AdminArticles.ClampAfterDelete | src/app/admin/articles/page.tsx:264-267 | after a delete the page moves back to the new last page when it no longer exists and some page does; otherwise it stays |
| AdminArticles.ClampLandsOnExistingPage | src/app/admin/articles/page.tsx:264-267 | the clamp never moves forward, keeps the page at least 1, and lands on an existing page when articles remain |
| AdminArticles.LastArticleOfLastPageDeleted | src/app/admin/articles/page.tsx:264-267 | deleting the only article of the last page beyond page 1 moves back exactly one page |
| AdminArticles.ArticleListPage.PagerItems | src/app/admin/articles/page.tsx:455-523 | no pager for at most one page; otherwise the corrected window over the page count |
| AdminArticles.ArticleListPage.constructor | src/app/admin/articles/page.tsx:73-104 | the initial state: loading, no profile, empty search, category "all", page 1, dialog closed |
| AdminArticles.ArticleListPage.LoadCategories | src/app/admin/articles/page.tsx:109-122 | the categories become what `getCategories` returns; nothing else changes |
| AdminArticles.ArticleListPage.ProfileLoaded | src/app/admin/articles/page.tsx:125-147 | the gate's decision: keep an admin profile, send another role home, clear the session and go to login on failure; loading ends in every case |
| AdminArticles.ArticleListPage.FetchArticles | src/app/admin/articles/page.tsx:151-190 | no request before a profile; otherwise the current parameters are sent and the list shows as loading |
| AdminArticles.ArticleListPage.ArticlesLoaded | src/app/admin/articles/page.tsx:174-185 | a result replaces the list and the count; a failure keeps them and shows "Gagal memuat artikel"; loading ends |
| AdminArticles.ArticleListPage.HandleSearchChange | src/app/admin/articles/page.tsx:193-206 | the state moves as a keystroke step; nothing else changes |
| AdminArticles.ArticleListPage.SearchTimerFires | src/app/admin/articles/page.tsx:196-205 | the state moves as a timer step; nothing else changes |
| AdminArticles.ArticleListPage.HandleCategoryChange | src/app/admin/articles/page.tsx:209-213 | the state moves as a category step; nothing else changes |
| AdminArticles.ArticleListPage.GoToPreviousPage | src/app/admin/articles/page.tsx:460 | the state moves as a Previous step |
| AdminArticles.ArticleListPage.GoToNextPage | src/app/admin/articles/page.tsx:516 | the state moves as a Next step |
| AdminArticles.ArticleListPage.GoToPage | src/app/admin/articles/page.tsx:503-505 | the state moves as a page-link step |
| AdminArticles.ArticleListPage.HandleDeleteClick | src/app/admin/articles/page.tsx:216-223 | the dialog opens for that article, not busy |
| AdminArticles.ArticleListPage.HandleDeleteCancel | src/app/admin/articles/page.tsx:225-232 | the dialog closes and is emptied |
| AdminArticles.ArticleListPage.HandleDeleteConfirm | src/app/admin/articles/page.tsx:234-240 | without an article id nothing happens; otherwise the dialog turns busy and that id is the delete target |
| AdminArticles.ArticleListPage.DeleteSettled | src/app/admin/articles/page.tsx:241-259 | a failed delete shows its message and closes the dialog; a successful one is announced and asks for the list again with the current parameters, the dialog still busy |
| AdminArticles.ArticleListPage.RefreshSettled | src/app/admin/articles/page.tsx:259-279 | the refetched list and count replace the old ones and a page past the end moves back to the last page; a failed refetch shows the delete error; the dialog ends closed and emptied |
| ArticleEdit.CheckSubmission | src/app/admin/articles/edit/page.tsx:156-184 | the fail-fast checks of `handleSubmit` and the payload they let through; `ArticleEdit.CheckSubmissionOutcome` states each outcome |
| ArticleEdit.CheckSubmissionOutcome | src/app/admin/articles/edit/page.tsx:156-184 | each rejection happens exactly when its test fails and all earlier tests pass; acceptance happens exactly when all pass, with the trimmed title, the content and the category as typed |
| ArticleEdit.AcceptedPayloadIsClean | src/app/admin/articles/edit/page.tsx:180-184 | an accepted payload has a trimmed, non-empty title and a listed category |
| ArticleEdit.NoCategoriesNothingSent | src/app/admin/articles/edit/page.tsx:170-175 | with no categories loaded every submission is rejected |
| ArticleEdit.ShortTitleAccepted | src/app/admin/articles/edit/page.tsx:156-160 | any title of two non-space characters passes the edit check, while the article schema reports a title issue for it |
| ArticleEdit.InitialCategory | src/app/admin/articles/edit/page.tsx:117-127 | the article's own category id, else the id of its nested category, else empty |
| ArticleEdit.UnchangedArticleResubmits | src/app/admin/articles/edit/page.tsx:117-184 | an article loaded and sent back unchanged passes the check when its fields are filled and its category is listed |
| ArticleEdit.EditArticlePage.constructor | src/app/admin/articles/edit/page.tsx:60-71 | an empty form, no categories, waiting for the article |
| ArticleEdit.EditArticlePage.CategoriesLoaded | src/app/admin/articles/edit/page.tsx:84-105 | only rows with a non-blank id are offered; an empty offer shows a message |
| ArticleEdit.EditArticlePage.BeginFetchArticle | src/app/admin/articles/edit/page.tsx:109-116 | without an id, an error and no request; otherwise a request for that id |
| ArticleEdit.EditArticlePage.ArticleFetched | src/app/admin/articles/edit/page.tsx:117-139 | a loaded article fills title, category and content; a failure shows a message; the initial load ends either way |
| ArticleEdit.EditArticlePage.SetTitle | src/app/admin/articles/edit/page.tsx:328 | the title changes and nothing else |
| ArticleEdit.EditArticlePage.SetCategory | src/app/admin/articles/edit/page.tsx:340 | the category changes and nothing else |
| ArticleEdit.EditArticlePage.SetContent | src/app/admin/articles/edit/page.tsx:78 | the content changes and nothing else |
| ArticleEdit.EditArticlePage.SubmitEnabled | src/app/admin/articles/edit/page.tsx:519 | the save button is enabled exactly when not saving and some category is loaded |
| ArticleEdit.EditArticlePage.Submit | src/app/admin/articles/edit/page.tsx:153-185 | a rejected form shows its message and sends nothing; an accepted form sends the payload for the article id and turns busy |
| ArticleEdit.EditArticlePage.UpdateSettled | src/app/admin/articles/edit/page.tsx:186-200 | success is announced and goes to the dashboard; failure shows the error's own message or the fallback; busy ends |
| CategoryManagement.NameMatches | src/app/admin/category/page.tsx:138 | the search test: the lower-cased name contains the lower-cased term |
| CategoryManagement.FilterByName | src/app/admin/category/page.tsx:137-139 | keeps exactly the categories whose lower-cased name contains the lower-cased term, in order and with their multiplicities |
| CategoryManagement.EmptyTermShowsAll | src/app/admin/category/page.tsx:137-139 | an empty search hides nothing |
| CategoryManagement.FullNameFindsCategory | src/app/admin/category/page.tsx:137-139 | searching a category's full name finds it |
| CategoryManagement.LongerTermNarrows | src/app/admin/category/page.tsx:137-139 | extending the search term never finds more |
| CategoryManagement.CategoryPage.constructor | src/app/admin/category/page.tsx:45-61 | an empty page: no categories, empty inputs, dialogs closed |
| CategoryManagement.CategoryPage.View | src/app/admin/category/page.tsx:215-227 | the loading row exactly while loading; "none found" exactly when nothing matches; otherwise the matching rows |
| CategoryManagement.CategoryPage.BeginFetch | src/app/admin/category/page.tsx:64-67 | the table shows its loading row |
| CategoryManagement.CategoryPage.CategoriesLoaded | src/app/admin/category/page.tsx:68-75 | the list becomes what `getCategories` returns and loading ends |
| CategoryManagement.CategoryPage.SetSearchTerm | src/app/admin/category/page.tsx:165 | the search term changes and nothing else |
| CategoryManagement.CategoryPage.SetNewCategory | src/app/admin/category/page.tsx:186 | the add input changes and nothing else |
| CategoryManagement.CategoryPage.AddCategory | src/app/admin/category/page.tsx:82-86 | a blank name is refused with a message; any other name is sent untrimmed |
| CategoryManagement.CategoryPage.AddSettled | src/app/admin/category/page.tsx:86-96 | success is announced, clears the input and refetches; failure shows a message |
| CategoryManagement.CategoryPage.StartEdit | src/app/admin/category/page.tsx:265 | the row's category becomes the one being edited |
| CategoryManagement.CategoryPage.EditName | src/app/admin/category/page.tsx:284-289 | renames the category being edited, if any |
| CategoryManagement.CategoryPage.CancelEdit | src/app/admin/category/page.tsx:297 | nothing is being edited any more |
| CategoryManagement.UpdateAttempt | src/app/admin/category/page.tsx:100-106 | no request exactly when nothing is being edited or its name is blank; otherwise a PUT of the untrimmed name for that id |
| CategoryManagement.CategoryPage.UpdateCategory | src/app/admin/category/page.tsx:99-104 | the request is the update attempt for the category being edited; a refusal shows the message and leaves loading alone, a request turns loading on |
| CategoryManagement.CategoryPage.UpdateSettled | src/app/admin/category/page.tsx:104-115 | success is announced, closes the edit and refetches; failure shows a message |
| CategoryManagement.CategoryPage.OpenDelete | src/app/admin/category/page.tsx:322-329 | the confirmation opens for that row |
| CategoryManagement.CategoryPage.DeleteDialogOpenChange | src/app/admin/category/page.tsx:344-351 | the confirmation closes and is emptied |
| CategoryManagement.CategoryPage.ConfirmDelete | src/app/admin/category/page.tsx:118-121 | the dialog turns busy and a DELETE for its id is sent |
| CategoryManagement.CategoryPage.DeleteSettled | src/app/admin/category/page.tsx:121-135 | success is announced and refetches; failure shows a message; the dialog always closes |
| AdminDashboard.DashboardQuery | src/app/admin/page.tsx:91-96 | page and limit; the search as typed exactly when non-empty; the category exactly when not "all" |
| AdminDashboard.ChoicesNarrowExceptAll | src/app/admin/page.tsx:145-148 | the select's first choice, "all", fetches every category; each other choice narrows the fetch to itself |
| AdminDashboard.AgreesWithArticleListOnTrimmedSearch | src/app/admin/page.tsx:91-96 | on a trimmed non-empty search the dashboard and the article list send the same parameters |
| AdminDashboard.BlankSearchSentOnlyHere | src/app/admin/page.tsx:91-96 | a search of spaces is sent by the dashboard but not by the article list |
| AdminDashboard.DashboardPage.ShowsTable | src/app/admin/page.tsx:106-114 | the page renders its table only once the gate has finished and a profile is set |
| AdminDashboard.DashboardPage.PagerItems | src/app/admin/page.tsx:265-286 | no pager without pages; otherwise every page listed |
| AdminDashboard.DashboardPage.constructor | src/app/admin/page.tsx:50-59 | loading, no profile, empty search, category "all", page 1 |
| AdminDashboard.DashboardPage.ProfileLoaded | src/app/admin/page.tsx:64-86 | the same gate as the article list; loading ends |
| AdminDashboard.DashboardPage.FetchArticles | src/app/admin/page.tsx:88-98 | the current parameters are sent, whatever the gate's state |
| AdminDashboard.DashboardPage.ArticlesLoaded | src/app/admin/page.tsx:98-104 | a result replaces the list and the count; a failure changes nothing |
| AdminDashboard.DashboardPage.HandleCategoryChange | src/app/admin/page.tsx:136-139 | the new category, back to page 1, the list unchanged |
| AdminDashboard.DashboardPage.HandleSearchChange | src/app/admin/page.tsx:158-161 | the new search at once, back to page 1, the list unchanged |
| AdminDashboard.DashboardPage.GoToPreviousPage | src/app/admin/page.tsx:270 | one page back, stopping at 1 |
| AdminDashboard.DashboardPage.GoToNextPage | src/app/admin/page.tsx:290 | one page on, stopping at the page count |
| AdminDashboard.DashboardPage.GoToPage | src/app/admin/page.tsx:281 | the chosen page |
| AdminDashboard.DashboardPage.DeleteClicked | src/app/admin/page.tsx:234 | only shows "Delete not implemented" |
| PublicArticles.PublicQuery | src/app/articles/page.tsx:60-67 | ten per page, newest first; the search as the title filter exactly when non-empty; the category exactly when chosen and non-empty |
| PublicArticles.SearchSentAsTitle | src/app/articles/page.tsx:60-67 | the public list sends as `title` the same text the dashboard sends as `search` |
| PublicArticles.ArticlesPage.PagerItems | src/app/articles/page.tsx:218-237 | no pager for at most one page; otherwise every page listed |
| PublicArticles.ArticlesPage.CategoryChoices | src/app/articles/page.tsx:141 | one choice per loaded category, valued by its id |
| PublicArticles.ArticlesPage.constructor | src/app/articles/page.tsx:47-55 | empty list, no category, empty search, page 1 |
| PublicArticles.ArticlesPage.FetchArticles | src/app/articles/page.tsx:57-67 | the current parameters are sent |
| PublicArticles.ArticlesPage.ArticlesLoaded | src/app/articles/page.tsx:68-75 | a result replaces the list and the count; a failure changes nothing |
| PublicArticles.ArticlesPage.CategoriesLoaded | src/app/articles/page.tsx:79-100 | only rows with a non-blank id are offered, so every value of the select is a non-blank id; an empty offer shows a message |
| PublicArticles.ArticlesPage.HandleCategoryChange | src/app/articles/page.tsx:134 | the chosen category; the page stays where it was |
| PublicArticles.ArticlesPage.HandleSearchChange | src/app/articles/page.tsx:154-157 | the new search at once, back to page 1 |
| PublicArticles.ArticlesPage.GoToPreviousPage | src/app/articles/page.tsx:223 | one page back, stopping at 1 |
| PublicArticles.ArticlesPage.GoToNextPage | src/app/articles/page.tsx:241 | one page on, stopping at the page count |
| PublicArticles.ArticlesPage.GoToPage | src/app/articles/page.tsx:232 | the chosen page |
| PublicArticles.ChoicesAreNonBlankIds | src/app/articles/page.tsx:86-88 | every offered id is non-blank and belongs to a category `getCategories` returned |
| ArticleAdd.AddFormComplete | src/app/admin/articles/add/page.tsx:54 | the submit guard: a picture is chosen and title, category and content are not empty, nothing trimmed; `ArticleAdd.NoHintsIffComplete` ties it to the hints |
| ArticleAdd.ChosenCategoryFillsField | src/app/admin/articles/add/page.tsx:133-135 | any category the select offers removes the category hint and satisfies the category part of the submit guard |
| ArticleAdd.Hints | src/app/admin/articles/add/page.tsx:107-263 | a hint appears under each field exactly when that field is empty |
| ArticleAdd.NoHintsIffComplete | src/app/admin/articles/add/page.tsx:54-57 | the hints disappear exactly when the submit check would pass |
| ArticleAdd.AddIsLaxerThanEdit | src/app/admin/articles/add/page.tsx:54-57 | a title of spaces and the empty paragraph pass the add check but are rejected by the edit check |
| ArticleAdd.FormEntries | src/app/admin/articles/add/page.tsx:59-63 | four entries: title, category, content and image, in that order |
| ArticleAdd.FormData.constructor | src/app/admin/articles/add/page.tsx:59 | empty form data |
| ArticleAdd.FormData.Append | src/app/admin/articles/add/page.tsx:59-63 | the entry is added at the end |
| ArticleAdd.AddArticlePage.constructor | src/app/admin/articles/add/page.tsx:38-42 | an empty form without a picture |
| ArticleAdd.AddArticlePage.ChooseImage | src/app/admin/articles/add/page.tsx:86-92 | a chosen file replaces the picture; no file keeps the old one |
| ArticleAdd.AddArticlePage.SetTitle | src/app/admin/articles/add/page.tsx:118 | the title changes and nothing else |
| ArticleAdd.AddArticlePage.SetCategory | src/app/admin/articles/add/page.tsx:128-135 | the category changes and nothing else |
| ArticleAdd.AddArticlePage.SetContent | src/app/admin/articles/add/page.tsx:49 | the content changes and nothing else |
| ArticleAdd.AddArticlePage.Submit | src/app/admin/articles/add/page.tsx:53-72 | an incomplete form shows a message; a complete one assembles its four entries, is announced and goes to the dashboard |

## Left out

- The network, timers and rendering are not modelled. A reply is a parameter of the method that settles it, and the 500 ms timer firing is an explicit step. The ordering of concurrent replies is not modelled: a stale reply that settles after a newer one is not captured.
- When an effect runs is not modelled. React re-runs the article fetch when its dependencies change: page, limit, search and category on the dashboard (src/app/admin/page.tsx:104); page, limit, committed search, category and profile on the article list (src/app/admin/articles/page.tsx:190); search, category and page on the public list (src/app/articles/page.tsx:75). The edit page fetches the article again when the editor changes (src/app/admin/articles/edit/page.tsx:143), which refills title, category and content. In the model the caller decides when `FetchArticles` and `BeginFetchArticle` run. What each run sends is stated, but the re-runs themselves are not.
- Every handler is modelled with the current state of the class. A React closure over an older state is not modelled.
- React's rendering is left out, except for what the pages compute to render: the pagers, the category table body and the add-form hints. Dates and the "showing x of y" line are not modelled.
- Toasts and router pushes are left out as side effects. They are appended to `toasts` and set in `redirect`.
- The Tiptap editor is not modelled; it is represented by the HTML string it reports. On the edit page, the effect that copies loaded content into the editor is left out.
- The edit page's image state is held but never sent, so it is not modelled.
- `CategoryManagement.NameMatches` does not model Unicode lower-casing. `toLowerCase` is a character mapping given to the page. Lower-casing that changes the length of a string (for example, of "İ") is left out.
- `ApiClient.Intercept`: header names are compared exactly. The header container of the HTTP library, which ignores case, is left out.
- `getArticles`, `getArticleById`, `updateArticle`, `deleteArticle` and `getProfile` are not part of this model, beyond the request and reply each page exchanges. The apiArticles and apiAuth transport files are out of scope.
- The login, register and profile pages and the layouts are not part of this model. The sidebar's logout is not modelled either; it removes only the token.
- Five catch blocks cannot be reached, and are not modelled. Four of them report "Gagal memuat kategori" after `getCategories`, which itself never throws: src/app/admin/articles/page.tsx:115-118, src/app/admin/articles/edit/page.tsx:100-103, src/app/articles/page.tsx:96-99 and src/app/admin/category/page.tsx:69-71. The fifth is the add page's "Failed to create article" (src/app/admin/articles/add/page.tsx:68-71), whose try block makes no call that can throw.
- `AdminArticles.ArticleListPage.PagerItems` uses the corrected window. The rendering as written, which stops at page 10, is modelled as `AdminArticles.Window`.
- `Validations.IssuesInFieldOrder` states only where the first and the last issue fall, not the full order of the issue list.
- Where the register schema's message and its rule disagree (eight characters against six), the model follows the rule. `ZodSchemas.RegisterAcceptsSixCharacterPassword` records the difference.

## Findings

| source | as written | input that shows it | evidently intended | confidence | as-written member | corrected member |
|---|---|---|---|---|---|---|
| src/app/admin/articles/page.tsx:470 | the pager iterates page numbers 1 to `min(totalPages, 10)` only | 12 pages, current page 12: neither page 12 nor page 11 is rendered, so the current page has no link | the same show/ellipsis rule over every page number, so that the last and the current page always appear | medium, not executed | AdminArticles.WindowOmitsCurrentPage | AdminArticles.CorrectedWindowShowsEndsAndCurrent |
