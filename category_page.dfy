/** The category management page of src/app/admin/category/page.tsx: the
    table of categories with a name search, the add form, the edit dialog
    and the delete confirmation, all talking to the category API. */
module CategoryManagement {
  import opened Common
  import opened CategoryApi

  const NameRequiredMessage: string := "Nama kategori wajib diisi"
  const AddedMessage: string := "Kategori berhasil ditambahkan"
  const AddFailedMessage: string := "Gagal menambahkan kategori"
  const UpdatedMessage: string := "Kategori berhasil diperbarui"
  const UpdateFailedMessage: string := "Gagal memperbarui kategori"
  const DeletedMessage: string := "Kategori berhasil dihapus"
  const DeleteFailedMessage: string := "Gagal menghapus kategori"

  // ---------------------------------------------------------------------------
  // The name search

  /** The search test: the lower-cased name contains the lower-cased term. */
  predicate NameMatches(c: Category, term: string, lower: char -> char) {
    Includes(Lowered(c.name, lower), Lowered(term, lower))
  }

  /** `filteredCategories`: the categories whose name matches the term, in
      their original order and with their multiplicities. */
  function FilterByName(cats: seq<Category>, term: string, lower: char -> char): (r: seq<Category>)
    ensures forall c :: c in r <==> c in cats && NameMatches(c, term, lower)
    ensures Subsequence(r, cats)
    ensures forall c :: multiset(r)[c] == if NameMatches(c, term, lower) then multiset(cats)[c] else 0
  {
    var matches := (c: Category) => NameMatches(c, term, lower);
    var r := Filter(cats, matches);
    FilterMember(cats, matches);
    forall c ensures multiset(r)[c] == if NameMatches(c, term, lower) then multiset(cats)[c] else 0 {
      FilterMultiset(cats, matches, c);
    }
    r
  }

  /** An empty search hides nothing. */
  lemma EmptyTermShowsAll(cats: seq<Category>, lower: char -> char)
    ensures FilterByName(cats, "", lower) == cats
  {
    forall i | 0 <= i < |cats| ensures NameMatches(cats[i], "", lower) {
      IncludesEmpty(Lowered(cats[i].name, lower));
    }
    FilterKeepsAll(cats, (c: Category) => NameMatches(c, "", lower));
  }

  /** Searching for a category's full name always finds it. */
  lemma FullNameFindsCategory(cats: seq<Category>, c: Category, lower: char -> char)
    requires c in cats
    ensures c in FilterByName(cats, c.name, lower)
  {
    IncludesIff(Lowered(c.name, lower), Lowered(c.name, lower));
    assert OccursAt(Lowered(c.name, lower), Lowered(c.name, lower), 0);
  }

  /** A longer term never finds more: whatever matches `term + more` matches
      `term`. */
  lemma {:induction false} LongerTermNarrows(cats: seq<Category>, term: string, more: string, lower: char -> char)
    ensures forall c :: c in FilterByName(cats, term + more, lower) ==> c in FilterByName(cats, term, lower)
  {
    forall c | c in FilterByName(cats, term + more, lower)
      ensures c in FilterByName(cats, term, lower)
    {
      var hay := Lowered(c.name, lower);
      var long := Lowered(term + more, lower);
      var short := Lowered(term, lower);
      assert short == long[..|short|];
      IncludesIff(hay, long);
      var i :| OccursAt(hay, long, i);
      assert hay[i..i + |short|] == long[..|short|];
      assert OccursAt(hay, short, i);
      IncludesIff(hay, short);
    }
  }

  // ---------------------------------------------------------------------------
  // The page

  datatype DeleteDialog = DeleteDialog(isOpen: bool, categoryId: string, categoryName: string, isDeleting: bool)

  const ClosedDialog: DeleteDialog := DeleteDialog(false, "", "", false)

  /** What the table body shows. */
  datatype TableView = LoadingRow | NoneFound | Rows(rows: seq<Category>)

  /** The guard of `handleUpdateCategory`: no request when nothing is being
      edited or its name is blank; otherwise an update of the edited id to the
      edited name, untrimmed. */
  function UpdateAttempt(edited: Option<Category>): (r: Option<Request>)
    ensures r.None? <==> edited.None? || IsBlank(edited.value.name)
    ensures r.Some? ==> r.value == UpdateRequest(edited.value.id, edited.value.name)
  {
    match edited
    case None => None
    case Some(c) => if Trim(c.name) == [] then None else Some(UpdateRequest(c.id, c.name))
  }

  class CategoryPage {
    /** The lower-casing `toLowerCase` applies, one character at a time. */
    const lower: char -> char

    var categories: seq<Category>
    var loading: bool
    var newCategory: string
    var editCategory: Option<Category>
    var deleteDialog: DeleteDialog
    var searchTerm: string
    var toasts: seq<Toast>

    /** The inputs and dialogs, unchanged. */
    twostate predicate FormsUnchanged()
      reads this
    {
      old(newCategory) == newCategory && old(editCategory) == editCategory &&
      old(deleteDialog) == deleteDialog && old(searchTerm) == searchTerm
    }

    constructor (lower: char -> char)
      ensures this.lower == lower
      ensures categories == [] && !loading && newCategory == "" && editCategory == None
      ensures deleteDialog == ClosedDialog && searchTerm == "" && toasts == []
    {
      this.lower := lower;
      categories := [];
      loading := false;
      newCategory := "";
      editCategory := None;
      deleteDialog := ClosedDialog;
      searchTerm := "";
      toasts := [];
    }

    /** The table body: the loading row while loading, otherwise the matching
        categories or, when there are none, the empty-result row. */
    function View(): (v: TableView)
      reads this
      ensures loading <==> v.LoadingRow?
      ensures v.Rows? ==> v.rows == FilterByName(categories, searchTerm, lower) && v.rows != []
      ensures v.NoneFound? <==> !loading && FilterByName(categories, searchTerm, lower) == []
    {
      if loading then LoadingRow
      else
        var shown := FilterByName(categories, searchTerm, lower);
        if shown == [] then NoneFound else Rows(shown)
    }

    /** `fetchCategories` up to the request: the table shows its loading row. */
    method BeginFetch()
      modifies this
      ensures loading
      ensures categories == old(categories) && toasts == old(toasts) && FormsUnchanged()
    {
      loading := true;
    }

    /** The list request settling: `getCategories` never throws, so its
        result becomes the list and loading ends. */
    method CategoriesLoaded(reply: Reply<Option<seq<Category>>>)
      modifies this
      ensures categories == GetCategories(reply) && !loading
      ensures toasts == old(toasts) && FormsUnchanged()
    {
      categories := GetCategories(reply);
      loading := false;
    }

    /** The search box. */
    method SetSearchTerm(term: string)
      modifies this
      ensures searchTerm == term
      ensures categories == old(categories) && loading == old(loading) && toasts == old(toasts)
      ensures newCategory == old(newCategory) && editCategory == old(editCategory)
      ensures deleteDialog == old(deleteDialog)
    {
      searchTerm := term;
    }

    /** The add input. */
    method SetNewCategory(name: string)
      modifies this
      ensures newCategory == name
      ensures categories == old(categories) && loading == old(loading) && toasts == old(toasts)
      ensures searchTerm == old(searchTerm) && editCategory == old(editCategory)
      ensures deleteDialog == old(deleteDialog)
    {
      newCategory := name;
    }

    /** `handleAddCategory` up to the call: a blank name is refused; any other
        name is sent as typed, untrimmed. */
    method AddCategory() returns (request: Option<Request>)
      modifies this
      ensures IsBlank(old(newCategory)) ==>
        request == None && toasts == old(toasts) + [ErrorToast(NameRequiredMessage)]
      ensures !IsBlank(old(newCategory)) ==>
        request == Some(CreateRequest(old(newCategory))) && toasts == old(toasts)
      ensures categories == old(categories) && loading == old(loading) && FormsUnchanged()
    {
      if Trim(newCategory) == [] {
        toasts := toasts + [ErrorToast(NameRequiredMessage)];
        request := None;
      } else {
        request := Some(CreateRequest(newCategory));
      }
    }

    /** The create call settling: success is announced, the input is cleared
        and the list is fetched again (so the table shows its loading row); a
        failure is announced with a fixed message, whatever the server said. */
    method AddSettled(reply: Reply<()>) returns (refetch: bool)
      modifies this
      ensures refetch <==> CreateCategory(reply).Returned?
      ensures refetch ==> toasts == old(toasts) + [SuccessToast(AddedMessage)] && newCategory == "" && loading
      ensures !refetch ==> toasts == old(toasts) + [ErrorToast(AddFailedMessage)] &&
                           newCategory == old(newCategory) && loading == old(loading)
      ensures categories == old(categories) && editCategory == old(editCategory)
      ensures deleteDialog == old(deleteDialog) && searchTerm == old(searchTerm)
    {
      match CreateCategory(reply) {
        case Returned(_) =>
          toasts := toasts + [SuccessToast(AddedMessage)];
          newCategory := "";
          loading := true;
          refetch := true;
        case Thrown(_) =>
          toasts := toasts + [ErrorToast(AddFailedMessage)];
          refetch := false;
      }
    }

    /** The Edit button: the row's category becomes the one being edited. */
    method StartEdit(c: Category)
      modifies this
      ensures editCategory == Some(c)
      ensures categories == old(categories) && loading == old(loading) && toasts == old(toasts)
      ensures newCategory == old(newCategory) && deleteDialog == old(deleteDialog)
      ensures searchTerm == old(searchTerm)
    {
      editCategory := Some(c);
    }

    /** The edit input: renames the category being edited, if there is one;
        its id stays. */
    method EditName(name: string)
      modifies this
      ensures old(editCategory).Some? ==> editCategory == Some(old(editCategory).value.(name := name))
      ensures old(editCategory).None? ==> editCategory == None
      ensures categories == old(categories) && loading == old(loading) && toasts == old(toasts)
      ensures newCategory == old(newCategory) && deleteDialog == old(deleteDialog)
      ensures searchTerm == old(searchTerm)
    {
      if editCategory.Some? {
        editCategory := Some(editCategory.value.(name := name));
      }
    }

    /** The Cancel button of the edit dialog. */
    method CancelEdit()
      modifies this
      ensures editCategory == None
      ensures categories == old(categories) && loading == old(loading) && toasts == old(toasts)
      ensures newCategory == old(newCategory) && deleteDialog == old(deleteDialog)
      ensures searchTerm == old(searchTerm)
    {
      editCategory := None;
    }

    /** `handleUpdateCategory` up to the call: nothing being edited, or a blank
        name, is refused; otherwise the table shows its loading row and the
        request of `UpdateAttempt` is sent. */
    method UpdateCategory() returns (request: Option<Request>)
      modifies this
      ensures request == UpdateAttempt(old(editCategory))
      ensures request.None? ==> toasts == old(toasts) + [ErrorToast(NameRequiredMessage)] && loading == old(loading)
      ensures request.Some? ==> toasts == old(toasts) && loading
      ensures categories == old(categories) && FormsUnchanged()
    {
      request := UpdateAttempt(editCategory);
      if request.None? {
        toasts := toasts + [ErrorToast(NameRequiredMessage)];
      } else {
        loading := true;
      }
    }

    /** The update call settling.  On success the dialog closes and the list
        is fetched again, but the handler clears the loading flag right after
        starting that fetch, so the table does not show its loading row while
        it runs.  On failure nothing clears the flag: the table stays on its
        loading row until the next fetch ends. */
    method UpdateSettled(reply: Reply<()>) returns (refetch: bool)
      modifies this
      ensures refetch <==> CategoryApi.UpdateCategory(reply).Returned?
      ensures refetch ==> toasts == old(toasts) + [SuccessToast(UpdatedMessage)] && editCategory == None && !loading
      ensures !refetch ==> toasts == old(toasts) + [ErrorToast(UpdateFailedMessage)] &&
                           editCategory == old(editCategory) && loading == old(loading)
      ensures categories == old(categories) && newCategory == old(newCategory)
      ensures deleteDialog == old(deleteDialog) && searchTerm == old(searchTerm)
    {
      match CategoryApi.UpdateCategory(reply) {
        case Returned(_) =>
          toasts := toasts + [SuccessToast(UpdatedMessage)];
          editCategory := None;
          loading := false;
          refetch := true;
        case Thrown(_) =>
          toasts := toasts + [ErrorToast(UpdateFailedMessage)];
          refetch := false;
      }
    }

    /** The Delete button: the confirmation opens for that row. */
    method OpenDelete(c: Category)
      modifies this
      ensures deleteDialog == DeleteDialog(true, c.id, c.name, false)
      ensures categories == old(categories) && loading == old(loading) && toasts == old(toasts)
      ensures newCategory == old(newCategory) && editCategory == old(editCategory)
      ensures searchTerm == old(searchTerm)
    {
      deleteDialog := DeleteDialog(true, c.id, c.name, false);
    }

    /** The confirmation's `onOpenChange`: closed and emptied. */
    method DeleteDialogOpenChange()
      modifies this
      ensures deleteDialog == ClosedDialog
      ensures categories == old(categories) && loading == old(loading) && toasts == old(toasts)
      ensures newCategory == old(newCategory) && editCategory == old(editCategory)
      ensures searchTerm == old(searchTerm)
    {
      deleteDialog := ClosedDialog;
    }

    /** `handleDeleteConfirm` up to the call: the dialog turns busy and the id
        it holds is deleted; there is no check that the id is set. */
    method ConfirmDelete() returns (request: Request)
      modifies this
      ensures deleteDialog == old(deleteDialog).(isDeleting := true)
      ensures request == DeleteRequest(old(deleteDialog).categoryId)
      ensures categories == old(categories) && loading == old(loading) && toasts == old(toasts)
      ensures newCategory == old(newCategory) && editCategory == old(editCategory)
      ensures searchTerm == old(searchTerm)
    {
      deleteDialog := deleteDialog.(isDeleting := true);
      request := DeleteRequest(deleteDialog.categoryId);
    }

    /** The delete call settling: success is announced and the list fetched
        again; a failure is announced with a fixed message.  The dialog ends
        closed and emptied either way. */
    method DeleteSettled(reply: Reply<()>) returns (refetch: bool)
      modifies this
      ensures refetch <==> DeleteCategory(reply).Returned?
      ensures refetch ==> toasts == old(toasts) + [SuccessToast(DeletedMessage)] && loading
      ensures !refetch ==> toasts == old(toasts) + [ErrorToast(DeleteFailedMessage)] && loading == old(loading)
      ensures deleteDialog == ClosedDialog
      ensures categories == old(categories) && newCategory == old(newCategory)
      ensures editCategory == old(editCategory) && searchTerm == old(searchTerm)
    {
      match DeleteCategory(reply) {
        case Returned(_) =>
          toasts := toasts + [SuccessToast(DeletedMessage)];
          loading := true;
          refetch := true;
        case Thrown(_) =>
          toasts := toasts + [ErrorToast(DeleteFailedMessage)];
          refetch := false;
      }
      deleteDialog := ClosedDialog;
    }
  }
}
