/** The add-article page of src/app/admin/articles/add/page.tsx: a form with
    a picture, a title, one of three fixed categories and editor content.
    Submitting checks only that every field is present, assembles the form
    data, and then reports success and returns to the dashboard; the
    assembled form data is not sent anywhere. */
module ArticleAdd {
  import opened Common
  import opened Shared
  import ArticleEdit

  const FieldsMissingMessage: string := "All fields must be filled!"
  const CreatedMessage: string := "Article created successfully!"

  const PictureHint: string := "Please enter picture"
  const TitleHint: string := "Please enter title"
  const CategoryHint: string := "Please select category"
  const ContentHint: string := "Content field cannot be empty"

  /** The category select's fixed choices. */
  const CategoryChoices: seq<string> := ["Technology", "Business", "Lifestyle"]

  /** A chosen picture file, known by its name. */
  datatype FileRef = FileRef(name: string)

  /** A value in the form data: text, or the picture file. */
  datatype FormValue = Text(text: string) | File(file: FileRef)

  /** `!image || !title || !category || !content`, negated: every field is
      present and no text field is empty.  Nothing is trimmed. */
  predicate AddFormComplete(title: string, category: string, content: string, image: Option<FileRef>) {
    image.Some? && Truthy(title) && Truthy(category) && Truthy(content)
  }

  /** The hints under the fields: one for each field that is still missing,
      in the order the fields appear. */
  function Hints(title: string, category: string, content: string, image: Option<FileRef>): (r: seq<string>)
    ensures PictureHint in r <==> image.None?
    ensures TitleHint in r <==> title == []
    ensures CategoryHint in r <==> category == []
    ensures ContentHint in r <==> content == []
    ensures |r| <= 4
  {
    (if image.None? then [PictureHint] else []) +
    (if !Truthy(title) then [TitleHint] else []) +
    (if !Truthy(category) then [CategoryHint] else []) +
    (if !Truthy(content) then [ContentHint] else [])
  }

  /** The hints disappear exactly when submitting would pass the check. */
  lemma NoHintsIffComplete(title: string, category: string, content: string, image: Option<FileRef>)
    ensures Hints(title, category, content, image) == [] <==> AddFormComplete(title, category, content, image)
  {
  }

  /** Whatever the category select offers fills the category field: its
      hint goes away and the category part of the submit guard passes. */
  lemma ChosenCategoryFillsField(title: string, content: string, image: Option<FileRef>, i: int)
    requires 0 <= i < |CategoryChoices|
    ensures CategoryHint !in Hints(title, CategoryChoices[i], content, image)
    ensures AddFormComplete(title, CategoryChoices[i], content, image) <==>
      image.Some? && title != [] && content != []
  {
  }

  /** What the add check lets through and the edit check refuses: a title of
      spaces only, and content that is the empty paragraph. */
  lemma AddIsLaxerThanEdit()
    ensures AddFormComplete("   ", "Technology", "valid text", Some(FileRef("a.png")))
    ensures ArticleEdit.CheckSubmission("   ", "valid text", "Technology", []) == ArticleEdit.Rejected(ArticleEdit.TitleMissing)
    ensures AddFormComplete("Title", "Technology", ArticleEdit.EmptyEditorContent, Some(FileRef("a.png")))
    ensures ArticleEdit.CheckSubmission("Title", ArticleEdit.EmptyEditorContent, "Technology", []) == ArticleEdit.Rejected(ArticleEdit.ContentMissing)
  {
    assert IsBlank("   ") by {
      assert IsJsSpace("   "[0]) && IsJsSpace("   "[1]) && IsJsSpace("   "[2]);
    }
    assert !IsJsSpace("Title"[0]);
    assert Trim("Title") != [];
  }

  /** The form data a complete form produces, in the order it is appended. */
  function FormEntries(title: string, category: string, content: string, image: FileRef): (r: seq<(string, FormValue)>)
    ensures |r| == 4
    ensures r[0] == ("title", Text(title)) && r[1] == ("category", Text(category))
    ensures r[2] == ("content", Text(content)) && r[3] == ("image", File(image))
  {
    [("title", Text(title)), ("category", Text(category)), ("content", Text(content)), ("image", File(image))]
  }

  /** `new FormData()` with `append`: the entries in the order appended. */
  class FormData {
    var entries: seq<(string, FormValue)>

    constructor ()
      ensures entries == []
    {
      entries := [];
    }

    method Append(key: string, value: FormValue)
      modifies this
      ensures entries == old(entries) + [(key, value)]
    {
      entries := entries + [(key, value)];
    }
  }

  class AddArticlePage {
    var title: string
    var category: string
    var content: string
    var image: Option<FileRef>
    var redirect: Option<string>
    var toasts: seq<Toast>

    constructor ()
      ensures title == "" && category == "" && content == "" && image == None
      ensures redirect == None && toasts == []
    {
      title, category, content := "", "", "";
      image := None;
      redirect := None;
      toasts := [];
    }

    /** The file input: a chosen file replaces the picture; closing the
        chooser without a file keeps the old one. */
    method ChooseImage(file: Option<FileRef>)
      modifies this
      ensures file.Some? ==> image == file
      ensures file.None? ==> image == old(image)
      ensures title == old(title) && category == old(category) && content == old(content)
      ensures redirect == old(redirect) && toasts == old(toasts)
    {
      if file.Some? {
        image := file;
      }
    }

    method SetTitle(value: string)
      modifies this
      ensures title == value && category == old(category) && content == old(content) && image == old(image)
      ensures redirect == old(redirect) && toasts == old(toasts)
    {
      title := value;
    }

    method SetCategory(value: string)
      modifies this
      ensures category == value && title == old(title) && content == old(content) && image == old(image)
      ensures redirect == old(redirect) && toasts == old(toasts)
    {
      category := value;
    }

    /** The editor's update callback, with the editor's HTML. */
    method SetContent(html: string)
      modifies this
      ensures content == html && title == old(title) && category == old(category) && image == old(image)
      ensures redirect == old(redirect) && toasts == old(toasts)
    {
      content := html;
    }

    /** `handleSubmit`: an incomplete form is refused with one message; a
        complete one has its form data assembled field by field, then success
        is reported and the user returns to the dashboard.  The form data is
        returned so that its contents can be stated; the page itself does
        nothing more with it. */
    method Submit() returns (form: Option<FormData>)
      modifies this
      ensures !AddFormComplete(old(title), old(category), old(content), old(image)) ==>
        form == None && toasts == old(toasts) + [ErrorToast(FieldsMissingMessage)] && redirect == old(redirect)
      ensures AddFormComplete(old(title), old(category), old(content), old(image)) ==>
        && form.Some? && fresh(form.value)
        && form.value.entries == FormEntries(old(title), old(category), old(content), old(image).value)
        && toasts == old(toasts) + [SuccessToast(CreatedMessage)] && redirect == Some(AdminRoute)
      ensures title == old(title) && category == old(category) && content == old(content) && image == old(image)
    {
      if !AddFormComplete(title, category, content, image) {
        toasts := toasts + [ErrorToast(FieldsMissingMessage)];
        form := None;
        return;
      }
      var data := new FormData();
      data.Append("title", Text(title));
      data.Append("category", Text(category));
      data.Append("content", Text(content));
      data.Append("image", File(image.value));
      toasts := toasts + [SuccessToast(CreatedMessage)];
      redirect := Some(AdminRoute);
      form := Some(data);
    }
  }
}
