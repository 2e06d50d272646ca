/** The article form schema of src/lib/validations.ts. */
module Validations {
  import opened Common
  import opened ZodSchemas

  datatype ArticleForm = ArticleForm(title: string, content: string, category: string)

  const TitleMessage: string := "Judul minimal 3 karakter"
  const ContentMessage: string := "Konten minimal 10 karakter"
  const CategoryMessage: string := "Kategori wajib dipilih"

  /** `articleSchema`: the three field rules, each failing field reported
      with its own message, in declaration order. */
  function ValidateArticle(f: ArticleForm): (issues: seq<Issue>)
    ensures issues == [] <==>
      Utf16Length(f.title) >= 3 && Utf16Length(f.content) >= 10 && f.category != []
    ensures Issue("title", Some(TitleMessage)) in issues <==> Utf16Length(f.title) < 3
    ensures Issue("content", Some(ContentMessage)) in issues <==> Utf16Length(f.content) < 10
    ensures Issue("category", Some(CategoryMessage)) in issues <==> f.category == []
    ensures forall i :: 0 <= i < |issues| ==>
      issues[i] in [Issue("title", Some(TitleMessage)), Issue("content", Some(ContentMessage)),
                    Issue("category", Some(CategoryMessage))]
    ensures forall i, j :: 0 <= i < j < |issues| ==> issues[i].path != issues[j].path
    ensures |issues| <= 3
  {
    var t := MinRule("title", f.title, 3, TitleMessage);
    var c := MinRule("content", f.content, 10, ContentMessage);
    var g := MinRule("category", f.category, 1, CategoryMessage);
    ThreeRules(t, c, g, Issue("title", Some(TitleMessage)), Issue("content", Some(ContentMessage)),
      Issue("category", Some(CategoryMessage)));
    t + c + g
  }

  /** The issues come out in field order: a title issue, when present, is
      first, and a category issue, when present, is last. */
  lemma {:induction false} IssuesInFieldOrder(f: ArticleForm)
    ensures Utf16Length(f.title) < 3 ==> ValidateArticle(f)[0] == Issue("title", Some(TitleMessage))
    ensures f.category == [] ==>
      ValidateArticle(f)[|ValidateArticle(f)| - 1] == Issue("category", Some(CategoryMessage))
  {
  }
}
