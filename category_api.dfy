/** The category calls of src/lib/apiCategories.ts, with the HTTP exchange
    itself replaced by its outcome: what each call returns or throws. */
module CategoryApi {
  import opened Common

  /** A category row as the server sends it.  An id that is absent, null or
      empty is represented by the empty string: all three are falsy. */
  datatype Category = Category(id: string, name: string, createdAt: string)

  /** `category.id` is truthy. */
  predicate HasId(c: Category) {
    Truthy(c.id)
  }

  /** The rows `getCategories` keeps: those with a truthy id, in order and
      with their multiplicities.  An id made only of white space is truthy,
      so it is kept. */
  function KeepWithId(rows: seq<Category>): (r: seq<Category>)
    ensures forall c :: c in r <==> c in rows && c.id != []
    ensures Subsequence(r, rows)
    ensures forall c :: c in rows ==> multiset(r)[c] == if c.id != [] then multiset(rows)[c] else 0
  {
    var r := Filter(rows, HasId);
    FilterMember(rows, HasId);
    assert forall c :: c in rows ==> multiset(r)[c] == if c.id != [] then multiset(rows)[c] else 0 by {
      forall c | c in rows ensures multiset(r)[c] == if c.id != [] then multiset(rows)[c] else 0 {
        FilterMultiset(rows, HasId, c);
      }
    }
    r
  }

  /** `getCategories()`, given the outcome of `GET /categories`.  The body's
      `data` array is absent when the server sent none; reading `.filter` of it
      then throws, which the catch turns into an empty list like any failure. */
  function GetCategories(reply: Reply<Option<seq<Category>>>): (r: seq<Category>)
    ensures reply.Failed? ==> r == []
    ensures reply.Ok? && reply.body.None? ==> r == []
    ensures reply.Ok? && reply.body.Some? ==> r == KeepWithId(reply.body.value)
    ensures forall c :: c in r ==> c.id != []
  {
    match reply
    case Failed(_) => []
    case Ok(body) => if body.Some? then KeepWithId(body.value) else []
  }

  /** An id of white space only passes this filter. */
  lemma WhitespaceIdKept(rows: seq<Category>, c: Category)
    requires c in rows && c.id != [] && IsBlank(c.id)
    ensures c in GetCategories(Ok(Some(rows)))
  {
  }

  /** A request of the category calls: method, path and `name` body field. */
  datatype Request = Request(verb: string, path: string, name: Option<string>)

  const CategoriesPath: string := "/categories"
  const CreateFallback: string := "Failed to create category"
  const UpdateFallback: string := "Failed to update category"
  const DeleteFallback: string := "Failed to delete category"

  /** What `createCategory(name)` sends: the name exactly as given. */
  function CreateRequest(name: string): (q: Request)
    ensures q.verb == "POST" && q.path == CategoriesPath && q.name == Some(name)
  {
    Request("POST", CategoriesPath, Some(name))
  }

  /** What `updateCategory(id, {name})` sends. */
  function UpdateRequest(id: string, name: string): (q: Request)
    ensures q.verb == "PUT" && q.path == CategoriesPath + "/" + id && q.name == Some(name)
  {
    Request("PUT", CategoriesPath + "/" + id, Some(name))
  }

  /** What `deleteCategory(id)` sends; an empty id still yields a request. */
  function DeleteRequest(id: string): (q: Request)
    ensures q.verb == "DELETE" && q.path == CategoriesPath + "/" + id && q.name == None
  {
    Request("DELETE", CategoriesPath + "/" + id, None)
  }

  /** The shape shared by the three mutations: the response body on success;
      on failure an `Error` carrying the server's message when it sent a
      non-empty one, the operation's fixed message otherwise. */
  function Settle<T>(reply: Reply<T>, fallback: string): (r: Outcome<T>)
    ensures reply.Ok? ==> r == Returned(reply.body)
    ensures reply.Failed? && reply.message.Some? && reply.message.value != [] ==>
      r == Thrown(reply.message.value)
    ensures reply.Failed? && (reply.message.None? || reply.message.value == []) ==> r == Thrown(fallback)
  {
    match reply
    case Ok(body) => Returned(body)
    case Failed(message) => Thrown(OrElse(message, fallback))
  }

  /** `createCategory`; a thrown error never has an empty message. */
  function CreateCategory<T>(reply: Reply<T>): (r: Outcome<T>)
    ensures reply.Ok? <==> r.Returned?
    ensures r.Returned? ==> r.value == reply.body
    ensures r.Thrown? ==> r.message != [] && r.message == OrElse(reply.message, CreateFallback)
  {
    Settle(reply, CreateFallback)
  }

  /** `updateCategory`. */
  function UpdateCategory<T>(reply: Reply<T>): (r: Outcome<T>)
    ensures reply.Ok? <==> r.Returned?
    ensures r.Returned? ==> r.value == reply.body
    ensures r.Thrown? ==> r.message != [] && r.message == OrElse(reply.message, UpdateFallback)
  {
    Settle(reply, UpdateFallback)
  }

  /** `deleteCategory`. */
  function DeleteCategory<T>(reply: Reply<T>): (r: Outcome<T>)
    ensures reply.Ok? <==> r.Returned?
    ensures r.Returned? ==> r.value == reply.body
    ensures r.Thrown? ==> r.message != [] && r.message == OrElse(reply.message, DeleteFallback)
  {
    Settle(reply, DeleteFallback)
  }
}
