/** What the comment form stores (`comment` in app.py): a non-blank body cut to 1000
    characters and an author taken from the form, the signed-in user or the anonymous label,
    cut to 50 characters. */
module Comments {
  import opened Common
  import opened Text

  const AuthorLimit: nat := 50
  const BodyLimit: nat := 1000

  /** A blank body is refused with the "comment cannot be empty" message. */
  datatype CommentError = EmptyComment

  /** The author and body columns of the inserted comment row. */
  datatype Accepted = Accepted(author: string, body: string)

  /** The author before truncation: the stripped form field, else the signed-in user's
      name, else the anonymous label. */
  function AuthorName(authorField: string, userName: Option<string>, anonymous: string): (name: string)
    ensures Strip(authorField) != [] ==> name == Strip(authorField)
    ensures Strip(authorField) == [] && userName.Some? && userName.value != [] ==> name == userName.value
    ensures Strip(authorField) == [] && (userName.None? || userName.value == []) ==> name == anonymous
  {
    var author := Strip(authorField);
    var author := if userName.Some? && author == [] then userName.value else author;
    if author == [] then anonymous else author
  }

  /** The comment that `comment(video_id)` inserts for the form's author and body fields,
      with `userName` the signed-in user's name, if any. */
  function ResolveComment(authorField: string, bodyField: string, userName: Option<string>, anonymous: string):
    (r: Result<Accepted, CommentError>)
    ensures r.Err? <==> IsBlank(bodyField)
    ensures r.Ok? ==> r.value.body != [] && |r.value.body| <= BodyLimit && |r.value.author| <= AuthorLimit
    ensures r.Ok? ==> StartsWith(Strip(bodyField), r.value.body)
    ensures r.Ok? && |Strip(bodyField)| <= BodyLimit ==> r.value.body == Strip(bodyField)
    ensures r.Ok? ==> StartsWith(AuthorName(authorField, userName, anonymous), r.value.author)
    ensures r.Ok? && anonymous != [] ==> r.value.author != []
    ensures r.Ok? ==> var name := AuthorName(authorField, userName, anonymous);
                      |r.value.author| == if |name| <= AuthorLimit then |name| else AuthorLimit
    ensures r.Ok? ==> |r.value.body| == if |Strip(bodyField)| <= BodyLimit then |Strip(bodyField)| else BodyLimit
  {
    var body := Strip(bodyField);
    if body == [] then Err(EmptyComment)
    else
      var author := AuthorName(authorField, userName, anonymous);
      Ok(Accepted(Take(author, AuthorLimit), Take(body, BodyLimit)))
  }

  /** A name typed into the form wins over the signed-in user's name. */
  lemma ExplicitAuthorWins(authorField: string, bodyField: string, userName: Option<string>, anonymous: string)
    requires !IsBlank(bodyField) && Strip(authorField) != [] && |Strip(authorField)| <= AuthorLimit
    ensures ResolveComment(authorField, bodyField, userName, anonymous).Ok?
    ensures ResolveComment(authorField, bodyField, userName, anonymous).value.author == Strip(authorField)
  {
  }

  /** A signed-in user who leaves the name empty comments under their username. */
  lemma SignedInAuthor(authorField: string, bodyField: string, name: string, anonymous: string)
    requires !IsBlank(bodyField) && Strip(authorField) == [] && name != [] && |name| <= AuthorLimit
    ensures ResolveComment(authorField, bodyField, Some(name), anonymous).Ok?
    ensures ResolveComment(authorField, bodyField, Some(name), anonymous).value.author == name
  {
    assert AuthorName(authorField, Some(name), anonymous) == name;
  }

  /** A visitor who leaves the name empty comments under the anonymous label. */
  lemma AnonymousAuthor(authorField: string, bodyField: string, anonymous: string)
    requires !IsBlank(bodyField) && Strip(authorField) == [] && |anonymous| <= AuthorLimit
    ensures ResolveComment(authorField, bodyField, None, anonymous).Ok?
    ensures ResolveComment(authorField, bodyField, None, anonymous).value.author == anonymous
  {
    assert AuthorName(authorField, None, anonymous) == anonymous;
  }

  /** A body longer than the limit keeps exactly its first 1000 characters. */
  lemma LongBodyCut(authorField: string, bodyField: string, userName: Option<string>, anonymous: string)
    requires |Strip(bodyField)| > BodyLimit
    ensures var r := ResolveComment(authorField, bodyField, userName, anonymous);
            r.Ok? && r.value.body == Strip(bodyField)[..BodyLimit]
  {
  }

  /** An author name longer than the limit keeps exactly its first 50 characters. */
  lemma LongAuthorCut(authorField: string, bodyField: string, userName: Option<string>, anonymous: string)
    requires !IsBlank(bodyField)
    requires |AuthorName(authorField, userName, anonymous)| > AuthorLimit
    ensures var r := ResolveComment(authorField, bodyField, userName, anonymous);
            r.Ok? && r.value.author == AuthorName(authorField, userName, anonymous)[..AuthorLimit]
  {
  }
}
