/**
  * The sign-in form (client/src/features/account/LoginPage.tsx): the one line
  * shown when signing in fails, when the form may be submitted, and the
  * request it sends.
  */
module LoginPage {
  import opened Wrappers
  import opened Text
  import opened Json
  import BaseApi

  const LoginFailed := "Login failed."

  /** A non-blank string property, as it is (untrimmed). */
  function Usable(j: Json, key: string): (r: Option<string>)
    ensures r.Some? <==> StringAt(j, key).Some? && !IsBlank(StringAt(j, key).value)
    ensures r.Some? ==> r == StringAt(j, key)
  {
    match StringAt(j, key)
    case Some(s) => if Trim(s) != "" then Some(s) else None
    case None => None
  }

  /** `s` is the `title`, `message` or `detail` of the error's `data`. */
  predicate FromData(err: Json, s: string)
  {
    && Get(err, "data").Some?
    && (|| StringAt(Get(err, "data").value, "title") == Some(s)
        || StringAt(Get(err, "data").value, "message") == Some(s)
        || StringAt(Get(err, "data").value, "detail") == Some(s))
  }

  /** The first usable of `title`, `message` and `detail` of an object `data`. */
  function DataLine(err: Json): (r: Option<string>)
    ensures r.Some? ==> Get(err, "data").Some? && IsObjectLike(Get(err, "data").value) && !IsBlank(r.value)
    ensures r.Some? ==> FromData(err, r.value)
  {
    match Get(err, "data")
    case Some(d) =>
      if !IsObjectLike(d) then None
      else if Usable(d, "title").Some? then Usable(d, "title")
      else if Usable(d, "message").Some? then Usable(d, "message")
      else Usable(d, "detail")
    case None => None
  }

  /** `getErrorMessage`. */
  function GetErrorMessage(err: Json): (r: string)
    ensures !IsObjectLike(err) ==> r == LoginFailed
    ensures r == LoginFailed || !IsBlank(r)
    ensures r != LoginFailed ==> FromData(err, r) || StringAt(err, "error") == Some(r)
  {
    if !IsObjectLike(err) then LoginFailed
    else match DataLine(err)
      case Some(s) => s
      case None => Usable(err, "error").GetOr(LoginFailed)
  }

  /** A usable `data.title` is shown before anything else, as it was sent. */
  lemma TitleFirst(err: Json, title: string)
    requires err.JObj? && Get(err, "data").Some? && IsObjectLike(Get(err, "data").value)
    requires StringAt(Get(err, "data").value, "title") == Some(title) && !IsBlank(title)
    ensures GetErrorMessage(err) == title
  {
  }

  /** `key` holds no string, or only whitespace. */
  predicate Unusable(j: Json, key: string)
  {
    StringAt(j, key).None? || IsBlank(StringAt(j, key).value)
  }

  /** No line can be taken from `data`: it is missing, not an object, or none of its three keys is usable. */
  predicate NothingInData(err: Json)
  {
    || Get(err, "data").None?
    || !IsObjectLike(Get(err, "data").value)
    || (&& Unusable(Get(err, "data").value, "title")
        && Unusable(Get(err, "data").value, "message")
        && Unusable(Get(err, "data").value, "detail"))
  }

  /** A usable `data.message` is shown when the title is not usable. */
  lemma MessageSecond(err: Json, message: string)
    requires IsObjectLike(err) && Get(err, "data").Some? && IsObjectLike(Get(err, "data").value)
    requires Unusable(Get(err, "data").value, "title")
    requires StringAt(Get(err, "data").value, "message") == Some(message) && !IsBlank(message)
    ensures GetErrorMessage(err) == message
  {
  }

  /** A usable `data.detail` is shown when neither title nor message is usable. */
  lemma DetailThird(err: Json, detail: string)
    requires IsObjectLike(err) && Get(err, "data").Some? && IsObjectLike(Get(err, "data").value)
    requires Unusable(Get(err, "data").value, "title") && Unusable(Get(err, "data").value, "message")
    requires StringAt(Get(err, "data").value, "detail") == Some(detail) && !IsBlank(detail)
    ensures GetErrorMessage(err) == detail
  {
  }

  /** A usable top-level `error` is shown when `data` gives nothing. */
  lemma ErrorFallback(err: Json, error: string)
    requires IsObjectLike(err) && NothingInData(err)
    requires StringAt(err, "error") == Some(error) && !IsBlank(error)
    ensures GetErrorMessage(err) == error
  {
  }

  /** The fixed line appears when nothing usable was sent, and otherwise only if that is literally what was sent. */
  lemma DefaultWhenNothingUsable(err: Json)
    ensures !IsObjectLike(err) || (NothingInData(err) && Unusable(err, "error")) ==> GetErrorMessage(err) == LoginFailed
    ensures IsObjectLike(err) && !(NothingInData(err) && Unusable(err, "error")) ==> !IsBlank(GetErrorMessage(err))
  {
  }

  /** A padded title is shown with its padding. */
  lemma PaddingKept()
    ensures GetErrorMessage(JObj([Field("data", JObj([Field("title", JStr(" Invalid "))]))])) == " Invalid "
  {
    assert !IsBlank(" Invalid ") by { assert !IsSpace(" Invalid "[1]); }
  }

  /** A 401 with a titled body: the query wrapper only logs it, and the form shows its title. */
  lemma UnauthorizedTitleShown(fields: seq<Field>, title: string)
    requires StringAt(JObj(fields), "title") == Some(title) && !IsBlank(title)
    ensures BaseApi.HandleResult(BaseApi.QueryResult(None, Some(BaseApi.QueryError(BaseApi.Http(401), Some(JObj(fields)))))).reaction
         == BaseApi.LogOnly(BaseApi.Titled(title))
    ensures GetErrorMessage(JObj([Field("status", JNum(401)), Field("data", JObj(fields))])) == title
  {
    var fs := [Field("status", JNum(401)), Field("data", JObj(fields))];
    assert "status" != "data" by { assert "status"[0] != "data"[0]; }
    assert fs[1..] == [Field("data", JObj(fields))];
    assert FieldValue(fs[1..], "data") == Some(JObj(fields));
  }

  /** `canSubmit`: both fields hold a visible character and no request is in flight. */
  predicate CanSubmit(email: string, password: string, isLoading: bool)
    ensures CanSubmit(email, password, isLoading) ==> |Trim(email)| > 0 && |password| > 0 && !isLoading
  {
    !IsBlank(email) && !IsBlank(password) && !isLoading
  }

  /** What `login` is called with. */
  datatype LoginRequest = LoginRequest(email: string, password: string)

  /** `handleSubmit`'s request: the email trimmed, the password as typed. */
  function Request(email: string, password: string): (r: LoginRequest)
    ensures r.password == password
    ensures r.email == Trim(email)
  {
    LoginRequest(Trim(email), password)
  }

  /** A submittable form sends a non-empty, trimmed email; padding around the typed email does not change the request. */
  lemma SubmittedEmailIsClean(email: string, password: string)
    requires CanSubmit(email, password, false)
    ensures |Request(email, password).email| > 0 && IsTrimmed(Request(email, password).email)
    ensures Request(" " + email, password) == Request(email, password)
  {
    TrimLeadingSpace(email);
  }
}
