/**
  * The client's shared query wrapper (client/src/app/api/baseApi.ts): how a
  * failed request's status and body are read, the one reaction each failure
  * gets (a toast, a thrown validation message, a navigation or nothing), and
  * the result handed back to the caller.
  */
module BaseApi {
  import opened Wrappers
  import opened Text
  import opened Json
  import Queries

  /** A fetch error's `status`: an HTTP code or one of RTK Query's named kinds. */
  datatype Status =
    | Http(code: int)
    | FetchError
    | TimeoutError
    | CustomError
    | ParsingError(originalStatus: int)

  /** What `getHttpStatus` returns: a code, or a kind that never had one. */
  datatype HttpStatus = Code(code: int) | NetworkFailure | Timeout | Custom

  /** `getHttpStatus`: a body that failed to parse still carries the response's code. */
  function GetHttpStatus(s: Status): (r: HttpStatus)
    ensures r.Code? <==> s.Http? || s.ParsingError?
    ensures s.Http? ==> r.code == s.code
    ensures s.ParsingError? ==> r.code == s.originalStatus
    ensures s.FetchError? <==> r.NetworkFailure?
    ensures s.TimeoutError? <==> r.Timeout?
  {
    match s
    case Http(c) => Code(c)
    case ParsingError(c) => Code(c)
    case FetchError => NetworkFailure
    case TimeoutError => Timeout
    case CustomError => Custom
  }

  /** `ErrorResponse`. */
  datatype ErrorResponse = Plain(text: string) | Titled(title: string) | WithErrors(errors: Json)

  const FallbackTitle := "An unexpected error occurred"

  /** `asErrorResponse`. */
  function AsErrorResponse(data: Option<Json>): (r: ErrorResponse)
    ensures r.Plain? <==> data.Some? && data.value.JStr?
    ensures r.Plain? ==> data == Some(JStr(r.text))
    ensures data.Some? && !data.value.JStr? && StringAt(data.value, "title").Some? ==> r == Titled(StringAt(data.value, "title").value)
    ensures r.WithErrors? ==> data.Some? && StringAt(data.value, "title").None? && Get(data.value, "errors") == Some(r.errors) && IsObjectLike(r.errors)
    ensures r.Titled? ==> r.title == FallbackTitle || (data.Some? && StringAt(data.value, "title") == Some(r.title))
  {
    match data
    case None => Titled(FallbackTitle)
    case Some(d) =>
      if d.JStr? then Plain(d.s)
      else
        match (StringAt(d, "title"), Get(d, "errors"))
        case (Some(title), _) => Titled(title)
        case (None, Some(e)) => if IsObjectLike(e) then WithErrors(e) else Titled(FallbackTitle)
        case (None, None) => Titled(FallbackTitle)
  }

  /** `Object.values`: an object's field values in order, an array's items. */
  function Values(j: Json): (r: seq<Json>)
    ensures j.JArr? ==> r == j.items
    ensures j.JObj? ==> |r| == |j.fields| && forall i :: 0 <= i < |r| ==> r[i] == j.fields[i].value
    ensures !IsObjectLike(j) ==> r == []
  {
    match j
    case JArr(items) => items
    case JObj(fields) => seq(|fields|, i requires 0 <= i < |fields| => fields[i].value)
    case _ => []
  }

  /** One value as `.flat()` spreads it: an array's items, anything else itself. */
  function Spread(v: Json): seq<Json>
  {
    if v.JArr? then v.items else [v]
  }

  /** `.flat()`: one level of nesting removed. */
  function Flat(vs: seq<Json>): (r: seq<Json>)
    decreases |vs|
  {
    if |vs| == 0 then [] else Flat(vs[..|vs| - 1]) + Spread(vs[|vs| - 1])
  }

  /** `String(v)` as `Array.prototype.join` applies it to an element; `null` joins as "". */
  function ElementText(j: Json): string
    decreases j
  {
    match j
    case JNull => ""
    case JBool(b) => if b then "true" else "false"
    case JNum(n) => IntText(n)
    case JStr(s) => s
    case JArr(items) => Join(Texts(items), ",")
    case JObj(_) => "[object Object]"
  }

  /** The texts of a list of elements. */
  function Texts(vs: seq<Json>): (r: seq<string>)
    ensures |r| == |vs|
    decreases vs
  {
    if |vs| == 0 then [] else Texts(vs[..|vs| - 1]) + [ElementText(vs[|vs| - 1])]
  }

  /** `Object.values(errors).flat().join(", ")`. */
  function ValidationMessage(errors: Json): string
  {
    Join(Texts(Flat(Values(errors))), ", ")
  }

  /** The texts of one more element end with its text. */
  lemma TextsSnoc(vs: seq<Json>, v: Json)
    ensures Texts(vs + [v]) == Texts(vs) + [ElementText(v)]
  {
    var w := vs + [v];
    assert w[..|w| - 1] == vs;
  }

  /** Texts distribute over concatenation. */
  lemma {:induction false} TextsAppend(a: seq<Json>, b: seq<Json>)
    ensures Texts(a + b) == Texts(a) + Texts(b)
    decreases |b|
  {
    if |b| == 0 {
      assert a + b == a;
    } else {
      var b' := b[..|b| - 1];
      var v := b[|b| - 1];
      assert b == b' + [v];
      assert a + b == (a + b') + [v];
      TextsAppend(a, b');
      TextsSnoc(a + b', v);
      TextsSnoc(b', v);
      Queries.AppendAssoc(Texts(a), Texts(b'), [ElementText(v)]);
    }
  }

  /** Every field holds an array of strings: the shape of a validation dictionary. */
  predicate StringLists(fields: seq<Field>)
  {
    forall i :: 0 <= i < |fields| ==> fields[i].value.JArr? && forall k :: 0 <= k < |fields[i].value.items| ==> fields[i].value.items[k].JStr?
  }

  /** The strings of a string array. */
  function StringsOf(items: seq<Json>): (r: seq<string>)
    ensures |r| == |items|
  {
    seq(|items|, k requires 0 <= k < |items| => if items[k].JStr? then items[k].s else "")
  }

  /** Every message of a validation dictionary, field by field. */
  function AllMessages(fields: seq<Field>): seq<string>
    decreases |fields|
  {
    if |fields| == 0 then []
    else
      var last := fields[|fields| - 1].value;
      AllMessages(fields[..|fields| - 1]) + (if last.JArr? then StringsOf(last.items) else [])
  }

  /** An array of strings reads as its strings. */
  lemma {:induction false} TextsOfStrings(items: seq<Json>)
    requires forall k :: 0 <= k < |items| ==> items[k].JStr?
    ensures Texts(items) == StringsOf(items)
    decreases |items|
  {
    if |items| > 0 {
      var init := items[..|items| - 1];
      TextsOfStrings(init);
      assert StringsOf(items) == StringsOf(init) + [items[|items| - 1].s];
    }
  }

  /** The flattened texts of a validation dictionary are its messages in field order. */
  lemma {:induction false} FlatTextsOfStringLists(fields: seq<Field>)
    requires StringLists(fields)
    ensures Texts(Flat(Values(JObj(fields)))) == AllMessages(fields)
    decreases |fields|
  {
    if |fields| > 0 {
      var init := fields[..|fields| - 1];
      var last := fields[|fields| - 1].value;
      assert StringLists(init) by {
        forall i | 0 <= i < |init| ensures init[i] == fields[i] { }
      }
      FlatTextsOfStringLists(init);
      var vs := Values(JObj(fields));
      assert vs[..|vs| - 1] == Values(JObj(init));
      assert Flat(vs) == Flat(Values(JObj(init))) + last.items;
      TextsAppend(Flat(Values(JObj(init))), last.items);
      TextsOfStrings(last.items);
    }
  }

  /** A 400 validation dictionary becomes one message: every field's messages, in order, joined with ", ". */
  lemma ValidationMessageJoinsAll(fields: seq<Field>)
    requires StringLists(fields)
    ensures ValidationMessage(JObj(fields)) == Join(AllMessages(fields), ", ")
  {
    FlatTextsOfStringLists(fields);
  }

  /** The single reaction to a failed request. */
  datatype Reaction =
    | Toast(text: string)
    | Throw(message: string)
    | Navigate(path: string, state: Option<ErrorResponse>)
    | LogOnly(response: ErrorResponse)
    | NoReaction

  /** The `switch` on the status. */
  function React(status: HttpStatus, resp: ErrorResponse): (r: Reaction)
    ensures r.Throw? <==> status == Code(400) && resp.WithErrors?
    ensures r.Throw? ==> r.message == ValidationMessage(resp.errors)
    ensures r == Navigate("/not-found", None) <==> status == Code(404)
    ensures r.Navigate? && r.path == "/server-error" <==> status == Code(500) && resp.Titled?
    ensures r.LogOnly? <==> status == Code(401) && resp.Titled?
    ensures status == Code(400) && resp.Titled? ==> r == Toast(resp.title)
    ensures r.NoReaction? <==> status.Custom? || (status.Code? && status.code !in {400, 401, 404, 500})
  {
    match status
    case Code(400) =>
      (match resp
       case Plain(t) => Toast(t)
       case WithErrors(e) => Throw(ValidationMessage(e))
       case Titled(t) => Toast(t))
    case Code(401) => if resp.Titled? then LogOnly(resp) else Toast("Unauthorized")
    case Code(404) => Navigate("/not-found", None)
    case Code(500) => if resp.Titled? then Navigate("/server-error", Some(resp)) else Toast("Internal Server Error")
    case NetworkFailure => Toast("Network error. Please check your connection.")
    case Timeout => Toast("Request timed out.")
    case _ => NoReaction
  }

  /** A request's failure, as `fetchBaseQuery` reports it. */
  datatype QueryError = QueryError(status: Status, data: Option<Json>)

  /** A query's result: data on success, an error otherwise. */
  datatype QueryResult = QueryResult(data: Option<Json>, error: Option<QueryError>)

  /** The wrapper's effect and what it hands back; nothing is handed back when it throws. */
  datatype Handled = Handled(reaction: Reaction, returned: Option<QueryResult>)

  /** `baseQueryWithErrorHandling` after the request has completed. */
  function HandleResult(result: QueryResult): (h: Handled)
    ensures h.returned.Some? ==> h.returned.value == result
    ensures h.returned.None? <==> h.reaction.Throw?
    ensures result.error.None? ==> h.reaction.NoReaction?
    ensures h.reaction.Throw? <==> result.error.Some? && GetHttpStatus(result.error.value.status) == Code(400)
                                   && AsErrorResponse(result.error.value.data).WithErrors?
  {
    match result.error
    case None => Handled(NoReaction, Some(result))
    case Some(e) =>
      var reaction := React(GetHttpStatus(e.status), AsErrorResponse(e.data));
      Handled(reaction, if reaction.Throw? then None else Some(result))
  }

  /** A body that fails to parse is handled exactly as a parsed one with the same code. */
  lemma ParsingErrorActsAsItsCode(code: int, data: Option<Json>, payload: Option<Json>)
    ensures HandleResult(QueryResult(payload, Some(QueryError(ParsingError(code), data)))).reaction
         == HandleResult(QueryResult(payload, Some(QueryError(Http(code), data)))).reaction
  {
  }

  /** An error body with a title is toasted on a 400 even when it also carries `errors`: the title wins. */
  lemma TitledValidationIsToasted(fields: seq<Field>, title: string)
    requires StringAt(JObj(fields), "title") == Some(title)
    ensures HandleResult(QueryResult(None, Some(QueryError(Http(400), Some(JObj(fields)))))) ==
            Handled(Toast(title), Some(QueryResult(None, Some(QueryError(Http(400), Some(JObj(fields)))))))
  {
  }
}
