/**
  * The registration form (client/src/features/account/Register.tsx): turning
  * whatever a failed registration reports into a list of lines to show, when
  * the form may be submitted, and the request it sends.
  */
module RegisterPage {
  import opened Wrappers
  import opened Text
  import opened Json
  import BaseApi
  import Account
  import Queries

  /** A string's message list: its trimmed form unless blank. */
  function TrimmedMessage(s: string): (r: seq<string>)
    ensures r == [] <==> IsBlank(s)
    ensures r != [] ==> r == [Trim(s)] && IsMessage(Trim(s))
  {
    if Trim(s) == "" then [] else [Trim(s)]
  }

  /** The messages of one dictionary value: a string, or the strings of an array. */
  function ValueMessages(v: Json): (r: seq<string>)
    ensures forall i :: 0 <= i < |r| ==> IsMessage(r[i])
  {
    match v
    case JStr(s) => TrimmedMessage(s)
    case JArr(items) => TrimmedStrings(items)
    case _ => []
  }

  /** The lists of a sequence of lists, one after the other. */
  function Concat(xss: seq<seq<string>>): seq<string>
    decreases |xss|
  {
    if |xss| == 0 then [] else Concat(xss[..|xss| - 1]) + xss[|xss| - 1]
  }

  /** Concatenation distributes over appending lists of lists. */
  lemma {:induction false} ConcatAppend(a: seq<seq<string>>, b: seq<seq<string>>)
    ensures Concat(a + b) == Concat(a) + Concat(b)
    decreases |b|
  {
    if |b| == 0 {
      assert a + b == a;
    } else {
      var b' := b[..|b| - 1];
      var last := b[|b| - 1];
      assert b == b' + [last];
      assert a + b == (a + b') + [last];
      ConcatAppend(a, b');
      assert (a + b)[..|a + b| - 1] == a + b';
      Queries.AppendAssoc(Concat(a), Concat(b'), last);
    }
  }

  /** Each field's messages, in key order. */
  function PerField(fields: seq<Field>): (r: seq<seq<string>>)
    ensures |r| == |fields|
  {
    seq(|fields|, i requires 0 <= i < |fields| => ValueMessages(fields[i].value))
  }

  /** The messages of a dictionary's values in key order. */
  function FieldMessages(fields: seq<Field>): seq<string>
  {
    Concat(PerField(fields))
  }

  /** A dictionary yields only trimmed, non-empty lines. */
  lemma {:induction false} ConcatOfMessages(xss: seq<seq<string>>)
    requires forall i, k :: 0 <= i < |xss| && 0 <= k < |xss[i]| ==> IsMessage(xss[i][k])
    ensures forall k :: 0 <= k < |Concat(xss)| ==> IsMessage(Concat(xss)[k])
    decreases |xss|
  {
    if |xss| > 0 {
      var init := Concat(xss[..|xss| - 1]);
      var v := xss[|xss| - 1];
      ConcatOfMessages(xss[..|xss| - 1]);
      forall k | 0 <= k < |init + v| ensures IsMessage((init + v)[k]) {
        if k < |init| { assert (init + v)[k] == init[k]; } else { assert (init + v)[k] == v[k - |init|]; }
      }
    }
  }

  /** `normalizeToMessages`. */
  function NormalizeToMessages(x: Option<Json>): (r: seq<string>)
    ensures forall i :: 0 <= i < |r| ==> IsMessage(r[i])
    ensures x.None? || !Truthy(x.value) ==> r == []
    ensures x.Some? && x.value.JArr? ==> r == TrimmedStrings(x.value.items)
    ensures x.Some? && x.value.JObj? ==> r == FieldMessages(x.value.fields)
  {
    match x
    case None => []
    case Some(v) =>
      if !Truthy(v) then []
      else match v
        case JStr(s) => TrimmedMessage(s)
        case JArr(items) => TrimmedStrings(items)
        case JObj(fields) => ConcatOfMessages(PerField(fields)); FieldMessages(fields)
        case _ => []
  }

  /** A dictionary's messages are those of its first keys followed by those of the rest. */
  lemma FieldMessagesAppend(a: seq<Field>, b: seq<Field>)
    ensures FieldMessages(a + b) == FieldMessages(a) + FieldMessages(b)
  {
    var l, r := PerField(a + b), PerField(a) + PerField(b);
    forall i | 0 <= i < |l| ensures l[i] == r[i] {
      if i < |a| { assert (a + b)[i] == a[i]; } else { assert (a + b)[i] == b[i - |a|]; }
    }
    assert l == r;
    ConcatAppend(PerField(a), PerField(b));
  }

  /** A one-string array keeps what the string alone keeps. */
  lemma OneStringArray(s: string)
    ensures TrimmedStrings([JStr(s)]) == TrimmedMessage(s)
  {
    assert [JStr(s)][..0] == [];
  }

  /** A one-key dictionary yields what its value yields. */
  lemma OneKeyDictionary(key: string, v: Json)
    ensures FieldMessages([Field(key, v)]) == ValueMessages(v)
  {
    var m := ValueMessages(v);
    assert PerField([Field(key, v)]) == [m];
    assert [m][..0] == [];
    assert Concat([m]) == Concat([]) + m;
  }

  /** A string, a one-string array and a one-key dictionary holding either give the same list. */
  lemma ShapesAgree(key: string, s: string)
    ensures NormalizeToMessages(Some(JStr(s))) == NormalizeToMessages(Some(JArr([JStr(s)])))
    ensures NormalizeToMessages(Some(JArr([JStr(s)]))) == NormalizeToMessages(Some(JObj([Field(key, JStr(s))])))
    ensures NormalizeToMessages(Some(JObj([Field(key, JArr([JStr(s)]))]))) == NormalizeToMessages(Some(JArr([JStr(s)])))
  {
    ShapeString(s);
    ShapeArray(s);
    ShapeDictionary(key, JStr(s));
    ShapeDictionary(key, JArr([JStr(s)]));
  }

  /** A string yields its trimmed form. */
  lemma ShapeString(s: string)
    ensures NormalizeToMessages(Some(JStr(s))) == TrimmedMessage(s)
  {
  }

  /** A one-string array yields the string's trimmed form. */
  lemma ShapeArray(s: string)
    ensures NormalizeToMessages(Some(JArr([JStr(s)]))) == TrimmedMessage(s)
  {
    OneStringArray(s);
  }

  /** A one-key dictionary holding a string or a one-string array yields the string's trimmed form. */
  lemma ShapeDictionary(key: string, v: Json)
    requires v.JStr? || (v.JArr? && |v.items| == 1 && v.items[0].JStr?)
    ensures NormalizeToMessages(Some(JObj([Field(key, v)]))) == TrimmedMessage(if v.JStr? then v.s else v.items[0].s)
  {
    OneKeyDictionary(key, v);
    if v.JArr? {
      assert v.items == [JStr(v.items[0].s)];
      OneStringArray(v.items[0].s);
    }
  }

  const RegisterFailed := "Registration failed. Please try again."

  /** A trimmed string, or the default line when it is blank. */
  function OrDefault(s: string): (r: seq<string>)
    ensures |r| == 1 && IsMessage(r[0])
    ensures !IsBlank(s) ==> r == [Trim(s)]
    ensures IsBlank(s) ==> r == [RegisterFailed]
  {
    if Trim(s) == "" then [RegisterFailed] else [Trim(s)]
  }

  /** `typeof d[key] === "string" && d[key].trim()`: the trimmed string as a list of at most one line. */
  function StringMessage(d: Json, key: string): (r: seq<string>)
    ensures |r| <= 1 && forall i :: 0 <= i < |r| ==> IsMessage(r[i])
    ensures |r| == 1 <==> StringAt(d, key).Some? && !IsBlank(StringAt(d, key).value)
  {
    match StringAt(d, key)
    case Some(x) => TrimmedMessage(x)
    case None => []
  }

  /** The non-blank comma-separated pieces of a string `message`, trimmed; none when `message` is not a string. */
  function MessageParts(d: Json): (r: seq<string>)
    ensures StringAt(d, "message").None? ==> r == []
    ensures forall i :: 0 <= i < |r| ==> IsMessage(r[i])
  {
    match StringAt(d, "message") case Some(m) => KeepTrimmed(Split(m, ',')) case None => []
  }

  /** The lines an object `data` of a fetch error yields, before the default: the first non-empty of the message's pieces,
      the model errors, the detail and the title. */
  function DataMessages(d: Json): (r: seq<string>)
    ensures forall i :: 0 <= i < |r| ==> IsMessage(r[i])
    ensures |MessageParts(d)| > 0 ==> r == MessageParts(d)
    ensures |MessageParts(d)| == 0 && |NormalizeToMessages(Get(d, "errors"))| > 0 ==> r == NormalizeToMessages(Get(d, "errors"))
    ensures |MessageParts(d)| == 0 && |NormalizeToMessages(Get(d, "errors"))| == 0 && |StringMessage(d, "detail")| > 0
            ==> r == StringMessage(d, "detail")
    ensures |MessageParts(d)| == 0 && |NormalizeToMessages(Get(d, "errors"))| == 0 && |StringMessage(d, "detail")| == 0
            ==> r == StringMessage(d, "title")
    ensures r == [] <==> && |MessageParts(d)| == 0 && |NormalizeToMessages(Get(d, "errors"))| == 0
                         && |StringMessage(d, "detail")| == 0 && |StringMessage(d, "title")| == 0
  {
    var parts := MessageParts(d);
    if |parts| > 0 then parts
    else
      var modelErrors := NormalizeToMessages(Get(d, "errors"));
      if |modelErrors| > 0 then modelErrors
      else
        var detail := StringMessage(d, "detail");
        if |detail| > 0 then detail else StringMessage(d, "title")
  }

  /** `getErrorMessages`: a non-empty list of trimmed, non-empty lines. */
  function GetErrorMessages(error: Json): (r: seq<string>)
    ensures |r| > 0
    ensures forall i :: 0 <= i < |r| ==> IsMessage(r[i])
    ensures !Has(error, "status") && StringAt(error, "message").None? ==> r == [RegisterFailed]
    ensures !Has(error, "status") && StringAt(error, "message").Some? ==> r == OrDefault(StringAt(error, "message").value)
    ensures Has(error, "status") && Get(error, "data").Some? && Get(error, "data").value.JStr?
            ==> r == OrDefault(Get(error, "data").value.s)
    ensures Has(error, "status") && Get(error, "data").Some? && Get(error, "data").value.JObj?
            ==> r == (if |DataMessages(Get(error, "data").value)| > 0 then DataMessages(Get(error, "data").value) else [RegisterFailed])
    ensures Has(error, "status") && Get(error, "data").None? ==> r == [RegisterFailed]
    ensures Has(error, "status") && Get(error, "data").Some? && !Get(error, "data").value.JStr? && !Get(error, "data").value.JObj?
            ==> r == [RegisterFailed]
  {
    if Has(error, "status") then
      match Get(error, "data")
      case Some(JStr(s)) => OrDefault(s)
      case Some(d) =>
        var m := if Truthy(d) && IsObjectLike(d) then DataMessages(d) else [];
        if |m| > 0 then m else [RegisterFailed]
      case None => [RegisterFailed]
    else
      match StringAt(error, "message")
      case Some(s) => OrDefault(s)
      case None => [RegisterFailed]
  }

  /** A field listed first is the one read. */
  lemma FirstFieldRead(key: string, v: Json, rest: seq<Field>)
    ensures Get(JObj([Field(key, v)] + rest), key) == Some(v)
  {
  }

  /** The `data` of a `{status, data}` error object. */
  lemma StatusErrorData(status: Json, data: Json)
    ensures Has(JObj([Field("status", status), Field("data", data)]), "status")
    ensures Get(JObj([Field("status", status), Field("data", data)]), "data") == Some(data)
  {
    var fields := [Field("status", status), Field("data", data)];
    assert "status" != "data" by { assert "status"[0] != "data"[0]; }
    assert fields[1..] == [Field("data", data)];
    assert FieldValue(fields[1..], "data") == Some(data);
  }

  /** A `message` made of comma-separated lines is read as those lines, whatever else the body holds. */
  lemma MessagePartsFirst(msgs: seq<string>, more: seq<Field>)
    requires |msgs| > 0
    requires forall i :: 0 <= i < |msgs| ==> IsMessage(msgs[i]) && ',' !in msgs[i]
    ensures DataMessages(JObj([Field("message", JStr(Join(msgs, ",")))] + more)) == msgs
  {
    var d := JObj([Field("message", JStr(Join(msgs, ",")))] + more);
    MessagePartsOfJoin(msgs, more);
    assert |MessageParts(d)| > 0;
  }

  /** The pieces of a comma-joined `message` listed first are the joined lines. */
  lemma MessagePartsOfJoin(msgs: seq<string>, more: seq<Field>)
    requires forall i :: 0 <= i < |msgs| ==> IsMessage(msgs[i]) && ',' !in msgs[i]
    ensures MessageParts(JObj([Field("message", JStr(Join(msgs, ",")))] + more)) == msgs
  {
    var text := Join(msgs, ",");
    var j := JObj([Field("message", JStr(text))] + more);
    FirstFieldRead("message", JStr(text), more);
    assert StringAt(j, "message") == Some(text);
    assert MessageParts(j) == KeepTrimmed(Split(text, ','));
    if |msgs| == 0 {
      assert Split(text, ',') == [""];
      assert KeepTrimmed([""]) == [];
    } else {
      SplitJoin(msgs, ',');
      KeepTrimmedFixed(msgs);
    }
  }

  /** A fetch error whose object body yields lines shows those lines. */
  lemma BodyLinesShown(error: Json, d: Json)
    requires Has(error, "status") && Get(error, "data") == Some(d) && d.JObj?
    requires |DataMessages(d)| > 0
    ensures GetErrorMessages(error) == DataMessages(d)
  {
  }

  /** A `{status: 400, data}` error with an object body that yields lines shows those lines. */
  lemma StatusBodyLinesShown(data: Json)
    requires data.JObj? && |DataMessages(data)| > 0
    ensures GetErrorMessages(JObj([Field("status", JNum(400)), Field("data", data)])) == DataMessages(data)
  {
    StatusErrorData(JNum(400), data);
    BodyLinesShown(JObj([Field("status", JNum(400)), Field("data", data)]), data);
  }

  /** The server's comma-joined `message` comes back as its parts, ahead of any other field of the body. */
  lemma MessageSplitRoundTrip(msgs: seq<string>, more: seq<Field>)
    requires |msgs| > 0
    requires forall i :: 0 <= i < |msgs| ==> IsMessage(msgs[i]) && ',' !in msgs[i]
    ensures GetErrorMessages(JObj([Field("status", JNum(400)),
                                   Field("data", JObj([Field("message", JStr(Join(msgs, ",")))] + more))])) == msgs
  {
    MessagePartsFirst(msgs, more);
    StatusBodyLinesShown(JObj([Field("message", JStr(Join(msgs, ",")))] + more));
  }

  /** A thrown `Error` whose message is not blank shows that message, trimmed. */
  lemma ThrownErrorShown(m: string)
    requires !IsBlank(m)
    ensures GetErrorMessages(JObj([Field("message", JStr(m))])) == [Trim(m)]
  {
    var e := JObj([Field("message", JStr(m))]);
    assert "message" != "status" by { assert "message"[0] != "status"[0]; }
    assert !Has(e, "status");
    FirstFieldRead("message", JStr(m), []);
    assert StringAt(e, "message") == Some(m);
  }

  /** A validation dictionary that the shared query wrapper throws reaches the form as one line holding every message. */
  lemma ThrownValidationIsOneLine(fields: seq<Field>)
    requires BaseApi.StringLists(fields)
    requires !IsBlank(Join(BaseApi.AllMessages(fields), ", "))
    ensures GetErrorMessages(JObj([Field("message", JStr(BaseApi.ValidationMessage(JObj(fields))))]))
         == [Trim(Join(BaseApi.AllMessages(fields), ", "))]
  {
    BaseApi.ValidationMessageJoinsAll(fields);
    ThrownErrorShown(BaseApi.ValidationMessage(JObj(fields)));
  }

  /** The form's fields as typed. */
  datatype RegisterForm = RegisterForm(
    email: string,
    password: string,
    confirmPassword: string,
    fullName: string,
    businessName: string,
    phoneNumber: string,
    line1: string,
    line2: string,
    city: string,
    state: string,
    postalCode: string,
    country: string
  )

  /** The form as first shown: empty except the country. */
  const EmptyForm := RegisterForm("", "", "", "", "", "", "", "", "", "", "", "US")

  /** `canSubmit`: not loading, and every field but the business name and second line non-blank. */
  predicate CanSubmit(f: RegisterForm, isLoading: bool)
    ensures CanSubmit(f, isLoading) && f.password == f.confirmPassword ==>
      && Submit(f).Ok? && Submit(f).value.email != "" && Submit(f).value.fullName.value != ""
      && var a := Submit(f).value.shippingAddress.value;
         a.line1 != "" && a.city != "" && a.state != "" && a.postalCode != "" && a.country != "" && a.phoneNumber != ""
  {
    && !isLoading
    && !IsBlank(f.email) && !IsBlank(f.password) && !IsBlank(f.confirmPassword)
    && !IsBlank(f.fullName) && !IsBlank(f.phoneNumber) && !IsBlank(f.line1)
    && !IsBlank(f.city) && !IsBlank(f.state) && !IsBlank(f.postalCode) && !IsBlank(f.country)
  }

  /** The optional fields are never required, and a fresh form cannot be submitted. */
  lemma OptionalFieldsNotRequired(f: RegisterForm, isLoading: bool, businessName: string, line2: string)
    ensures CanSubmit(f, isLoading) <==> CanSubmit(f.(businessName := businessName, line2 := line2), isLoading)
    ensures !CanSubmit(EmptyForm, isLoading)
  {
  }

  const PasswordMismatch := "Passwords do not match."

  /** `trim() || undefined`. */
  function Optional(s: string): (r: Option<string>)
    ensures r.None? <==> IsBlank(s)
    ensures r.Some? ==> r.value == Trim(s) && r.value != ""
  {
    if Trim(s) == "" then None else Some(Trim(s))
  }

  /** `handleSubmit`: the mismatch message and no request, or the request with every field but the password trimmed. */
  function Submit(f: RegisterForm): (r: Result<Account.RegisterDto, string>)
    ensures r.Err? <==> f.password != f.confirmPassword
    ensures r.Err? ==> r.error == PasswordMismatch
    ensures r.Ok? ==> r.value.password == f.password && r.value.email == Trim(f.email)
                      && r.value.fullName == Some(Trim(f.fullName)) && r.value.businessName == Optional(f.businessName)
    ensures r.Ok? ==> r.value.shippingAddress == Some(Account.AddressDto(
      Trim(f.fullName), Trim(f.line1), Optional(f.line2), Trim(f.city), Trim(f.state),
      Trim(f.postalCode), Trim(f.country), Trim(f.phoneNumber)))
  {
    if f.password != f.confirmPassword then Err(PasswordMismatch)
    else
      Ok(Account.RegisterDto(
        Trim(f.email), f.password, Some(Trim(f.fullName)), Optional(f.businessName),
        Some(Account.AddressDto(Trim(f.fullName), Trim(f.line1), Optional(f.line2), Trim(f.city), Trim(f.state),
                                Trim(f.postalCode), Trim(f.country), Trim(f.phoneNumber)))))
  }

  /** What a form with matching passwords and a name sends is already in the server's normal form: the server stores the email,
      business name and address name exactly as sent. */
  lemma ServerKeepsSubmittedForm(f: RegisterForm, newId: string)
    requires f.password == f.confirmPassword && !IsBlank(f.fullName)
    ensures var dto := Submit(f).value; var u := Account.RegisteredUser(dto, newId);
      && u.email == dto.email && u.userName == dto.email
      && u.businessName == dto.businessName
      && u.shippingAddress.Some? && u.shippingAddress.value.fullName == Trim(f.fullName)
      && u.shippingAddress.value.line1 == Trim(f.line1) && u.shippingAddress.value.line2 == Optional(f.line2)
  {
    var dto := Submit(f).value;
    var a := dto.shippingAddress.value;
    assert Trim(dto.email) == dto.email;
    assert Account.NormalizeBusinessName(dto.businessName) == dto.businessName by {
      if dto.businessName.Some? {
        assert !IsBlank(dto.businessName.value);
      }
    }
    assert !IsBlank(a.fullName) by {
      assert Trim(a.fullName) == a.fullName;
    }
    var address := Account.RegisteredAddress(dto, a, newId);
    assert address.fullName == Trim(f.fullName);
  }
}
