/**
  * A JSON-like value for the error payloads the client inspects: an RTK Query
  * error object, its `data` (an ASP.NET `ProblemDetails`, a validation
  * dictionary, a plain string) and nested values. Numbers are whole; a missing
  * property is `None`.
  */
module Json {
  import opened Wrappers
  import opened Text
  import Queries

  datatype Json =
    | JNull
    | JBool(b: bool)
    | JNum(n: int)
    | JStr(s: string)
    | JArr(items: seq<Json>)
    | JObj(fields: seq<Field>)

  /** A property; an object's fields are listed in enumeration order. */
  datatype Field = Field(key: string, value: Json)

  /** `obj[key]`: the property's value, or `None` (undefined) when it is absent or `j` is not an object. */
  function Get(j: Json, key: string): (r: Option<Json>)
    ensures r.None? <==> !j.JObj? || forall i :: 0 <= i < |j.fields| ==> j.fields[i].key != key
    ensures r.Some? ==> exists i :: 0 <= i < |j.fields| && j.fields[i] == Field(key, r.value)
  {
    if !j.JObj? then None else FieldValue(j.fields, key)
  }

  /** The value of the first field named `key`. */
  function FieldValue(fields: seq<Field>, key: string): (r: Option<Json>)
    ensures r.None? <==> forall i :: 0 <= i < |fields| ==> fields[i].key != key
    ensures r.Some? ==> exists i :: 0 <= i < |fields| && fields[i] == Field(key, r.value)
  {
    if |fields| == 0 then None
    else if fields[0].key == key then Some(fields[0].value)
    else
      var r := FieldValue(fields[1..], key);
      assert forall i :: 1 <= i < |fields| ==> fields[i] == fields[1..][i - 1];
      r
  }

  /** `key in obj`. */
  predicate Has(j: Json, key: string)
  {
    Get(j, key).Some?
  }

  /** `typeof obj[key] === "string"`, with the string. */
  function StringAt(j: Json, key: string): (r: Option<string>)
    ensures r.Some? <==> Has(j, key) && Get(j, key).value.JStr?
    ensures r.Some? ==> Get(j, key) == Some(JStr(r.value))
  {
    match Get(j, key)
    case Some(JStr(s)) => Some(s)
    case _ => None
  }

  /** JavaScript truthiness of a present value. */
  predicate Truthy(j: Json)
  {
    match j
    case JNull => false
    case JBool(b) => b
    case JNum(n) => n != 0
    case JStr(s) => s != ""
    case _ => true
  }

  /** `typeof v === "object" && v !== null`: objects and arrays. */
  predicate IsObjectLike(j: Json)
  {
    j.JObj? || j.JArr?
  }

  /** `.filter(v => typeof v === "string").map(s => s.trim()).filter(Boolean)`. */
  function TrimmedStrings(items: seq<Json>): (r: seq<string>)
    ensures forall i :: 0 <= i < |r| ==> IsMessage(r[i])
    decreases |items|
  {
    if |items| == 0 then []
    else
      var rest := TrimmedStrings(items[..|items| - 1]);
      var last := items[|items| - 1];
      if last.JStr? && Trim(last.s) != "" then rest + [Trim(last.s)] else rest
  }

  /** A string item that survives trimming, as `m`. */
  predicate KeepsAs(j: Json, m: string)
  {
    j.JStr? && Trim(j.s) == m && m != ""
  }

  /** One more item adds its trimmed form when it is a non-blank string. */
  lemma TrimmedStringsSnoc(items: seq<Json>, j: Json)
    ensures TrimmedStrings(items + [j]) == TrimmedStrings(items) + (if j.JStr? && Trim(j.s) != "" then [Trim(j.s)] else [])
  {
    var w := items + [j];
    assert w[..|w| - 1] == items;
  }

  /** Every kept line comes from a string item. */
  lemma {:induction false} TrimmedStringsSound(items: seq<Json>, m: string) returns (i: nat)
    requires m in TrimmedStrings(items)
    ensures i < |items| && KeepsAs(items[i], m)
    decreases |items|
  {
    var init := items[..|items| - 1];
    var last := items[|items| - 1];
    if m in TrimmedStrings(init) {
      i := TrimmedStringsSound(init, m);
      assert items[i] == init[i];
    } else {
      var kept := TrimmedStrings(init);
      if last.JStr? && Trim(last.s) != "" {
        assert TrimmedStrings(items) == kept + [Trim(last.s)];
        assert m == Trim(last.s);
      } else {
        assert false;
      }
      i := |items| - 1;
    }
  }

  /** Every string item that survives trimming is kept. */
  lemma {:induction false} TrimmedStringsComplete(items: seq<Json>, i: nat, m: string)
    requires i < |items| && KeepsAs(items[i], m)
    ensures m in TrimmedStrings(items)
    decreases |items|
  {
    var init := items[..|items| - 1];
    var last := items[|items| - 1];
    Queries.SplitLast(items);
    TrimmedStringsSnoc(init, last);
    if i < |init| {
      assert init[i] == items[i];
      TrimmedStringsComplete(init, i, m);
    } else {
      assert last == items[i];
    }
  }

  /** `TrimmedStrings` keeps exactly the trimmed forms of the non-blank strings. */
  lemma TrimmedStringsMembers(items: seq<Json>, m: string)
    ensures m in TrimmedStrings(items) <==> exists i :: 0 <= i < |items| && KeepsAs(items[i], m)
  {
    if m in TrimmedStrings(items) {
      var i := TrimmedStringsSound(items, m);
    }
    forall i | 0 <= i < |items| && KeepsAs(items[i], m)
      ensures m in TrimmedStrings(items)
    {
      TrimmedStringsComplete(items, i, m);
    }
  }

  /** Keeping strings distributes over concatenation. */
  lemma {:induction false} TrimmedStringsAppend(a: seq<Json>, b: seq<Json>)
    ensures TrimmedStrings(a + b) == TrimmedStrings(a) + TrimmedStrings(b)
    decreases |b|
  {
    if |b| == 0 {
      assert a + b == a;
    } else {
      var b' := b[..|b| - 1];
      var j := b[|b| - 1];
      assert b == b' + [j];
      assert a + b == (a + b') + [j];
      TrimmedStringsAppend(a, b');
      TrimmedStringsSnoc(a + b', j);
      TrimmedStringsSnoc(b', j);
      Queries.AppendAssoc(TrimmedStrings(a), TrimmedStrings(b'), if j.JStr? && Trim(j.s) != "" then [Trim(j.s)] else []);
    }
  }
}
