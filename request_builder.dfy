/**
 * The request half of `handleSubmit`: from the form record to the options
 * object handed to `fetch` (method, the fixed JSON content-type header and
 * an optional body).
 */
module RequestBuilder {
  import opened Wrappers
  import opened JsBuiltins
  import opened Form

  /** A property value of the JSON body: the builder only ever stores strings and numbers. */
  datatype Value = Str(s: string) | Num(n: int)

  /**
   * `requestOptions.body`: the raw body string, or the object built from the
   * fields (stringified by `JSON.stringify`), given as its properties in order.
   */
  datatype Body = RawText(text: string) | JsonFields(entries: seq<(string, Value)>)

  datatype RequestOptions = RequestOptions(httpMethod: string, headers: seq<(string, string)>, body: Option<Body>)

  const JsonHeaders: seq<(string, string)> := [("Content-Type", "application/json")]

  /** The methods for which the raw body string is sent. */
  predicate SendsRawBody(m: string) {
    m == "POST" || m == "PUT" || m == "PATCH"
  }

  /** The methods for which the body is built from the fields. */
  predicate SendsFieldBody(m: string) {
    m == "POST" || m == "PUT" || m == "DELETE" || m == "PATCH"
  }

  /** `parseInt(age) || age`: NaN and 0 are falsy, so they leave the string in place. */
  function CoerceAge(age: string): (v: Value)
    ensures v.Str? <==> ParseInt(age) == None || ParseInt(age) == Some(0)
    ensures v.Str? ==> v.s == age
    ensures v.Num? ==> ParseInt(age) == Some(v.n) && v.n != 0
  {
    match ParseInt(age)
    case Some(n) => if n != 0 then Num(n) else Str(age)
    case None => Str(age)
  }

  /** The property a present field contributes to the body. */
  function FieldEntry(d: RequestData, f: Field): (e: (string, Value))
    ensures e.0 == Key(f)
    ensures f != Age ==> e.1 == Str(Raw(d, f))
    ensures f == Age ==> e.1 == CoerceAge(d.age)
  {
    (Key(f), if f == Age then CoerceAge(d.age) else Str(Raw(d, f)))
  }

  /** The fields of `fs`, in that order, whose form value is truthy (a non-empty string). */
  function PresentFields(d: RequestData, fs: seq<Field>): (p: seq<Field>)
    ensures |p| <= |fs|
    ensures forall i :: 0 <= i < |p| ==> Raw(d, p[i]) != ""
  {
    if fs == [] then []
    else (if Raw(d, fs[0]) != "" then [fs[0]] else []) + PresentFields(d, fs[1..])
  }

  /** The properties the conditional assignments of the builder add, field by field. */
  function EntriesOf(d: RequestData, fs: seq<Field>): (e: seq<(string, Value)>)
    ensures |e| <= |fs|
  {
    if fs == [] then []
    else (if Raw(d, fs[0]) != "" then [FieldEntry(d, fs[0])] else []) + EntriesOf(d, fs[1..])
  }

  /** `bodyData` once every field has been visited. */
  function BodyEntries(d: RequestData): (e: seq<(string, Value)>)
    ensures |e| <= 8
  {
    EntriesOf(d, FieldOrder)
  }

  lemma {:induction false} EntriesOfPresent(d: RequestData, fs: seq<Field>)
    ensures |EntriesOf(d, fs)| == |PresentFields(d, fs)|
    ensures forall i :: 0 <= i < |EntriesOf(d, fs)| ==> EntriesOf(d, fs)[i] == FieldEntry(d, PresentFields(d, fs)[i])
  {
    if fs != [] {
      EntriesOfPresent(d, fs[1..]);
    }
  }

  lemma {:induction false} PresentFieldsMembers(d: RequestData, fs: seq<Field>)
    ensures forall f :: f in PresentFields(d, fs) <==> f in fs && Raw(d, f) != ""
  {
    if fs != [] {
      PresentFieldsMembers(d, fs[1..]);
      assert fs == [fs[0]] + fs[1..];
    }
  }

  predicate InFieldOrder(fs: seq<Field>) {
    forall i, j :: 0 <= i < j < |fs| ==> Position(fs[i]) < Position(fs[j])
  }

  lemma FieldOrderInOrder()
    ensures InFieldOrder(FieldOrder)
  {
    forall i | 0 <= i < |FieldOrder| ensures Position(FieldOrder[i]) == i {
    }
  }

  lemma {:induction false} PresentFieldsOrdered(d: RequestData, fs: seq<Field>)
    requires InFieldOrder(fs)
    ensures InFieldOrder(PresentFields(d, fs))
  {
    if fs != [] {
      var rest := PresentFields(d, fs[1..]);
      assert InFieldOrder(fs[1..]) by {
        forall i, j | 0 <= i < j < |fs[1..]| ensures Position(fs[1..][i]) < Position(fs[1..][j]) {
          assert fs[1..][i] == fs[i + 1] && fs[1..][j] == fs[j + 1];
        }
      }
      PresentFieldsOrdered(d, fs[1..]);
      PresentFieldsMembers(d, fs[1..]);
      forall g | g in rest ensures Position(fs[0]) < Position(g) {
        var k :| 0 <= k < |fs[1..]| && fs[1..][k] == g;
        assert fs[k + 1] == g;
      }
    }
  }

  /**
   * The field-built body holds one property per non-empty field and no
   * other; the properties come in the fixed order username, password, age,
   * authKey, ownerId, name, type, role; every key is the field's own name and
   * no key repeats; every value but age's is the form string unchanged.
   */
  lemma BodyEntriesSpec(d: RequestData)
    ensures var e, p := BodyEntries(d), PresentFields(d, FieldOrder);
      && |e| == |p|
      && (forall i :: 0 <= i < |e| ==> e[i] == FieldEntry(d, p[i]))
      && (forall f :: f in p <==> Raw(d, f) != "")
      && InFieldOrder(p)
      && (forall i, j :: 0 <= i < j < |e| ==> e[i].0 != e[j].0)
      && (forall i :: 0 <= i < |e| && p[i] != Age ==> e[i].1 == Str(Raw(d, p[i])))
      && (e == [] <==> AllFieldsEmpty(d))
  {
    EntriesOfPresent(d, FieldOrder);
    PresentFieldsOfTable(d);
    FieldOrderInOrder();
    PresentFieldsOrdered(d, FieldOrder);
    BodyKeysDistinct(d);
    BodyEntriesEmpty(d);
  }

  /** Every field is in the table, so the present ones are exactly the non-empty ones. */
  lemma PresentFieldsOfTable(d: RequestData)
    ensures forall f :: f in PresentFields(d, FieldOrder) <==> Raw(d, f) != ""
  {
    PresentFieldsMembers(d, FieldOrder);
    forall f ensures f in FieldOrder { assert FieldOrder[Position(f)] == f; }
  }

  lemma BodyKeysDistinct(d: RequestData)
    ensures var e := BodyEntries(d); forall i, j :: 0 <= i < j < |e| ==> e[i].0 != e[j].0
  {
    var e, p := BodyEntries(d), PresentFields(d, FieldOrder);
    EntriesOfPresent(d, FieldOrder);
    FieldOrderInOrder();
    PresentFieldsOrdered(d, FieldOrder);
    forall i, j | 0 <= i < j < |e| ensures e[i].0 != e[j].0 {
      KeyInjective(p[i], p[j]);
    }
  }

  lemma BodyEntriesEmpty(d: RequestData)
    ensures BodyEntries(d) == [] <==> AllFieldsEmpty(d)
  {
    var e, p := BodyEntries(d), PresentFields(d, FieldOrder);
    EntriesOfPresent(d, FieldOrder);
    PresentFieldsOfTable(d);
    if e == [] {
      forall f ensures Raw(d, f) == "" { assert f !in p; }
    } else {
      assert p[0] in p;
    }
  }

  /** The body the builder writes into `requestOptions`, if any. */
  function BodyOf(d: RequestData): (b: Option<Body>)
    ensures b.Some? ==> SendsFieldBody(d.httpMethod)
    ensures (b.Some? && b.value.JsonFields?) <==> SendsFieldBody(d.httpMethod) && BodyEntries(d) != []
    ensures (b.Some? && b.value.RawText?) <==> SendsRawBody(d.httpMethod) && d.body != "" && !(SendsFieldBody(d.httpMethod) && BodyEntries(d) != [])
    ensures b.Some? && b.value.JsonFields? ==> b.value.entries == BodyEntries(d)
    ensures b.Some? && b.value.RawText? ==> b.value.text == d.body
  {
    if SendsFieldBody(d.httpMethod) && BodyEntries(d) != [] then Some(JsonFields(BodyEntries(d)))
    else if SendsRawBody(d.httpMethod) && d.body != "" then Some(RawText(d.body))
    else None
  }

  /**
   * The options object `handleSubmit` gives to `fetch`. The method is copied,
   * the only header is the JSON content type; GET (or any method outside the
   * four body methods) never has a body; the field-built JSON is attached
   * exactly when the method allows it and some field is non-empty, and it
   * wins over the raw body; the raw body survives only for POST, PUT and
   * PATCH, when it is non-empty and every field is empty.
   */
  function RequestOptionsOf(d: RequestData): (o: RequestOptions)
    ensures o.httpMethod == d.httpMethod && o.headers == JsonHeaders
    ensures o.body.Some? ==> SendsFieldBody(d.httpMethod)
    ensures (o.body.Some? && o.body.value.JsonFields?) <==> SendsFieldBody(d.httpMethod) && !AllFieldsEmpty(d)
    ensures (o.body.Some? && o.body.value.RawText?) <==> SendsRawBody(d.httpMethod) && d.body != "" && AllFieldsEmpty(d)
    ensures o.body.Some? && o.body.value.JsonFields? ==> o.body.value.entries == BodyEntries(d)
    ensures o.body.Some? && o.body.value.RawText? ==> o.body.value.text == d.body
  {
    BodyEntriesSpec(d);
    RequestOptions(d.httpMethod, JsonHeaders, BodyOf(d))
  }

  /** Step `f` of the builder: the property it adds, if the field is non-empty. */
  function Step(d: RequestData, f: Field): seq<(string, Value)> {
    if Raw(d, f) != "" then [FieldEntry(d, f)] else []
  }

  /** Walking a field list from position `i` on: step `i`, then the rest. */
  lemma EntriesOfSuffix(d: RequestData, fs: seq<Field>, i: nat)
    requires i < |fs|
    ensures EntriesOf(d, fs[i..]) == Step(d, fs[i]) + EntriesOf(d, fs[i + 1..])
  {
    assert fs[i..][1..] == fs[i + 1..];
  }

  /** A list of eight fields gives its eight steps in a row. */
  lemma EntriesOfEight(d: RequestData, fs: seq<Field>)
    requires |fs| == 8
    ensures EntriesOf(d, fs) == Step(d, fs[0]) + Step(d, fs[1]) + Step(d, fs[2]) + Step(d, fs[3])
                              + Step(d, fs[4]) + Step(d, fs[5]) + Step(d, fs[6]) + Step(d, fs[7])
  {
    EntriesOfSuffix(d, fs, 0);
    EntriesOfSuffix(d, fs, 1);
    EntriesOfSuffix(d, fs, 2);
    EntriesOfSuffix(d, fs, 3);
    EntriesOfSuffix(d, fs, 4);
    EntriesOfSuffix(d, fs, 5);
    EntriesOfSuffix(d, fs, 6);
    EntriesOfSuffix(d, fs, 7);
    assert fs[0..] == fs;
    Unroll8(EntriesOf(d, fs), EntriesOf(d, fs[1..]), EntriesOf(d, fs[2..]), EntriesOf(d, fs[3..]), EntriesOf(d, fs[4..]), EntriesOf(d, fs[5..]), EntriesOf(d, fs[6..]), EntriesOf(d, fs[7..]), EntriesOf(d, fs[8..]),
      Step(d, fs[0]), Step(d, fs[1]), Step(d, fs[2]), Step(d, fs[3]), Step(d, fs[4]), Step(d, fs[5]), Step(d, fs[6]), Step(d, fs[7]));
  }

  /** The eight steps, appended one after the other as the builder does. */
  function BuilderSteps(d: RequestData): seq<(string, Value)> {
    Step(d, Username) + Step(d, Password) + Step(d, Age) + Step(d, AuthKey)
    + Step(d, OwnerId) + Step(d, Name) + Step(d, Type) + Step(d, Role)
  }

  /** Walking the field table gives the same properties as the eight steps in a row. */
  lemma BodyEntriesInBuilderOrder(d: RequestData)
    ensures BodyEntries(d) == BuilderSteps(d)
  {
    EntriesOfEight(d, FieldOrder);
  }

  /**
   * A sequence built by eight prepends, `e0 == s0 + e1`, …, `e7 == s7 + e8`,
   * ending in the empty sequence, is the eight parts appended left to right.
   */
  lemma Unroll8<T>(e0: seq<T>, e1: seq<T>, e2: seq<T>, e3: seq<T>, e4: seq<T>, e5: seq<T>, e6: seq<T>, e7: seq<T>, e8: seq<T>,
                   s0: seq<T>, s1: seq<T>, s2: seq<T>, s3: seq<T>, s4: seq<T>, s5: seq<T>, s6: seq<T>, s7: seq<T>)
    requires e0 == s0 + e1 && e1 == s1 + e2 && e2 == s2 + e3 && e3 == s3 + e4
    requires e4 == s4 + e5 && e5 == s5 + e6 && e6 == s6 + e7 && e7 == s7 + e8 && e8 == []
    ensures e0 == s0 + s1 + s2 + s3 + s4 + s5 + s6 + s7
  {
    assert s7 + e8 == s7;
    Reassociate(s0, s1, s2 + (s3 + (s4 + (s5 + (s6 + s7)))));
    Reassociate(s0 + s1, s2, s3 + (s4 + (s5 + (s6 + s7))));
    Reassociate(s0 + s1 + s2, s3, s4 + (s5 + (s6 + s7)));
    Reassociate(s0 + s1 + s2 + s3, s4, s5 + (s6 + s7));
    Reassociate(s0 + s1 + s2 + s3 + s4, s5, s6 + s7);
    Reassociate(s0 + s1 + s2 + s3 + s4 + s5, s6, s7);
  }

  /**
   * A sequence grown by eight appends from the empty one, `b1 == b0 + s0`,
   * …, `b8 == b7 + s7`, is the eight parts appended left to right.
   */
  lemma Appended8<T>(b0: seq<T>, b1: seq<T>, b2: seq<T>, b3: seq<T>, b4: seq<T>, b5: seq<T>, b6: seq<T>, b7: seq<T>, b8: seq<T>,
                     s0: seq<T>, s1: seq<T>, s2: seq<T>, s3: seq<T>, s4: seq<T>, s5: seq<T>, s6: seq<T>, s7: seq<T>)
    requires b0 == [] && b1 == b0 + s0 && b2 == b1 + s1 && b3 == b2 + s2 && b4 == b3 + s3
    requires b5 == b4 + s4 && b6 == b5 + s5 && b7 == b6 + s6 && b8 == b7 + s7
    ensures b8 == s0 + s1 + s2 + s3 + s4 + s5 + s6 + s7
  {
    assert b1 == s0;
  }

  lemma Reassociate<T>(a: seq<T>, b: seq<T>, c: seq<T>)
    ensures a + (b + c) == (a + b) + c
  {
  }

  /** Each step, spelled out as the source writes its assignment. */
  lemma StepsSpelledOut(d: RequestData)
    ensures Step(d, Username) == if d.username != "" then [("username", Str(d.username))] else []
    ensures Step(d, Password) == if d.password != "" then [("password", Str(d.password))] else []
    ensures Step(d, Age) == if d.age != "" then [("age", CoerceAge(d.age))] else []
    ensures Step(d, AuthKey) == if d.authKey != "" then [("authKey", Str(d.authKey))] else []
    ensures Step(d, OwnerId) == if d.ownerId != "" then [("ownerId", Str(d.ownerId))] else []
    ensures Step(d, Name) == if d.name != "" then [("name", Str(d.name))] else []
    ensures Step(d, Type) == if d.kind != "" then [("type", Str(d.kind))] else []
    ensures Step(d, Role) == if d.role != "" then [("role", Str(d.role))] else []
  {
  }

  /**
   * Lines 56-66 of the builder: the empty object `bodyData` and the eight
   * assignments, each made only when its field is truthy.
   */
  method FillBodyData(d: RequestData) returns (bodyData: seq<(string, Value)>)
    ensures bodyData == BodyEntries(d)
  {
    StepsSpelledOut(d);
    bodyData := [];
    ghost var beforeUsername := bodyData;
    if d.username != "" { bodyData := bodyData + [("username", Str(d.username))]; }
    assert bodyData == beforeUsername + Step(d, Username);
    ghost var beforePassword := bodyData;
    if d.password != "" { bodyData := bodyData + [("password", Str(d.password))]; }
    assert bodyData == beforePassword + Step(d, Password);
    ghost var beforeAge := bodyData;
    if d.age != "" { bodyData := bodyData + [("age", CoerceAge(d.age))]; }
    assert bodyData == beforeAge + Step(d, Age);
    ghost var beforeAuthKey := bodyData;
    if d.authKey != "" { bodyData := bodyData + [("authKey", Str(d.authKey))]; }
    assert bodyData == beforeAuthKey + Step(d, AuthKey);
    ghost var beforeOwnerId := bodyData;
    if d.ownerId != "" { bodyData := bodyData + [("ownerId", Str(d.ownerId))]; }
    assert bodyData == beforeOwnerId + Step(d, OwnerId);
    ghost var beforeName := bodyData;
    if d.name != "" { bodyData := bodyData + [("name", Str(d.name))]; }
    assert bodyData == beforeName + Step(d, Name);
    ghost var beforeType := bodyData;
    if d.kind != "" { bodyData := bodyData + [("type", Str(d.kind))]; }
    assert bodyData == beforeType + Step(d, Type);
    ghost var beforeRole := bodyData;
    if d.role != "" { bodyData := bodyData + [("role", Str(d.role))]; }
    assert bodyData == beforeRole + Step(d, Role);
    Appended8(beforeUsername, beforePassword, beforeAge, beforeAuthKey, beforeOwnerId, beforeName, beforeType, beforeRole, bodyData,
      Step(d, Username), Step(d, Password), Step(d, Age), Step(d, AuthKey), Step(d, OwnerId), Step(d, Name), Step(d, Type), Step(d, Role));
    BodyEntriesInBuilderOrder(d);
  }

  /**
   * The builder as `handleSubmit` runs it: the options object is created,
   * its body is set to the raw string and then, possibly, overwritten by the
   * object the eight conditional assignments fill.
   */
  method BuildRequestOptions(d: RequestData) returns (opts: RequestOptions)
    ensures opts == RequestOptionsOf(d)
  {
    opts := RequestOptions(d.httpMethod, JsonHeaders, None);
    if SendsRawBody(d.httpMethod) && d.body != "" {
      opts := opts.(body := Some(RawText(d.body)));
    }
    if SendsFieldBody(d.httpMethod) {
      var bodyData := FillBodyData(d);
      if |bodyData| > 0 {
        opts := opts.(body := Some(JsonFields(bodyData)));
      }
      assert opts.body == BodyOf(d);
    }
    assert opts == RequestOptions(d.httpMethod, JsonHeaders, BodyOf(d));
  }

  // ---------------------------------------------------------------------
  // The age coercion
  // ---------------------------------------------------------------------

  /**
   * An age that reads as a nonzero integer, possibly after blanks and before
   * any non-digit tail, becomes that number: "21" and "21abc" give 21.
   */
  lemma CoerceAgeNumeric(ws: string, n: int, tail: string)
    requires forall i :: 0 <= i < |ws| ==> IsStrWhiteSpace(ws[i])
    requires n != 0
    requires tail == [] || !IsDecimalDigit(tail[0])
    ensures CoerceAge(ws + DecimalString(n) + tail) == Num(n)
  {
    var rest := DecimalString(n) + tail;
    ParseIntDecimalPrefix(n, tail);
    assert ws + DecimalString(n) + tail == ws + rest;
    ParseIntSkipsWhiteSpace(ws, rest);
    assert ParseInt(ws + rest) == Some(n);
  }

  /** An age whose integer reading is zero keeps its text: "0", "-0" and "+0" stay strings. */
  lemma CoerceAgeZero(ws: string, sign: string, tail: string)
    requires forall i :: 0 <= i < |ws| ==> IsStrWhiteSpace(ws[i])
    requires sign == "" || sign == "-" || sign == "+"
    requires tail == [] || (!IsDecimalDigit(tail[0]) && tail[0] != 'x' && tail[0] != 'X')
    ensures CoerceAge(ws + sign + "0" + tail) == Str(ws + sign + "0" + tail)
  {
    var rest := sign + "0" + tail;
    ParseIntSignedZero(sign, tail, rest);
    assert ws + sign + "0" + tail == ws + rest;
    ParseIntSkipsWhiteSpace(ws, rest);
  }

  /** An age that does not start (after blanks) with a sign or a digit stays a string. */
  lemma CoerceAgeText(ws: string, s: string)
    requires forall i :: 0 <= i < |ws| ==> IsStrWhiteSpace(ws[i])
    requires s == [] || (!IsStrWhiteSpace(s[0]) && s[0] != '-' && s[0] != '+' && !IsDecimalDigit(s[0]))
    ensures CoerceAge(ws + s) == Str(ws + s)
  {
    ParseIntNaN(ws, s);
  }
}
