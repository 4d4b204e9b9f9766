/**
 * `handleSubmit` end to end: build the options from the form, hand them to
 * `fetch` together with the URL, and normalise what comes back. The network
 * exchange and `JSON.parse` are parameters of the model.
 */
module Submit {
  import opened Wrappers
  import opened JsBuiltins
  import opened Form
  import opened RequestBuilder
  import opened ResponseNormaliser

  /**
   * One submission. `fetch` stands for the awaited `fetch(url, options)`
   * followed by `response.text()`, `parse` for `JSON.parse`. The request goes
   * to the form's URL with the options `RequestOptionsOf` describes, and the
   * stored response is the normalisation of what the exchange delivered.
   */
  method HandleSubmit<J>(d: RequestData, fetch: (string, RequestOptions) -> FetchOutcome, parse: string -> Option<J>)
    returns (response: Response<J>)
    ensures response == Normalized(fetch(d.url, RequestOptionsOf(d)), parse)
  {
    var requestOptions := BuildRequestOptions(d);
    var outcome := fetch(d.url, requestOptions);
    response := HandleResponse(outcome, parse);
  }

  /** A GET request never carries a body, whatever the fields hold. */
  lemma GetHasNoBody(d: RequestData)
    requires d.httpMethod == "GET"
    ensures RequestOptionsOf(d) == RequestOptions("GET", [("Content-Type", "application/json")], None)
  {
  }

  /** The form as the component starts: a GET to the signup URL without a body. */
  lemma InitialRequest()
    ensures RequestOptionsOf(Initial) == RequestOptions("GET", JsonHeaders, None)
    ensures Initial.url == "https://prelim-exam.onrender.com/signup"
  {
  }

  /** DELETE or PUT with every field empty (and no raw body for PUT) sends no body. */
  lemma EmptyFieldsSendNoBody(d: RequestData)
    requires d.httpMethod == "DELETE" || (d.httpMethod == "PUT" && d.body == "")
    requires AllFieldsEmpty(d)
    ensures RequestOptionsOf(d).body == None
  {
  }

  /** POST with username "Smith" and age "21": the age is sent as the number 21. */
  lemma SignupWithNumericAge()
    ensures var d := Initial.(httpMethod := "POST", username := "Smith", age := "21");
      RequestOptionsOf(d).body == Some(JsonFields([("username", Str("Smith")), ("age", Num(21))]))
  {
    var d := Initial.(httpMethod := "POST", username := "Smith", age := "21");
    CoerceAgeNumeric("", 21, "");
    assert "" + DecimalString(21) + "" == "21";
    assert CoerceAge("21") == Num(21);
    TwoFieldBody(d, ("username", Str("Smith")), ("age", Num(21)));
  }

  /** POST with age "twenty-one": the age stays the string. */
  lemma SignupWithTextAge()
    ensures var d := Initial.(httpMethod := "POST", username := "Smith", age := "twenty-one");
      RequestOptionsOf(d).body == Some(JsonFields([("username", Str("Smith")), ("age", Str("twenty-one"))]))
  {
    var d := Initial.(httpMethod := "POST", username := "Smith", age := "twenty-one");
    CoerceAgeText("", "twenty-one");
    assert "" + "twenty-one" == "twenty-one";
    assert CoerceAge("twenty-one") == Str("twenty-one");
    TwoFieldBody(d, ("username", Str("Smith")), ("age", Str("twenty-one")));
  }

  /** A form whose only non-empty fields are the username and the age. */
  lemma TwoFieldBody(d: RequestData, user: (string, Value), age: (string, Value))
    requires d.httpMethod == "POST" && d.username != "" && d.age != ""
    requires d.password == "" && d.authKey == "" && d.ownerId == ""
    requires d.name == "" && d.kind == "" && d.role == ""
    requires user == ("username", Str(d.username)) && age == ("age", CoerceAge(d.age))
    ensures RequestOptionsOf(d).body == Some(JsonFields([user, age]))
  {
    BodyEntriesInBuilderOrder(d);
    StepsSpelledOut(d);
    assert BuilderSteps(d) == [user] + [] + [age] + [] + [] + [] + [] + [];
    assert [user] + [] + [age] + [] + [] + [] + [] + [] == [user, age];
    assert !AllFieldsEmpty(d) by { assert Raw(d, Username) != ""; }
    assert SendsFieldBody(d.httpMethod);
    var o := RequestOptionsOf(d);
    assert o.body.Some? && o.body.value.JsonFields?;
  }
}
