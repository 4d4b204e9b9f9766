/**
 * The response half of `handleSubmit`: what the component stores once the
 * exchange is over, either the normalised response record or the error
 * record built in the `catch` block.
 */
module ResponseNormaliser {
  import opened Wrappers
  import opened JsBuiltins

  /**
   * What the awaited calls deliver: the response of `fetch` with the text
   * `response.text()` read from it, or the error one of them threw.
   */
  datatype FetchOutcome =
    | Completed(status: int, statusText: string, headerEntries: Entries, text: string)
    | Threw(message: string)

  /** `responseData`: the value `JSON.parse` produced, or the text itself when it threw. */
  datatype Data<J> = Json(value: J) | Text(text: string)

  /** The object given to `setResponse`. */
  datatype Response<J> =
    | Received(status: int, statusText: string, headers: Entries, data: Data<J>, size: nat)
    | Failed(message: string)

  /**
   * The normalised response. `parse` stands for `JSON.parse`, `None` when it
   * throws. Any completed exchange is a `Received` record, whatever its
   * status; only a thrown error gives `Failed`, which carries nothing but the
   * message.
   */
  function Normalized<J>(outcome: FetchOutcome, parse: string -> Option<J>): (r: Response<J>)
    ensures outcome.Threw? <==> r.Failed?
    ensures outcome.Threw? ==> r == Failed(outcome.message)
    ensures outcome.Completed? ==>
      && r.status == outcome.status
      && r.statusText == outcome.statusText
      && (r.data.Json? <==> parse(outcome.text).Some?)
      && (r.data.Json? ==> r.data.value == parse(outcome.text).value)
      && (r.data.Text? ==> r.data.text == outcome.text)
      && r.size == Utf16Length(outcome.text)
      && |outcome.text| <= r.size <= 2 * |outcome.text|
      && (r.size == |outcome.text| <==> forall i :: 0 <= i < |outcome.text| ==> InBmp(outcome.text[i]))
      && DistinctKeys(r.headers)
      && Keys(r.headers) == Keys(outcome.headerEntries)
      && (forall k :: Lookup(r.headers, k) == LastValue(outcome.headerEntries, k))
  {
    match outcome
    case Threw(message) => Failed(message)
    case Completed(status, statusText, entries, text) =>
      FromEntriesFacts(entries);
      var data := match parse(text) case Some(v) => Json(v) case None => Text(text);
      Received(status, statusText, FromEntries(entries), data, Utf16Length(text))
  }

  /**
   * Lines 78-107 as the component runs them: `responseData` is first the
   * parsed value and is reassigned to the text when parsing throws.
   */
  method HandleResponse<J>(outcome: FetchOutcome, parse: string -> Option<J>) returns (r: Response<J>)
    ensures r == Normalized(outcome, parse)
  {
    match outcome {
      case Threw(message) =>
        r := Failed(message);
      case Completed(status, statusText, entries, text) =>
        var parsed := parse(text);
        var responseData: Data<J>;
        if parsed.Some? {
          responseData := Json(parsed.value);
        } else {
          responseData := Text(text);
        }
        var headers := FromEntries(entries);
        r := Received(status, statusText, headers, responseData, Utf16Length(text));
    }
  }

  /**
   * A non-2xx status is not an error: a 500 whose body "Internal Error" is
   * not JSON is kept with its status, its text as data and a size of 14.
   */
  lemma ServerErrorIsReceived<J>(parse: string -> Option<J>, statusText: string)
    requires parse("Internal Error") == None
    ensures Normalized(Completed(500, statusText, [], "Internal Error"), parse)
         == Received(500, statusText, [], Text("Internal Error"), 14)
  {
    var text := "Internal Error";
    assert forall i :: 0 <= i < |text| ==> InBmp(text[i]);
    assert Utf16Length(text) == 14;
  }

  /** A thrown network error gives the error record with its message only. */
  lemma ThrownErrorIsFailed<J>(parse: string -> Option<J>, message: string)
    ensures Normalized(Threw(message), parse) == Failed(message)
  {
  }
}
