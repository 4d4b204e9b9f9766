# Request composer: a Dafny model

The repository is a one-page React client for a small HTTP API. A form
holds a method, a URL and eight optional body fields (username, password,
age, authKey, ownerId, name, type, role). `handleSubmit` turns the form into
a `fetch` options object, sends the request, and stores one of two records.
A completed exchange, whatever its status, gives the status, its text, the
headers, the data (parsed JSON, or the raw text) and the size. A thrown
error gives an error flag and the message. The panel then prints the headers
one per line and colours a badge by status class.

The model covers that core, all in `client/src/App.jsx`:

- `form.dfy` (module `Form`): the form record `requestData` and its initial
  value, and the one-key update `HandleInputChange`, keyed by the control's
  `name`. In the page only the method select and the URL input call
  `handleInputChange` (lines 139 and 155). The eight field inputs have inline
  handlers, `setRequestData(prev => ({...prev, <key>: e.target.value}))`
  (from line 181 on), with the same effect; the `FieldKey` cases of
  `HandleInputChange` stand for those. The raw `body` has no control.
- `js_builtins.dfy` (module `JsBuiltins`): the JavaScript built-ins the
  code relies on, stated precisely:
  - `parseInt` without a radix (section 19.2.5 of ECMAScript 2024): white
    space, sign, `0x`, the longest digit prefix, and NaN as `None`;
  - `String.prototype.length` in UTF-16 code units;
  - `Object.fromEntries` into an ordinary object, where a repeated key keeps
    its first position and takes its last value.
- `request_builder.dfy` (module `RequestBuilder`): the options object.
  - `RequestOptionsOf` is the specification. `BuildRequestOptions` and
    `FillBodyData` are the statement-by-statement builder; they reassign
    `requestOptions.body` and grow `bodyData` one conditional assignment at
    a time.
  - The field-built body is kept as the ordered list of its properties. That
    list is what `JSON.stringify` serialises.
- `response.dfy` (module `ResponseNormaliser`): the record stored after the
  exchange. `Normalized` is the specification and `HandleResponse` is the
  code with its reassigned `responseData`.
- `presentation.dfy` (module `Presentation`): `formatHeaders` and the
  status-badge class.
- `submit.dfy` (module `Submit`): `handleSubmit` end to end. It also proves
  concrete submissions: the initial GET, any GET, POST with a numeric and
  with a text age, and DELETE or PUT with every field empty.

Two points about the stored size:

- `size` is `responseText.length`, so a 500 whose non-JSON text is the
  14-character "Internal Error" has size 14
  (`ResponseNormaliser.ServerErrorIsReceived`).
- The panel labels the size "bytes", but it counts UTF-16 code units. An
  astral character counts as 2, and a non-ASCII character in the basic plane
  counts as 1 whatever its UTF-8 length.

The HTTP method is kept as a string. The code tests it with `includes` on
string lists, so any value outside POST, PUT, DELETE and PATCH behaves like
GET and gets no body.

## Model

| member | source | states |
|---|---|---|
| `Form.HandleInputChange` | client/src/App.jsx:22-28 | the key named by the control takes the new value; every other key keeps its old value |
| `Form.HandleInputChangeIdle` | client/src/App.jsx:22-28 | writing back the value a key already holds leaves the form unchanged |
| `Form.HandleInputChangeLastWins` | client/src/App.jsx:22-28 | two changes to one key leave only the second value |
| `Form.HandleInputChangeCommutes` | client/src/App.jsx:22-28 | changes to two different keys give the same form in either order |
| `Form.EqualByKeys` | client/src/App.jsx:5-17 | the form record is determined by its eleven keys |
| `Form.InitialState` | client/src/App.jsx:5-17 | the initial form is a GET to the signup URL with an empty raw body and every field empty |
| `Form.KeyInjective` | client/src/App.jsx:59-66 | the eight body fields have eight different property names |
| `Form.Position` | client/src/App.jsx:59-66 | every field has a place in the fixed visiting order |
| `JsBuiltins.ParseUnsigned` | client/src/App.jsx:61 | the unsigned step of parseInt (`0x` selects hex, then the longest digit prefix) yields a number only for text that starts with a digit |
| `JsBuiltins.ParseTrimmed` | client/src/App.jsx:61 | after the blanks, the empty text is NaN, a minus gives a value at most 0, anything else a value at least 0 |
| `JsBuiltins.ParseInt` | client/src/App.jsx:61 | `parseInt(age)`: the empty text, or text of nothing but blanks, is NaN |
| `JsBuiltins.DecimalString` | client/src/App.jsx:61 | `String(n)` is non-empty and starts with a minus exactly when n < 0 |
| `JsBuiltins.NatDigits` | client/src/App.jsx:61 | the decimal numeral of a natural number is non-empty, all digits, and has no leading zero |
| `JsBuiltins.NatDigitsValue` | client/src/App.jsx:61 | the digits of a numeral denote the number |
| `JsBuiltins.DigitPrefixOfDigits` | client/src/App.jsx:61 | parseInt's digit scan stops exactly at the first non-digit |
| `JsBuiltins.ParseUnsignedDecimalPrefix` | client/src/App.jsx:61 | an unsigned numeral followed by a non-digit reads as its value (not hex unless `0x`) |
| `JsBuiltins.ParseIntNatPrefix` | client/src/App.jsx:61 | parseInt of a natural numeral with any non-digit tail is that number |
| `JsBuiltins.ParseIntNegativePrefix` | client/src/App.jsx:61 | a leading minus negates the value |
| `JsBuiltins.NegativeDecimalShape` | client/src/App.jsx:61 | the numeral of a negative number is a minus followed by the numeral of its absolute value |
| `JsBuiltins.ParseIntNegativeDecimal` | client/src/App.jsx:61 | parseInt reads a negative numeral back, with any non-digit tail |
| `JsBuiltins.ParseIntDecimalPrefix` | client/src/App.jsx:61 | parseInt reads back the numeral of any integer followed by a non-digit tail ("21abc" is 21); only "0x…" is read as hex |
| `JsBuiltins.ParseIntDecimal` | client/src/App.jsx:61 | parseInt(String(n)) is n for every integer n |
| `JsBuiltins.ParseIntSkipsWhiteSpace` | client/src/App.jsx:61 | leading white space and line terminators never change parseInt's result |
| `JsBuiltins.ParseIntNaN` | client/src/App.jsx:61 | text whose first non-blank character is not a sign or digit is NaN |
| `JsBuiltins.Utf16Length` | client/src/App.jsx:99 | `length` lies between the number of code points and twice it, and equals it exactly when all are in the basic plane |
| `JsBuiltins.Put` | client/src/App.jsx:97 | setting a property adds at most one entry |
| `JsBuiltins.FromEntries` | client/src/App.jsx:97 | `Object.fromEntries` has no more properties than entries |
| `JsBuiltins.KeysCons` | client/src/App.jsx:97 | the keys of an entry list are its first key and the keys of the rest |
| `JsBuiltins.PutKeys` | client/src/App.jsx:97 | setting a property adds exactly its key |
| `JsBuiltins.PutLookup` | client/src/App.jsx:97 | after setting a property it reads the new value and every other property is unchanged |
| `JsBuiltins.DistinctKeysCons` | client/src/App.jsx:97 | an entry list has no duplicate keys iff its head key is new and its tail has no duplicates |
| `JsBuiltins.PutDistinct` | client/src/App.jsx:97 | setting a property keeps keys unique, and a new key is appended at the end |
| `JsBuiltins.FromEntriesFacts` | client/src/App.jsx:97 | `Object.fromEntries` has unique keys, exactly the keys of the entries, and each maps to the last value given for it |
| `JsBuiltins.FromEntriesDistinct` | client/src/App.jsx:97 | entries without repeated names come out unchanged and in order |
| `RequestBuilder.CoerceAge` | client/src/App.jsx:61 | the age is parseInt(age), or the age string when that is falsy: the string is kept exactly when parseInt gives NaN or 0, otherwise the value is the nonzero parsed integer |
| `RequestBuilder.FieldEntry` | client/src/App.jsx:59-66 | a present field contributes its own key, with the raw string as value except for age, which goes through the coercion |
| `RequestBuilder.PresentFields` | client/src/App.jsx:59-66 | the fields whose value is truthy, at most one per listed field |
| `RequestBuilder.EntriesOf` | client/src/App.jsx:59-66 | the conditional assignments over a list of fields add at most one property per field |
| `RequestBuilder.BodyEntries` | client/src/App.jsx:56-66 | `bodyData` after the eight assignments has at most eight properties |
| `RequestBuilder.BodyOf` | client/src/App.jsx:47-71 | only POST/PUT/DELETE/PATCH get a body; the field JSON is the body iff the method takes fields and `bodyData` is non-empty; the raw body survives iff the method is POST/PUT/PATCH, it is non-empty and the field JSON did not replace it |
| `RequestBuilder.EntriesOfPresent` | client/src/App.jsx:56-66 | the body has one property for each present field, in the same order |
| `RequestBuilder.PresentFieldsMembers` | client/src/App.jsx:59-66 | a field is present exactly when it is in the list and its value is truthy |
| `RequestBuilder.FieldOrderInOrder` | client/src/App.jsx:59-66 | the visiting order username … role is strictly increasing |
| `RequestBuilder.PresentFieldsOrdered` | client/src/App.jsx:59-66 | skipping empty fields keeps the visiting order |
| `RequestBuilder.PresentFieldsOfTable` | client/src/App.jsx:59-66 | the present fields are exactly the non-empty ones |
| `RequestBuilder.BodyKeysDistinct` | client/src/App.jsx:59-66 | no property name repeats in the field-built body |
| `RequestBuilder.BodyEntriesEmpty` | client/src/App.jsx:69-71 | the field-built object is empty exactly when every field is empty |
| `RequestBuilder.BodyEntriesSpec` | client/src/App.jsx:55-66 | the body's keys are exactly the non-empty fields, in order username, password, age, authKey, ownerId, name, type, role; keys are distinct; every value but age's is the raw string |
| `RequestBuilder.RequestOptionsOf` | client/src/App.jsx:39-72 | the method is copied and the only header is Content-Type: application/json; only POST/PUT/DELETE/PATCH can have a body; the field JSON is sent iff the method takes fields and some field is non-empty; the raw body is sent iff the method is POST/PUT/PATCH, the raw body is non-empty and every field is empty |
| `RequestBuilder.EntriesOfSuffix` | client/src/App.jsx:59-66 | visiting fields from position i means step i, then the rest |
| `RequestBuilder.EntriesOfEight` | client/src/App.jsx:59-66 | visiting eight fields is their eight steps in a row |
| `RequestBuilder.BodyEntriesInBuilderOrder` | client/src/App.jsx:59-66 | the field table gives the same body as the eight assignments one after the other |
| `RequestBuilder.Unroll8` | client/src/App.jsx:59-66 | a list built by eight prepends is its eight parts concatenated |
| `RequestBuilder.Appended8` | client/src/App.jsx:56-66 | an object grown from empty by eight appends is its eight parts concatenated |
| `RequestBuilder.StepsSpelledOut` | client/src/App.jsx:59-66 | each step is the source's own conditional assignment (`age` through the parseInt-or-string coercion) |
| `RequestBuilder.FillBodyData` | client/src/App.jsx:56-66 | the eight conditional assignments leave `bodyData` equal to the specified body |
| `RequestBuilder.BuildRequestOptions` | client/src/App.jsx:39-72 | the builder as written (raw body set first, then possibly overwritten by the field JSON) produces exactly `RequestOptionsOf` |
| `RequestBuilder.CoerceAgeNumeric` | client/src/App.jsx:61 | an age that reads as a nonzero integer, after optional blanks and before any non-digit tail, becomes that number ("21" gives 21) |
| `RequestBuilder.CoerceAgeZero` | client/src/App.jsx:61 | an age that reads as zero, after blanks and an optional sign, is falsy, so the string is kept ("0", "-0" and "+0" stay strings) |
| `RequestBuilder.CoerceAgeText` | client/src/App.jsx:61 | an age that is NaN is kept as the string ("twenty-one") |
| `ResponseNormaliser.Normalized` | client/src/App.jsx:78-107 | a thrown error gives exactly `{error, message}`; a completed exchange gives a response record for any status, with status and statusText copied; data is the parsed JSON iff the text parses, otherwise the text; headers come from `Object.fromEntries`; size is exactly `Utf16Length` of the text, between its number of code points and twice it |
| `ResponseNormaliser.HandleResponse` | client/src/App.jsx:78-107 | the code as written, with `responseData` assigned in the `try` or the `catch`, computes `Normalized` |
| `ResponseNormaliser.ServerErrorIsReceived` | client/src/App.jsx:94-100 | a 500 whose text "Internal Error" is not JSON is a received response whose data is the text and whose size is 14 |
| `ResponseNormaliser.ThrownErrorIsFailed` | client/src/App.jsx:101-107 | a thrown error gives the error record with its message only |
| `Presentation.Join` | client/src/App.jsx:114 | `join` of no items is ""; a join of at least one item starts with the first item |
| `Presentation.HeaderLine` | client/src/App.jsx:114 | the line `${key}: ${value}` is the key, then ": ", then the value |
| `Presentation.Split` | client/src/App.jsx:113-115 | splitting always yields at least one piece |
| `Presentation.HeaderLines` | client/src/App.jsx:114 | one `key: value` line per header, in order |
| `Presentation.FormatHeaders` | client/src/App.jsx:113-115 | the headers text is empty exactly when there are no headers |
| `Presentation.SplitAfterPiece` | client/src/App.jsx:114 | a separator-free piece followed by the separator splits off first |
| `Presentation.SplitPiece` | client/src/App.jsx:114 | a separator-free piece splits into itself |
| `Presentation.SplitJoin` | client/src/App.jsx:114 | splitting a join of separator-free items gives the items back |
| `Presentation.FormatHeadersLines` | client/src/App.jsx:113-115 | splitting the headers text at newlines gives exactly one `key: value` line per header, in order |
| `Presentation.BadgeClass` | client/src/App.jsx:330 | the badge class is `status-badge success` iff 200 <= status < 300, otherwise `status-badge error` |
| `Submit.HandleSubmit` | client/src/App.jsx:30-111 | a submission sends `RequestOptionsOf` of the form to the form's URL and stores the normalisation of what comes back |
| `Submit.GetHasNoBody` | client/src/App.jsx:39-54 | a GET carries the JSON content-type header and no body, whatever the fields hold |
| `Submit.InitialRequest` | client/src/App.jsx:5-17 | the initial form describes a GET to the signup URL with no body |
| `Submit.EmptyFieldsSendNoBody` | client/src/App.jsx:55-72 | DELETE, or PUT without a raw body, sends no body when every field is empty |
| `Submit.TwoFieldBody` | client/src/App.jsx:55-72 | a POST with only the username and age filled sends exactly those two properties, username first |
| `Submit.SignupWithNumericAge` | client/src/App.jsx:55-72 | POST with username "Smith" and age "21" sends `{"username":"Smith","age":21}` |
| `Submit.SignupWithTextAge` | client/src/App.jsx:55-72 | POST with age "twenty-one" sends `{"username":"Smith","age":"twenty-one"}` |

## Left out

- The network: `fetch` followed by `response.text()` is the parameter `fetch` of `Submit.HandleSubmit`, from `(url, options)` to an outcome. A failure while reading the body counts as a thrown error, as it does in the code's `catch`. Headers arrive as the entry list that `response.headers.entries()` yields.
- `JSON.parse` is the parameter `parse`. The JSON grammar, and the value a parsed body holds, are not modelled.
- `JSON.stringify` of the field body: the body is kept as its ordered list of properties, not as the serialised text.
- Timing: `Date.now` and `responseTime` are left out, since they only read the clock.
- React state and rendering are left out: `setLoading`, the `loading` flag that disables the button, the reset of `response` and `responseTime`, the `finally` block, and all JSX (lines 124-352) apart from the badge predicate.
- `formatResponse` (lines 117-122). It pretty-prints data for display only.
- The `console.log` and `console.error` calls (lines 48-52 and 88-92). They have no effect on state.
- The inner `try`/`catch` around the raw-body assignment (lines 48-52) is not modelled. An assignment of a string cannot throw, so it is just the assignment.
- The raw `body` slot has no form control in the page. It is modelled as the code reads it, so it stays "" unless something outside the page sets it.
- `JsBuiltins.ParseInt`: the final rounding of the result to an IEEE double is not modelled. This matters for ages above 2^53, and for ages so large they become `Infinity`, which `JSON.stringify` writes as `null`.
- `JsBuiltins.FromEntries`: JavaScript lists integer-like keys first, in ascending order. That property order is not modelled; keys keep their insertion order.
- Other `name` values: `handleInputChange` with a `name` outside the form's eleven keys would add a new key. No control has such a name, so the model's keys are the eleven of the record.
