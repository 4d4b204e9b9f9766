/**
 * The form record the composer keeps in component state (`requestData`):
 * the method, the URL, a raw body string and eight optional body fields,
 * all held as strings; and the one-key update its change handlers make.
 */
module Form {

  /** The eight optional body fields, in the order the builder visits them. */
  datatype Field = Username | Password | Age | AuthKey | OwnerId | Name | Type | Role

  const FieldOrder: seq<Field> := [Username, Password, Age, AuthKey, OwnerId, Name, Type, Role]

  /** The property name the field carries in the form record and in the JSON body. */
  function Key(f: Field): string {
    match f
    case Username => "username"
    case Password => "password"
    case Age => "age"
    case AuthKey => "authKey"
    case OwnerId => "ownerId"
    case Name => "name"
    case Type => "type"
    case Role => "role"
  }

  /** The index of the field in `FieldOrder`. */
  function Position(f: Field): (p: nat)
    ensures p < |FieldOrder| && FieldOrder[p] == f
  {
    match f
    case Username => 0
    case Password => 1
    case Age => 2
    case AuthKey => 3
    case OwnerId => 4
    case Name => 5
    case Type => 6
    case Role => 7
  }

  lemma KeyInjective(f: Field, g: Field)
    ensures Key(f) == Key(g) <==> f == g
  {
  }

  /** `requestData`; the JavaScript keys `method` and `type` are spelled `httpMethod` and `kind`. */
  datatype RequestData = RequestData(
    httpMethod: string, url: string, body: string,
    username: string, password: string, age: string, authKey: string,
    ownerId: string, name: string, kind: string, role: string)

  /** The value the form holds for a body field. */
  function Raw(d: RequestData, f: Field): string {
    match f
    case Username => d.username
    case Password => d.password
    case Age => d.age
    case AuthKey => d.authKey
    case OwnerId => d.ownerId
    case Name => d.name
    case Type => d.kind
    case Role => d.role
  }

  predicate AllFieldsEmpty(d: RequestData) {
    forall f: Field :: Raw(d, f) == ""
  }

  /** The state the component starts in. */
  const Initial: RequestData :=
    RequestData("GET", "https://prelim-exam.onrender.com/signup", "", "", "", "", "", "", "", "", "")

  /** The form starts as a GET to the signup URL with no raw body and every field empty. */
  lemma InitialState()
    ensures Initial.httpMethod == "GET" && Initial.url == "https://prelim-exam.onrender.com/signup"
    ensures Initial.body == "" && AllFieldsEmpty(Initial)
  {
  }

  /** The `name` attribute of a form control: one of the record's eleven keys. */
  datatype FormKey = MethodKey | UrlKey | BodyKey | FieldKey(field: Field)

  function Get(d: RequestData, k: FormKey): string {
    match k
    case MethodKey => d.httpMethod
    case UrlKey => d.url
    case BodyKey => d.body
    case FieldKey(f) => Raw(d, f)
  }

  /**
   * `handleInputChange`: `{...prev, [name]: value}`, the key named by the
   * control takes the new value and every other key keeps its own.
   */
  function HandleInputChange(prev: RequestData, name: FormKey, value: string): (next: RequestData)
    ensures Get(next, name) == value
    ensures forall k :: k != name ==> Get(next, k) == Get(prev, k)
  {
    match name
    case MethodKey => prev.(httpMethod := value)
    case UrlKey => prev.(url := value)
    case BodyKey => prev.(body := value)
    case FieldKey(f) =>
      match f
      case Username => prev.(username := value)
      case Password => prev.(password := value)
      case Age => prev.(age := value)
      case AuthKey => prev.(authKey := value)
      case OwnerId => prev.(ownerId := value)
      case Name => prev.(name := value)
      case Type => prev.(kind := value)
      case Role => prev.(role := value)
  }

  /** Setting a key to the value it already has leaves the form as it was. */
  lemma HandleInputChangeIdle(prev: RequestData, name: FormKey)
    ensures HandleInputChange(prev, name, Get(prev, name)) == prev
  {
  }

  /** A second change to the same key replaces the first. */
  lemma HandleInputChangeLastWins(prev: RequestData, name: FormKey, first: string, second: string)
    ensures HandleInputChange(HandleInputChange(prev, name, first), name, second) == HandleInputChange(prev, name, second)
  {
  }

  /** Changes to two different keys can be made in either order. */
  lemma HandleInputChangeCommutes(prev: RequestData, a: FormKey, x: string, b: FormKey, y: string)
    requires a != b
    ensures HandleInputChange(HandleInputChange(prev, a, x), b, y) == HandleInputChange(HandleInputChange(prev, b, y), a, x)
  {
    var left := HandleInputChange(HandleInputChange(prev, a, x), b, y);
    var right := HandleInputChange(HandleInputChange(prev, b, y), a, x);
    forall k ensures Get(left, k) == Get(right, k) {
    }
    EqualByKeys(left, right);
  }

  /** Two forms that agree on every key are the same form. */
  lemma EqualByKeys(d: RequestData, e: RequestData)
    requires forall k :: Get(d, k) == Get(e, k)
    ensures d == e
  {
    assert Get(d, MethodKey) == Get(e, MethodKey) && Get(d, UrlKey) == Get(e, UrlKey) && Get(d, BodyKey) == Get(e, BodyKey);
    assert Get(d, FieldKey(Username)) == Get(e, FieldKey(Username)) && Get(d, FieldKey(Password)) == Get(e, FieldKey(Password));
    assert Get(d, FieldKey(Age)) == Get(e, FieldKey(Age)) && Get(d, FieldKey(AuthKey)) == Get(e, FieldKey(AuthKey));
    assert Get(d, FieldKey(OwnerId)) == Get(e, FieldKey(OwnerId)) && Get(d, FieldKey(Name)) == Get(e, FieldKey(Name));
    assert Get(d, FieldKey(Type)) == Get(e, FieldKey(Type)) && Get(d, FieldKey(Role)) == Get(e, FieldKey(Role));
  }
}
