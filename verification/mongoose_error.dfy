/**
 * `handleMongoErrors`: the case analysis that turns a thrown error into a reply. The branches
 * are tried in the order validation error, duplicate key, cast error, anything else.
 */
module MongooseError {
  import opened Wrappers
  import opened Envelope
  import opened Text

  /** A thrown JavaScript error, reduced to the properties the classification reads. */
  datatype ErrorObject = ErrorObject(
    name: string,               // `error.name`
    code: Option<int>,          // `error.code`
    fieldMessages: seq<string>, // `Object.values(error.errors).map(e => e.message)`
    keyPattern: seq<string>,    // `Object.keys(error.keyPattern)`
    path: Option<string>)       // `error.path`

  const InternalError := "Internal server error"

  /** A thrown error carrying only a name, such as a token library's failure. */
  function Named(name: string): ErrorObject {
    ErrorObject(name, None, [], [], None)
  }

  /** A template-literal interpolation of a possibly undefined string. */
  function Interpolate(s: Option<string>): string {
    s.GetOr("undefined")
  }

  /** `Object.keys(keyPattern)[0]`, interpolated: "undefined" for an empty pattern. */
  function FirstKey(keys: seq<string>): string {
    if |keys| == 0 then "undefined" else keys[0]
  }

  predicate IsValidation(e: ErrorObject) { e.name == "ValidationError" }
  predicate IsDuplicate(e: ErrorObject) { e.code == Some(11000) }
  predicate IsCast(e: ErrorObject) { e.name == "CastError" }

  function HandleMongoErrors<T>(e: ErrorObject): (r: Reply<T>)
    ensures r.data.None?
    ensures r.statusCode == 400 || r.statusCode == 409 || r.statusCode == 500
    ensures IsValidation(e) ==> r.statusCode == 400 && r.message == Join(e.fieldMessages, ", ")
    ensures r.statusCode == 409 <==> !IsValidation(e) && IsDuplicate(e)
    ensures r.statusCode == 409 ==> r.message == "Duplicate value for field: " + FirstKey(e.keyPattern)
    ensures !IsValidation(e) && !IsDuplicate(e) && IsCast(e) ==>
              r.statusCode == 400 && r.message == "Invalid ID format for " + Interpolate(e.path)
    ensures r.statusCode == 500 <==> !IsValidation(e) && !IsDuplicate(e) && !IsCast(e)
    ensures r.statusCode == 500 ==> r.message == InternalError
  {
    if IsValidation(e) then Fail(400, Join(e.fieldMessages, ", "))
    else if IsDuplicate(e) then Fail(409, "Duplicate value for field: " + FirstKey(e.keyPattern))
    else if IsCast(e) then Fail(400, "Invalid ID format for " + Interpolate(e.path))
    else Fail(500, InternalError)
  }

  /** Every field's message of a validation error is part of the reply's message. */
  lemma ValidationReportsEveryField(e: ErrorObject, k: int)
    requires IsValidation(e) && 0 <= k < |e.fieldMessages|
    ensures Contains(HandleMongoErrors<()>(e).message, e.fieldMessages[k])
  {
    JoinContainsEach(e.fieldMessages, ", ", k);
  }

  /** The message Mongoose gives a required path left empty. */
  function RequiredMessage(path: string): string {
    "Path `" + path + "` is required."
  }

  /** The message Mongoose gives a value outside a path's enum. */
  function EnumMessage(value: string, path: string): string {
    "`" + value + "` is not a valid enum value for path `" + path + "`."
  }

  /** The error a query raises when a value cannot be cast to its path's type. */
  function CastError(path: string): ErrorObject {
    ErrorObject("CastError", None, [], [], Some(path))
  }

  /** A validation error raised by `save` with the given per-field messages. */
  function ValidationError(messages: seq<string>): ErrorObject {
    ErrorObject("ValidationError", None, messages, [], None)
  }
}
