/** Value wrappers shared by the request handlers. */
module Wrappers {

  /** An optional value, such as a query-string parameter that may be missing. */
  datatype Option<+T> = None | Some(value: T) {
    function GetOr(default: T): T {
      match this
      case Some(v) => v
      case None => default
    }
  }

  /** One key of a JSON request body as the schema validator sees it: not sent
      (`undefined`), sent with a value of the expected type, or sent with a value
      the validator cannot cast to that type. */
  datatype Field<+T> = Absent | Given(value: T) | Malformed {
    /** The sent value, or `default` when the key was not sent. */
    function Or(default: T): T {
      if Given? then value else default
    }
  }

  /** JavaScript's `.length` of a string: its count of UTF-16 code units, two
      for each character outside the Basic Multilingual Plane. */
  function JsLength(s: string): (n: nat)
    ensures |s| <= n <= 2 * |s|
  {
    if s == [] then 0
    else (if s[0] as int > 0xFFFF then 2 else 1) + JsLength(s[1..])
  }

  /** A string of three emoji already has JavaScript length six. */
  lemma ThreeEmojiHaveLengthSix()
    ensures JsLength("\U{1F600}\U{1F600}\U{1F600}") == 6
  {
  }

  /** A string field that is present and non-empty. This is both JavaScript
      truthiness of the value and what a required string schema accepts. */
  predicate Filled(f: Field<string>) {
    f.Given? && f.value != ""
  }
}

/** HTTP status codes the handlers answer with. */
module Http {

  datatype Status = Ok | BadRequest | Unauthorized | NotFound | UnprocessableEntity {
    function Code(): int {
      match this
      case Ok => 200
      case BadRequest => 400
      case Unauthorized => 401
      case NotFound => 404
      case UnprocessableEntity => 422
    }
  }
}
