/** Shared vocabulary: optional values, the HTTP errors the services raise,
    and JavaScript truthiness of optional strings and numbers. */
module Common {

  datatype Option<+T> = None | Some(value: T)

  /** The exceptions the services throw. CastError and ServerError are what
      Mongoose and MongoDB reject a query with; Nest answers both with 500. */
  datatype HttpError =
    | BadRequest
    | NotFound
    | Forbidden
    | Unauthorized
    | CastError
    | ServerError

  datatype Result<+T> = Ok(value: T) | Err(error: HttpError)

  /** `if (s)` on a `string | null`: null and "" are falsy. */
  predicate Truthy(s: Option<string>) {
    s.Some? && s.value != ""
  }

  /** `a || b` on numbers where an absent value reads as 0. */
  function OrElse(n: int, fallback: int): int {
    if n != 0 then n else fallback
  }

  predicate StartsWith(s: string, prefix: string) {
    |prefix| <= |s| && s[..|prefix|] == prefix
  }

  function Abs(n: int): nat {
    if n < 0 then -n else n
  }

  function Min(a: int, b: int): int {
    if a <= b then a else b
  }

  function Max(a: int, b: int): int {
    if a <= b then b else a
  }

  function LowerAscii(c: char): char {
    if 'A' <= c <= 'Z' then (c as int + 32) as char else c
  }

  /** ASCII lower-casing; other characters are left as they are. */
  function Lower(s: string): (r: string)
    ensures |r| == |s|
  {
    seq(|s|, i requires 0 <= i < |s| => LowerAscii(s[i]))
  }

  predicate OccursAt(text: string, pattern: string, k: int) {
    0 <= k <= |text| - |pattern| && text[k..k + |pattern|] == pattern
  }

  /** `pattern` occurs in `text`, ignoring ASCII case. */
  predicate ContainsIgnoringCase(text: string, pattern: string) {
    exists k :: 0 <= k <= |text| && OccursAt(Lower(text), Lower(pattern), k)
  }
}
