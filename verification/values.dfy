/** Ruby values as they reach the controller: request parameters after Rails parsing,
    and the entries of a queued post's `post_options` hash. */
module Values {

  /** A parameter or `post_options` value. Floats and symbols do not occur in the
      requests modelled here and are left out. */
  datatype Value =
    | Nil
    | Bool(b: bool)
    | Int(i: int)
    | Str(s: string)
    | List(items: seq<Value>)
    | Hash(entries: map<string, Value>)

  /** The characters of the POSIX class `[[:space:]]` on a Unicode string, which
      ActiveSupport's `String#blank?` matches. */
  predicate IsUnicodeSpace(c: char) {
    || c == ' ' || c == '\t' || c == '\n' || c == '\U{B}' || c == '\U{C}' || c == '\r'
    || c == '\U{85}' || c == '\U{A0}' || c == '\U{1680}'
    || ('\U{2000}' <= c <= '\U{200A}')
    || c == '\U{2028}' || c == '\U{2029}' || c == '\U{202F}' || c == '\U{205F}' || c == '\U{3000}'
  }

  /** ActiveSupport's `blank?`: nil, false, a whitespace-only string, an empty array or
      an empty hash. An integer is never blank. */
  predicate Blank(v: Value) {
    match v
    case Nil => true
    case Bool(b) => !b
    case Int(_) => false
    case Str(s) => forall k :: 0 <= k < |s| ==> IsUnicodeSpace(s[k])
    case List(xs) => |xs| == 0
    case Hash(m) => |m| == 0
  }

  /** ActiveSupport's `present?`, the negation of `blank?`. */
  predicate Present(v: Value) {
    !Blank(v)
  }

  /** The value stored under `key`, or `nil` when the hash has no such key (Ruby's `h[key]`). */
  function Lookup(h: map<string, Value>, key: string): (v: Value)
    ensures key !in h ==> v == Nil
    ensures key in h ==> v == h[key]
  {
    if key in h then h[key] else Nil
  }
}
