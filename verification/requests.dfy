/**
 * Request bodies as the validation layers see them, and the email format
 * `^[^\s@]+@[^\s@]+\.[^\s@]+$` that several of them share.
 */
module Requests {
  import opened Base
  import opened Text
  import opened Http

  /**
   * One field of a JSON body: absent, a string, or any other JSON value
   * (number, boolean, null, array, object), given by its truthiness and by
   * the string `String(v)` that a regex test or a template coerces it to.
   */
  datatype Field = Missing | Str(s: string) | NonString(truthy: bool, text: string)

  /** JavaScript truthiness of a field: `!field` is false. */
  predicate Present(f: Field)
  {
    match f
    case Missing => false
    case Str(s) => s != ""
    case NonString(truthy, _) => truthy
  }

  /** A string field that is not empty: `!f || typeof f !== 'string'` is false. */
  predicate NonEmptyString(f: Field)
  {
    f.Str? && f.s != ""
  }

  /** `String(f)`: the text a regex test or a template literal sees. */
  function Coerce(f: Field): string
  {
    match f
    case Missing => "undefined"
    case Str(s) => s
    case NonString(_, text) => text
  }

  /**
   * The `params` member: an object or array (whose `code` and `password`
   * members may be missing), or a value of another type, given by its
   * truthiness; absent and `null` are falsy non-objects.
   */
  datatype Params = ParamObject(code: Field, password: Field) | NotObject(truthy: bool)

  predicate ParamsPresent(p: Params)
  {
    p.ParamObject? || p.truthy
  }

  /** `params.code` of a present `params`; a non-object has no members. */
  function ParamsCode(p: Params): Field
  {
    if p.ParamObject? then p.code else Missing
  }

  /** `params.password` of a present `params`. */
  function ParamsPassword(p: Params): Field
  {
    if p.ParamObject? then p.password else Missing
  }

  /** A request body that is an object. */
  datatype RequestBody = RequestBody(identifier: Field, params: Params)

  /** A middleware either calls `next` with the (possibly rewritten) body or answers. */
  datatype Outcome = Next(body: RequestBody) | Reject(response: Response)

  /** The 400 answer of the validation middlewares. */
  function BadRequest(message: string): (r: Response)
    ensures r.status == 400 && r.body == ErrorBody("Bad Request", message, 400) && WellFormed(r)
  {
    ErrorResponse(400, "Bad Request", message)
  }

  // ---------------------------------------------------------------------------
  // ^[^\s@]+@[^\s@]+\.[^\s@]+$
  // ---------------------------------------------------------------------------

  predicate NoWhitespace(s: string)
  {
    forall k :: 0 <= k < |s| ==> !IsJsWhitespace(s[k])
  }

  /** A '.' with at least one character on either side. */
  predicate HasInnerDot(d: string)
  {
    exists j :: 1 <= j < |d| - 1 && d[j] == '.'
  }

  /**
   * The basic email format: no whitespace, exactly one '@' with something
   * before it, and a domain with a dot that has something on both sides
   * (further dots are allowed on either side, since the classes admit '.').
   */
  predicate IsBasicEmail(s: string)
  {
    && NoWhitespace(s)
    && '@' in s
    && var i := FirstIndexOf(s, '@');
    && 0 < i
    && '@' !in s[i + 1..]
    && HasInnerDot(s[i + 1..])
  }

  /** The pieces the pattern matches: a local part, '@', a host, '.', a suffix. */
  lemma BasicEmailShape(local: string, host: string, suffix: string)
    requires local != [] && host != [] && suffix != []
    requires '@' !in local && '@' !in host && '@' !in suffix
    requires NoWhitespace(local) && NoWhitespace(host) && NoWhitespace(suffix)
    ensures IsBasicEmail(local + "@" + host + "." + suffix)
  {
    var s := local + "@" + host + "." + suffix;
    assert s[..|local|] == local;
    assert s[|local|] == '@';
    var d := s[|local| + 1..];
    assert d == host + "." + suffix;
    assert d[|host|] == '.';
    forall k | 0 <= k < |s|
      ensures !IsJsWhitespace(s[k])
    {
      if k < |local| {
        assert s[k] == local[k];
      } else if |local| < k < |local| + 1 + |host| {
        assert s[k] == host[k - |local| - 1];
      } else if k > |local| + 1 + |host| {
        assert s[k] == suffix[k - |local| - 2 - |host|];
      }
    }
  }

  /** A domain without a dot, or an address with two '@', is not accepted. */
  lemma BasicEmailRejections()
    ensures !IsBasicEmail("a@localhost")
    ensures !IsBasicEmail("a@b@c.d")
    ensures !IsBasicEmail("@b.c")
  {
    assert "a@localhost"[0] != '@' && "a@localhost"[1] == '@';
    assert "a@localhost"[2..] == "localhost";
    assert "a@b@c.d"[1] == '@' && "a@b@c.d"[2..][1] == '@';
  }
}
