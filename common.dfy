/** Shared vocabulary of the authentication backend: optional values, the
    error taxonomy surfaced to clients, roles, the salted password/fingerprint
    hash and a substring test on strings. */
module Common {

  datatype Option<+T> = None | Some(value: T)

  /** Outcome of a step that either completes or raises an HTTP exception. */
  datatype Outcome = Pass | Fail(error: HttpError)

  /** Outcome of a step that returns a value or raises an HTTP exception. */
  datatype Result<+T> = Ok(value: T) | Err(error: HttpError)

  /** Why a `BadRequestException` was raised; each case is one message of the source. */
  datatype Reason =
    | MailLimitReached            // "you exceeded the mail limit"
    | TooEarly                    // "the next code can be sent only after a minute"
    | CodeExpired(email: string)  // "the code expired, a new one was sent to <email>"
    | WrongCode                   // "wrong code, try again"
    | WrongCodeResent(email: string)  // "wrong code, a new one was sent to <email>"
    | NewCodeSent(email: string)  // "a new activation code was sent to <email>"
    | UserAlreadyExists           // legacy registration rejects a known email with 400
    | UserNotCreated              // OAuth user creation returned nothing (HTTP 400)

  /** The exceptions of the web framework that the core raises. */
  datatype HttpError =
    | BadRequest(reason: Reason)
    | NotFound
    | Conflict
    | Unauthorized(message: string)
    | Forbidden(message: string)
    | InternalServerError         // an exception that is not an HTTP exception

  const INVALID_ACCESS_TOKEN: string := "Invalid access token"
  const INVALID_REFRESH_TOKEN: string := "Invalid refresh token"
  const NOT_ENOUGH_RIGHTS: string := "Not enough rights"
  const WRONG_PASSWORD: string := "Не верный пароль"  // "Wrong password"

  datatype Role = USER | ADMIN

  datatype Provider = GOOGLE | YANDEX | MAILRU

  /** Time is an integer number of milliseconds, as `Date.getTime()` gives it. */
  const MINUTE: int := 60 * 1000
  const HOUR: int := 60 * MINUTE
  const DAY: int := 24 * HOUR

  /** A bcrypt hash. The model is the ideal one: the hash remembers the plain
      text it was made from, so comparing succeeds exactly for that text. The
      random salt makes two hashes of the same text different values. */
  datatype Hash = Bcrypt(plain: string, cost: nat, salt: nat)

  function HashSync(raw: string, cost: nat, salt: nat): (h: Hash)
    ensures Compare(raw, h)
    ensures forall other :: Compare(other, h) ==> other == raw
  {
    Bcrypt(raw, cost, salt)
  }

  /** `bcrypt.compareSync(raw, h)`. */
  predicate Compare(raw: string, h: Hash)
  {
    h.plain == raw
  }

  /** JavaScript `s.includes(sub)`: `sub` occurs in `s` as a contiguous substring. */
  predicate Contains(s: string, sub: string)
    decreases |s|
  {
    sub <= s || (|s| > 0 && Contains(s[1..], sub))
  }

  /** A substring found at position `i` is contained. */
  lemma {:induction false} ContainsAt(s: string, sub: string, i: nat)
    requires i + |sub| <= |s| && s[i..i + |sub|] == sub
    ensures Contains(s, sub)
    decreases i
  {
    if i == 0 {
      assert sub <= s;
    } else {
      assert s[1..][i - 1..i - 1 + |sub|] == s[i..i + |sub|];
      ContainsAt(s[1..], sub, i - 1);
    }
  }

  /** A string is contained in every string that ends with it. */
  lemma SuffixContained(prefix: string, sub: string)
    ensures Contains(prefix + sub, sub)
  {
    var s := prefix + sub;
    assert s[|prefix|..|prefix| + |sub|] == sub;
    ContainsAt(s, sub, |prefix|);
  }

  /** Whatever a string contains, every extension of it contains too. */
  lemma {:induction false} ContainsExtends(s: string, sub: string, tail: string)
    requires Contains(s, sub)
    ensures Contains(s + tail, sub)
    decreases |s|
  {
    if sub <= s {
      assert sub <= s + tail;
    } else {
      assert (s + tail)[1..] == s[1..] + tail;
      ContainsExtends(s[1..], sub, tail);
    }
  }
}
