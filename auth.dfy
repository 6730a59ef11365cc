/**
 * lib/auth.ts: the session payload, reading the caller from the `token`
 * cookie, and the random magic-link token.
 */
module Auth {
  import opened Common
  import opened Strings

  /** What a session JWT carries: the admin's id and email. */
  datatype AdminPayload = AdminPayload(id: Id, email: string)

  /** The outcome of the JWT library's verify call on a token: the payload, or a thrown error (bad signature, expired, malformed). */
  datatype JwtCheck = Verified(payload: AdminPayload) | Thrown

  /** Lifetime of a session: the JWT's expiresIn and the cookie's maxAge, 30 days. */
  const SessionLifetime: int := 30 * Day

  /** verifyToken: the payload when the library accepts the token, and None instead of an exception otherwise. */
  function VerifyToken(token: string, jwtVerify: string -> JwtCheck): (r: Option<AdminPayload>)
    ensures r.Some? <==> jwtVerify(token).Verified?
    ensures r.Some? ==> r.value == jwtVerify(token).payload
  {
    match jwtVerify(token)
    case Verified(p) => Some(p)
    case Thrown => None
  }

  /** getAdmin: no caller without a non-empty `token` cookie; otherwise whatever verifyToken makes of it. */
  function GetAdmin(cookie: Option<string>, jwtVerify: string -> JwtCheck): (r: Option<AdminPayload>)
    ensures !Truthy(cookie) ==> r.None?
    ensures r.Some? ==> Truthy(cookie) && jwtVerify(cookie.value) == Verified(r.value)
    ensures Truthy(cookie) && jwtVerify(cookie.value).Verified? ==> r.Some?
  {
    if !Truthy(cookie) then None else VerifyToken(cookie.value, jwtVerify)
  }

  const Alphabet: string := "abcdefghijklmnopqrstuvwxyz0123456789"
  const TokenLength: nat := 64

  /** Math.floor(Math.random() * chars.length), with the random number given as a real. */
  function DrawIndex(x: real): (k: int)
    ensures 0.0 <= x < 1.0 ==> 0 <= k < |Alphabet|
  {
    (x * 36.0).Floor
  }

  /** The random numbers one call of generateToken consumes: 64 of them, each in [0, 1) as Math.random promises. */
  predicate ValidDraws(draws: seq<real>) {
    |draws| == TokenLength && forall i :: 0 <= i < |draws| ==> 0.0 <= draws[i] < 1.0
  }

  /** The token these draws produce: character i is the one draw i selects from the alphabet. */
  function TokenOf(draws: seq<real>): (t: string)
    requires ValidDraws(draws)
    ensures |t| == TokenLength
    ensures forall i :: 0 <= i < |t| ==> t[i] in Alphabet
  {
    seq(TokenLength, i requires 0 <= i < TokenLength => Alphabet[DrawIndex(draws[i])])
  }

  predicate IsTokenChar(c: char) {
    'a' <= c <= 'z' || '0' <= c <= '9'
  }

  /** Position i of the alphabet holds the i-th lower-case letter, then the digits in order. */
  function AlphabetAt(i: int): (c: char)
    requires 0 <= i < 36
    ensures i < 26 ==> c as int == 'a' as int + i
    ensures 26 <= i ==> c as int == '0' as int + i - 26
  {
    if i < 26 then ('a' as int + i) as char else ('0' as int + i - 26) as char
  }

  lemma AlphabetLayout()
    ensures |Alphabet| == 36
    ensures forall i :: 0 <= i < 36 ==> Alphabet[i] == AlphabetAt(i)
  {
    assert Alphabet == seq(36, AlphabetAt);
  }

  /** The alphabet is exactly [a-z0-9]: 36 characters, each a lower-case ASCII letter or a decimal digit, and every such character occurs. */
  lemma AlphabetIsLowerAlnum()
    ensures |Alphabet| == 36
    ensures forall c :: c in Alphabet <==> IsTokenChar(c)
  {
    AlphabetLayout();
    forall c | c in Alphabet ensures IsTokenChar(c) {
      var i :| 0 <= i < 36 && Alphabet[i] == c;
      assert c == AlphabetAt(i);
    }
    forall c | IsTokenChar(c) ensures c in Alphabet {
      var i := if c <= '9' then c as int - '0' as int + 26 else c as int - 'a' as int;
      assert AlphabetAt(i) == c;
      assert Alphabet[i] == c;
    }
  }

  /** generateToken: appends one drawn character per iteration, 64 times. */
  method GenerateToken(draws: seq<real>) returns (token: string)
    requires ValidDraws(draws)
    ensures |token| == TokenLength
    ensures forall i :: 0 <= i < |token| ==> token[i] == Alphabet[DrawIndex(draws[i])]
    ensures token == TokenOf(draws)
  {
    token := "";
    for i := 0 to TokenLength
      invariant |token| == i
      invariant forall k :: 0 <= k < i ==> token[k] == Alphabet[DrawIndex(draws[k])]
    {
      token := token + [Alphabet[DrawIndex(draws[i])]];
    }
  }
}
