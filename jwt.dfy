/** Token claims and the configuration defaulting around HS256 signing.
    Signing and decoding themselves belong to the JSON Web Token library and
    are passed in as a `Signer`. */
module Jwt {
  import opened Wrappers
  import opened Schema

  /** The claims carried by a token: subject (user id), email, expiry and
      creation, both as Unix timestamps. */
  datatype Claims = Claims(sub: string, email: string, exp: int, created: int)

  /** An error reported by the token library (bad signature, malformed
      token, expired token, ...). */
  datatype JwtError = JwtError(reason: string)

  /** The two settings read from the environment; None when unset. */
  datatype Config = Config(jwtSecret: Option<string>, jwtLifetimeInSeconds: Option<string>)

  /** The token library: `encode` signs claims with the default (HS256)
      header and a secret; `decode` checks an HS256 signature against a
      secret and the expiry against the clock, and yields the claims. */
  datatype Signer = Signer(
    encode: (Claims, string) -> Result<string, JwtError>,
    decode: (string, string, int) -> Result<Claims, JwtError>)

  const DefaultLifetime: string := "300"

  const MinI64: int := -0x8000_0000_0000_0000
  const MaxI64: int := 0x7FFF_FFFF_FFFF_FFFF

  /** The signing secret: `JWT_SECRET`, or the empty string when unset. */
  function Secret(cfg: Config): (s: string)
    ensures cfg.jwtSecret.None? ==> s == ""
    ensures cfg.jwtSecret.Some? ==> s == cfg.jwtSecret.value
  {
    cfg.jwtSecret.GetOr("")
  }

  predicate IsDigit(c: char) {
    '0' <= c <= '9'
  }

  /** The value of a run of decimal digits. */
  function DigitsValue(ds: string): (v: int)
    requires forall i :: 0 <= i < |ds| ==> IsDigit(ds[i])
    ensures v >= 0
  {
    if ds == [] then 0
    else
      assert IsDigit(ds[|ds| - 1]);
      DigitsValue(ds[..|ds| - 1]) * 10 + (ds[|ds| - 1] as int - '0' as int)
  }

  /** `str::parse::<i64>`: an optional `+` or `-`, then one or more decimal
      digits, with a value inside the range of i64. */
  function ParseI64(s: string): (r: Option<int>)
    ensures r.Some? ==> MinI64 <= r.value <= MaxI64
    ensures s == [] ==> r.None?
    ensures |s| == 1 && (s[0] == '+' || s[0] == '-') ==> r.None?
    ensures r.Some? ==> forall i :: SignLength(s) <= i < |s| ==> IsDigit(s[i])
    ensures r.Some? && s[0] == '-' ==> r.value <= 0
    ensures r.Some? && s[0] != '-' ==> r.value >= 0
  {
    if s == [] then None
    else if (s[0] == '+' || s[0] == '-') && |s| == 1 then None
    else
      var negative := s[0] == '-';
      var digits := if s[0] == '+' || s[0] == '-' then s[1..] else s;
      if !(forall i :: 0 <= i < |digits| ==> IsDigit(digits[i])) then None
      else
        var n := if negative then -DigitsValue(digits) else DigitsValue(digits);
        if MinI64 <= n <= MaxI64 then Some(n) else None
  }

  /** The length of the optional leading sign. */
  function SignLength(s: string): nat {
    if s != [] && (s[0] == '+' || s[0] == '-') then 1 else 0
  }

  /** Any character other than a digit after the optional sign makes the
      parse fail. */
  lemma ParseRejectsNonDigit(s: string, i: nat)
    requires SignLength(s) <= i < |s| && !IsDigit(s[i])
    ensures ParseI64(s).None?
  {
  }

  /** A number outside the range of i64 makes the parse fail. */
  lemma ParseRejectsOverflow(n: nat)
    ensures n > MaxI64 ==> ParseI64(Decimal(n)).None?
    ensures n > -MinI64 ==> ParseI64("-" + Decimal(n)).None?
  {
    DigitsValueDecimal(n);
    assert ("-" + Decimal(n))[1..] == Decimal(n);
  }

  /** Reference rendering of a natural number in decimal. */
  function Decimal(n: nat): (s: string)
    ensures s != [] && forall i :: 0 <= i < |s| ==> IsDigit(s[i])
  {
    if n < 10 then [('0' as int + n) as char]
    else Decimal(n / 10) + [('0' as int + n % 10) as char]
  }

  lemma {:induction false} DigitsValueDecimal(n: nat)
    ensures DigitsValue(Decimal(n)) == n
  {
    var s := Decimal(n);
    if n >= 10 {
      DigitsValueDecimal(n / 10);
      assert s[..|s| - 1] == Decimal(n / 10);
    } else {
      assert s[..0] == [];
    }
  }

  /** Parsing reads back every i64 written in decimal, with or without a
      minus sign. */
  lemma ParseDecimal(n: nat)
    ensures n <= MaxI64 ==> ParseI64(Decimal(n)) == Some(n)
    ensures n <= -MinI64 ==> ParseI64("-" + Decimal(n)) == Some(-(n as int))
  {
    DigitsValueDecimal(n);
    assert ("-" + Decimal(n))[1..] == Decimal(n);
  }

  /** The token lifetime in seconds: `JWT_LIFETIME_IN_SECONDS`, or "300"
      when unset, parsed as an i64; None stands for the panic of `unwrap`
      on a value that does not parse. */
  function Lifetime(cfg: Config): Option<int>
  {
    ParseI64(cfg.jwtLifetimeInSeconds.GetOr(DefaultLifetime))
  }

  lemma DefaultLifetimeIs300(cfg: Config)
    requires cfg.jwtLifetimeInSeconds.None?
    ensures Lifetime(cfg) == Some(300)
  {
    ParseDecimal(300);
    assert Decimal(300) == DefaultLifetime;
  }

  /** A configured lifetime that is not an integer (a character other than
      a digit after the optional sign) makes `generate` panic. */
  lemma NonIntegerLifetimePanics(cfg: Config, user: User, now: int, signer: Signer, i: nat)
    requires cfg.jwtLifetimeInSeconds.Some?
    requires SignLength(cfg.jwtLifetimeInSeconds.value) <= i < |cfg.jwtLifetimeInSeconds.value|
    requires !IsDigit(cfg.jwtLifetimeInSeconds.value[i])
    ensures Generate(cfg, user, now, signer).Panicked?
  {
    ParseRejectsNonDigit(cfg.jwtLifetimeInSeconds.value, i);
  }

  /** The claims `generate` signs for `user` when the clock reads `now`
      (the source reads the clock twice; here both reads are `now`). */
  function IssuedClaims(cfg: Config, user: User, now: int): (r: MayPanic<Claims>)
    ensures r.Panicked? <==> Lifetime(cfg).None?
    ensures r.Returned? ==>
      && r.value.sub == user.id && r.value.email == user.email
      && r.value.created == now
      && r.value.exp == now + Lifetime(cfg).value
  {
    match Lifetime(cfg)
    case None => Panicked("JWT_LIFETIME_IN_SECONDS is not an i64")
    case Some(d) => Returned(Claims(user.id, user.email, now + d, now))
  }

  /** `generate`: the signed token, or the empty string when signing fails
      (`unwrap_or_default`). */
  function Generate(cfg: Config, user: User, now: int, signer: Signer): (r: MayPanic<string>)
    ensures r.Panicked? <==> Lifetime(cfg).None?
    ensures r.Returned? ==>
      var c := IssuedClaims(cfg, user, now).value;
      r.value == (match signer.encode(c, Secret(cfg))
                  case Ok(t) => t
                  case Err(_) => "")
  {
    match IssuedClaims(cfg, user, now)
    case Panicked(why) => Panicked(why)
    case Returned(c) =>
      match signer.encode(c, Secret(cfg))
      case Ok(t) => Returned(t)
      case Err(_) => Returned("")
  }

  /** `verify`: decode with HS256 and the defaulted secret; a decoding error
      is passed on, and a success becomes a user through `fromJwt`. */
  function Verify(cfg: Config, token: string, now: int, signer: Signer, fromJwt: Claims -> User)
    : (r: Result<User, JwtError>)
    ensures r.Err? <==> signer.decode(token, Secret(cfg), now).Err?
    ensures r.Err? ==> r.error == signer.decode(token, Secret(cfg), now).error
    ensures r.Ok? ==> r.value == fromJwt(signer.decode(token, Secret(cfg), now).value)
  {
    match signer.decode(token, Secret(cfg), now)
    case Ok(c) => Ok(fromJwt(c))
    case Err(e) => Err(e)
  }

  /** What a correct HS256 library promises: a token it signed decodes to
      the same claims under the same secret until the claims expire. */
  ghost predicate RoundTrips(signer: Signer) {
    forall c: Claims, secret: string, t: int {:trigger signer.decode(signer.encode(c, secret).value, secret, t)} ::
      signer.encode(c, secret).Ok? && t <= c.exp ==>
      signer.decode(signer.encode(c, secret).value, secret, t) == Ok(c)
  }

  /** A token issued at `now` verifies under the same configuration at any
      time up to its expiry, and yields the user built from the issued
      claims; with the lifetime unset, that is up to `now + 300`. */
  lemma IssuedTokenVerifies(cfg: Config, user: User, now: int, t: int, signer: Signer, fromJwt: Claims -> User)
    requires RoundTrips(signer)
    requires Lifetime(cfg).Some?
    requires signer.encode(IssuedClaims(cfg, user, now).value, Secret(cfg)).Ok?
    requires now <= t <= now + Lifetime(cfg).value
    ensures Generate(cfg, user, now, signer).Returned?
    ensures Verify(cfg, Generate(cfg, user, now, signer).value, t, signer, fromJwt)
            == Ok(fromJwt(Claims(user.id, user.email, now + Lifetime(cfg).value, now)))
  {
    var c := IssuedClaims(cfg, user, now).value;
    var tok := signer.encode(c, Secret(cfg)).value;
    assert signer.decode(tok, Secret(cfg), t) == Ok(c);
  }
}
