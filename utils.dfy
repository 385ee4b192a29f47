/** The helpers of src/lib/utils.js that the authentication flow relies on:
    `generateOTP` (a random draw rendered as a decimal string) and
    `generateToken` (a signed token with a seven-day lifetime, also written to
    the response as the `jwt` cookie). The random draw and the signature are
    abstracted: the draw is a parameter constrained to the range handed to
    `crypto.randomInt`, and a token is represented by the claims it carries. */
module Utils {
  import opened Wrappers

  // ---------------------------------------------------------------- OTP codes

  /** The arguments of `crypto.randomInt(100000, 999999)`; the upper bound is
      exclusive. */
  const OtpMin: int := 100000
  const OtpMax: int := 999999

  /** The values `crypto.randomInt(OtpMin, OtpMax)` can return. */
  predicate IsOtpDraw(n: int) {
    OtpMin <= n < OtpMax
  }

  predicate IsDigit(c: char) {
    '0' <= c <= '9'
  }

  predicate AllDigits(s: string) {
    forall i :: 0 <= i < |s| ==> IsDigit(s[i])
  }

  /** A decimal numeral without superfluous leading zeros, as
      `Number.prototype.toString()` writes a non-negative integer. */
  predicate Canonical(s: string) {
    |s| >= 1 && AllDigits(s) && (|s| > 1 ==> s[0] != '0')
  }

  function DigitChar(d: nat): (c: char)
    requires d < 10
    ensures IsDigit(c) && c as int - '0' as int == d
  {
    ('0' as int + d) as char
  }

  /** The number a string of decimal digits denotes. */
  function DecimalValue(s: string): nat
    requires AllDigits(s)
  {
    if s == [] then 0
    else 10 * DecimalValue(s[..|s| - 1]) + (s[|s| - 1] as int - '0' as int)
  }

  function Pow10(k: nat): (p: nat)
    ensures p >= 1
  {
    if k == 0 then 1 else 10 * Pow10(k - 1)
  }

  /** `n.toString()` for a non-negative integer `n`. */
  function DecimalString(n: nat): (s: string)
    ensures Canonical(s)
    ensures n > 0 ==> s[0] != '0'
    ensures DecimalValue(s) == n
    decreases n
  {
    if n < 10 then [DigitChar(n)]
    else
      var s := DecimalString(n / 10) + [DigitChar(n % 10)];
      assert s[..|s| - 1] == DecimalString(n / 10);
      s
  }

  /** A number of `k` digits is written with exactly `k` characters. */
  lemma {:induction false} DecimalLength(n: nat, k: nat)
    requires k >= 1 && Pow10(k - 1) <= n < Pow10(k)
    ensures |DecimalString(n)| == k
  {
    if n >= 10 {
      assert Pow10(1) == 10;
      DecimalLength(n / 10, k - 1);
    }
  }

  /** Parsing a canonical numeral and writing it back gives the same string. */
  lemma {:induction false} DecimalRoundTrip(s: string)
    requires Canonical(s)
    ensures DecimalString(DecimalValue(s)) == s
  {
    var init, d := s[..|s| - 1], s[|s| - 1] as int - '0' as int;
    if |s| > 1 {
      assert init[0] == s[0];
      DecimalRoundTrip(init);
      LeadingDigitPositive(init);
      var n := DecimalValue(s);
      assert n / 10 == DecimalValue(init) && n % 10 == d;
      assert s == init + [s[|s| - 1]];
    } else {
      assert init == [];
      assert s == [DigitChar(d)];
    }
  }

  /** A numeral that starts with a non-zero digit denotes a positive number. */
  lemma {:induction false} LeadingDigitPositive(s: string)
    requires |s| >= 1 && AllDigits(s) && s[0] != '0'
    ensures DecimalValue(s) > 0
  {
    if |s| > 1 {
      var init := s[..|s| - 1];
      assert init[0] == s[0];
      LeadingDigitPositive(init);
    }
  }

  /** `generateOTP()` for the draw `draw` of `crypto.randomInt`: a six-digit
      string of decimal digits with a non-zero first digit that denotes the
      draw. */
  function GenerateOtp(draw: int): (otp: string)
    requires IsOtpDraw(draw)
    ensures |otp| == 6 && AllDigits(otp) && otp[0] != '0'
    ensures DecimalValue(otp) == draw
  {
    assert Pow10(5) == OtpMin && Pow10(6) == 1000000;
    DecimalLength(draw, 6);
    DecimalString(draw)
  }

  /** Different draws give different codes. */
  lemma GenerateOtpInjective(a: int, b: int)
    requires IsOtpDraw(a) && IsOtpDraw(b) && a != b
    ensures GenerateOtp(a) != GenerateOtp(b)
  {
  }

  /** The codes `generateOTP` can return are exactly the six-digit numerals
      with a non-zero first digit other than "999999": the exclusive upper
      bound of `crypto.randomInt` leaves that one out. */
  lemma GenerateOtpRange(s: string)
    ensures (exists draw :: IsOtpDraw(draw) && GenerateOtp(draw) == s) <==>
            (|s| == 6 && AllDigits(s) && s[0] != '0' && s != "999999")
  {
    if |s| == 6 && AllDigits(s) && s[0] != '0' {
      var n := DecimalValue(s);
      DecimalRoundTrip(s);
      SixDigitBounds(s);
      if s != "999999" {
        assert n != 999999 by {
          if n == 999999 { NinesValue(); DecimalRoundTrip("999999"); }
        }
        assert IsOtpDraw(n) && GenerateOtp(n) == s;
      } else {
        NinesValue();
      }
    }
  }

  lemma NinesValue()
    ensures Canonical("999999") && DecimalValue("999999") == 999999
  {
    assert "999999"[..5] == "99999" && "99999"[..4] == "9999" && "9999"[..3] == "999";
    assert "999"[..2] == "99" && "99"[..1] == "9" && "9"[..0] == "";
  }

  lemma SixDigitBounds(s: string)
    requires |s| == 6 && AllDigits(s) && s[0] != '0'
    ensures OtpMin <= DecimalValue(s) < 1000000
  {
    DecimalRoundTrip(s);
    var n := DecimalValue(s);
    assert Pow10(5) == OtpMin && Pow10(6) == 1000000;
    if n < OtpMin {
      LeadingDigitPositive(s);
      DigitsAtMost(n, 5);
    } else if n >= 1000000 {
      DigitsMoreThan(n, 6);
    }
  }

  /** A positive number below 10^k has at most k digits. */
  lemma {:induction false} DigitsAtMost(n: nat, k: nat)
    requires 0 < n < Pow10(k)
    ensures |DecimalString(n)| <= k
  {
    if n >= 10 {
      assert n / 10 < Pow10(k - 1);
      DigitsAtMost(n / 10, k - 1);
    }
  }

  /** A number of at least 10^k has more than k digits. */
  lemma {:induction false} DigitsMoreThan(n: nat, k: nat)
    requires n >= Pow10(k)
    ensures |DecimalString(n)| > k
  {
    if k > 0 {
      assert n / 10 >= Pow10(k - 1);
      DigitsMoreThan(n / 10, k - 1);
    }
  }

  // ---------------------------------------------------------- session tokens

  /** The name of the session cookie. */
  const JwtCookieName: string := "jwt"

  /** `expiresIn: "7d"`, in seconds. */
  const TokenLifetimeSeconds: nat := 7 * 24 * 60 * 60

  /** What `jwt.sign({ userid }, JWT_SECRET, { expiresIn: "7d" })` encodes;
      the secret and the signature are not modelled. */
  datatype Token = Jwt(userId: nat, expiresInSeconds: nat)

  function SignToken(userId: nat): Token {
    Jwt(userId, TokenLifetimeSeconds)
  }

  /** The option object handed to `res.cookie` or `res.clearCookie`;
      `maxAge` is in milliseconds. */
  datatype CookieOptions = CookieOptions(maxAge: Option<int>, httpOnly: bool, sameSite: string, secure: bool)

  /** The options `generateToken` sets the session cookie with, for the value
      of NODE_ENV (None when it is unset). */
  function JwtCookieOptions(nodeEnv: Option<string>): (o: CookieOptions)
    ensures o.maxAge == Some(604800000)
    ensures o.maxAge == Some(1000 * SignToken(0).expiresInSeconds)
    ensures o.httpOnly
    ensures o.sameSite == "none" <==> nodeEnv == Some("production")
    ensures o.sameSite == "lax" <==> nodeEnv != Some("production")
    ensures !o.secure <==> nodeEnv == Some("development")
    ensures o.sameSite == "none" ==> o.secure
  {
    CookieOptions(
      Some(7 * 24 * 60 * 60 * 1000),
      true,
      if nodeEnv == Some("production") then "none" else "lax",
      nodeEnv != Some("development"))
  }

  /** The options `logout` clears the session cookie with. */
  function ClearJwtCookieOptions(nodeEnv: Option<string>): (o: CookieOptions)
    ensures o.maxAge.None? && o.httpOnly && o.sameSite == "strict"
    ensures o.secure <==> nodeEnv == Some("production")
  {
    CookieOptions(None, true, "strict", nodeEnv == Some("production"))
  }

  /** The cookie is cleared with the Secure flag it was set with only when
      NODE_ENV is "production" or "development"; for every other value,
      unset included, it is set Secure and cleared without it. */
  lemma ClearSecureMatchesSet(nodeEnv: Option<string>)
    ensures ClearJwtCookieOptions(nodeEnv).secure == JwtCookieOptions(nodeEnv).secure <==>
            nodeEnv == Some("production") || nodeEnv == Some("development")
  {
  }

  /** One `Set-Cookie` header written to the response. */
  datatype CookieHeader =
    | SetCookie(name: string, value: Token, options: CookieOptions)
    | ClearCookie(name: string, options: CookieOptions)

  /** The part of Express's response object the authentication flow writes:
      the cookie headers, in the order they were added. */
  class HttpResponse {
    var cookies: seq<CookieHeader>

    constructor ()
      ensures cookies == []
    {
      cookies := [];
    }

    /** `res.cookie(name, value, options)`. */
    method Cookie(name: string, value: Token, options: CookieOptions)
      modifies this
      ensures cookies == old(cookies) + [SetCookie(name, value, options)]
    {
      cookies := cookies + [SetCookie(name, value, options)];
    }

    /** `res.clearCookie(name, options)`. */
    method ClearCookie(name: string, options: CookieOptions)
      modifies this
      ensures cookies == old(cookies) + [CookieHeader.ClearCookie(name, options)]
    {
      cookies := cookies + [CookieHeader.ClearCookie(name, options)];
    }
  }

  /** `generateToken(userid, res)`: signs a token for `userId`, writes it to
      the response as the `jwt` cookie, and returns the same token. */
  method GenerateToken(userId: nat, nodeEnv: Option<string>, res: HttpResponse) returns (token: Token)
    modifies res
    ensures token.userId == userId && token.expiresInSeconds == TokenLifetimeSeconds
    ensures res.cookies == old(res.cookies) + [SetCookie(JwtCookieName, token, JwtCookieOptions(nodeEnv))]
  {
    token := SignToken(userId);
    res.Cookie(JwtCookieName, token, JwtCookieOptions(nodeEnv));
  }
}
