/** Signed admin sessions (lib/admin-session.ts): `rpcadm1.<expiry>.<signature>`, printed
    and parsed by hand and compared without an early exit. */
module AdminSession {
  import opened Wrappers
  import opened Text
  import Base64Url

  const ADMIN_SESSION_PREFIX := "rpcadm1."
  const MESSAGE_TAG := "rpc-admin-session:v1:"
  const ADMIN_SESSION_TTL_MS: int := 12 * 60 * 60 * 1000

  // ---------------------------------------------------------------- the comparison

  /** Bitwise exclusive or and or of naturals. */
  function BitXor(x: nat, y: nat): nat
    decreases x + y
  {
    if x == 0 && y == 0 then 0 else 2 * BitXor(x / 2, y / 2) + (if x % 2 == y % 2 then 0 else 1)
  }

  function BitOr(x: nat, y: nat): nat
    decreases x + y
  {
    if x == 0 && y == 0 then 0 else 2 * BitOr(x / 2, y / 2) + (if x % 2 == 0 && y % 2 == 0 then 0 else 1)
  }

  lemma {:induction false} BitXorZero(x: nat, y: nat)
    ensures BitXor(x, y) == 0 <==> x == y
    decreases x + y
  {
    if x != 0 || y != 0 { BitXorZero(x / 2, y / 2); }
  }

  lemma {:induction false} BitOrZero(x: nat, y: nat)
    ensures BitOr(x, y) == 0 <==> x == 0 && y == 0
    decreases x + y
  {
    if x != 0 || y != 0 { BitOrZero(x / 2, y / 2); }
  }

  /** `s.charCodeAt(i) || 0` */
  function CodeAt(s: string, i: nat): nat {
    if i < |s| then s[i] as nat else 0
  }

  /** The accumulator loop decides equality. */
  method Equal(a: string, b: string) returns (same: bool)
    ensures same <==> a == b
  {
    var len := if |a| < |b| then |b| else |a|;
    var diff := BitXor(|a|, |b|);
    BitXorZero(|a|, |b|);
    for i := 0 to len
      invariant diff == 0 <==> |a| == |b| && forall j | 0 <= j < i :: CodeAt(a, j) == CodeAt(b, j)
    {
      var bits := BitXor(CodeAt(a, i), CodeAt(b, i));
      BitXorZero(CodeAt(a, i), CodeAt(b, i));
      BitOrZero(diff, bits);
      diff := BitOr(diff, bits);
    }
    if diff == 0 {
      assert forall j | 0 <= j < |a| :: a[j] == b[j] by {
        forall j | 0 <= j < |a| ensures a[j] == b[j] {
          assert CodeAt(a, j) == CodeAt(b, j);
        }
      }
    }
    return diff == 0;
  }

  // ---------------------------------------------------------------- mint and verify

  /** HMAC-SHA256 with a key over a message; its value never matters here. */
  type Hmac = (string, string) -> seq<Base64Url.Byte>

  function Sign(hmac: Hmac, master: string, exp: int): string {
    Base64Url.B64UrlOf(hmac(master, MESSAGE_TAG + Decimal(exp)))
  }

  function SessionFor(hmac: Hmac, master: string, exp: int): string {
    ADMIN_SESSION_PREFIX + Decimal(exp) + "." + Sign(hmac, master, exp)
  }

  datatype Minted = Minted(session: string, expiresAt: int)

  function Mint(hmac: Hmac, master: Option<string>, now: int): Option<Minted> {
    if master.None? || master.value == "" then None
    else
      var exp := now + ADMIN_SESSION_TTL_MS;
      Some(Minted(SessionFor(hmac, master.value, exp), exp))
  }

  /** The text and the signature after the prefix, when the text before the first dot is
      thirteen digits. */
  function Parse(presented: string): Option<(string, string)> {
    if !(ADMIN_SESSION_PREFIX <= presented) then None
    else
      var rest := presented[|ADMIN_SESSION_PREFIX|..];
      var dot := IndexOf(rest, '.');
      if dot <= 0 then None
      else if dot == 13 && AllDigits(rest[..dot]) then Some((rest[..dot], rest[dot + 1..]))
      else None
  }

  predicate InWindow(exp: int, now: int) { now < exp <= now + ADMIN_SESSION_TTL_MS + 60_000 }

  predicate Verifies(hmac: Hmac, presented: Option<string>, master: Option<string>, now: int) {
    && master.Some? && master.value != ""
    && presented.Some?
    && var parsed := Parse(presented.value);
    && parsed.Some?
    && AllDigits(parsed.value.0)
    && var exp := Number(parsed.value.0);
    && InWindow(exp, now)
    && parsed.value.1 == Sign(hmac, master.value, exp)
  }

  method VerifyAdminSession(hmac: Hmac, presented: Option<string>, master: Option<string>, now: int) returns (ok: bool)
    ensures ok == Verifies(hmac, presented, master, now)
  {
    if master.None? || master.value == "" {
      return false;
    }
    if presented.None? || !(ADMIN_SESSION_PREFIX <= presented.value) {
      return false;
    }
    var rest := presented.value[|ADMIN_SESSION_PREFIX|..];
    var dot := IndexOf(rest, '.');
    if dot <= 0 {
      return false;
    }
    var expStr := rest[..dot];
    if |expStr| != 13 || !AllDigits(expStr) {
      return false;
    }
    var exp := Number(expStr);
    if !(exp > now) || exp > now + ADMIN_SESSION_TTL_MS + 60_000 {
      return false;
    }
    ok := Equal(rest[dot + 1..], Sign(hmac, master.value, exp));
  }

  // ---------------------------------------------------------------- print and parse

  /** Parsing takes apart exactly what printing puts together. */
  lemma ParseInvertsPrint(presented: string, digits: string, signature: string)
    ensures Parse(presented) == Some((digits, signature))
            <==> |digits| == 13 && AllDigits(digits) && presented == ADMIN_SESSION_PREFIX + digits + "." + signature
  {
    var n := |ADMIN_SESSION_PREFIX|;
    if |digits| == 13 && AllDigits(digits) && presented == ADMIN_SESSION_PREFIX + digits + "." + signature {
      var rest := presented[n..];
      assert rest == digits + "." + signature;
      IndexOfAfter(digits, '.', signature);
      assert rest[..13] == digits && rest[14..] == signature;
    }
    if Parse(presented) == Some((digits, signature)) {
      var rest := presented[n..];
      assert presented == presented[..n] + rest;
      assert rest == rest[..13] + "." + rest[14..];
    }
  }

  lemma Digits13(exp: int)
    ensures |Decimal(exp)| == 13 && AllDigits(Decimal(exp)) <==> 1_000_000_000_000 <= exp < 10_000_000_000_000
    ensures exp >= 0 ==> AllDigits(Decimal(exp)) && Number(Decimal(exp)) == exp
  {
    if exp >= 0 {
      NumberOfDigits(exp);
      DigitsLength(exp, 13);
      assert Power10(12) == 1_000_000_000_000 by { Powers(); }
      assert Power10(13) == 10_000_000_000_000 by { Powers(); }
    } else {
      assert Decimal(exp)[0] == '-';
    }
  }

  lemma Powers()
    ensures Power10(12) == 1_000_000_000_000 && Power10(13) == 10_000_000_000_000
  {
    assert Power10(4) == 10_000;
    assert Power10(8) == 100_000_000;
    assert Power10(12) == 1_000_000_000_000;
  }

  /** A minted session verifies from a minute before it was minted until it runs out, and
      never otherwise, provided its expiry prints with thirteen digits; else never. */
  lemma MintedVerifiesIff(hmac: Hmac, master: string, mintedAt: int, now: int)
    requires master != ""
    ensures Mint(hmac, Some(master), mintedAt).Some?
    ensures var minted := Mint(hmac, Some(master), mintedAt).value;
            && minted.expiresAt == mintedAt + 43_200_000
            && (Verifies(hmac, Some(minted.session), Some(master), now)
                <==> 1_000_000_000_000 <= minted.expiresAt < 10_000_000_000_000 && mintedAt - 60_000 <= now < minted.expiresAt)
  {
    var exp := mintedAt + ADMIN_SESSION_TTL_MS;
    var session := SessionFor(hmac, master, exp);
    Digits13(exp);
    ParseInvertsPrint(session, Decimal(exp), Sign(hmac, master, exp));
    if Parse(session).Some? {
      var (digits, signature) := Parse(session).value;
      ParseInvertsPrint(session, digits, signature);
      NoDots(exp);
      DotsAgree(digits, signature, Decimal(exp), Sign(hmac, master, exp));
    }
  }

  /** Without a master nothing is minted and nothing verifies, nor does a missing session. */
  lemma FailsClosed(hmac: Hmac, presented: Option<string>, master: Option<string>, now: int)
    ensures master == None || master == Some("") ==>
              Mint(hmac, master, now) == None && !Verifies(hmac, presented, master, now)
    ensures !Verifies(hmac, None, master, now)
  {
  }

  lemma NoDots(exp: int)
    ensures '.' !in Decimal(exp)
  {
    if exp < 0 { assert AllDigits(Digits(-exp)); }
  }

  lemma DotsAgree(a: string, b: string, c: string, d: string)
    requires '.' !in a && '.' !in c
    requires ADMIN_SESSION_PREFIX + a + "." + b == ADMIN_SESSION_PREFIX + c + "." + d
    ensures a == c && b == d
  {
    var n := |ADMIN_SESSION_PREFIX|;
    assert (ADMIN_SESSION_PREFIX + a + "." + b)[n..] == a + "." + b;
    assert (ADMIN_SESSION_PREFIX + c + "." + d)[n..] == c + "." + d;
    IndexOfAfter(a, '.', b);
    IndexOfAfter(c, '.', d);
    assert a == (a + "." + b)[..|a|] && c == (c + "." + d)[..|c|];
    assert b == (a + "." + b)[|a| + 1..] && d == (c + "." + d)[|c| + 1..];
  }

  /** What is accepted, at any time: the prefix, a thirteen-digit numeral of an expiry in
      the window, a dot and the signature of that expiry. Nothing else. */
  lemma AcceptedIff(hmac: Hmac, presented: string, master: string, now: int)
    requires master != ""
    ensures Verifies(hmac, Some(presented), Some(master), now)
            <==> exists digits: string ::
                   && |digits| == 13 && AllDigits(digits) && InWindow(Number(digits), now)
                   && presented == ADMIN_SESSION_PREFIX + digits + "." + Sign(hmac, master, Number(digits))
  {
    if Verifies(hmac, Some(presented), Some(master), now) {
      var (digits, signature) := Parse(presented).value;
      ParseInvertsPrint(presented, digits, signature);
    }
    forall digits: string | |digits| == 13 && AllDigits(digits) && InWindow(Number(digits), now)
                            && presented == ADMIN_SESSION_PREFIX + digits + "." + Sign(hmac, master, Number(digits))
      ensures Verifies(hmac, Some(presented), Some(master), now)
    {
      ParseInvertsPrint(presented, digits, Sign(hmac, master, Number(digits)));
    }
  }

  /** On today's clock the accepted strings are exactly the sessions the app could have
      minted in the last twelve hours and minute, each for one expiry only. */
  lemma AcceptedIsMintable(hmac: Hmac, presented: string, master: string, now: int)
    requires master != ""
    requires 1_000_000_000_000 <= now
    ensures Verifies(hmac, Some(presented), Some(master), now)
            <==> exists exp :: InWindow(exp, now) && exp < 10_000_000_000_000 && presented == SessionFor(hmac, master, exp)
    ensures forall e1, e2 | presented == SessionFor(hmac, master, e1) && presented == SessionFor(hmac, master, e2) :: e1 == e2
  {
    AcceptedIff(hmac, presented, master, now);
    if Verifies(hmac, Some(presented), Some(master), now) {
      var digits: string :|
        && |digits| == 13 && AllDigits(digits) && InWindow(Number(digits), now)
        && presented == ADMIN_SESSION_PREFIX + digits + "." + Sign(hmac, master, Number(digits));
      LeadingZeroIsSmall(digits);
      DigitsOfNumber(digits);
      NumberBound(digits);
      Powers();
      assert presented == SessionFor(hmac, master, Number(digits));
    }
    forall exp | InWindow(exp, now) && exp < 10_000_000_000_000 && presented == SessionFor(hmac, master, exp)
      ensures Verifies(hmac, Some(presented), Some(master), now)
    {
      Digits13(exp);
      ParseInvertsPrint(presented, Decimal(exp), Sign(hmac, master, exp));
    }
    forall e1, e2 | presented == SessionFor(hmac, master, e1) && presented == SessionFor(hmac, master, e2)
      ensures e1 == e2
    {
      NoDots(e1);
      NoDots(e2);
      DotsAgree(Decimal(e1), Sign(hmac, master, e1), Decimal(e2), Sign(hmac, master, e2));
      DecimalInjective(e1, e2);
    }
  }

  /** Under this key two different admin-session messages have one code. */
  ghost predicate Collides(hmac: Hmac, master: string) {
    exists a, b :: a != b && MESSAGE_TAG <= a && MESSAGE_TAG <= b && hmac(master, a) == hmac(master, b)
  }

  lemma AcceptedSignature(hmac: Hmac, digits: string, signature: string, master: string, now: int)
    requires |digits| == 13 && AllDigits(digits)
    requires Verifies(hmac, Some(ADMIN_SESSION_PREFIX + digits + "." + signature), Some(master), now)
    ensures signature == Sign(hmac, master, Number(digits))
  {
    ParseInvertsPrint(ADMIN_SESSION_PREFIX + digits + "." + signature, digits, signature);
  }

  /** A signature is good for one expiry: a session accepted at any time is, with another
      expiry written into it, never accepted, unless the code itself collides. */
  lemma ExpiryCannotBeChanged(hmac: Hmac, signature: string, a: string, b: string, master: string, now: int, later: int)
    requires |a| == |b| == 13 && AllDigits(a) && AllDigits(b)
    requires Verifies(hmac, Some(ADMIN_SESSION_PREFIX + a + "." + signature), Some(master), now)
    requires Verifies(hmac, Some(ADMIN_SESSION_PREFIX + b + "." + signature), Some(master), later)
    ensures a == b || Collides(hmac, master)
  {
    AcceptedSignature(hmac, a, signature, master, now);
    AcceptedSignature(hmac, b, signature, master, later);
    if a != b {
      if Number(a) == Number(b) { SameNumeral(a, b); }
      SignaturesDiffer(hmac, master, Number(a), Number(b));
    }
  }

  lemma SignaturesDiffer(hmac: Hmac, master: string, e1: nat, e2: nat)
    requires Sign(hmac, master, e1) == Sign(hmac, master, e2) && e1 != e2
    ensures Collides(hmac, master)
  {
    var m1, m2 := MESSAGE_TAG + Decimal(e1), MESSAGE_TAG + Decimal(e2);
    if m1 == m2 {
      assert m1[|MESSAGE_TAG|..] == Decimal(e1) && m2[|MESSAGE_TAG|..] == Decimal(e2);
      DecimalInjective(e1, e2);
    }
    Base64Url.B64UrlInjective(hmac(master, m1), hmac(master, m2));
  }

  /** Rotating the master ends every session: none verifies under two masters, unless the
      code of some message is the same under both. */
  lemma RotationEndsSessions(hmac: Hmac, presented: string, before: string, after: string, now: int, later: int)
    requires Verifies(hmac, Some(presented), Some(before), now)
    requires Verifies(hmac, Some(presented), Some(after), later)
    ensures exists m :: MESSAGE_TAG <= m && hmac(before, m) == hmac(after, m)
  {
    var exp := Number(Parse(presented).value.0);
    var m := MESSAGE_TAG + Decimal(exp);
    Base64Url.B64UrlInjective(hmac(before, m), hmac(after, m));
  }

  lemma DecimalInjective(a: int, b: int)
    requires Decimal(a) == Decimal(b)
    ensures a == b
  {
    assert a >= 0 ==> Decimal(a)[0] != '-';
    assert b >= 0 ==> Decimal(b)[0] != '-';
    if a < 0 && b < 0 {
      assert Decimal(a)[1..] == Digits(-a) && Decimal(b)[1..] == Digits(-b);
      NumberOfDigits(-a);
      NumberOfDigits(-b);
    } else if a >= 0 && b >= 0 {
      NumberOfDigits(a);
      NumberOfDigits(b);
    }
  }

  /** Thirteen digits that start with a zero are worth less than 10^12. */
  lemma LeadingZeroIsSmall(digits: string)
    requires |digits| == 13 && AllDigits(digits)
    ensures digits[0] == '0' ==> Number(digits) < 1_000_000_000_000
  {
    if digits[0] == '0' {
      NumberSkipsZero(digits);
      NumberBound(digits[1..]);
      Powers();
    }
  }

  lemma {:induction false} NumberSkipsZero(digits: string)
    requires AllDigits(digits) && digits != "" && digits[0] == '0'
    ensures Number(digits) == Number(digits[1..])
  {
    if |digits| > 1 {
      NumberSkipsZero(digits[..|digits| - 1]);
      assert digits[1..][..|digits| - 2] == digits[..|digits| - 1][1..];
    }
  }
}
