/** base64url as the app writes it (`b64url`) and reads it (`decodeBase64Url`), over the
    platform's btoa and atob (sections 4 and 5 of RFC 4648). */
module Base64Url {
  import opened Wrappers

  type Byte = b: int | 0 <= b < 256
  type Sextet = x: int | 0 <= x < 64

  predicate InAlphabet(c: char) {
    'A' <= c <= 'Z' || 'a' <= c <= 'z' || '0' <= c <= '9' || c == '+' || c == '/'
  }

  function CharOf(x: Sextet): char {
    if x < 26 then 'A' + x as char
    else if x < 52 then 'a' + (x - 26) as char
    else if x < 62 then '0' + (x - 52) as char
    else if x == 62 then '+' else '/'
  }

  function ValueOf(c: char): Sextet {
    if 'A' <= c <= 'Z' then (c - 'A') as int
    else if 'a' <= c <= 'z' then (c - 'a') as int + 26
    else if '0' <= c <= '9' then (c - '0') as int + 52
    else if c == '+' then 62 else 63
  }

  lemma ValueOfCharOf(x: Sextet)
    ensures ValueOf(CharOf(x)) == x && InAlphabet(CharOf(x))
  {
  }

  // ---------------------------------------------------------------- bytes and sextets

  /** The input as groups of six bits, the last filled up with zero bits. */
  function SextetsOf(b: seq<Byte>): seq<Sextet> {
    if |b| == 0 then []
    else if |b| == 1 then [b[0] / 4, b[0] % 4 * 16]
    else if |b| == 2 then [b[0] / 4, b[0] % 4 * 16 + b[1] / 16, b[1] % 16 * 4]
    else [b[0] / 4, b[0] % 4 * 16 + b[1] / 16, b[1] % 16 * 4 + b[2] / 64, b[2] % 64] + SextetsOf(b[3..])
  }

  /** Four sextets give three bytes; two or three left over give one or two. */
  function BytesOf(v: seq<Sextet>): seq<Byte> {
    if |v| < 2 then []
    else if |v| == 2 then [FirstByte(v[0], v[1])]
    else if |v| == 3 then [FirstByte(v[0], v[1]), SecondByte(v[1], v[2])]
    else [FirstByte(v[0], v[1]), SecondByte(v[1], v[2]), ThirdByte(v[2], v[3])] + BytesOf(v[4..])
  }

  function FirstByte(x: int, y: int): Byte
    requires 0 <= x < 64 && 0 <= y < 64
  {
    x * 4 + y / 16
  }

  function SecondByte(x: int, y: int): Byte
    requires 0 <= x < 64 && 0 <= y < 64
  {
    x % 16 * 16 + y / 4
  }

  function ThirdByte(x: int, y: int): Byte
    requires 0 <= x < 64 && 0 <= y < 64
  {
    x % 4 * 64 + y
  }

  /** Cutting three bytes into four sextets loses no bit. */
  lemma FirstBack(a: Byte, low: int)
    requires 0 <= low < 16
    ensures FirstByte(a / 4, a % 4 * 16 + low) == a
  {
  }

  lemma SecondBack(high: int, b: Byte, low: int)
    requires 0 <= high < 4 && 0 <= low < 4
    ensures SecondByte(high * 16 + b / 16, b % 16 * 4 + low) == b
  {
    assert (high * 16 + b / 16) % 16 == b / 16;
    assert (b % 16 * 4 + low) / 4 == b % 16;
  }

  lemma ThirdBack(high: int, c: Byte)
    requires 0 <= high < 16
    ensures ThirdByte(high * 4 + c / 64, c % 64) == c
  {
    assert (high * 4 + c / 64) % 4 == c / 64;
  }

  lemma FourMore(n: nat)
    requires n % 4 != 1
    ensures (n + 4) % 4 != 1
  {
  }

  lemma {:induction false} BytesOfSextets(b: seq<Byte>)
    ensures BytesOf(SextetsOf(b)) == b
    ensures |SextetsOf(b)| % 4 != 1
  {
    if |b| > 0 { FirstBack(b[0], if |b| > 1 then b[1] / 16 else 0); }
    if |b| > 1 { SecondBack(b[0] % 4, b[1], if |b| > 2 then b[2] / 64 else 0); }
    if |b| > 2 {
      ThirdBack(b[1] % 16, b[2]);
      BytesOfSextets(b[3..]);
      var rest := SextetsOf(b[3..]);
      assert SextetsOf(b)[4..] == rest;
      FourMore(|rest|);
      assert b == [b[0], b[1], b[2]] + b[3..];
    }
  }

  // ---------------------------------------------------------------- btoa and atob

  function Equals(n: nat): string { seq(n, _ => '=') }

  function MapChars<T, U>(s: seq<T>, f: T -> U): (r: seq<U>)
    ensures |r| == |s| && forall i | 0 <= i < |s| :: r[i] == f(s[i])
  {
    seq(|s|, i requires 0 <= i < |s| => f(s[i]))
  }

  function Letters(b: seq<Byte>): string { MapChars(SextetsOf(b), CharOf) }

  /** A binary string: one character per byte, its code the byte. */
  predicate IsBinary(bin: string) { forall i | 0 <= i < |bin| :: bin[i] < 256 as char }

  function CodesOf(bin: string): (codes: seq<Byte>)
    requires IsBinary(bin)
    ensures |codes| == |bin| && forall i | 0 <= i < |bin| :: codes[i] == bin[i] as int
  {
    seq(|bin|, i requires 0 <= i < |bin| => bin[i] as int)
  }

  /** The platform's encoder; it throws on a string that is not binary. */
  function Btoa(bin: string): string
    requires IsBinary(bin)
  {
    Letters(CodesOf(bin)) + Equals((3 - |bin| % 3) % 3)
  }

  predicate IsAsciiSpace(c: char) { c == ' ' || c == '\t' || c == '\n' || c == '\r' || c == 12 as char }

  function StripSpace(s: string): string {
    if s == "" then "" else (if IsAsciiSpace(s[0]) then "" else [s[0]]) + StripSpace(s[1..])
  }

  function DropPadding(s: string): string {
    if |s| == 0 || |s| % 4 != 0 || s[|s| - 1] != '=' then s
    else if s[|s| - 2] != '=' then s[..|s| - 1]
    else s[..|s| - 2]
  }

  predicate AllInAlphabet(s: string) { forall i | 0 <= i < |s| :: InAlphabet(s[i]) }

  /** The platform's forgiving decoder; `None` where it throws. */
  function Atob(s: string): Option<seq<Byte>> {
    var data := DropPadding(StripSpace(s));
    if |data| % 4 == 1 || !AllInAlphabet(data) then None
    else Some(BytesOf(MapChars(data, ValueOf)))
  }

  // ---------------------------------------------------------------- the two functions

  /** `.replace(/x/g, "y")` */
  function ReplaceAll(s: string, x: char, y: char): string { MapChars(s, c => if c == x then y else c) }

  /** `.replace(/=+$/, "")` */
  function StripEquals(s: string): string {
    if s != "" && s[|s| - 1] == '=' then StripEquals(s[..|s| - 1]) else s
  }

  function ToUrlChar(c: char): char { if c == '+' then '-' else if c == '/' then '_' else c }

  /** base64url without padding, as RFC 4648 describes it: the letters of the bytes, two of
      them in another shape. */
  function B64UrlOf(bytes: seq<Byte>): string { MapChars(Letters(bytes), ToUrlChar) }

  /** By way of a binary string and the padded encoding: what comes out is unpadded
      base64url, and the decoder reads the bytes back. */
  method B64Url(bytes: seq<Byte>) returns (s: string)
    ensures s == B64UrlOf(bytes)
    ensures DecodeBase64Url(s) == Some(bytes)
  {
    var bin := "";
    for i := 0 to |bytes|
      invariant |bin| == i && forall j | 0 <= j < i :: bin[j] == bytes[j] as char
    {
      bin := bin + [bytes[i] as char];
    }
    assert CodesOf(bin) == bytes;
    s := Btoa(bin);
    s := ReplaceAll(s, '+', '-');
    s := ReplaceAll(s, '/', '_');
    s := StripEquals(s);
    PassesEncode(bytes);
    DecodeUndoesEncode(bytes);
  }

  function DecodeBase64Url(s: string): Option<seq<Byte>> {
    var b64 := ReplaceAll(ReplaceAll(s, '-', '+'), '_', '/');
    Atob(b64 + Equals(PadLength(|b64|)))
  }

  function PadLength(n: nat): nat { (4 - n % 4) % 4 }

  lemma PadLengthShort(n: nat)
    ensures (n + PadLength(n)) % 4 == 0
    ensures n % 4 != 1 ==> PadLength(n) < 3
  {
  }

  // ---------------------------------------------------------------- the round trip

  lemma LettersInAlphabet(b: seq<Byte>)
    ensures AllInAlphabet(Letters(b))
    ensures MapChars(Letters(b), ValueOf) == SextetsOf(b)
  {
    forall i | 0 <= i < |Letters(b)| ensures InAlphabet(Letters(b)[i]) && ValueOf(Letters(b)[i]) == SextetsOf(b)[i] {
      ValueOfCharOf(SextetsOf(b)[i]);
    }
  }

  lemma {:induction false} StripEqualsOnce(s: string, n: nat)
    requires s != "" ==> s[|s| - 1] != '='
    ensures StripEquals(s + Equals(n)) == s
  {
    if n == 0 {
      assert s + Equals(0) == s;
    } else {
      assert (s + Equals(n))[..|s| + n - 1] == s + Equals(n - 1);
      StripEqualsOnce(s, n - 1);
    }
  }

  lemma {:induction false} NothingToStrip(s: string)
    requires forall i | 0 <= i < |s| :: !IsAsciiSpace(s[i])
    ensures StripSpace(s) == s
  {
    if s != "" { NothingToStrip(s[1..]); }
  }

  predicate InUrlAlphabet(c: char) { (InAlphabet(c) && c != '+' && c != '/') || c == '-' || c == '_' }

  /** The two replacements and the stripping turn the padded encoding into base64url. */
  lemma PassesEncode(bytes: seq<Byte>)
    ensures forall n: nat ::
              StripEquals(ReplaceAll(ReplaceAll(Letters(bytes) + Equals(n), '+', '-'), '/', '_')) == B64UrlOf(bytes)
  {
    B64UrlShape(bytes);
    forall n: nat
      ensures StripEquals(ReplaceAll(ReplaceAll(Letters(bytes) + Equals(n), '+', '-'), '/', '_')) == B64UrlOf(bytes)
    {
      assert ReplaceAll(ReplaceAll(Letters(bytes) + Equals(n), '+', '-'), '/', '_') == B64UrlOf(bytes) + Equals(n);
      StripEqualsOnce(B64UrlOf(bytes), n);
    }
  }

  /** The encoding never holds '+', '/' or '=', and swapping the alphabet back gives the
      letters of the standard encoding. */
  lemma B64UrlShape(bytes: seq<Byte>)
    ensures forall c | c in B64UrlOf(bytes) :: InUrlAlphabet(c)
    ensures ReplaceAll(ReplaceAll(B64UrlOf(bytes), '-', '+'), '_', '/') == Letters(bytes)
  {
    LettersInAlphabet(bytes);
    var s := B64UrlOf(bytes);
    forall i | 0 <= i < |s| ensures InUrlAlphabet(s[i]) {
      assert InAlphabet(Letters(bytes)[i]);
    }
  }

  lemma DropsThePadding(letters: string, n: nat)
    requires letters != "" ==> letters[|letters| - 1] != '='
    requires (|letters| + n) % 4 == 0 && n < 3
    ensures DropPadding(letters + Equals(n)) == letters
  {
    var padded := letters + Equals(n);
    if n == 0 {
      assert padded == letters;
    } else if n == 1 {
      assert padded[|padded| - 1] == '=' && padded[|padded| - 2] == letters[|letters| - 1];
      assert padded[..|padded| - 1] == letters;
    } else {
      assert padded[|padded| - 1] == '=' && padded[|padded| - 2] == '=';
      assert padded[..|padded| - 2] == letters;
    }
  }

  /** The formula pads any unpadded encoding to a multiple of four, which atob accepts. */
  lemma DecodeUnpadded(s: string, letters: string)
    requires letters == ReplaceAll(ReplaceAll(s, '-', '+'), '_', '/') && AllInAlphabet(letters) && |letters| % 4 != 1
    ensures DecodeBase64Url(s) == Some(BytesOf(MapChars(letters, ValueOf)))
  {
    var n := PadLength(|letters|);
    PadLengthShort(|letters|);
    LettersKeep(letters, n);
    DropsThePadding(letters, n);
  }

  /** Neither letters nor padding are white space. */
  lemma LettersKeep(letters: string, n: nat)
    requires AllInAlphabet(letters)
    ensures StripSpace(letters + Equals(n)) == letters + Equals(n)
    ensures letters != "" ==> letters[|letters| - 1] != '='
  {
    var s := letters + Equals(n);
    forall i | 0 <= i < |s| ensures !IsAsciiSpace(s[i]) {
      if i < |letters| { assert InAlphabet(letters[i]); }
    }
    NothingToStrip(s);
  }

  /** The padding formula, the alphabet swap and the forgiving decoder undo the encoder
      on every byte sequence. */
  lemma DecodeUndoesEncode(bytes: seq<Byte>)
    ensures DecodeBase64Url(B64UrlOf(bytes)) == Some(bytes)
  {
    B64UrlShape(bytes);
    BytesOfSextets(bytes);
    LettersInAlphabet(bytes);
    DecodeUnpadded(B64UrlOf(bytes), Letters(bytes));
  }

  lemma B64UrlInjective(a: seq<Byte>, b: seq<Byte>)
    requires B64UrlOf(a) == B64UrlOf(b)
    ensures a == b
  {
    DecodeUndoesEncode(a);
    DecodeUndoesEncode(b);
  }
}
