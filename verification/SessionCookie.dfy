/** How proxy.ts reads the Supabase session cookie: one cookie, or numbered chunks in any
    order, joined and base64url-decoded. */
module SessionCookie {
  import opened Wrappers
  import opened Text
  import opened Sequences
  import Base64Url

  datatype Cookie = Cookie(name: string, value: string)
  datatype Chunk = Chunk(index: nat, value: string)

  /** A cookie named `base.<digits>`, with its number. */
  function ChunkOf(c: Cookie, base: string): Option<Chunk> {
    if !(base + "." <= c.name) then None
    else
      var digits := c.name[|base| + 1..];
      if digits != "" && AllDigits(digits) then Some(Chunk(Number(digits), c.value)) else None
  }

  function ChunkReader(base: string): Cookie -> Option<Chunk> { c => ChunkOf(c, base) }

  predicate ByIndex(a: Chunk, b: Chunk) { a.index <= b.index }

  function Values(chunks: seq<Chunk>): seq<string> {
    seq(|chunks|, i requires 0 <= i < |chunks| => chunks[i].value)
  }

  /** The value of the first cookie with this name, "" when there is none. */
  function ValueNamed(jar: seq<Cookie>, name: string): string {
    if jar == [] then "" else if jar[0].name == name then jar[0].value else ValueNamed(jar[1..], name)
  }

  function RawSession(jar: seq<Cookie>, base: string): string {
    var whole := ValueNamed(jar, base);
    if whole != "" then whole else Concat(Values(SortBy(FilterMap(jar, ChunkReader(base)), ByIndex)))
  }

  /** The bytes of the session JSON, when the value carries the encoding's mark. */
  function DecodeSession(raw: string): Option<seq<Base64Url.Byte>> {
    if "base64-" <= raw then Base64Url.DecodeBase64Url(raw[7..]) else None
  }

  // ---------------------------------------------------------------- reassembly

  function ChunkCookies(parts: seq<string>, base: string): seq<Cookie> {
    seq(|parts|, i requires 0 <= i < |parts| => Cookie(base + "." + Decimal(i), parts[i]))
  }

  function Numbered(parts: seq<string>): seq<Chunk> {
    seq(|parts|, i requires 0 <= i < |parts| => Chunk(i, parts[i]))
  }

  lemma ChunkOfNumbered(i: nat, value: string, base: string)
    ensures ChunkOf(Cookie(base + "." + Decimal(i), value), base) == Some(Chunk(i, value))
  {
    var name := base + "." + Decimal(i);
    assert name[|base| + 1..] == Decimal(i);
    assert name[..|base| + 1] == base + ".";
    NumberOfDigits(i);
  }

  lemma ReadBackOne(c: Cookie, base: string, chunk: Chunk)
    requires ChunkOf(c, base) == Some(chunk)
    ensures FilterMap([c], ChunkReader(base)) == [chunk]
  {
    assert FilterMap([c][1..], ChunkReader(base)) == [];
  }

  lemma {:induction false} ReadBackNumbered(parts: seq<string>, base: string, n: nat)
    requires n <= |parts|
    ensures FilterMap(ChunkCookies(parts, base)[..n], ChunkReader(base)) == Numbered(parts)[..n]
  {
    if n > 0 {
      ReadBackNumbered(parts, base, n - 1);
      var all, m := ChunkCookies(parts, base), n - 1;
      ChunkOfNumbered(m, parts[m], base);
      ReadBackOne(all[m], base, Chunk(m, parts[m]));
      FilterMapConcat(all[..m], [all[m]], ChunkReader(base));
      assert all[..n] == all[..m] + [all[m]];
    }
  }

  lemma {:induction false} NoChunks(others: seq<Cookie>, base: string)
    requires forall c | c in others :: ChunkOf(c, base) == None
    ensures FilterMap(others, ChunkReader(base)) == []
  {
    if others != [] { NoChunks(others[1..], base); }
  }

  lemma {:induction false} NoWholeCookie(jar: seq<Cookie>, base: string)
    requires forall c | c in jar && c.name == base :: c.value == ""
    ensures ValueNamed(jar, base) == ""
  {
    if jar != [] { NoWholeCookie(jar[1..], base); }
  }

  lemma ChunksFound(parts: seq<string>, others: seq<Cookie>, jar: seq<Cookie>, base: string)
    requires forall c | c in others :: ChunkOf(c, base) == None
    requires multiset(jar) == multiset(ChunkCookies(parts, base) + others)
    ensures multiset(FilterMap(jar, ChunkReader(base))) == multiset(Numbered(parts))
  {
    var all := ChunkCookies(parts, base);
    FilterMapPermuted(jar, all + others, ChunkReader(base));
    FilterMapConcat(all, others, ChunkReader(base));
    NoChunks(others, base);
    ReadBackNumbered(parts, base, |parts|);
    assert all[..|parts|] == all && Numbered(parts)[..|parts|] == Numbered(parts);
    assert FilterMap(all, ChunkReader(base)) + [] == Numbered(parts);
  }

  lemma SortedNumbers(parts: seq<string>, found: seq<Chunk>)
    requires multiset(found) == multiset(Numbered(parts))
    ensures SortBy(found, ByIndex) == Numbered(parts)
  {
    SortPermutes(found, ByIndex);
    SortSorts(found, ByIndex);
    SortedUnique(Numbered(parts), SortBy(found, ByIndex), ByIndex);
  }

  /** Which cookies are chunks: those named like the session's with a dot and a numeral. */
  lemma ChunkNames(c: Cookie, base: string, n: nat)
    ensures ChunkOf(c, base) == Some(Chunk(n, c.value))
            <==> exists digits :: digits != "" && AllDigits(digits) && Number(digits) == n && c.name == base + "." + digits
    ensures ChunkOf(c, base).Some? ==> ChunkOf(c, base).value.value == c.value
  {
    if ChunkOf(c, base).Some? {
      var digits := c.name[|base| + 1..];
      assert c.name == (base + ".") + digits;
    }
    forall digits | digits != "" && AllDigits(digits) && Number(digits) == n && c.name == base + "." + digits
      ensures ChunkOf(c, base) == Some(Chunk(n, c.value))
    {
      assert c.name[|base| + 1..] == digits && c.name[..|base| + 1] == base + ".";
    }
  }

  lemma {:induction false} FirstNamed(before: seq<Cookie>, whole: Cookie, after: seq<Cookie>)
    requires forall c | c in before :: c.name != whole.name
    ensures ValueNamed(before + [whole] + after, whole.name) == whole.value
  {
    if before != [] {
      FirstNamed(before[1..], whole, after);
      assert (before + [whole] + after)[1..] == before[1..] + [whole] + after;
    }
  }

  /** A session in one piece wins over any chunks: the first cookie with the session's own
      name is the session, unless it is empty. */
  lemma WholeCookieWins(before: seq<Cookie>, whole: Cookie, after: seq<Cookie>, base: string)
    requires whole.name == base && whole.value != "" && forall c | c in before :: c.name != base
    ensures RawSession(before + [whole] + after, base) == whole.value
  {
    FirstNamed(before, whole, after);
  }

  /** So a session that was not cut survives too. */
  lemma WholeSessionSurvives(bytes: seq<Base64Url.Byte>, before: seq<Cookie>, after: seq<Cookie>, base: string)
    requires forall c | c in before :: c.name != base
    ensures var whole := Cookie(base, "base64-" + Base64Url.B64UrlOf(bytes));
            DecodeSession(RawSession(before + [whole] + after, base)) == Some(bytes)
  {
    var whole := Cookie(base, "base64-" + Base64Url.B64UrlOf(bytes));
    WholeCookieWins(before, whole, after, base);
    Base64Url.DecodeUndoesEncode(bytes);
    assert whole.value[7..] == Base64Url.B64UrlOf(bytes);
  }

  /** However a value was cut into numbered chunks, and however the jar mixes and orders
      them with cookies that are neither chunks nor a whole session, the value comes back. */
  lemma ChunksReassemble(parts: seq<string>, others: seq<Cookie>, jar: seq<Cookie>, base: string)
    requires forall c | c in others :: ChunkOf(c, base) == None
    requires forall c | c in others && c.name == base :: c.value == ""
    requires multiset(jar) == multiset(ChunkCookies(parts, base) + others)
    ensures RawSession(jar, base) == Concat(parts)
  {
    var all := ChunkCookies(parts, base);
    assert forall i | 0 <= i < |all| :: |all[i].name| > |base|;
    forall c | c in jar && c.name == base ensures c.value == "" {
      assert c in multiset(all + others);
    }
    NoWholeCookie(jar, base);
    ChunksFound(parts, others, jar, base);
    SortedNumbers(parts, FilterMap(jar, ChunkReader(base)));
    assert Values(Numbered(parts)) == parts;
  }

  /** The whole path of a session: encoded, cut into chunks, shuffled, reassembled and
      decoded, its bytes are unchanged. */
  lemma SessionSurvivesTheJar(bytes: seq<Base64Url.Byte>, parts: seq<string>, others: seq<Cookie>, jar: seq<Cookie>, base: string)
    requires Concat(parts) == "base64-" + Base64Url.B64UrlOf(bytes)
    requires forall c | c in others :: ChunkOf(c, base) == None
    requires forall c | c in others && c.name == base :: c.value == ""
    requires multiset(jar) == multiset(ChunkCookies(parts, base) + others)
    ensures DecodeSession(RawSession(jar, base)) == Some(bytes)
  {
    ChunksReassemble(parts, others, jar, base);
    Base64Url.DecodeUndoesEncode(bytes);
    var raw := Concat(parts);
    assert raw[7..] == Base64Url.B64UrlOf(bytes);
  }
}
