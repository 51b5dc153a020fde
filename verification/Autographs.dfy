/** Which editions are signed (lib/autographs.ts): one bounded page of signed editions, and
    for NFL All Day the (player, set) pairs all of whose editions are signed. */
module Autographs {
  import opened Wrappers
  import opened Text
  import opened Sequences

  const SIGNED_PAGE: nat := 1000

  /** A stored edition of one collection; the tables below list them in id order. */
  datatype Edition = Edition(playerName: Option<string>, setName: Option<string>, autographedAt: Option<string>)

  predicate IsSigned(e: Edition) { e.autographedAt.Some? }

  function TextOf(s: Option<string>): string { if s.Some? then s.value else "" }

  function PairKey(playerName: Option<string>, setName: Option<string>): string {
    Lower(Trim(TextOf(playerName))) + "|" + Lower(Trim(TextOf(setName)))
  }

  function FoldedName(name: Option<string>): string { Lower(Trim(TextOf(name))) }

  lemma NoBarFolded(name: Option<string>)
    requires '|' !in TextOf(name)
    ensures '|' !in FoldedName(name)
  {
    var before, after := TrimDropsSpace(TextOf(name));
    var t := Trim(TextOf(name));
    forall i | 0 <= i < |t| ensures Lower(t)[i] != '|' {
      assert t[i] in TextOf(name);
    }
  }

  /** The first player's name runs on over the bar into what is the other pair's set. */
  ghost predicate Spills(player1: string, set1: string, player2: string, set2: string) {
    exists x :: player1 == player2 + "|" + x && set2 == x + "|" + set1
  }

  lemma LongerSpills(p: string, s: string, q: string, t: string)
    requires p + "|" + s == q + "|" + t && |p| > |q|
    ensures Spills(p, s, q, t)
  {
    var whole, x := p + "|" + s, p[|q| + 1..];
    assert p[|q|] == whole[|q|] == '|';
    assert p == whole[..|p|] && q == whole[..|q|];
    assert p == q + "|" + x;
    assert whole[|q| + 1..] == x + "|" + s && whole[|q| + 1..] == t;
  }

  lemma SpillsAgree(p: string, s: string, q: string, t: string)
    requires Spills(p, s, q, t)
    ensures p + "|" + s == q + "|" + t
  {
    var x :| p == q + "|" + x && t == x + "|" + s;
    assert q + "|" + x + "|" + s == q + "|" + (x + "|" + s);
  }

  /** Two pairs share a key exactly when their player and set names agree up to case and
      outer space, or one player's name, holding a bar, spills over into the other's set. */
  lemma PairKeysAgreeIff(player1: Option<string>, set1: Option<string>, player2: Option<string>, set2: Option<string>)
    ensures var p, s, q, t := FoldedName(player1), FoldedName(set1), FoldedName(player2), FoldedName(set2);
            PairKey(player1, set1) == PairKey(player2, set2)
            <==> (p == q && s == t) || Spills(p, s, q, t) || Spills(q, t, p, s)
  {
    var p, s, q, t := FoldedName(player1), FoldedName(set1), FoldedName(player2), FoldedName(set2);
    if p + "|" + s == q + "|" + t {
      if |p| > |q| {
        LongerSpills(p, s, q, t);
      } else if |q| > |p| {
        LongerSpills(q, t, p, s);
      } else {
        assert p == (p + "|" + s)[..|p|] && q == (q + "|" + t)[..|q|];
        assert s == (p + "|" + s)[|p| + 1..] && t == (q + "|" + t)[|q| + 1..];
      }
    }
    if Spills(p, s, q, t) { SpillsAgree(p, s, q, t); }
    if Spills(q, t, p, s) { SpillsAgree(q, t, p, s); }
  }

  /** So keys tell pairs apart as long as no player's name holds a bar. */
  lemma PairKeyTellsApart(player1: Option<string>, set1: Option<string>, player2: Option<string>, set2: Option<string>)
    requires '|' !in TextOf(player1) && '|' !in TextOf(player2)
    ensures PairKey(player1, set1) == PairKey(player2, set2)
            <==> FoldedName(player1) == FoldedName(player2) && FoldedName(set1) == FoldedName(set2)
  {
    NoBarFolded(player1);
    NoBarFolded(player2);
    PairKeysAgreeIff(player1, set1, player2, set2);
  }

  /** With one, they may not. */
  lemma BarsCanClash()
    ensures PairKey(Some("a|b"), Some("c")) == PairKey(Some("a"), Some("b|c"))
  {
    assert "a" + "|" + "b" == "a|b" && "b" + "|" + "c" == "b|c";
    forall t: string | t == "a|b" || t == "a" || t == "c" || t == "b|c" ensures Lower(Trim(t)) == t {
      TrimIsTrimmed(t);
      assert Lower(t) == t;
    }
    assert FoldedName(Some("a|b")) == "a|b" && FoldedName(Some("b|c")) == "b|c";
    assert Spills("a|b", "c", "a", "b|c");
    PairKeysAgreeIff(Some("a|b"), Some("c"), Some("a"), Some("b|c"));
  }

  function KeyOf(e: Edition): string { PairKey(e.playerName, e.setName) }

  function KeepIf(p: Edition -> bool): Edition -> Option<Edition> { e => if p(e) then Some(e) else None }

  function Where(rows: seq<Edition>, p: Edition -> bool): seq<Edition> { FilterMap(rows, KeepIf(p)) }

  /** A read that returned: at most one page of the rows asked for. */
  function Page(rows: seq<Edition>): seq<Edition> { if |rows| <= SIGNED_PAGE then rows else rows[..SIGNED_PAGE] }

  function InSets(sets: set<string>): Edition -> bool { (e: Edition) => e.setName.Some? && e.setName.value in sets }

  // ---------------------------------------------------------------- the signed set

  /** `data` is what the read returned, or the error it failed with. */
  function ReadSigned(data: Result<seq<Edition>>): Result<seq<Edition>> {
    if data.Err? then data
    else if |data.value| >= SIGNED_PAGE then Err("signed editions exceed one 1000-row page")
    else Ok(Where(data.value, IsSigned))
  }

  lemma {:induction false} WhereTwice(rows: seq<Edition>, p: Edition -> bool)
    ensures Where(Where(rows, p), p) == Where(rows, p)
    ensures forall e | e in Where(rows, p) :: p(e) && e in rows
  {
    if rows != [] {
      WhereTwice(rows[1..], p);
      if p(rows[0]) {
        assert Where(rows, p)[1..] == Where(rows[1..], p);
      } else {
        assert Where(rows, p) == Where(rows[1..], p);
      }
    }
  }

  /** All or nothing: a read of the table answers with exactly its signed editions, or, when
      they fill a page, with an error; whatever a read returns, no unsigned row comes out. */
  lemma SignedSetIsComplete(table: seq<Edition>)
    ensures ReadSigned(Ok(Page(Where(table, IsSigned))))
            == if |Where(table, IsSigned)| >= SIGNED_PAGE then Err("signed editions exceed one 1000-row page")
               else Ok(Where(table, IsSigned))
    ensures forall data | ReadSigned(data).Ok? :: forall e | e in ReadSigned(data).value :: IsSigned(e)
  {
    WhereTwice(table, IsSigned);
    forall data | ReadSigned(data).Ok? ensures forall e | e in ReadSigned(data).value :: IsSigned(e) {
      WhereTwice(data.value, IsSigned);
    }
  }

  // ---------------------------------------------------------------- the pairs

  function SetsOf(signed: seq<Edition>): set<string> {
    set e | e in signed && TextOf(e.setName) != "" :: TextOf(e.setName)
  }

  function KeysOf(rows: seq<Edition>): set<string> { set e | e in rows :: KeyOf(e) }

  predicate AllSigned(rows: seq<Edition>, key: string) {
    forall e | e in rows && KeyOf(e) == key :: IsSigned(e)
  }

  /** The pairs with at least one row, all of whose rows are signed. */
  function AllSignedPairs(rows: seq<Edition>): set<string> {
    set k | k in KeysOf(rows) && AllSigned(rows, k)
  }

  lemma OneMoreKey(rows: seq<Edition>, e: Edition)
    ensures KeysOf(rows + [e]) == KeysOf(rows) + {KeyOf(e)}
  {
  }

  lemma OneMoreRow(rows: seq<Edition>, e: Edition, k: string)
    ensures AllSigned(rows + [e], k) <==> AllSigned(rows, k) && (KeyOf(e) == k ==> IsSigned(e))
    ensures k !in KeysOf(rows) ==> AllSigned(rows, k)
  {
    if AllSigned(rows + [e], k) {
      assert e in rows + [e];
      assert forall f | f in rows :: f in rows + [e];
    }
    assert forall f | f in rows :: KeyOf(f) in KeysOf(rows);
  }

  ghost predicate Folded(state: map<string, bool>, rows: seq<Edition>) {
    state.Keys == KeysOf(rows) && forall k | k in state :: state[k] == AllSigned(rows, k)
  }

  function Marked(state: map<string, bool>, key: string, isSigned: bool): map<string, bool> {
    state[key := (if key in state then state[key] else true) && isSigned]
  }

  lemma FoldStepAt(state: map<string, bool>, rows: seq<Edition>, e: Edition, k: string)
    requires Folded(state, rows) && (k in state || k == KeyOf(e))
    ensures Marked(state, KeyOf(e), IsSigned(e))[k] == AllSigned(rows + [e], k)
  {
    OneMoreRow(rows, e, k);
  }

  lemma FoldStep(state: map<string, bool>, rows: seq<Edition>, e: Edition)
    requires Folded(state, rows)
    ensures Folded(Marked(state, KeyOf(e), IsSigned(e)), rows + [e])
  {
    OneMoreKey(rows, e);
    var next := Marked(state, KeyOf(e), IsSigned(e));
    forall k | k in next ensures next[k] == AllSigned(rows + [e], k) {
      FoldStepAt(state, rows, e, k);
    }
  }

  /** The fold over the fetched rows. */
  method FoldPairs(rows: seq<Edition>) returns (pairs: set<string>)
    ensures pairs == AllSignedPairs(rows)
  {
    var state: map<string, bool> := map[];
    for i := 0 to |rows|
      invariant Folded(state, rows[..i])
    {
      FoldStep(state, rows[..i], rows[i]);
      assert rows[..i + 1] == rows[..i] + [rows[i]];
      var key := KeyOf(rows[i]);
      var isSigned := IsSigned(rows[i]);
      state := state[key := (if key in state then state[key] else true) && isSigned];
    }
    assert rows[..|rows|] == rows;
    pairs := set k | k in state && state[k];
  }

  /** Two reads of the table, either of which may fail. */
  method ReadAllDayPairs(table: seq<Edition>, signedFails: Option<string>, pairsFail: Option<string>)
    returns (r: Result<set<string>>)
    ensures r.Ok? ==> r.value == PairsOf(table)
    ensures r.Ok? <==>
              && signedFails == None && |Where(table, IsSigned)| < SIGNED_PAGE
              && var sets := SignedSets(table);
                 sets == {} || (pairsFail == None && |Where(table, InSets(sets))| < SIGNED_PAGE)
  {
    var signed := ReadSigned(if signedFails.Some? then Err(signedFails.value) else Ok(Page(Where(table, IsSigned))));
    if signed.Err? {
      return Err(signed.message);
    }
    SignedSetIsComplete(table);
    var sets := SetsOf(signed.value);
    if |sets| == 0 {
      NothingInNoSets(table);
      return Ok({});
    }
    if pairsFail.Some? {
      return Err(pairsFail.value);
    }
    var rows := Page(Where(table, InSets(sets)));
    if |rows| >= SIGNED_PAGE {
      return Err("signed-set editions exceed one 1000-row page");
    }
    var pairs := FoldPairs(rows);
    return Ok(pairs);
  }

  /** What the two reads amount to when neither fails nor fills a page. */
  function PairsOf(table: seq<Edition>): set<string> {
    AllSignedPairs(Where(table, InSets(SignedSets(table))))
  }

  lemma {:induction false} NothingInNoSets(table: seq<Edition>)
    ensures Where(table, InSets({})) == []
  {
    if table != [] { NothingInNoSets(table[1..]); }
  }

  lemma Fetched(table: seq<Edition>, p: Edition -> bool, e: Edition)
    ensures e in Where(table, p) <==> e in table && p(e)
  {
    FilterMapMembers(table, KeepIf(p), e);
    if e in table && p(e) { assert KeepIf(p)(e) == Some(e); }
  }

  /** The claim a reader takes from the result: a pair is returned when some edition with a
      set name has it, and every edition of the whole table that has it is signed. */
  ghost predicate TrueOfTheTable(table: seq<Edition>, pairs: set<string>) {
    forall k :: TrueOfKey(table, pairs, k)
  }

  ghost predicate TrueOfKey(table: seq<Edition>, pairs: set<string>, k: string) {
    k in pairs <==>
      && (exists e :: e in table && KeyOf(e) == k && TextOf(e.setName) != "")
      && (forall e | e in table && KeyOf(e) == k :: IsSigned(e))
  }

  function SignedSets(table: seq<Edition>): set<string> { SetsOf(Where(table, IsSigned)) }

  /** The second read fetches an unsigned edition of the key. */
  ghost predicate ShowsUnsigned(table: seq<Edition>, k: string) {
    exists g :: g in table && InSets(SignedSets(table))(g) && KeyOf(g) == k && !IsSigned(g)
  }

  /** What the two reads return, key by key. */
  lemma ReturnedIff(table: seq<Edition>, k: string)
    ensures k in PairsOf(table) <==>
      && (exists e :: e in table && KeyOf(e) == k && IsSigned(e) && TextOf(e.setName) != "")
      && !ShowsUnsigned(table, k)
  {
    var sets := SignedSets(table);
    var rows := Where(table, InSets(sets));
    forall e ensures e in rows <==> e in table && InSets(sets)(e) { Fetched(table, InSets(sets), e); }
    SetsOfSigned(table);
    if k in PairsOf(table) {
      var e :| e in rows && KeyOf(e) == k;
      assert IsSigned(e);
    }
    if (exists e :: e in table && KeyOf(e) == k && IsSigned(e) && TextOf(e.setName) != "") && !ShowsUnsigned(table, k) {
      var e :| e in table && KeyOf(e) == k && IsSigned(e) && TextOf(e.setName) != "";
      assert e in rows && k in KeysOf(rows);
    }
  }

  lemma SetsOfSigned(table: seq<Edition>)
    ensures forall e | e in table && IsSigned(e) && TextOf(e.setName) != "" :: TextOf(e.setName) in SignedSets(table)
    ensures forall s | s in SignedSets(table) :: s != "" && exists e :: e in table && IsSigned(e) && TextOf(e.setName) == s
  {
    forall e ensures e in Where(table, IsSigned) <==> e in table && IsSigned(e) { Fetched(table, IsSigned, e); }
  }

  // ---------------------------------------------------------------- the exact conditions

  /** A key that mixes a signed edition with a set name and an unsigned one. */
  ghost predicate Mixed(table: seq<Edition>, k: string) {
    && (exists e :: e in table && KeyOf(e) == k && IsSigned(e) && TextOf(e.setName) != "")
    && (exists f :: f in table && KeyOf(f) == k && !IsSigned(f))
  }

  lemma TrueOfKeyIff(table: seq<Edition>, k: string)
    ensures TrueOfKey(table, PairsOf(table), k) <==> (Mixed(table, k) ==> ShowsUnsigned(table, k))
  {
    ReturnedIff(table, k);
  }

  /** For one given table: the returned pairs are right about all of it exactly when every
      key that mixes signed and unsigned editions shows one of the latter to the second
      read, that is, under the set name of some signed edition. */
  lemma TrueIffMixedKeysShow(table: seq<Edition>)
    ensures TrueOfTheTable(table, PairsOf(table)) <==> forall k | Mixed(table, k) :: ShowsUnsigned(table, k)
  {
    forall k ensures TrueOfKey(table, PairsOf(table), k) <==> (Mixed(table, k) ==> ShowsUnsigned(table, k)) {
      TrueOfKeyIff(table, k);
    }
  }

  /** No two stored names meet under one pair key with different set names. */
  ghost predicate KeysTellSetsApart(table: seq<Edition>) {
    forall e, f | e in table && f in table && KeyOf(e) == KeyOf(f) :: TextOf(e.setName) == TextOf(f.setName)
  }

  lemma TrueWhenKeysTellSetsApart(table: seq<Edition>)
    requires KeysTellSetsApart(table)
    ensures TrueOfTheTable(table, PairsOf(table))
  {
    SetsOfSigned(table);
    forall k | Mixed(table, k) ensures ShowsUnsigned(table, k) {
      var e :| e in table && KeyOf(e) == k && IsSigned(e) && TextOf(e.setName) != "";
      var f :| f in table && KeyOf(f) == k && !IsSigned(f);
      assert TextOf(f.setName) == TextOf(e.setName);
      assert InSets(SignedSets(table))(f);
    }
    TrueIffMixedKeysShow(table);
  }

  /** The same table with exactly the editions of one set signed. */
  function SignOnly(table: seq<Edition>, setName: string): seq<Edition> {
    seq(|table|, i requires 0 <= i < |table| =>
          table[i].(autographedAt := if TextOf(table[i].setName) == setName then Some("2026") else None))
  }

  ghost predicate SameEditions(a: seq<Edition>, b: seq<Edition>) {
    |a| == |b| && forall i | 0 <= i < |a| :: a[i].playerName == b[i].playerName && a[i].setName == b[i].setName
  }

  /** The second read matches set names exactly while the key folds and joins them, so the
      claim about the whole table is safe, however the editions come to be signed, exactly
      when no two of them share a key under different set names. */
  lemma ClaimHoldsIffKeysTellSetsApart(table: seq<Edition>)
    ensures (forall t | SameEditions(t, table) :: TrueOfTheTable(t, PairsOf(t))) <==> KeysTellSetsApart(table)
  {
    if KeysTellSetsApart(table) {
      forall t | SameEditions(t, table) ensures TrueOfTheTable(t, PairsOf(t)) {
        SameKeys(t, table);
        TrueWhenKeysTellSetsApart(t);
      }
    } else {
      var e, f :| e in table && f in table && KeyOf(e) == KeyOf(f) && TextOf(e.setName) != TextOf(f.setName);
      if TextOf(e.setName) != "" {
        UnsafeSigning(table, e, f);
      } else {
        UnsafeSigning(table, f, e);
      }
    }
  }

  lemma SameKeys(t: seq<Edition>, table: seq<Edition>)
    requires SameEditions(t, table) && KeysTellSetsApart(table)
    ensures KeysTellSetsApart(t)
  {
    forall e, f | e in t && f in t && KeyOf(e) == KeyOf(f) ensures TextOf(e.setName) == TextOf(f.setName) {
      var i :| 0 <= i < |t| && t[i] == e;
      var j :| 0 <= j < |t| && t[j] == f;
      assert table[i] in table && table[j] in table;
    }
  }

  /** With one set signed the second read fetches that set only, so nothing unsigned. */
  lemma OneSetShowsNothing(t: seq<Edition>, name: string, k: string)
    requires forall x | x in t :: IsSigned(x) <==> TextOf(x.setName) == name
    ensures !ShowsUnsigned(t, k)
  {
    SetsOfSigned(t);
    assert forall s | s in SignedSets(t) :: s == name;
  }

  lemma SignedByName(table: seq<Edition>, name: string)
    ensures SameEditions(SignOnly(table, name), table)
    ensures forall x | x in SignOnly(table, name) :: IsSigned(x) <==> TextOf(x.setName) == name
  {
  }

  lemma StillThere(a: seq<Edition>, b: seq<Edition>, e: Edition) returns (x: Edition)
    requires SameEditions(a, b) && e in b
    ensures x in a && KeyOf(x) == KeyOf(e) && TextOf(x.setName) == TextOf(e.setName)
  {
    var i :| 0 <= i < |b| && b[i] == e;
    x := a[i];
  }

  /** Signing one of two clashing sets makes the pair look wholly signed. */
  lemma UnsafeSigning(table: seq<Edition>, e: Edition, f: Edition)
    requires e in table && f in table && KeyOf(e) == KeyOf(f)
    requires TextOf(e.setName) != "" && TextOf(e.setName) != TextOf(f.setName)
    ensures var t := SignOnly(table, TextOf(e.setName)); SameEditions(t, table) && !TrueOfTheTable(t, PairsOf(t))
  {
    var name, k := TextOf(e.setName), KeyOf(e);
    var t := SignOnly(table, name);
    SignedByName(table, name);
    var x := StillThere(t, table, e);
    var y := StillThere(t, table, f);
    assert Mixed(t, k);
    OneSetShowsNothing(t, name, k);
    TrueIffMixedKeysShow(t);
  }
}
