/** Wallet addresses of three chains and their five normal forms (lib/address.ts), on ASCII
    text. */
module Address {
  import opened Wrappers
  import opened Text

  predicate IsHex(c: char) { IsDigit(c) || 'a' <= c <= 'f' || 'A' <= c <= 'F' }

  predicate IsLowerHex(c: char) { IsDigit(c) || 'a' <= c <= 'f' }

  predicate IsBase58(c: char) {
    '1' <= c <= '9' || 'A' <= c <= 'H' || 'J' <= c <= 'N' || 'P' <= c <= 'Z' || 'a' <= c <= 'k' || 'm' <= c <= 'z'
  }

  predicate AllHex(s: string) { forall i | 0 <= i < |s| :: IsHex(s[i]) }

  predicate AllLowerHex(s: string) { forall i | 0 <= i < |s| :: IsLowerHex(s[i]) }

  predicate AllBase58(s: string) { forall i | 0 <= i < |s| :: IsBase58(s[i]) }

  predicate IsCadenceAddress(value: string) {
    var t := Trim(value);
    |t| == 18 && "0x" <= t && AllHex(t[2..])
  }

  predicate IsEvmAddress(value: string) {
    var t := Trim(value);
    |t| == 42 && "0x" <= t && AllHex(t[2..])
  }

  predicate IsSolanaAddress(value: string) {
    var t := Trim(value);
    32 <= |t| <= 44 && AllBase58(t)
  }

  datatype AddressChain = Cadence | Evm | Solana | Unknown

  function DetectAddressChain(value: string): AddressChain {
    var trimmed := Trim(value);
    if IsCadenceAddress(trimmed) then Cadence
    else if IsEvmAddress(trimmed) then Evm
    else if IsSolanaAddress(trimmed) then Solana
    else Unknown
  }

  // ---------------------------------------------------------------- the normal forms

  function NormalizeAddress(value: string): string {
    var trimmed := Trim(value);
    if DetectAddressChain(trimmed) == Solana then trimmed else Lower(trimmed)
  }

  function Strip0x(s: string): string { if "0x" <= s then s[2..] else s }

  function Zeros(n: nat): string { seq(n, _ => '0') }

  function PadStart16(s: string): string { if |s| < 16 then Zeros(16 - |s|) + s else s }

  function NormalizeFlowEventAddress(raw: string): string {
    "0x" + PadStart16(Strip0x(Lower(Trim(raw))))
  }

  function NormalizeFlowAddress(input: string): Option<string> {
    var hex := Strip0x(Lower(Trim(input)));
    if |hex| == 16 && AllLowerHex(hex) then Some("0x" + hex) else None
  }

  function NormalizeFlowAddressStrict(input: string): Option<string> {
    var addr := Lower(Trim(input));
    if |addr| == 18 && "0x" <= addr && AllLowerHex(addr[2..]) then Some(addr) else None
  }

  function DisplayAddress(value: string): Option<string> {
    var trimmed := Trim(value);
    if trimmed == "" then None
    else if IsSolanaAddress(trimmed) then Some(trimmed)
    else
      var lower := Lower(trimmed);
      Some(if "0x" <= lower then lower else "0x" + lower)
  }

  function WalletQueryKey(value: string): string {
    var trimmed := Trim(value);
    if trimmed == "" then ""
    else if IsSolanaAddress(trimmed) then trimmed
    else if "0x" <= trimmed then trimmed else "0x" + trimmed
  }

  // ---------------------------------------------------------------- recognisers

  /** The three shapes do not overlap: base58 has no zero, and the hex forms differ in length. */
  lemma ShapesAreDisjoint(value: string)
    ensures !(IsCadenceAddress(value) && IsEvmAddress(value))
    ensures !(IsSolanaAddress(value) && "0x" <= Trim(value))
    ensures DetectAddressChain(value) ==
            (if IsCadenceAddress(value) then Cadence else if IsSolanaAddress(value) then Solana
             else if IsEvmAddress(value) then Evm else Unknown)
  {
    TrimIsTrimmed(value);
    var t := Trim(value);
    if "0x" <= t { assert t[0] == '0' && !IsBase58(t[0]); }
  }

  lemma LowerTrimmed(s: string)
    requires Trimmed(s)
    ensures Trimmed(Lower(s)) && Trim(Lower(s)) == Lower(s) && Lower(Lower(s)) == Lower(s)
  {
    TrimIsTrimmed(Lower(s));
    LowerIdempotent(s);
  }

  // ---------------------------------------------------------------- idempotence

  /** Once normalised, an address stays as it is, although folding an O or an I can turn a
      string that was no address into one of Solana's. */
  lemma NormalizeAddressIdempotent(value: string)
    ensures NormalizeAddress(NormalizeAddress(value)) == NormalizeAddress(value)
  {
    TrimIsTrimmed(value);
    LowerTrimmed(Trim(value));
    TrimIsTrimmed(Trim(value));
  }

  /** All base58 once folded, but not before: an O or an I, which base58 lacks, becomes one
      of its letters, and an L, which it has, becomes none. */
  predicate FoldsToBase58(t: string) {
    && 32 <= |t| <= 44
    && (forall i | 0 <= i < |t| :: (IsBase58(t[i]) && t[i] != 'L') || t[i] == 'O' || t[i] == 'I')
    && exists i :: 0 <= i < |t| && (t[i] == 'O' || t[i] == 'I')
  }

  /** A hex address but for its capital X. */
  predicate FoldsToHex(t: string) {
    (|t| == 18 || |t| == 42) && "0X" <= t && AllHex(t[2..])
  }

  lemma FoldedHex(t: string)
    requires |t| >= 2
    ensures AllHex(Lower(t)[2..]) <==> AllHex(t[2..])
    ensures "0x" <= Lower(t) <==> "0x" <= t || "0X" <= t
  {
    var u, v := t[2..], Lower(t)[2..];
    assert forall i | 0 <= i < |u| :: v[i] == LowerChar(u[i]);
    assert Lower(t)[0] == LowerChar(t[0]) && Lower(t)[1] == LowerChar(t[1]);
  }

  lemma FoldedBase58(t: string)
    ensures AllBase58(Lower(t)) <==>
            forall i | 0 <= i < |t| :: (IsBase58(t[i]) && t[i] != 'L') || t[i] == 'O' || t[i] == 'I'
  {
    assert forall i | 0 <= i < |t| ::
      IsBase58(LowerChar(t[i])) <==> (IsBase58(t[i]) && t[i] != 'L') || t[i] == 'O' || t[i] == 'I';
  }

  /** What the chain of a string is, once trimmed. */
  lemma ChainOfTrimmed(t: string)
    requires Trimmed(t)
    ensures DetectAddressChain(t) ==
            if |t| == 18 && "0x" <= t && AllHex(t[2..]) then Cadence
            else if |t| == 42 && "0x" <= t && AllHex(t[2..]) then Evm
            else if 32 <= |t| <= 44 && AllBase58(t) then Solana
            else Unknown
  {
    TrimIsTrimmed(t);
  }

  lemma UnknownBeforeFolding(t: string)
    requires Trimmed(t) && (FoldsToBase58(t) || FoldsToHex(t))
    ensures DetectAddressChain(t) == Unknown
    ensures DetectAddressChain(Lower(t)) != Unknown
  {
    LowerTrimmed(t);
    ChainOfTrimmed(t);
    ChainOfTrimmed(Lower(t));
    FoldedHex(t);
    FoldedBase58(t);
    if FoldsToBase58(t) {
      var i :| 0 <= i < |t| && (t[i] == 'O' || t[i] == 'I');
      assert !IsBase58(t[i]) && t[0] != '0';
    } else {
      assert !IsBase58(t[0]) && t[1] == 'X';
    }
  }

  lemma SameAfterFolding(t: string)
    requires Trimmed(t) && DetectAddressChain(t) != Solana && !FoldsToBase58(t) && !FoldsToHex(t)
    ensures DetectAddressChain(Lower(t)) == DetectAddressChain(t)
  {
    LowerTrimmed(t);
    ChainOfTrimmed(t);
    ChainOfTrimmed(Lower(t));
    FoldedBase58(t);
    if |t| >= 2 { FoldedHex(t); }
  }

  /** Normalising moves a string to another chain in exactly two families: an unknown string
      that folds to base58 becomes a Solana address, and a hex address written with a capital
      X, which no recogniser accepts, becomes the address it is. */
  lemma NormalizingMovesChainIff(value: string)
    ensures DetectAddressChain(NormalizeAddress(value)) != DetectAddressChain(value)
            <==> FoldsToBase58(Trim(value)) || FoldsToHex(Trim(value))
  {
    var t := Trim(value);
    TrimIsTrimmed(value);
    assert DetectAddressChain(value) == DetectAddressChain(t);
    if FoldsToBase58(t) || FoldsToHex(t) {
      UnknownBeforeFolding(t);
    } else if DetectAddressChain(t) != Solana {
      SameAfterFolding(t);
    }
  }

  /** One of each family. */
  lemma NormalizingCanMoveChain()
    ensures var s := seq(32, _ => 'O'); DetectAddressChain(s) == Unknown && DetectAddressChain(NormalizeAddress(s)) == Solana
    ensures var s := "0X" + Zeros(16); DetectAddressChain(s) == Unknown && DetectAddressChain(NormalizeAddress(s)) == Cadence
  {
    var o, x := seq(32, _ => 'O'), "0X" + Zeros(16);
    assert o[0] == 'O' && FoldsToBase58(o);
    assert x[0] == '0' && x[1] == 'X' && x[2..] == Zeros(16) && FoldsToHex(x);
    assert x[|x| - 1] == '0';
    TrimIsTrimmed(o);
    TrimIsTrimmed(x);
    UnknownBeforeFolding(o);
    UnknownBeforeFolding(x);
    LowerTrimmed(o);
    LowerTrimmed(x);
    ChainOfTrimmed(Lower(o));
    ChainOfTrimmed(Lower(x));
    FoldedHex(x);
  }

  lemma LowerOfPrefixed(s: string)
    ensures Lower("0x" + s) == "0x" + Lower(s)
  {
    var p := "0x" + s;
    assert p[0] == '0' && p[1] == 'x';
    assert forall i | 2 <= i < |p| :: p[i] == s[i - 2];
  }

  lemma TrimOfPrefixed(s: string)
    requires s != "" ==> !IsSpace(s[|s| - 1])
    ensures Trim("0x" + s) == "0x" + s
  {
    TrimIsTrimmed("0x" + s);
  }

  lemma Prefixed(s: string)
    ensures Lower("0x" + s) == "0x" + Lower(s)
    ensures Strip0x("0x" + s) == s && "0x" <= "0x" + s
    ensures (s != "" ==> !IsSpace(s[|s| - 1])) ==> Trim("0x" + s) == "0x" + s
  {
    LowerOfPrefixed(s);
    if s != "" ==> !IsSpace(s[|s| - 1]) { TrimOfPrefixed(s); }
    assert ("0x" + s)[2..] == s;
  }

  lemma LowerSlice(s: string)
    requires Lower(s) == s
    ensures Lower(Strip0x(s)) == Strip0x(s)
  {
    assert forall i | 0 <= i < |s| :: LowerChar(s[i]) == Lower(s)[i];
  }

  lemma PaddedShape(hex: string)
    requires Lower(hex) == hex && (hex != "" ==> !IsSpace(hex[|hex| - 1]))
    ensures var p := PadStart16(hex); |p| >= 16 && Lower(p) == p && !IsSpace(p[|p| - 1])
  {
    var p := PadStart16(hex);
    var n := |p| - |hex|;
    assert forall i | 0 <= i < |hex| :: LowerChar(hex[i]) == Lower(hex)[i];
    assert forall i | n <= i < |p| :: p[i] == hex[i - n];
    assert forall i | 0 <= i < n :: p[i] == '0';
  }

  lemma EventFormOfPadded(p: string)
    requires |p| >= 16 && Lower(p) == p && !IsSpace(p[|p| - 1])
    ensures NormalizeFlowEventAddress("0x" + p) == "0x" + p
  {
    Prefixed(p);
  }

  lemma NormalizeFlowEventAddressIdempotent(raw: string)
    ensures NormalizeFlowEventAddress(NormalizeFlowEventAddress(raw)) == NormalizeFlowEventAddress(raw)
  {
    TrimIsTrimmed(raw);
    var lower := Lower(Trim(raw));
    LowerTrimmed(Trim(raw));
    var hex := Strip0x(lower);
    LowerSlice(lower);
    assert hex != "" ==> hex[|hex| - 1] == lower[|lower| - 1];
    PaddedShape(hex);
    EventFormOfPadded(PadStart16(hex));
  }

  lemma LowerHexIsLower(hex: string)
    requires AllLowerHex(hex)
    ensures Lower(hex) == hex
    ensures Lower("0x" + hex) == "0x" + hex && Trim("0x" + hex) == "0x" + hex && Strip0x("0x" + hex) == hex
  {
    assert forall i | 0 <= i < |hex| :: LowerChar(hex[i]) == hex[i];
    Prefixed(hex);
  }

  /** A bare or prefixed Flow address: what either form accepts it maps to itself. */
  lemma NormalizeFlowAddressIdempotent(input: string)
    ensures NormalizeFlowAddress(input).Some? ==>
              NormalizeFlowAddress(NormalizeFlowAddress(input).value) == NormalizeFlowAddress(input)
    ensures NormalizeFlowAddressStrict(input).Some? ==>
              NormalizeFlowAddressStrict(NormalizeFlowAddressStrict(input).value) == NormalizeFlowAddressStrict(input)
  {
    if NormalizeFlowAddress(input).Some? {
      LowerHexIsLower(Strip0x(Lower(Trim(input))));
    }
    if NormalizeFlowAddressStrict(input).Some? {
      var addr := Lower(Trim(input));
      assert addr == "0x" + addr[2..];
      LowerHexIsLower(addr[2..]);
    }
  }

  /** A lower-case, prefixed string shows as it is: no zero can be base58. */
  lemma DisplayOfPrefixed(shown: string)
    requires "0x" <= shown && Lower(shown) == shown && Trimmed(shown)
    ensures DisplayAddress(shown) == Some(shown)
  {
    TrimIsTrimmed(shown);
    ShapesAreDisjoint(shown);
  }

  function Shown(trimmed: string): string {
    if "0x" <= Lower(trimmed) then Lower(trimmed) else "0x" + Lower(trimmed)
  }

  lemma ShownShape(t: string)
    requires Trimmed(t)
    ensures "0x" <= Shown(t) && Lower(Shown(t)) == Shown(t) && Trimmed(Shown(t))
  {
    var lower := Lower(t);
    LowerTrimmed(t);
    if !("0x" <= lower) {
      Prefixed(lower);
      PrefixKeepsTrimmed(lower);
    }
  }

  lemma PrefixKeepsTrimmed(s: string)
    requires Trimmed(s)
    ensures Trimmed("0x" + s)
  {
  }

  lemma DisplayShape(value: string)
    requires DisplayAddress(value).Some? && !IsSolanaAddress(Trim(value))
    ensures var shown := DisplayAddress(value).value; "0x" <= shown && Lower(shown) == shown && Trimmed(shown)
  {
    TrimIsTrimmed(value);
    ShownShape(Trim(value));
  }

  lemma DisplayAddressIdempotent(value: string)
    ensures DisplayAddress(value).Some? ==> DisplayAddress(DisplayAddress(value).value) == DisplayAddress(value)
  {
    if DisplayAddress(value).Some? {
      if IsSolanaAddress(Trim(value)) {
        TrimIsTrimmed(value);
      } else {
        DisplayShape(value);
        DisplayOfPrefixed(DisplayAddress(value).value);
      }
    }
  }

  lemma WalletQueryKeyIdempotent(value: string)
    ensures WalletQueryKey(WalletQueryKey(value)) == WalletQueryKey(value)
  {
    TrimIsTrimmed(value);
    var trimmed := Trim(value);
    TrimIsTrimmed(trimmed);
    if trimmed != "" && !IsSolanaAddress(trimmed) {
      var key := WalletQueryKey(value);
      TrimIsTrimmed(key);
      ShapesAreDisjoint(key);
    }
  }

  // ---------------------------------------------------------------- agreement

  /** A Solana address passes through the three chain-agnostic forms as it is. */
  lemma Base58PassesVerbatim(value: string)
    requires IsSolanaAddress(value)
    ensures NormalizeAddress(value) == Trim(value)
    ensures DisplayAddress(value) == Some(Trim(value))
    ensures WalletQueryKey(value) == Trim(value)
  {
    TrimIsTrimmed(value);
    TrimIsTrimmed(Trim(value));
    ShapesAreDisjoint(value);
    ShapesAreDisjoint(Trim(value));
  }

  /** What the strict Flow form accepts, every form agrees on, and it is a Cadence address. */
  lemma StrictFormAgrees(input: string)
    requires NormalizeFlowAddressStrict(input).Some?
    ensures var addr := NormalizeFlowAddressStrict(input).value;
            && NormalizeFlowAddress(input) == Some(addr)
            && NormalizeFlowEventAddress(input) == addr
            && NormalizeAddress(input) == addr
            && DisplayAddress(input) == Some(addr)
            && DetectAddressChain(addr) == Cadence
  {
    var addr := Lower(Trim(input));
    TrimIsTrimmed(input);
    TrimIsTrimmed(Trim(input));
    LowerTrimmed(Trim(input));
    assert addr == "0x" + addr[2..];
    assert Trim(input)[0] == '0' by { assert LowerChar(Trim(input)[0]) == '0'; }
    assert !IsSolanaAddress(Trim(input));
    assert AllHex(addr[2..]);
  }

  lemma BareForm(t: string)
    requires Trimmed(t) && !("0x" <= Lower(t))
    ensures NormalizeFlowAddressStrict("0x" + t) == if |t| == 16 && AllLowerHex(Lower(t)) then Some("0x" + Lower(t)) else None
  {
    Prefixed(t);
    assert ("0x" + Lower(t))[2..] == Lower(t);
  }

  /** The lenient form accepts exactly what is a strict one once prefixed. */
  lemma LenientIsStrictOncePrefixed(input: string)
    ensures NormalizeFlowAddress(input) ==
            NormalizeFlowAddressStrict(if "0x" <= Lower(Trim(input)) then input else "0x" + Trim(input))
  {
    TrimIsTrimmed(input);
    var t := Trim(input);
    var lower := Lower(t);
    if "0x" <= lower {
      assert lower == "0x" + lower[2..];
    } else {
      BareForm(t);
    }
  }

  /** What the strict form accepts is what normalises to a Cadence address. */
  lemma StrictAcceptsIff(input: string)
    ensures NormalizeFlowAddressStrict(input).Some? <==> DetectAddressChain(NormalizeAddress(input)) == Cadence
  {
    var t := Trim(input);
    TrimIsTrimmed(input);
    LowerTrimmed(t);
    ChainOfTrimmed(t);
    ChainOfTrimmed(Lower(t));
    if |t| >= 2 { LowHexIff(t); }
    assert t != "" && LowerChar(t[0]) == '0' ==> !IsBase58(t[0]);
  }

  lemma LowHexIff(t: string)
    requires |t| >= 2
    ensures AllHex(Lower(t)[2..]) <==> AllLowerHex(Lower(t)[2..])
  {
    var v := Lower(t)[2..];
    assert forall i | 0 <= i < |v| :: v[i] == LowerChar(t[i + 2]);
  }

  lemma ShortHex(short: string)
    requires |short| <= 16 && AllLowerHex(short)
    ensures Lower(short) == short && Trim(short) == short && Strip0x(short) == short
    ensures PadStart16(short) == Zeros(16 - |short|) + short
  {
    LowerHexIsLower(short);
    assert Trimmed(short) by { assert short != "" ==> IsLowerHex(short[0]) && IsLowerHex(short[|short| - 1]); }
    TrimIsTrimmed(short);
    if |short| >= 2 { assert IsLowerHex(short[1]) && !("0x" <= short); }
    assert |short| == 16 ==> Zeros(0) + short == short;
  }

  /** The event form restores dropped leading zeros: a Flow address without any number of
      them, with or without its prefix, comes back whole. */
  lemma EventFormRestoresZeros(hex: string, n: nat)
    requires |hex| == 16 && AllLowerHex(hex) && n <= 16 && forall i | 0 <= i < n :: hex[i] == '0'
    ensures NormalizeFlowEventAddress("0x" + hex[n..]) == "0x" + hex
    ensures NormalizeFlowEventAddress(hex[n..]) == "0x" + hex
  {
    var short := hex[n..];
    ShortHex(short);
    LowerHexIsLower(short);
    assert hex == Zeros(n) + short;
  }

  /** The query key of a hex wallet is the wallet as given but for a missing prefix: no
      letter changes its case. */
  lemma QueryKeyKeepsCase(value: string)
    requires Trim(value) != "" && !IsSolanaAddress(value)
    ensures var t, key := Trim(value), WalletQueryKey(value);
            "0x" <= key && Strip0x(key) == Strip0x(t) && (key == t || key == "0x" + t)
  {
    TrimIsTrimmed(value);
    var t := Trim(value);
    assert ("0x" + t)[2..] == t;
  }

  /** And what is displayed is that key folded, exactly unless the wallet was given with a
      capital X, which only the display takes for a prefix. */
  lemma DisplayIsFoldedKeyIff(value: string)
    requires Trim(value) != "" && !IsSolanaAddress(value)
    ensures DisplayAddress(value) == Some(Lower(WalletQueryKey(value))) <==> !("0X" <= Trim(value))
  {
    TrimIsTrimmed(value);
    var t := Trim(value);
    LowerOfPrefixed(t);
    if |t| >= 2 {
      FoldedHex(t);
    } else {
      assert !("0x" <= Lower(t));
    }
    if "0X" <= t {
      assert t[1] == 'X' && WalletQueryKey(value) == "0x" + t;
      assert DisplayAddress(value) == Some(Lower(t)) && |Lower(t)| < |Lower("0x" + t)|;
    }
  }

  /** Case matters for Solana addresses and for nothing else. */
  lemma CaseMattersOnlyForSolana(a: string, b: string)
    ensures IsSolanaAddress(a) && IsSolanaAddress(b) ==> (NormalizeAddress(a) == NormalizeAddress(b) <==> Trim(a) == Trim(b))
    ensures !IsSolanaAddress(a) && !IsSolanaAddress(b) ==>
              (NormalizeAddress(a) == NormalizeAddress(b) <==> Lower(Trim(a)) == Lower(Trim(b)))
  {
    TrimIsTrimmed(a);
    TrimIsTrimmed(b);
    ShapesAreDisjoint(Trim(a));
    ShapesAreDisjoint(Trim(b));
  }
}
