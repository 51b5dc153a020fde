/** Sale volume by marketplace (lib/analytics-marketplace-mix-compute.ts): entries merged
    under lower-case keys, known marketplaces first, the rest in one slice. */
module MarketplaceMix {
  import opened Wrappers
  import opened Text
  import opened Sequences

  /** One entry of the input record, or of the merged one, in insertion order. */
  datatype Entry = Entry(key: string, count: int, usd: real)

  datatype Mix = Empty | NoVolume | Mixed(slices: seq<Entry>, total: real)

  /** "pinnacle" is a known key too, but merging renames it away. */
  const KNOWN_KEYS: seq<string> := ["topshot", "flowty", "on-chain", "pinnacle"]

  function MergeKey(key: string): string { if Lower(key) == "pinnacle" then "on-chain" else Lower(key) }

  predicate IsKnown(key: string) { key in KNOWN_KEYS }

  function Merge(merged: seq<Entry>, key: string, count: int, usd: real): seq<Entry> {
    if merged == [] then [Entry(key, count, usd)]
    else if merged[0].key == key then [Entry(key, merged[0].count + count, merged[0].usd + usd)] + merged[1..]
    else [merged[0]] + Merge(merged[1..], key, count, usd)
  }

  function SumUsd(entries: seq<Entry>): real {
    if entries == [] then 0.0 else entries[0].usd + SumUsd(entries[1..])
  }

  function SumCount(entries: seq<Entry>): int {
    if entries == [] then 0 else entries[0].count + SumCount(entries[1..])
  }

  function Find(entries: seq<Entry>, key: string): Option<Entry> {
    if entries == [] then None else if entries[0].key == key then Some(entries[0]) else Find(entries[1..], key)
  }

  function Without(entries: seq<Entry>, key: string): seq<Entry> {
    if entries == [] then [] else if entries[0].key == key then entries[1..] else [entries[0]] + Without(entries[1..], key)
  }

  // ---------------------------------------------------------------- the input read directly

  /** Volume and count of the entries whose merged key is this one, and of those outside the
      known marketplaces. */
  function UsdOf(data: seq<Entry>, key: string): real {
    if data == [] then 0.0 else (if MergeKey(data[0].key) == key then data[0].usd else 0.0) + UsdOf(data[1..], key)
  }

  function CountOf(data: seq<Entry>, key: string): int {
    if data == [] then 0 else (if MergeKey(data[0].key) == key then data[0].count else 0) + CountOf(data[1..], key)
  }

  function OtherUsd(data: seq<Entry>): real {
    if data == [] then 0.0 else (if IsKnown(MergeKey(data[0].key)) then 0.0 else data[0].usd) + OtherUsd(data[1..])
  }

  function OtherCount(data: seq<Entry>): int {
    if data == [] then 0 else (if IsKnown(MergeKey(data[0].key)) then 0 else data[0].count) + OtherCount(data[1..])
  }

  function UsdIn(entries: seq<Entry>, key: string): real {
    match Find(entries, key) case None => 0.0 case Some(e) => e.usd
  }

  function CountIn(entries: seq<Entry>, key: string): int {
    match Find(entries, key) case None => 0 case Some(e) => e.count
  }

  function UnknownUsd(entries: seq<Entry>): real {
    if entries == [] then 0.0 else (if IsKnown(entries[0].key) then 0.0 else entries[0].usd) + UnknownUsd(entries[1..])
  }

  function UnknownCount(entries: seq<Entry>): int {
    if entries == [] then 0 else (if IsKnown(entries[0].key) then 0 else entries[0].count) + UnknownCount(entries[1..])
  }

  predicate DistinctKeys(entries: seq<Entry>) { forall i, j | 0 <= i < j < |entries| :: entries[i].key != entries[j].key }

  lemma {:induction false} MergeKeys(merged: seq<Entry>, key: string, count: int, usd: real)
    ensures forall e | e in Merge(merged, key, count, usd) :: e.key == key || exists f :: f in merged && f.key == e.key
    ensures DistinctKeys(merged) ==> DistinctKeys(Merge(merged, key, count, usd))
  {
    if merged != [] && merged[0].key != key {
      MergeKeys(merged[1..], key, count, usd);
      var rest := Merge(merged[1..], key, count, usd);
      forall j | DistinctKeys(merged) && 0 <= j < |rest| ensures rest[j].key != merged[0].key {
        assert rest[j] in rest;
      }
    }
  }

  lemma {:induction false} MergeAdds(merged: seq<Entry>, key: string, count: int, usd: real)
    ensures SumUsd(Merge(merged, key, count, usd)) == SumUsd(merged) + usd
    ensures UnknownUsd(Merge(merged, key, count, usd)) == UnknownUsd(merged) + if IsKnown(key) then 0.0 else usd
    ensures UnknownCount(Merge(merged, key, count, usd)) == UnknownCount(merged) + if IsKnown(key) then 0 else count
  {
    if merged != [] && merged[0].key != key { MergeAdds(merged[1..], key, count, usd); }
  }

  lemma {:induction false} MergeAddsAt(merged: seq<Entry>, key: string, count: int, usd: real, k: string)
    ensures UsdIn(Merge(merged, key, count, usd), k) == UsdIn(merged, k) + if k == key then usd else 0.0
    ensures CountIn(Merge(merged, key, count, usd), k) == CountIn(merged, k) + if k == key then count else 0
  {
    var after := Merge(merged, key, count, usd);
    if merged == [] {
      assert after[1..] == [];
    } else if merged[0].key != key {
      MergeAddsAt(merged[1..], key, count, usd, k);
    }
  }

  lemma {:induction false} WithoutTakes(entries: seq<Entry>, key: string)
    ensures SumUsd(Without(entries, key)) == SumUsd(entries) - UsdIn(entries, key)
    ensures IsKnown(key) ==> UnknownUsd(Without(entries, key)) == UnknownUsd(entries)
    ensures IsKnown(key) ==> UnknownCount(Without(entries, key)) == UnknownCount(entries)
    ensures DistinctKeys(entries) ==> Find(Without(entries, key), key) == None
    ensures forall k | k != key :: Find(Without(entries, key), k) == Find(entries, k)
    ensures forall e | e in Without(entries, key) :: e in entries
    ensures DistinctKeys(entries) ==> DistinctKeys(Without(entries, key))
  {
    if entries != [] {
      if entries[0].key == key {
        if DistinctKeys(entries) { NotFound(entries[1..], key); }
      } else {
        WithoutTakes(entries[1..], key);
        var rest := Without(entries[1..], key);
        forall j | DistinctKeys(entries) && 0 <= j < |rest| ensures rest[j].key != entries[0].key {
          assert rest[j] in entries[1..];
        }
      }
    }
  }

  lemma {:induction false} NotFound(entries: seq<Entry>, key: string)
    ensures (forall e | e in entries :: e.key != key) <==> Find(entries, key) == None
    ensures Find(entries, key).Some? ==> Find(entries, key).value in entries && Find(entries, key).value.key == key
  {
    if entries != [] { NotFound(entries[1..], key); }
  }

  // ---------------------------------------------------------------- the build

  function MergeAll(data: seq<Entry>): seq<Entry> {
    if data == [] then [] else
      var e := data[|data| - 1];
      Merge(MergeAll(data[..|data| - 1]), MergeKey(e.key), e.count, e.usd)
  }

  function KnownSlices(merged: seq<Entry>, keys: seq<string>): seq<Entry>
    decreases keys
  {
    if keys == [] then []
    else (if Find(merged, keys[0]).Some? then [Find(merged, keys[0]).value] else []) + KnownSlices(Without(merged, keys[0]), keys[1..])
  }

  function Leftover(merged: seq<Entry>, keys: seq<string>): seq<Entry>
    decreases keys
  {
    if keys == [] then merged else Leftover(Without(merged, keys[0]), keys[1..])
  }

  function MixOf(data: seq<Entry>): Mix {
    var merged := MergeAll(data);
    var rest := Leftover(merged, KNOWN_KEYS);
    if data == [] then Empty
    else if SumUsd(merged) <= 0.0 then NoVolume
    else Mixed(KnownSlices(merged, KNOWN_KEYS) + (if SumUsd(rest) > 0.0 then [Entry("other", SumCount(rest), SumUsd(rest))] else []),
               SumUsd(merged))
  }

  method MergeEntries(data: seq<Entry>) returns (merged: seq<Entry>)
    ensures merged == MergeAll(data)
  {
    merged := [];
    for i := 0 to |data|
      invariant merged == MergeAll(data[..i])
    {
      assert data[..i + 1][..i] == data[..i];
      merged := Merge(merged, MergeKey(data[i].key), data[i].count, data[i].usd);
    }
    assert data[..|data|] == data;
  }

  /** What the loop below still does from a given point: it takes an entry per known key. */
  function Taking(slices: seq<Entry>, rest: seq<Entry>, keys: seq<string>): (seq<Entry>, seq<Entry>)
    decreases keys
  {
    if keys == [] then (slices, rest)
    else
      var v := Find(rest, keys[0]);
      if v.Some? then Taking(slices + [v.value], Without(rest, keys[0]), keys[1..]) else Taking(slices, rest, keys[1..])
  }

  lemma {:induction false} TakingTakes(slices: seq<Entry>, rest: seq<Entry>, keys: seq<string>)
    ensures Taking(slices, rest, keys) == (slices + KnownSlices(rest, keys), Leftover(rest, keys))
    decreases keys
  {
    if keys == [] {
      assert slices + [] == slices;
    } else {
      var v, without := Find(rest, keys[0]), Without(rest, keys[0]);
      if v.Some? {
        TakingTakes(slices + [v.value], without, keys[1..]);
        Associates(slices, [v.value], KnownSlices(without, keys[1..]));
      } else {
        TakingTakes(slices, rest, keys[1..]);
        NothingTaken(rest, keys[0]);
        assert [] + KnownSlices(rest, keys[1..]) == KnownSlices(rest, keys[1..]);
      }
    }
  }

  /** Takes the known marketplaces out of the merged record, in render order. */
  method TakeKnown(merged: seq<Entry>) returns (slices: seq<Entry>, rest: seq<Entry>)
    ensures slices == KnownSlices(merged, KNOWN_KEYS) && rest == Leftover(merged, KNOWN_KEYS)
  {
    slices, rest := [], merged;
    var keys := KNOWN_KEYS;
    TakingTakes(slices, rest, keys);
    while keys != []
      invariant Taking(slices, rest, keys) == ([] + KnownSlices(merged, KNOWN_KEYS), Leftover(merged, KNOWN_KEYS))
    {
      var v := Find(rest, keys[0]);
      if v.Some? {
        slices := slices + [v.value];
        rest := Without(rest, keys[0]);
      }
      keys := keys[1..];
    }
  }

  method BuildMarketplaceMix(data: seq<Entry>) returns (mix: Mix)
    ensures mix == MixOf(data)
  {
    if |data| == 0 {
      return Empty;
    }
    var merged := MergeEntries(data);
    var total := SumUsd(merged);
    if total <= 0.0 {
      return NoVolume;
    }
    var slices, rest := TakeKnown(merged);
    var otherUsd, otherCount := SumUsd(rest), SumCount(rest);
    if otherUsd > 0.0 {
      slices := slices + [Entry("other", otherCount, otherUsd)];
    }
    assert KnownSlices(merged, KNOWN_KEYS) + [] == KnownSlices(merged, KNOWN_KEYS);
    return Mixed(slices, total);
  }

  lemma {:induction false} NothingTaken(entries: seq<Entry>, key: string)
    requires Find(entries, key) == None
    ensures Without(entries, key) == entries
  {
    if entries != [] { NothingTaken(entries[1..], key); }
  }

  // ---------------------------------------------------------------- conservation

  lemma MergeAllSnoc(front: seq<Entry>, e: Entry)
    ensures MergeAll(front + [e]) == Merge(MergeAll(front), MergeKey(e.key), e.count, e.usd)
  {
    assert (front + [e])[..|front|] == front;
  }

  lemma {:induction false} MergeAllSums(data: seq<Entry>)
    ensures SumUsd(MergeAll(data)) == SumUsd(data)
    ensures UnknownUsd(MergeAll(data)) == OtherUsd(data)
    ensures UnknownCount(MergeAll(data)) == OtherCount(data)
  {
    if data != [] {
      var front, e := data[..|data| - 1], data[|data| - 1];
      MergeAllSums(front);
      assert data == front + [e];
      MergeAllSnoc(front, e);
      MergeAdds(MergeAll(front), MergeKey(e.key), e.count, e.usd);
      SumsSnoc(front, e);
    }
  }

  lemma {:induction false} MergeAllKeys(data: seq<Entry>)
    ensures DistinctKeys(MergeAll(data))
    ensures forall e | e in MergeAll(data) :: e.key != "pinnacle"
  {
    if data != [] {
      var front, e := data[..|data| - 1], data[|data| - 1];
      MergeAllKeys(front);
      MergeKeys(MergeAll(front), MergeKey(e.key), e.count, e.usd);
      assert MergeKey(e.key) != "pinnacle";
    }
  }

  /** Merging reads back as the volume and count of each key in the input. */
  lemma {:induction false} MergeAllVolumes(data: seq<Entry>, key: string)
    ensures UsdIn(MergeAll(data), key) == UsdOf(data, key)
    ensures CountIn(MergeAll(data), key) == CountOf(data, key)
  {
    if data != [] {
      var front, e := data[..|data| - 1], data[|data| - 1];
      MergeAllVolumes(front, key);
      assert data == front + [e];
      MergeAllSnoc(front, e);
      MergeAddsAt(MergeAll(front), MergeKey(e.key), e.count, e.usd, key);
      UsdSnoc(front, e, key);
    }
  }

  lemma {:induction false} MergeAllNonNegative(data: seq<Entry>)
    requires forall e | e in data :: e.usd >= 0.0
    ensures forall e | e in MergeAll(data) :: e.usd >= 0.0
  {
    if data != [] {
      var front, e := data[..|data| - 1], data[|data| - 1];
      MergeAllNonNegative(front);
      MergeNonNegative(MergeAll(front), MergeKey(e.key), e.count, e.usd);
    }
  }

  lemma {:induction false} MergeNonNegative(merged: seq<Entry>, key: string, count: int, usd: real)
    requires usd >= 0.0 && forall e | e in merged :: e.usd >= 0.0
    ensures forall e | e in Merge(merged, key, count, usd) :: e.usd >= 0.0
  {
    if merged != [] && merged[0].key != key { MergeNonNegative(merged[1..], key, count, usd); }
  }

  lemma {:induction false} SumsSnoc(data: seq<Entry>, e: Entry)
    ensures SumUsd(data + [e]) == SumUsd(data) + e.usd
    ensures OtherUsd(data + [e]) == OtherUsd(data) + if IsKnown(MergeKey(e.key)) then 0.0 else e.usd
    ensures OtherCount(data + [e]) == OtherCount(data) + if IsKnown(MergeKey(e.key)) then 0 else e.count
  {
    if data == [] {
      assert [] + [e] == [e];
    } else {
      SumsSnoc(data[1..], e);
      assert (data + [e])[1..] == data[1..] + [e];
    }
  }

  lemma {:induction false} UsdSnoc(data: seq<Entry>, e: Entry, k: string)
    ensures UsdOf(data + [e], k) == UsdOf(data, k) + if MergeKey(e.key) == k then e.usd else 0.0
    ensures CountOf(data + [e], k) == CountOf(data, k) + if MergeKey(e.key) == k then e.count else 0
  {
    if data == [] {
      assert [] + [e] == [e];
    } else {
      UsdSnoc(data[1..], e, k);
      assert (data + [e])[1..] == data[1..] + [e];
    }
  }

  lemma {:induction false} SumUsdConcat(a: seq<Entry>, b: seq<Entry>)
    ensures SumUsd(a + b) == SumUsd(a) + SumUsd(b)
  {
    if a == [] {
      assert a + b == b;
    } else {
      SumUsdConcat(a[1..], b);
      assert (a + b)[1..] == a[1..] + b;
    }
  }

  lemma {:induction false} SlicesAndLeftover(merged: seq<Entry>, keys: seq<string>)
    requires forall k | k in keys :: IsKnown(k)
    ensures SumUsd(KnownSlices(merged, keys)) + SumUsd(Leftover(merged, keys)) == SumUsd(merged)
    ensures UnknownUsd(Leftover(merged, keys)) == UnknownUsd(merged)
    ensures UnknownCount(Leftover(merged, keys)) == UnknownCount(merged)
    ensures |KnownSlices(merged, keys)| <= |keys|
    decreases keys
  {
    if keys != [] {
      WithoutTakes(merged, keys[0]);
      SlicesAndLeftover(Without(merged, keys[0]), keys[1..]);
      var head := if Find(merged, keys[0]).Some? then [Find(merged, keys[0]).value] else [];
      SumUsdConcat(head, KnownSlices(Without(merged, keys[0]), keys[1..]));
    }
  }

  lemma {:induction false} LeftoverIsUnknown(merged: seq<Entry>, keys: seq<string>)
    requires DistinctKeys(merged)
    ensures DistinctKeys(Leftover(merged, keys))
    ensures forall e | e in Leftover(merged, keys) :: e in merged && e.key !in keys
    decreases keys
  {
    if keys != [] {
      WithoutTakes(merged, keys[0]);
      NotFound(Without(merged, keys[0]), keys[0]);
      LeftoverIsUnknown(Without(merged, keys[0]), keys[1..]);
    }
  }

  lemma {:induction false} AllUnknown(entries: seq<Entry>)
    requires forall e | e in entries :: !IsKnown(e.key)
    ensures UnknownUsd(entries) == SumUsd(entries) && UnknownCount(entries) == SumCount(entries)
  {
    if entries != [] { AllUnknown(entries[1..]); }
  }

  lemma LeftoverUsd(data: seq<Entry>)
    ensures SumUsd(Leftover(MergeAll(data), KNOWN_KEYS)) == OtherUsd(data)
    ensures SumCount(Leftover(MergeAll(data), KNOWN_KEYS)) == OtherCount(data)
  {
    MergeAllSums(data);
    MergeAllKeys(data);
    SlicesAndLeftover(MergeAll(data), KNOWN_KEYS);
    LeftoverIsUnknown(MergeAll(data), KNOWN_KEYS);
    AllUnknown(Leftover(MergeAll(data), KNOWN_KEYS));
  }

  /** The slices add up to the reported total, which is the input's, exactly when the
      volume outside the known marketplaces is not negative. */
  lemma SlicesSumToTotal(data: seq<Entry>)
    requires SumUsd(data) > 0.0
    ensures MixOf(data).Mixed?
    ensures MixOf(data).total == SumUsd(data)
    ensures SumUsd(MixOf(data).slices) == MixOf(data).total <==> SumReal(data, UsdFrom(SourcesOf("other"))) >= 0.0
  {
    RestIsFrom(data);
    var merged := MergeAll(data);
    MergeAllSums(data);
    SlicesAndLeftover(merged, KNOWN_KEYS);
    LeftoverUsd(data);
    var rest := Leftover(merged, KNOWN_KEYS);
    var last := Entry("other", SumCount(rest), SumUsd(rest));
    SumUsdConcat(KnownSlices(merged, KNOWN_KEYS), [last]);
    assert KnownSlices(merged, KNOWN_KEYS) + [] == KnownSlices(merged, KNOWN_KEYS);
    assert SumUsd([last]) == last.usd;
  }

  /** A refund outside the known marketplaces is counted in the total and shown nowhere. */
  lemma NegativeRestIsNotShown()
    ensures var data := [Entry("topshot", 2, 10.0), Entry("x", 1, -1.0)];
            SumUsd(data) == 9.0 && MixOf(data).Mixed? && MixOf(data).total == 9.0 && SumUsd(MixOf(data).slices) != 9.0
  {
    var data := [Entry("topshot", 2, 10.0), Entry("x", 1, -1.0)];
    assert data[1..] == [Entry("x", 1, -1.0)] && data[1..][1..] == [];
    assert Lower("topshot") == "topshot" && Lower("x") == "x";
    assert IsKnown("topshot") by { assert KNOWN_KEYS[0] == "topshot"; }
    assert OtherUsd(data) == -1.0;
    RestIsFrom(data);
    SlicesSumToTotal(data);
  }

  /** There is a mix to show exactly when the input's total volume is positive. */
  lemma MixedIffVolume(data: seq<Entry>)
    ensures MixOf(data).Mixed? <==> SumUsd(data) > 0.0
    ensures MixOf(data) == Empty <==> data == []
    ensures MixOf(data).Mixed? ==> MixOf(data).total == SumUsd(data)
  {
    MergeAllSums(data);
  }

  /** Taking the known keys out finds each of them that is there, unchanged. */
  lemma {:induction false} KnownSlicesAreEntries(merged: seq<Entry>, keys: seq<string>, e: Entry)
    requires DistinctKeys(merged)
    ensures e in KnownSlices(merged, keys) <==> e.key in keys && Find(merged, e.key) == Some(e)
    decreases keys
  {
    if keys != [] {
      var head, rest := Find(merged, keys[0]), Without(merged, keys[0]);
      WithoutTakes(merged, keys[0]);
      NotFound(merged, keys[0]);
      KnownSlicesAreEntries(rest, keys[1..], e);
      assert keys == [keys[0]] + keys[1..];
    }
  }

  /** The input keys a slice stands for, in any case: its own, for Pinnacle's also the old
      name, and for the last slice all that no other slice stands for. */
  function SourcesOf(slice: string): string -> bool {
    k => if slice == "other" then Lower(k) !in {"topshot", "flowty", "on-chain", "pinnacle"}
         else Lower(k) == slice || (slice == "on-chain" && Lower(k) == "pinnacle")
  }

  function UsdFrom(sources: string -> bool): Entry -> real { (e: Entry) => if sources(e.key) then e.usd else 0.0 }

  function CountFrom(sources: string -> bool): Entry -> int { (e: Entry) => if sources(e.key) then e.count else 0 }

  lemma SourcesAre(k: string)
    ensures MergeKey(k) == "topshot" <==> SourcesOf("topshot")(k)
    ensures MergeKey(k) == "flowty" <==> SourcesOf("flowty")(k)
    ensures MergeKey(k) == "on-chain" <==> SourcesOf("on-chain")(k)
    ensures !IsKnown(MergeKey(k)) <==> SourcesOf("other")(k)
    ensures MergeKey(k) != "pinnacle"
  {
    KnownKeysAre(MergeKey(k));
  }

  lemma KnownKeysAre(k: string)
    ensures IsKnown(k) <==> k in {"topshot", "flowty", "on-chain", "pinnacle"}
  {
    assert KNOWN_KEYS[0] == "topshot" && KNOWN_KEYS[1] == "flowty" && KNOWN_KEYS[2] == "on-chain" && KNOWN_KEYS[3] == "pinnacle";
  }

  lemma {:induction false} OfIsFrom(data: seq<Entry>, key: string, sources: string -> bool)
    requires forall k :: MergeKey(k) == key <==> sources(k)
    ensures UsdOf(data, key) == SumReal(data, UsdFrom(sources)) && CountOf(data, key) == SumInt(data, CountFrom(sources))
  {
    if data != [] {
      var front, e := data[..|data| - 1], data[|data| - 1];
      OfIsFrom(front, key, sources);
      assert data == front + [e];
      UsdSnoc(front, e, key);
    }
  }

  lemma {:induction false} OtherIsFrom(data: seq<Entry>, sources: string -> bool)
    requires forall k :: !IsKnown(MergeKey(k)) <==> sources(k)
    ensures OtherUsd(data) == SumReal(data, UsdFrom(sources)) && OtherCount(data) == SumInt(data, CountFrom(sources))
  {
    if data != [] {
      var front, e := data[..|data| - 1], data[|data| - 1];
      OtherIsFrom(front, sources);
      assert data == front + [e];
      SumsSnoc(front, e);
    }
  }

  lemma KnownIsFrom(data: seq<Entry>, key: string)
    requires key == "topshot" || key == "flowty" || key == "on-chain"
    ensures UsdOf(data, key) == SumReal(data, UsdFrom(SourcesOf(key)))
    ensures CountOf(data, key) == SumInt(data, CountFrom(SourcesOf(key)))
  {
    forall k ensures MergeKey(k) == key <==> SourcesOf(key)(k) { SourcesAre(k); }
    OfIsFrom(data, key, SourcesOf(key));
  }

  lemma RestIsFrom(data: seq<Entry>)
    ensures OtherUsd(data) == SumReal(data, UsdFrom(SourcesOf("other")))
    ensures OtherCount(data) == SumInt(data, CountFrom(SourcesOf("other")))
  {
    forall k ensures !IsKnown(MergeKey(k)) <==> SourcesOf("other")(k) { SourcesAre(k); }
    OtherIsFrom(data, SourcesOf("other"));
  }

  /** What a slice may be and show. */
  ghost predicate SliceIsTrue(e: Entry, data: seq<Entry>) {
    && (e.key == "topshot" || e.key == "flowty" || e.key == "on-chain" || e.key == "other")
    && e.usd == SumReal(data, UsdFrom(SourcesOf(e.key)))
    && e.count == SumInt(data, CountFrom(SourcesOf(e.key)))
  }

  lemma KnownSliceIsTrue(data: seq<Entry>, e: Entry)
    requires e in KnownSlices(MergeAll(data), KNOWN_KEYS)
    ensures SliceIsTrue(e, data) && e.key != "other"
  {
    MergeAllKeys(data);
    KnownSlicesAreEntries(MergeAll(data), KNOWN_KEYS, e);
    NotFound(MergeAll(data), e.key);
    MergeAllVolumes(data, e.key);
    KnownKeysAre(e.key);
    KnownIsFrom(data, e.key);
  }

  /** Each slice shows the true volume and count of the marketplace it stands for, the last
      one those of all the others; every known marketplace of the input has its slice, and
      the others have one exactly when their volume is positive. */
  lemma SlicesAreTrue(data: seq<Entry>)
    requires SumUsd(data) > 0.0
    ensures MixOf(data).Mixed?
    ensures forall e | e in MixOf(data).slices :: SliceIsTrue(e, data)
    ensures forall d, key | d in data && key in {"topshot", "flowty", "on-chain"} && SourcesOf(key)(d.key) ::
              exists e :: e in MixOf(data).slices && e.key == key
    ensures (exists e :: e in MixOf(data).slices && e.key == "other") <==> SumReal(data, UsdFrom(SourcesOf("other"))) > 0.0
  {
    MixedIffVolume(data);
    var merged := MergeAll(data);
    LeftoverUsd(data);
    RestIsFrom(data);
    var known := KnownSlices(merged, KNOWN_KEYS);
    forall e | e in known ensures SliceIsTrue(e, data) && e.key != "other" { KnownSliceIsTrue(data, e); }
    forall d, key | d in data && key in {"topshot", "flowty", "on-chain"} && SourcesOf(key)(d.key)
      ensures exists e :: e in known && e.key == key
    {
      SourceHasSlice(data, d, key);
    }
    var last := Entry("other", OtherCount(data), OtherUsd(data));
    assert MixOf(data).slices == known + if OtherUsd(data) > 0.0 then [last] else [];
    if OtherUsd(data) > 0.0 { assert last in MixOf(data).slices; }
  }

  lemma SourceHasSlice(data: seq<Entry>, d: Entry, key: string)
    requires d in data && key in {"topshot", "flowty", "on-chain"} && SourcesOf(key)(d.key)
    ensures exists e :: e in KnownSlices(MergeAll(data), KNOWN_KEYS) && e.key == key
  {
    SourcesAre(d.key);
    KnownKeysAre(key);
    MergeAllKeys(data);
    MergedIsFound(data, d);
    NotFound(MergeAll(data), key);
    KnownSlicesAreEntries(MergeAll(data), KNOWN_KEYS, Find(MergeAll(data), key).value);
  }

  /** The order of the bar. */
  function PlaceOf(slice: string): nat {
    if slice == "topshot" then 0 else if slice == "flowty" then 1 else if slice == "on-chain" then 2
    else if slice == "pinnacle" then 3 else 4
  }

  ghost predicate InOrder(slices: seq<Entry>) {
    forall i, j | 0 <= i < j < |slices| :: PlaceOf(slices[i].key) < PlaceOf(slices[j].key)
  }

  lemma {:induction false} KnownInOrder(merged: seq<Entry>, keys: seq<string>)
    requires forall i, j | 0 <= i < j < |keys| :: PlaceOf(keys[i]) < PlaceOf(keys[j])
    ensures InOrder(KnownSlices(merged, keys))
    ensures forall e | e in KnownSlices(merged, keys) :: e.key in keys
    decreases keys
  {
    if keys != [] {
      var rest := KnownSlices(Without(merged, keys[0]), keys[1..]);
      NotFound(merged, keys[0]);
      KnownInOrder(Without(merged, keys[0]), keys[1..]);
      forall j | 0 <= j < |rest| ensures PlaceOf(keys[0]) < PlaceOf(rest[j].key) {
        assert rest[j] in rest && rest[j].key in keys[1..];
      }
    }
  }

  /** Slices come in the order of the bar, each marketplace at most once, the rest last. */
  lemma SlicesInOrder(data: seq<Entry>)
    requires SumUsd(data) > 0.0
    ensures MixOf(data).Mixed? && InOrder(MixOf(data).slices)
  {
    MixedIffVolume(data);
    var known := KnownSlices(MergeAll(data), KNOWN_KEYS);
    KnownInOrder(MergeAll(data), KNOWN_KEYS);
    forall j | 0 <= j < |known| ensures PlaceOf(known[j].key) < 4 {
      assert known[j] in known;
      KnownKeysAre(known[j].key);
    }
    RestComesLast(known, Entry("other", SumCount(Leftover(MergeAll(data), KNOWN_KEYS)), SumUsd(Leftover(MergeAll(data), KNOWN_KEYS))));
    assert known + [] == known;
  }

  lemma RestComesLast(known: seq<Entry>, last: Entry)
    requires InOrder(known) && last.key == "other" && forall j | 0 <= j < |known| :: PlaceOf(known[j].key) < 4
    ensures InOrder(known + [last])
  {
  }

  lemma {:induction false} MergeFinds(merged: seq<Entry>, key: string, count: int, usd: real, k: string)
    ensures Find(Merge(merged, key, count, usd), k).Some? <==> k == key || Find(merged, k).Some?
  {
    var after := Merge(merged, key, count, usd);
    if merged == [] {
      assert after[1..] == [];
    } else if merged[0].key != key {
      MergeFinds(merged[1..], key, count, usd, k);
    }
  }

  lemma {:induction false} MergedIsFound(data: seq<Entry>, d: Entry)
    requires d in data
    ensures Find(MergeAll(data), MergeKey(d.key)).Some?
  {
    var front, e := data[..|data| - 1], data[|data| - 1];
    assert data == front + [e];
    MergeAllSnoc(front, e);
    MergeFinds(MergeAll(front), MergeKey(e.key), e.count, e.usd, MergeKey(d.key));
    if d != e { MergedIsFound(front, d); }
  }

  // ---------------------------------------------------------------- slice widths

  function SliceWidthPct(usd: real, total: real): real {
    if total <= 0.0 then 0.5 else if usd / total * 100.0 < 0.5 then 0.5 else usd / total * 100.0
  }

  /** A slice is as wide as its share, but never a hairline. */
  lemma WidthIsShare(usd: real, total: real)
    ensures SliceWidthPct(usd, total) >= 0.5
    ensures total > 0.0 && usd / total * 100.0 >= 0.5 ==> SliceWidthPct(usd, total) == usd / total * 100.0
    ensures total <= 0.0 || usd / total * 100.0 <= 0.5 ==> SliceWidthPct(usd, total) == 0.5
  {
  }

  function SumWidths(slices: seq<Entry>, total: real): real {
    if slices == [] then 0.0 else SliceWidthPct(slices[0].usd, total) + SumWidths(slices[1..], total)
  }

  /** Widths are the true percentages plus at most half a percent each, and a slice that
      holds at least half a percent gets none of it. */
  lemma {:induction false} WidthsBound(slices: seq<Entry>, total: real)
    requires total > 0.0 && forall e | e in slices :: e.usd >= 0.0
    ensures var exact := SumUsd(slices) / total * 100.0;
            exact <= SumWidths(slices, total) <= exact + 0.5 * |slices| as real
    ensures (exists e :: e in slices && e.usd / total * 100.0 >= 0.5) ==>
              SumWidths(slices, total) <= SumUsd(slices) / total * 100.0 + 0.5 * (|slices| - 1) as real
  {
    if slices != [] {
      WidthsBound(slices[1..], total);
      Shares(slices[0].usd, SumUsd(slices[1..]), total);
      assert 0.0 <= slices[0].usd / total * 100.0;
      assert slices == [slices[0]] + slices[1..];
    }
  }

  lemma Shares(a: real, b: real, total: real)
    requires total > 0.0
    ensures (a + b) / total * 100.0 == a / total * 100.0 + b / total * 100.0
  {
  }

  lemma {:induction false} BigSlice(slices: seq<Entry>, total: real)
    requires total > 0.0 && SumUsd(slices) == total && 0 < |slices| <= 4
    ensures exists e :: e in slices && e.usd / total * 100.0 >= 0.5
  {
    if forall e | e in slices :: e.usd / total * 100.0 < 0.5 {
      SmallSlices(slices, total);
    }
  }

  lemma {:induction false} SmallSlices(slices: seq<Entry>, total: real)
    requires total > 0.0 && forall e | e in slices :: e.usd / total * 100.0 < 0.5
    ensures SumUsd(slices) / total * 100.0 <= 0.5 * |slices| as real
  {
    if slices != [] {
      SmallSlices(slices[1..], total);
      Shares(slices[0].usd, SumUsd(slices[1..]), total);
      assert slices[0] in slices;
    }
  }

  lemma WidthsOfWhole(slices: seq<Entry>, total: real)
    requires total > 0.0 && SumUsd(slices) == total && 0 < |slices| <= 4
    requires forall e | e in slices :: e.usd >= 0.0
    ensures 100.0 <= SumWidths(slices, total) <= 101.5
  {
    BigSlice(slices, total);
    WidthsBound(slices, total);
    SelfRatio(total);
  }

  lemma SelfRatio(x: real)
    requires x > 0.0
    ensures x / x * 100.0 == 100.0
  {
  }

  lemma SlicesOfNonNegative(data: seq<Entry>)
    requires SumUsd(data) > 0.0 && forall e | e in data :: e.usd >= 0.0
    ensures MixOf(data).Mixed?
    ensures SumUsd(MixOf(data).slices) == MixOf(data).total > 0.0
    ensures forall e | e in MixOf(data).slices :: e.usd >= 0.0
  {
    MergeAllNonNegative(data);
    OtherNonNegative(data);
    RestIsFrom(data);
    SlicesSumToTotal(data);
    SlicesNonNegative(MergeAll(data), KNOWN_KEYS);
  }

  /** For non-negative volumes the bar is never short and at most one and a half percent
      over. */
  lemma WidthsFillTheBar(data: seq<Entry>)
    requires SumUsd(data) > 0.0 && forall e | e in data :: e.usd >= 0.0
    ensures MixOf(data).Mixed?
    ensures 100.0 <= SumWidths(MixOf(data).slices, MixOf(data).total) <= 101.5
  {
    SlicesOfNonNegative(data);
    FewSlices(data);
    WidthsOfWhole(MixOf(data).slices, MixOf(data).total);
  }

  lemma {:induction false} OtherNonNegative(data: seq<Entry>)
    requires forall e | e in data :: e.usd >= 0.0
    ensures OtherUsd(data) >= 0.0
  {
    if data != [] { OtherNonNegative(data[1..]); }
  }

  lemma {:induction false} SlicesNonNegative(merged: seq<Entry>, keys: seq<string>)
    requires forall e | e in merged :: e.usd >= 0.0
    ensures forall e | e in KnownSlices(merged, keys) :: e.usd >= 0.0
    decreases keys
  {
    if keys != [] {
      WithoutTakes(merged, keys[0]);
      NotFound(merged, keys[0]);
      SlicesNonNegative(Without(merged, keys[0]), keys[1..]);
    }
  }

  lemma {:induction false} AbsentKeyHasNoSlice(merged: seq<Entry>, keys: seq<string>, absent: string)
    requires DistinctKeys(merged) && Find(merged, absent) == None
    ensures |KnownSlices(merged, keys)| <= |keys| - if absent in keys then 1 else 0
    decreases keys
  {
    if keys != [] {
      WithoutTakes(merged, keys[0]);
      AbsentKeyHasNoSlice(Without(merged, keys[0]), keys[1..], absent);
      assert keys == [keys[0]] + keys[1..];
    }
  }

  /** At most four slices: the fourth known key was merged away. */
  lemma FewSlices(data: seq<Entry>)
    requires SumUsd(data) > 0.0
    ensures MixOf(data).Mixed?
    ensures |MixOf(data).slices| <= 4
  {
    MixedIffVolume(data);
    MergeAllKeys(data);
    NotFound(MergeAll(data), "pinnacle");
    assert KNOWN_KEYS[3] == "pinnacle";
    AbsentKeyHasNoSlice(MergeAll(data), KNOWN_KEYS, "pinnacle");
  }
}
