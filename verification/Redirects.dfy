/** The redirects a page request meets: the table of next.config.ts first, then the three
    stages of proxy.ts (case fold, thin tab, retired tab). Paths are ASCII. */
module Redirects {
  import opened Wrappers
  import opened Text

  /** A pathname cut at its slashes: "/a/b" is ["", "a", "b"]. */
  type Segments = seq<string>

  predicate WellFormed(s: Segments) {
    |s| >= 2 && s[0] == "" && forall i | 0 <= i < |s| :: '/' !in s[i]
  }

  predicate IsPathname(p: string) { p != "" && p[0] == '/' }

  function PathOf(s: Segments): string { Join(s, '/') }

  function SegmentsOf(p: string): Segments { Split(p, '/') }

  lemma PathsAreSegments(p: string)
    requires IsPathname(p)
    ensures WellFormed(SegmentsOf(p)) && PathOf(SegmentsOf(p)) == p
  {
    JoinSplit(p, '/');
    var s := SegmentsOf(p);
    assert forall i | 0 <= i < |s| :: s[i] in s;
  }

  lemma SegmentsArePaths(s: Segments)
    requires WellFormed(s)
    ensures SegmentsOf(PathOf(s)) == s && IsPathname(PathOf(s))
  {
    SplitJoin(s, '/');
  }

  // ---------------------------------------------------------------- case fold

  const CASE_FOLD_ROOTS: set<string> := {
    "nba-top-shot", "nfl-all-day", "laliga-golazos", "disney-pinnacle", "ufc", "candy-mlb", "panini-blockchain",
    "players", "teams"}
  const CASE_FOLD_ENTITY_TABS: set<string> := {"player", "team", "set", "character", "series", "product", "pack"}

  function Root(s: Segments): string { if |s| > 1 then Lower(s[1]) else "" }

  function Tab(s: Segments): string { if |s| > 2 then Lower(s[2]) else "" }

  /** Which segments fold: the root, all of a hub's, a tab, and what follows an entity tab. */
  predicate Folds(s: Segments, i: nat) {
    i == 1 || (i >= 2 && (Root(s) == "players" || Root(s) == "teams" || i == 2 || Tab(s) in CASE_FOLD_ENTITY_TABS))
  }

  function FoldSegments(s: Segments): (r: Segments)
    ensures |r| == |s| && forall i | 0 <= i < |s| :: r[i] == if Folds(s, i) then Lower(s[i]) else s[i]
  {
    seq(|s|, i requires 0 <= i < |s| => if Folds(s, i) then Lower(s[i]) else s[i])
  }

  function CaseFolded(s: Segments): Option<Segments> {
    if Root(s) in CASE_FOLD_ROOTS && FoldSegments(s) != s then Some(FoldSegments(s)) else None
  }

  /** The form a path is folded to: root and tab in lower case, and on a hub or under an
      entity's tab everything after them too; anything else stays as it was written. */
  ghost predicate FoldedForm(s: Segments, t: Segments) {
    && |t| == |s|
    && (forall i | 0 <= i < |s| ::
          t[i] == if 1 <= i <= 2 || (i >= 3 && (IsHub(s) || IsEntityPage(s))) then Lower(s[i]) else s[i])
  }

  predicate IsHub(s: Segments) { Root(s) == "players" || Root(s) == "teams" }

  predicate IsEntityPage(s: Segments) {
    Tab(s) in {"player", "team", "set", "character", "series", "product", "pack"}
  }

  lemma FoldSegmentsForm(s: Segments)
    ensures FoldedForm(s, FoldSegments(s))
    ensures FoldedForm(s, s) <==> FoldSegments(s) == s
  {
  }

  /** Lower-cases an array of segments from one index on. */
  method LowerFrom(out: array<string>, start: nat)
    requires start <= out.Length
    modifies out
    ensures forall j | 0 <= j < start :: out[j] == old(out[j])
    ensures forall j | start <= j < out.Length :: out[j] == Lower(old(out[j]))
  {
    for i := start to out.Length
      invariant forall j | 0 <= j < start :: out[j] == old(out[j])
      invariant forall j | start <= j < i :: out[j] == Lower(old(out[j]))
      invariant forall j | i <= j < out.Length :: out[j] == old(out[j])
    {
      out[i] := Lower(out[i]);
    }
  }

  /** The folding itself, on a copy of the segments edited in place. */
  method FoldCopy(seg: Segments) returns (folded: Segments)
    requires |seg| >= 2
    ensures folded == FoldSegments(seg)
  {
    var root := Lower(seg[1]);
    var out := new string[|seg|](i requires 0 <= i < |seg| => seg[i]);
    out[1] := root;
    if root == "players" || root == "teams" {
      LowerFrom(out, 2);
    } else if out.Length > 2 {
      out[2] := Lower(out[2]);
      if out.Length > 3 && out[2] in CASE_FOLD_ENTITY_TABS {
        LowerFrom(out, 3);
      }
    }
    return out[..];
  }

  /** `caseFoldedPath` */
  method CaseFoldedPath(pathname: string) returns (r: Option<string>)
    requires IsPathname(pathname)
    ensures r == if CaseFolded(SegmentsOf(pathname)).Some? then Some(PathOf(CaseFolded(SegmentsOf(pathname)).value)) else None
    ensures var s := SegmentsOf(pathname);
            && (r == None <==> Root(s) !in CASE_FOLD_ROOTS || FoldedForm(s, s))
            && (r.Some? ==> IsPathname(r.value) && FoldedForm(s, SegmentsOf(r.value)))
  {
    var seg := SegmentsOf(pathname);
    PathsAreSegments(pathname);
    FoldSegmentsForm(seg);
    if !HasUpper(pathname) {
      NoUpperNoFold(pathname);
      return None;
    }
    if Lower(seg[1]) !in CASE_FOLD_ROOTS {
      return None;
    }
    var out := FoldCopy(seg);
    FoldWellFormed(seg);
    SegmentsArePaths(out);
    var folded := PathOf(out);
    return if folded == pathname then None else Some(folded);
  }

  lemma {:induction false} UpperInSegment(s: Segments, k: nat)
    requires k < |s| && HasUpper(s[k])
    ensures HasUpper(PathOf(s))
  {
    var i :| 0 <= i < |s[k]| && 'A' <= s[k][i] <= 'Z';
    if |s| > 1 {
      if k == 0 {
        assert PathOf(s)[i] == s[0][i];
      } else {
        UpperInSegment(s[1..], k - 1);
        var j :| 0 <= j < |PathOf(s[1..])| && 'A' <= PathOf(s[1..])[j] <= 'Z';
        assert PathOf(s)[|s[0]| + 1 + j] == PathOf(s[1..])[j];
      }
    }
  }

  lemma NoUpperNoFold(p: string)
    requires IsPathname(p) && !HasUpper(p)
    ensures CaseFolded(SegmentsOf(p)) == None
  {
    PathsAreSegments(p);
    var s := SegmentsOf(p);
    forall i | 0 <= i < |s| ensures Lower(s[i]) == s[i] {
      if HasUpper(s[i]) { UpperInSegment(s, i); }
      LowerIdempotent(s[i]);
    }
    assert FoldSegments(s) == s;
  }

  lemma LowerKeepsSlash(t: string)
    requires '/' !in t
    ensures '/' !in Lower(t)
  {
    forall i | 0 <= i < |t| ensures Lower(t)[i] != '/' {
      assert t[i] in t;
    }
  }

  lemma FoldWellFormed(s: Segments)
    requires WellFormed(s)
    ensures WellFormed(FoldSegments(s))
  {
    forall i | 0 <= i < |s| ensures '/' !in FoldSegments(s)[i] {
      LowerKeepsSlash(s[i]);
    }
  }

  /** Folding twice folds once: a fold's target never folds again, though it may well keep
      capitals. */
  lemma FoldIsStable(s: Segments)
    ensures FoldSegments(FoldSegments(s)) == FoldSegments(s)
    ensures Root(FoldSegments(s)) == Root(s) && Tab(FoldSegments(s)) == Tab(s)
    ensures CaseFolded(s).Some? ==> CaseFolded(CaseFolded(s).value) == None
  {
    forall i | 0 <= i < |s| ensures Lower(Lower(s[i])) == Lower(s[i]) {
      LowerIdempotent(s[i]);
    }
  }

  lemma {:induction false} UpperHasSegment(s: Segments)
    requires HasUpper(PathOf(s))
    ensures exists k :: 0 <= k < |s| && HasUpper(s[k])
  {
    var i :| 0 <= i < |PathOf(s)| && 'A' <= PathOf(s)[i] <= 'Z';
    if |s| > 1 {
      if i < |s[0]| {
        assert PathOf(s)[i] == s[0][i];
        assert HasUpper(s[0]);
      } else {
        assert PathOf(s)[|s[0]|] == '/';
        assert PathOf(s)[i] == PathOf(s[1..])[i - |s[0]| - 1];
        UpperHasSegment(s[1..]);
        var k :| 0 <= k < |s[1..]| && HasUpper(s[1..][k]);
        assert HasUpper(s[k + 1]);
      }
    } else {
      assert HasUpper(s[0]);
    }
  }

  /** A fold's target has a capital exactly when some segment that does not fold has one:
      one past the tab, outside the hubs and under no entity tab. */
  lemma FoldKeepsCapitalsIff(s: Segments)
    requires CaseFolded(s).Some?
    ensures HasUpper(PathOf(CaseFolded(s).value)) <==> exists i :: 0 <= i < |s| && !Folds(s, i) && HasUpper(s[i])
  {
    var t := FoldSegments(s);
    forall i | 0 <= i < |s| ensures HasUpper(t[i]) <==> !Folds(s, i) && HasUpper(s[i]) {
      LowerIdempotent(s[i]);
    }
    if HasUpper(PathOf(t)) {
      UpperHasSegment(t);
      var k :| 0 <= k < |t| && HasUpper(t[k]);
      assert !Folds(s, k) && HasUpper(s[k]);
    }
    forall i | 0 <= i < |s| && !Folds(s, i) && HasUpper(s[i]) ensures HasUpper(PathOf(t)) {
      UpperInSegment(t, i);
    }
  }

  /** So the target of a hub path or of an entity's page has none. */
  lemma EntityTargetsAreLower(s: Segments)
    requires WellFormed(s) && CaseFolded(s).Some? && (IsHub(s) || IsEntityPage(s))
    ensures !HasUpper(PathOf(CaseFolded(s).value))
  {
    FoldSegmentsForm(s);
    var t := FoldSegments(s);
    forall i | 0 <= i < |t| ensures !HasUpper(t[i]) {
      LowerIdempotent(s[i]);
    }
    if HasUpper(PathOf(t)) { UpperHasSegment(t); }
  }

  /** A player's page typed with capitals is the page. */
  lemma PlayerLinkFolds()
    ensures CaseFolded(["", "nba-top-shot", "player", "Jamal-Murray"]) == Some(["", "nba-top-shot", "player", "jamal-murray"])
  {
    assert Lower("Jamal-Murray") == "jamal-murray" && Lower("nba-top-shot") == "nba-top-shot" && Lower("player") == "player";
    assert FoldSegments(["", "nba-top-shot", "player", "Jamal-Murray"]) == ["", "nba-top-shot", "player", "jamal-murray"];
    assert "Jamal-Murray"[0] != "jamal-murray"[0];
  }

  /** Two targets that keep capitals: an edition's and a moment's. */
  lemma FoldMayKeepCapitals()
    ensures CaseFolded(["", "UFC", "Edition", "DIEGO"]) == Some(["", "ufc", "edition", "DIEGO"])
    ensures CaseFolded(["", "UFC", "Moment", "DIEGO"]) == Some(["", "ufc", "moment", "DIEGO"])
    ensures HasUpper(PathOf(["", "ufc", "edition", "DIEGO"])) && HasUpper(PathOf(["", "ufc", "moment", "DIEGO"]))
  {
    assert Lower("UFC") == "ufc" && Lower("Edition") == "edition" && Lower("Moment") == "moment";
    assert FoldSegments(["", "UFC", "Edition", "DIEGO"]) == ["", "ufc", "edition", "DIEGO"];
    assert FoldSegments(["", "UFC", "Moment", "DIEGO"]) == ["", "ufc", "moment", "DIEGO"];
    assert "DIEGO"[0] == 'D';
    UpperInSegment(["", "ufc", "edition", "DIEGO"], 3);
    UpperInSegment(["", "ufc", "moment", "DIEGO"], 3);
  }

  // ---------------------------------------------------------------- tab redirects

  const THIN_TABS: set<string> := {
    "sniper", "badges", "challenges", "hot-floors", "pack-sniper", "fast-break", "road-to-the-ring", "play", "series", "profile"}
  const RETIRED_PANINI_TABS: set<string> := {
    "pack-sniper", "challenges", "play", "badges", "fast-break", "road-to-the-ring", "series", "profile"}

  predicate IsThinTab(s: Segments) { |s| >= 3 && s[0] == "" && s[1] == "candy-mlb" && s[2] in THIN_TABS }

  predicate Retired(slug: string, tab: string) {
    (slug == "ufc" && tab == "sniper") || (slug == "panini-blockchain" && tab in RETIRED_PANINI_TABS)
  }

  predicate IsRetiredTab(s: Segments) {
    (|s| == 3 || (|s| == 4 && s[3] == "")) && Retired(s[1], s[2])
  }

  function TabPath(slug: string, tab: string): string { "/" + slug + "/" + tab }

  lemma SegmentsBelow(slug: string, tab: string, tail: string)
    requires '/' !in slug && '/' !in tab
    ensures SegmentsOf(TabPath(slug, tab) + "/" + tail) == ["", slug, tab] + SegmentsOf(tail)
  {
    var inner := tab + "/" + tail;
    var middle := slug + "/" + inner;
    SplitAtFirst(tab, tail, '/');
    SplitAtFirst(slug, inner, '/');
    SplitAtFirst("", middle, '/');
    assert "" + "/" + middle == TabPath(slug, tab) + "/" + tail;
  }

  lemma SegmentsOfTab(slug: string, tab: string)
    requires '/' !in slug && '/' !in tab
    ensures SegmentsOf(TabPath(slug, tab)) == ["", slug, tab]
  {
    var inner := slug + "/" + tab;
    SplitPlain(tab, '/');
    SplitAtFirst(slug, tab, '/');
    SplitAtFirst("", inner, '/');
    assert "" + "/" + inner == TabPath(slug, tab);
  }

  lemma PathOfTab(s: Segments)
    requires |s| >= 3 && s[0] == ""
    ensures |s| == 3 ==> PathOf(s) == TabPath(s[1], s[2])
    ensures |s| > 3 ==> PathOf(s) == TabPath(s[1], s[2]) + "/" + PathOf(s[3..])
  {
    assert s[1..][1..] == s[2..] && s[2..][1..] == s[3..];
    assert PathOf(s) == "/" + PathOf(s[1..]);
    assert PathOf(s[1..]) == s[1] + "/" + PathOf(s[2..]);
  }

  lemma TabsAreSegments(slug: string, tab: string)
    requires (slug == "candy-mlb" && tab in THIN_TABS) || Retired(slug, tab)
    ensures '/' !in slug && '/' !in tab
  {
  }

  lemma AtOrBelow(p: string, slug: string, tab: string)
    requires '/' !in slug && '/' !in tab && (p == TabPath(slug, tab) || TabPath(slug, tab) + "/" <= p)
    ensures var s := SegmentsOf(p); |s| >= 3 && s[0] == "" && s[1] == slug && s[2] == tab
  {
    SegmentsOfTab(slug, tab);
    var below := TabPath(slug, tab) + "/";
    if below <= p {
      SegmentsBelow(slug, tab, p[|below|..]);
      assert p == below + p[|below|..];
    }
  }

  /** The thin tabs as the source's pattern has them: the tab, and everything below it. */
  lemma ThinTabIff(p: string)
    requires IsPathname(p)
    ensures IsThinTab(SegmentsOf(p))
            <==> exists tab :: tab in THIN_TABS && (p == TabPath("candy-mlb", tab) || TabPath("candy-mlb", tab) + "/" <= p)
  {
    PathsAreSegments(p);
    var s := SegmentsOf(p);
    if IsThinTab(s) {
      PathOfTab(s);
      assert p == TabPath("candy-mlb", s[2]) || TabPath("candy-mlb", s[2]) + "/" <= p;
    }
    forall tab | tab in THIN_TABS && (p == TabPath("candy-mlb", tab) || TabPath("candy-mlb", tab) + "/" <= p) ensures IsThinTab(s) {
      TabsAreSegments("candy-mlb", tab);
      AtOrBelow(p, "candy-mlb", tab);
    }
  }

  /** The retired tabs as the source looks them up: slug and tab, with or without a slash at
      the end, and nothing below. */
  lemma RetiredTabIff(p: string)
    requires IsPathname(p)
    ensures IsRetiredTab(SegmentsOf(p))
            <==> exists slug, tab :: Retired(slug, tab) && (p == TabPath(slug, tab) || p == TabPath(slug, tab) + "/")
  {
    PathsAreSegments(p);
    var s := SegmentsOf(p);
    if IsRetiredTab(s) {
      PathOfTab(s);
      assert |s| == 4 ==> PathOf(s[3..]) == "";
      assert p == TabPath(s[1], s[2]) || p == TabPath(s[1], s[2]) + "/";
    }
    forall slug, tab | Retired(slug, tab) && (p == TabPath(slug, tab) || p == TabPath(slug, tab) + "/") ensures IsRetiredTab(s) {
      TabsAreSegments(slug, tab);
      SegmentsOfTab(slug, tab);
      SegmentsBelow(slug, tab, "");
      assert TabPath(slug, tab) + "/" + "" == TabPath(slug, tab) + "/";
    }
  }

  /** What proxy.ts answers a GET or HEAD for this path with, among its redirects. */
  function ProxyRedirect(s: Segments): Option<Segments> {
    if CaseFolded(s).Some? then CaseFolded(s)
    else if IsThinTab(s) then Some(["", "candy-mlb", "overview"])
    else if IsRetiredTab(s) then Some(["", s[1], "overview"])
    else None
  }

  /** The rule of `isPublicPath` that admits a collection's overview. */
  predicate IsPublicOverview(s: Segments) { |s| == 3 && s[0] == "" && s[1] != "" && s[2] == "overview" }

  /** A tab redirect lands on an overview that anyone may read and no stage redirects. */
  lemma TabRedirectLandsOnOverview(s: Segments)
    requires WellFormed(s) && CaseFolded(s) == None && ProxyRedirect(s).Some?
    ensures var target := ProxyRedirect(s).value;
            target == ["", s[1], "overview"] && IsPublicOverview(target) && ProxyRedirect(target) == None
  {
    var target := ProxyRedirect(s).value;
    OverviewDoesNotFold(s[1]);
  }

  lemma OverviewDoesNotFold(slug: string)
    requires slug == "candy-mlb" || slug == "ufc" || slug == "panini-blockchain"
    ensures CaseFolded(["", slug, "overview"]) == None
  {
    var s := ["", slug, "overview"];
    assert !HasUpper(slug) && !HasUpper("overview");
    LowerIdempotent(slug);
    LowerIdempotent("overview");
    assert FoldSegments(s) == s;
  }

  /** Any chain of the proxy's own redirects ends within two hops. */
  lemma ProxyChainsEndInTwo(s: Segments)
    requires WellFormed(s) && ProxyRedirect(s).Some?
    ensures var once := ProxyRedirect(s).value;
            && WellFormed(once)
            && (ProxyRedirect(once).Some? ==> ProxyRedirect(ProxyRedirect(once).value) == None)
  {
    FoldIsStable(s);
    FoldWellFormed(s);
    var once := ProxyRedirect(s).value;
    if CaseFolded(s) == None {
      TabRedirectLandsOnOverview(s);
    } else if ProxyRedirect(once).Some? {
      TabRedirectLandsOnOverview(once);
    }
  }

  // ---------------------------------------------------------------- next.config.ts

  const PINNACLE_PAGES: set<string> := {
    "overview", "collection", "market", "sniper", "analytics", "sets", "packs", "pack-sniper", "challenges", "hot-floors",
    "play", "badges"}
  const PINNACLE_ENTITIES: set<string> := {
    "edition", "set", "series", "player", "character", "team", "pack", "profile"}

  /** Whether a literal of the table matches a segment: exactly, or (`fold`) in any case. */
  predicate Is(s: Segments, i: nat, literal: string, fold: bool) {
    i < |s| && (s[i] == literal || (fold && Lower(s[i]) == literal))
  }

  predicate IsOneOf(s: Segments, i: nat, literals: set<string>, fold: bool) {
    i < |s| && (s[i] in literals || (fold && Lower(s[i]) in literals))
  }

  /** Named parameters match non-empty segments only. */
  predicate Params(s: Segments) { forall i | 0 <= i < |s| :: s[i] != "" }

  /** The path rules of the table, first match first. */
  function NextRedirect(s: Segments, fold: bool): Option<Segments> {
    if |s| == 2 && Is(s, 1, "wallet", fold) then Some(["", "nba-top-shot", "collection"])
    else if |s| == 2 && Is(s, 1, "packs", fold) then Some(["", "nba-top-shot", "packs"])
    else if |s| == 2 && Is(s, 1, "sets", fold) then Some(["", "nba-top-shot", "sets"])
    else if Is(s, 1, "undefined", fold) && Params(s[2..]) then Some(["", "nba-top-shot"] + s[2..])
    else if |s| == 3 && Is(s, 1, "trophy-case", fold) && Params(s[2..]) then Some(["", "profile", s[2], "trophy-case"])
    else if Is(s, 1, "ufc-strike", fold) && Params(s[2..]) then Some(["", "ufc"] + s[2..])
    else if Is(s, 1, "pinnacle", fold) then PinnacleRedirect(s, fold)
    else if |s| == 4 && Is(s, 1, "disney-pinnacle", fold) && Params(s[3..]) then
      if Is(s, 2, "player", fold) then Some(["", "disney-pinnacle", "character", s[3]])
      else if Is(s, 2, "moment", fold) || Is(s, 2, "edition", fold) then Some(["", "pinnacle", "moment", s[3]])
      else None
    else None
  }

  function PinnacleRedirect(s: Segments, fold: bool): Option<Segments> {
    if |s| == 4 && Is(s, 2, "player", fold) && Params(s[3..]) then Some(["", "disney-pinnacle", "character", s[3]])
    else if |s| == 3 && IsOneOf(s, 2, PINNACLE_PAGES, fold) then Some(["", "disney-pinnacle", s[2]])
    else if |s| >= 4 && (IsOneOf(s, 2, PINNACLE_PAGES, fold) || IsOneOf(s, 2, PINNACLE_ENTITIES, fold)) && Params(s[3..]) then
      Some(["", "disney-pinnacle", s[2]] + s[3..])
    else None
  }

  /** The rules as the table writes them: three shortcuts, a wrong root, an alias. */
  lemma ShortcutsAsWritten(x: string, rest: Segments, fold: bool)
    requires x != "" && Params(rest)
    ensures NextRedirect(["", "wallet"], fold) == Some(["", "nba-top-shot", "collection"])
    ensures NextRedirect(["", "packs"], fold) == Some(["", "nba-top-shot", "packs"])
    ensures NextRedirect(["", "sets"], fold) == Some(["", "nba-top-shot", "sets"])
    ensures NextRedirect(["", "undefined"] + rest, fold) == Some(["", "nba-top-shot"] + rest)
    ensures NextRedirect(["", "trophy-case", x], fold) == Some(["", "profile", x, "trophy-case"])
    ensures NextRedirect(["", "ufc-strike"] + rest, fold) == Some(["", "ufc"] + rest)
  {
    LowerOfTableRoots();
    assert (["", "undefined"] + rest)[2..] == rest && (["", "ufc-strike"] + rest)[2..] == rest;
  }

  /** Pinnacle under its canonical slug: players as characters, pages and entities as named. */
  lemma PinnacleAsWritten(x: string, page: string, rest: Segments, fold: bool)
    requires x != "" && Params(rest)
    ensures NextRedirect(["", "pinnacle", "player", x], fold) == Some(["", "disney-pinnacle", "character", x])
    ensures page in PINNACLE_PAGES ==> NextRedirect(["", "pinnacle", page], fold) == Some(["", "disney-pinnacle", page])
    ensures (page in PINNACLE_PAGES || page in PINNACLE_ENTITIES) && rest != [] && !(page == "player" && |rest| == 1) ==>
              NextRedirect(["", "pinnacle", page] + rest, fold) == Some(["", "disney-pinnacle", page] + rest)
  {
    LowerOfTableRoots();
    LowerOfTabs();
    if page in PINNACLE_PAGES || page in PINNACLE_ENTITIES { PagesAreLower(page); }
    var s := ["", "pinnacle", page] + rest;
    assert s[3..] == rest;
    PinnacleRules(s, fold);
    PinnacleRules(["", "pinnacle", page], fold);
    PinnacleRules(["", "pinnacle", "player", x], fold);
  }

  /** And the way back for moments and editions. */
  lemma DisneyAsWritten(x: string, fold: bool)
    requires x != ""
    ensures NextRedirect(["", "disney-pinnacle", "player", x], fold) == Some(["", "disney-pinnacle", "character", x])
    ensures NextRedirect(["", "disney-pinnacle", "moment", x], fold) == Some(["", "pinnacle", "moment", x])
    ensures NextRedirect(["", "disney-pinnacle", "edition", x], fold) == Some(["", "pinnacle", "moment", x])
  {
    LowerOfTableRoots();
    LowerOfTabs();
  }

  /** And the table moves nothing else: where literals match exactly, these are all the paths
      it moves. */
  lemma MovedIff(s: Segments)
    requires WellFormed(s)
    ensures NextRedirect(s, false).Some? <==>
              || s == ["", "wallet"] || s == ["", "packs"] || s == ["", "sets"]
              || ((s[1] == "undefined" || s[1] == "ufc-strike") && Params(s[2..]))
              || (|s| == 3 && s[1] == "trophy-case" && s[2] != "")
              || (|s| == 3 && s[1] == "pinnacle" && s[2] in PINNACLE_PAGES)
              || (|s| >= 4 && s[1] == "pinnacle" && (s[2] in PINNACLE_PAGES || s[2] in PINNACLE_ENTITIES) && Params(s[3..]))
              || (|s| == 4 && s[1] == "disney-pinnacle" && s[2] in {"player", "moment", "edition"} && s[3] != "")
  {
    if |s| >= 3 { assert |s| == 3 ==> s[2..] == [s[2]]; }
    if |s| >= 4 { assert |s| == 4 ==> s[3..] == [s[3]]; }
    assert |s| == 2 ==> s == ["", s[1]];
  }

  /** One redirect of a page request: the table runs before the proxy. */
  function Hop(s: Segments, fold: bool): Option<Segments> {
    if NextRedirect(s, fold).Some? then NextRedirect(s, fold) else ProxyRedirect(s)
  }

  /** So a moved page keeps its spelling until the table has moved it. */
  lemma TableComesFirst(x: string, fold: bool)
    requires x != ""
    ensures Hop(["", "disney-pinnacle", "player", x], fold) == Some(["", "disney-pinnacle", "character", x])
    ensures Hop(["", "disney-pinnacle", "edition", x], fold) == Some(["", "pinnacle", "moment", x])
  {
    DisneyAsWritten(x, fold);
  }

  lemma HopWellFormed(s: Segments, fold: bool)
    requires WellFormed(s) && Hop(s, fold).Some?
    ensures WellFormed(Hop(s, fold).value)
  {
    if NextRedirect(s, fold) == None {
      ProxyChainsEndInTwo(s);
    }
  }

  // ---------------------------------------------------------------- termination

  /** How far a path is from where its redirects lead. */
  function Rank(s: Segments): nat {
    if Root(s) in {"wallet", "packs", "sets", "undefined", "ufc-strike", "trophy-case"} then 5
    else if Root(s) == "pinnacle" then if Tab(s) == "moment" then 0 else 4
    else if Root(s) == "disney-pinnacle" then if Tab(s) in {"player", "edition", "moment"} then 3 else 2
    else if Tab(s) == "overview" then 0
    else 2
  }

  function Measure(s: Segments): nat { 2 * Rank(s) + if CaseFolded(s).Some? then 1 else 0 }

  lemma LowerOfTableRoots()
    ensures Lower("wallet") == "wallet" && Lower("packs") == "packs" && Lower("sets") == "sets"
    ensures Lower("undefined") == "undefined" && Lower("ufc-strike") == "ufc-strike" && Lower("trophy-case") == "trophy-case"
    ensures Lower("disney-pinnacle") == "disney-pinnacle" && Lower("pinnacle") == "pinnacle"
  {
  }

  lemma LowerOfTargets()
    ensures Lower("nba-top-shot") == "nba-top-shot" && Lower("profile") == "profile" && Lower("ufc") == "ufc"
    ensures Lower("candy-mlb") == "candy-mlb" && Lower("panini-blockchain") == "panini-blockchain"
  {
  }

  lemma LowerOfTabs()
    ensures Lower("character") == "character" && Lower("moment") == "moment" && Lower("overview") == "overview"
    ensures Lower("player") == "player" && Lower("edition") == "edition"
  {
  }

  lemma LowerOf()
    ensures Lower("nba-top-shot") == "nba-top-shot" && Lower("profile") == "profile" && Lower("ufc") == "ufc"
    ensures Lower("disney-pinnacle") == "disney-pinnacle" && Lower("pinnacle") == "pinnacle"
    ensures Lower("character") == "character" && Lower("moment") == "moment" && Lower("overview") == "overview"
    ensures Lower("wallet") == "wallet" && Lower("packs") == "packs" && Lower("sets") == "sets"
    ensures Lower("undefined") == "undefined" && Lower("ufc-strike") == "ufc-strike" && Lower("trophy-case") == "trophy-case"
    ensures Lower("player") == "player" && Lower("edition") == "edition"
    ensures Lower("candy-mlb") == "candy-mlb" && Lower("panini-blockchain") == "panini-blockchain"
  {
    LowerOfTableRoots();
    LowerOfTargets();
    LowerOfTabs();
  }

  /** A match fixes the lower-case form, in either mode. */
  lemma MatchFixesLower(s: Segments, fold: bool)
    ensures forall literal | Lower(literal) == literal && Is(s, 1, literal, fold) :: Root(s) == literal
    ensures forall literal | Lower(literal) == literal && Is(s, 2, literal, fold) :: Tab(s) == literal
  {
  }

  lemma PageIsNotMoment(s: Segments, fold: bool)
    requires IsOneOf(s, 2, PINNACLE_PAGES, fold) || IsOneOf(s, 2, PINNACLE_ENTITIES, fold)
    ensures Tab(s) != "moment"
  {
    if s[2] in PINNACLE_PAGES || s[2] in PINNACLE_ENTITIES {
      PagesAreLower(s[2]);
    }
  }

  lemma PagesAreLower(page: string)
    requires page in PINNACLE_PAGES || page in PINNACLE_ENTITIES
    ensures Lower(page) == page
  {
    assert !HasUpper(page);
    LowerIdempotent(page);
  }

  lemma PinnacleLowersRank(s: Segments, fold: bool)
    requires WellFormed(s) && Is(s, 1, "pinnacle", fold) && PinnacleRedirect(s, fold).Some?
    ensures Rank(PinnacleRedirect(s, fold).value) < Rank(s)
  {
    LowerOf();
    MatchFixesLower(s, fold);
    var t := PinnacleRedirect(s, fold).value;
    assert t[1] == "disney-pinnacle";
    if |s| == 4 && Is(s, 2, "player", fold) && Params(s[3..]) {
      assert Tab(s) == "player";
    } else {
      PageIsNotMoment(s, fold);
    }
  }

  lemma DisneyLowersRank(s: Segments, fold: bool)
    requires WellFormed(s) && |s| == 4 && Is(s, 1, "disney-pinnacle", fold)
    requires Is(s, 2, "player", fold) || Is(s, 2, "moment", fold) || Is(s, 2, "edition", fold)
    ensures Rank(s) == 3
    ensures Rank(["", "disney-pinnacle", "character", s[3]]) == 2
    ensures Rank(["", "pinnacle", "moment", s[3]]) == 0
  {
    LowerOf();
    MatchFixesLower(s, fold);
  }

  lemma ShortcutLowersRank(s: Segments, fold: bool)
    requires WellFormed(s) && NextRedirect(s, fold).Some?
    requires !Is(s, 1, "pinnacle", fold) && !Is(s, 1, "disney-pinnacle", fold)
    ensures Rank(s) == 5 && NextRedirect(s, fold).value[1] in {"nba-top-shot", "profile", "ufc"}
    ensures Rank(NextRedirect(s, fold).value) <= 2
  {
    LowerOf();
    MatchFixesLower(s, fold);
    var t := NextRedirect(s, fold).value;
    assert t[1] in {"nba-top-shot", "profile", "ufc"};
    assert Root(t) in {"nba-top-shot", "profile", "ufc"};
  }

  lemma NextLowersRank(s: Segments, fold: bool)
    requires WellFormed(s) && NextRedirect(s, fold).Some?
    ensures Rank(NextRedirect(s, fold).value) < Rank(s)
  {
    if Is(s, 1, "pinnacle", fold) {
      PinnacleLowersRank(s, fold);
    } else if Is(s, 1, "disney-pinnacle", fold) {
      DisneyLowersRank(s, fold);
    } else {
      ShortcutLowersRank(s, fold);
    }
  }

  lemma TabLowersMeasure(s: Segments)
    requires WellFormed(s) && CaseFolded(s) == None && ProxyRedirect(s).Some?
    ensures Measure(ProxyRedirect(s).value) < Measure(s)
  {
    LowerOf();
    TabRedirectLandsOnOverview(s);
  }

  lemma HopDecreases(s: Segments, fold: bool)
    requires WellFormed(s) && Hop(s, fold).Some?
    ensures Measure(Hop(s, fold).value) < Measure(s)
  {
    if NextRedirect(s, fold).Some? {
      NextLowersRank(s, fold);
    } else if CaseFolded(s).Some? {
      FoldIsStable(s);
    } else {
      TabLowersMeasure(s);
    }
  }

  /** A run of redirects from one request. */
  ghost predicate Chain(ps: seq<Segments>, fold: bool) {
    && ps != [] && WellFormed(ps[0])
    && forall i | 0 <= i < |ps| - 1 :: Hop(ps[i], fold) == Some(ps[i + 1])
  }

  lemma {:induction false} ChainWellFormed(ps: seq<Segments>, fold: bool, i: nat)
    requires Chain(ps, fold) && i < |ps|
    ensures WellFormed(ps[i])
  {
    if i > 0 {
      ChainWellFormed(ps, fold, i - 1);
      assert Hop(ps[i - 1], fold) == Some(ps[i - 1 + 1]);
      HopWellFormed(ps[i - 1], fold);
    }
  }

  lemma {:induction false} ChainDecreases(ps: seq<Segments>, fold: bool, i: nat, j: nat)
    requires Chain(ps, fold) && i < j < |ps|
    ensures Measure(ps[j]) < Measure(ps[i])
    decreases j
  {
    ChainWellFormed(ps, fold, j - 1);
    assert Hop(ps[j - 1], fold) == Some(ps[j - 1 + 1]);
    HopDecreases(ps[j - 1], fold);
    if j > i + 1 { ChainDecreases(ps, fold, i, j - 1); }
  }

  /** The table and the proxy together never send a reader to a path already visited. */
  lemma NoPathIsRevisited(ps: seq<Segments>, fold: bool)
    requires Chain(ps, fold)
    ensures forall i, j | 0 <= i < j < |ps| :: PathOf(ps[i]) != PathOf(ps[j])
  {
    forall i, j | 0 <= i < j < |ps| ensures PathOf(ps[i]) != PathOf(ps[j]) {
      ChainDecreases(ps, fold, i, j);
      ChainWellFormed(ps, fold, i);
      ChainWellFormed(ps, fold, j);
      SegmentsArePaths(ps[i]);
      SegmentsArePaths(ps[j]);
    }
  }

  // ---------------------------------------------------------------- at most three hops

  const TABLE_ROOTS: set<string> := {
    "wallet", "packs", "sets", "undefined", "ufc-strike", "trophy-case", "pinnacle", "disney-pinnacle"}

  lemma OffTheTable(s: Segments, fold: bool)
    requires Root(s) !in TABLE_ROOTS
    ensures NextRedirect(s, fold) == None
  {
    LowerOf();
    MatchFixesLower(s, fold);
  }

  lemma ProxyKeepsRoot(s: Segments)
    requires WellFormed(s) && ProxyRedirect(s).Some?
    ensures Root(ProxyRedirect(s).value) == Root(s)
  {
    FoldIsStable(s);
    if CaseFolded(s) == None { TabRedirectLandsOnOverview(s); }
  }

  /** Off the table, two hops are all there are. */
  lemma OffTheTableEndsInTwo(s: Segments, fold: bool)
    requires WellFormed(s) && Root(s) !in TABLE_ROOTS && Hop(s, fold).Some?
    ensures var once := Hop(s, fold).value;
            Hop(once, fold).Some? ==> Hop(Hop(once, fold).value, fold) == None
  {
    OffTheTable(s, fold);
    ProxyChainsEndInTwo(s);
    var once := ProxyRedirect(s).value;
    ProxyKeepsRoot(s);
    OffTheTable(once, fold);
    if ProxyRedirect(once).Some? {
      ProxyKeepsRoot(once);
      OffTheTable(ProxyRedirect(once).value, fold);
    }
  }

  lemma PinnacleMomentStays(id: string, fold: bool)
    ensures Hop(["", "pinnacle", "moment", id], fold) == None
  {
    LowerOf();
  }

  /** Disney pages that the table does not move fold at most once. */
  lemma DisneyPageSettles(s: Segments, fold: bool)
    requires WellFormed(s) && Root(s) == "disney-pinnacle"
    requires |s| == 4 ==> Tab(s) !in {"player", "moment", "edition"}
    requires Hop(s, fold).Some?
    ensures Hop(Hop(s, fold).value, fold) == None
  {
    LowerOf();
    MatchFixesLower(s, fold);
    FoldIsStable(s);
    var t := FoldSegments(s);
    MatchFixesLower(t, fold);
  }

  lemma FoldedPlayerStays(s: Segments, fold: bool)
    requires WellFormed(s) && |s| == 4 && Root(s) == "disney-pinnacle" && Tab(s) == "player"
    ensures Hop(["", "disney-pinnacle", "character", FoldSegments(s)[3]], fold) == None
  {
    LowerOf();
    LowerIdempotent(s[3]);
    var t := ["", "disney-pinnacle", "character", Lower(s[3])];
    assert FoldSegments(t) == t;
  }

  /** What the pinnacle rules lead to: a Disney page whose tab, when one segment follows,
      is neither a player nor a moment, and an edition only as the table spells it. */
  lemma PinnacleTargets(s: Segments, fold: bool)
    requires WellFormed(s) && Is(s, 1, "pinnacle", fold) && PinnacleRedirect(s, fold).Some?
    ensures var t := PinnacleRedirect(s, fold).value;
            && WellFormed(t) && t[1] == "disney-pinnacle" && Root(t) == "disney-pinnacle"
            && (|t| == 4 ==> Tab(t) !in {"player", "moment"})
            && (|t| == 4 && Tab(t) == "edition" ==> Is(t, 2, "edition", fold) && Params(t[3..]))
  {
    LowerOf();
    var t := PinnacleRedirect(s, fold).value;
    if !(|s| == 4 && Is(s, 2, "player", fold) && Params(s[3..])) {
      PageIsNotMoment(s, fold);
      if s[2] in PINNACLE_PAGES || s[2] in PINNACLE_ENTITIES { PagesAreLower(s[2]); }
      assert t[2] == s[2];
      assert |t| == 4 ==> t[3..] == s[3..];
    }
  }

  lemma DisneyItemMoves(t: Segments, fold: bool)
    requires WellFormed(t) && |t| == 4 && Is(t, 1, "disney-pinnacle", fold) && Params(t[3..])
    requires Is(t, 2, "edition", fold) || Is(t, 2, "moment", fold)
    ensures Hop(t, fold) == Some(["", "pinnacle", "moment", t[3]])
  {
    LowerOf();
    MatchFixesLower(t, fold);
  }

  lemma AfterPinnacleRule(s: Segments, fold: bool)
    requires WellFormed(s) && Is(s, 1, "pinnacle", fold) && PinnacleRedirect(s, fold).Some?
    requires Hop(PinnacleRedirect(s, fold).value, fold).Some?
    ensures Hop(Hop(PinnacleRedirect(s, fold).value, fold).value, fold) == None
  {
    var t := PinnacleRedirect(s, fold).value;
    PinnacleTargets(s, fold);
    if |t| == 4 && Tab(t) == "edition" {
      DisneyItemMoves(t, fold);
      PinnacleMomentStays(t[3], fold);
    } else {
      DisneyPageSettles(t, fold);
    }
  }

  /** Every chain of redirects, through the table and the proxy, ends within three hops. */
  lemma ThreeHopsAtMost(ps: seq<Segments>, fold: bool)
    requires Chain(ps, fold)
    ensures |ps| <= 4
  {
    if |ps| >= 2 {
      var s, t := ps[0], ps[1];
      assert Hop(ps[0], fold) == Some(ps[0 + 1]);
      HopWellFormed(s, fold);
      assert |ps| >= 3 ==> Hop(ps[1], fold) == Some(ps[1 + 1]);
      assert |ps| >= 4 ==> Hop(ps[2], fold) == Some(ps[2 + 1]);
      assert |ps| >= 5 ==> Hop(ps[3], fold) == Some(ps[3 + 1]);
      FirstHop(s, fold);
    }
  }

  lemma FirstHop(s: Segments, fold: bool)
    requires WellFormed(s) && Hop(s, fold).Some?
    ensures var t := Hop(s, fold).value;
            Hop(t, fold).Some? ==>
              var u := Hop(t, fold).value;
              Hop(u, fold).Some? ==> Hop(Hop(u, fold).value, fold) == None
  {
    var t := Hop(s, fold).value;
    if Hop(t, fold).Some? {
      HopWellFormed(s, fold);
      if NextRedirect(s, fold) == None {
        AfterProxyHop(s, fold);
      } else {
        AfterTableHop(s, fold);
      }
    }
  }

  lemma AfterTableHop(s: Segments, fold: bool)
    requires WellFormed(s) && NextRedirect(s, fold).Some?
    requires WellFormed(NextRedirect(s, fold).value) && Hop(NextRedirect(s, fold).value, fold).Some?
    ensures var u := Hop(NextRedirect(s, fold).value, fold).value;
            Hop(u, fold).Some? ==> Hop(Hop(u, fold).value, fold) == None
  {
    if Is(s, 1, "pinnacle", fold) {
      PinnacleRules(s, fold);
      AfterPinnacleRule(s, fold);
    } else if Is(s, 1, "disney-pinnacle", fold) {
      AfterDisneyRule(s, fold);
    } else {
      ShortcutLeavesTable(s, fold);
      OffTheTableEndsInTwo(NextRedirect(s, fold).value, fold);
    }
  }

  lemma AfterDisneyRule(s: Segments, fold: bool)
    requires WellFormed(s) && Is(s, 1, "disney-pinnacle", fold) && NextRedirect(s, fold).Some?
    requires WellFormed(NextRedirect(s, fold).value) && Hop(NextRedirect(s, fold).value, fold).Some?
    ensures Hop(Hop(NextRedirect(s, fold).value, fold).value, fold) == None
  {
    var t := NextRedirect(s, fold).value;
    DisneyTargets(s, fold);
    PinnacleMomentStays(s[3], fold);
    if t[1] == "disney-pinnacle" { DisneyPageSettles(t, fold); }
  }

  lemma ShortcutLeavesTable(s: Segments, fold: bool)
    requires WellFormed(s) && NextRedirect(s, fold).Some?
    requires !Is(s, 1, "pinnacle", fold) && !Is(s, 1, "disney-pinnacle", fold)
    ensures Root(NextRedirect(s, fold).value) !in TABLE_ROOTS
  {
    ShortcutLowersRank(s, fold);
    TargetsAreOffTheTable(NextRedirect(s, fold).value);
  }

  lemma TargetsAreOffTheTable(t: Segments)
    requires |t| > 1 && t[1] in {"nba-top-shot", "profile", "ufc"}
    ensures Root(t) !in TABLE_ROOTS
  {
    LowerOfTargets();
  }

  lemma PinnacleRules(s: Segments, fold: bool)
    requires Is(s, 1, "pinnacle", fold)
    ensures NextRedirect(s, fold) == PinnacleRedirect(s, fold)
  {
    LowerOf();
    MatchFixesLower(s, fold);
  }

  lemma DisneyTargets(s: Segments, fold: bool)
    requires Is(s, 1, "disney-pinnacle", fold) && NextRedirect(s, fold).Some?
    ensures |s| == 4
    ensures NextRedirect(s, fold).value == ["", "disney-pinnacle", "character", s[3]]
            || NextRedirect(s, fold).value == ["", "pinnacle", "moment", s[3]]
    ensures Root(["", "disney-pinnacle", "character", s[3]]) == "disney-pinnacle"
    ensures Tab(["", "disney-pinnacle", "character", s[3]]) == "character"
    ensures NextRedirect(s, fold).value == ["", "disney-pinnacle", "character", s[3]] ==> Is(s, 2, "player", fold)
  {
    LowerOf();
    MatchFixesLower(s, fold);
  }

  /** A fold into the table: the folded Disney page moves at most once more. */
  lemma AfterDisneyFold(s: Segments, fold: bool)
    requires WellFormed(s) && Root(s) == "disney-pinnacle" && CaseFolded(s).Some?
    requires Hop(FoldSegments(s), fold).Some?
    ensures Hop(Hop(FoldSegments(s), fold).value, fold) == None
  {
    var t := FoldSegments(s);
    FoldWellFormed(s);
    FoldIsStable(s);
    LowerOf();
    assert t[1] == "disney-pinnacle";
    if NextRedirect(t, fold).Some? {
      DisneyTargets(t, fold);
      PinnacleMomentStays(t[3], fold);
      if NextRedirect(t, fold).value[1] == "disney-pinnacle" {
        MatchFixesLower(t, fold);
        FoldedPlayerStays(s, fold);
      }
    }
  }

  lemma AfterProxyHop(s: Segments, fold: bool)
    requires WellFormed(s) && NextRedirect(s, fold) == None && ProxyRedirect(s).Some?
    requires Hop(ProxyRedirect(s).value, fold).Some?
    ensures Hop(Hop(ProxyRedirect(s).value, fold).value, fold) == None
  {
    ProxyRoots(s);
    assert Hop(s, fold) == ProxyRedirect(s);
    if Root(s) == "disney-pinnacle" {
      AfterDisneyFold(s, fold);
    } else {
      OffTheTableEndsInTwo(s, fold);
    }
  }

  lemma ProxyRoots(s: Segments)
    requires WellFormed(s) && ProxyRedirect(s).Some?
    ensures Root(s) == "disney-pinnacle" ==> CaseFolded(s).Some?
    ensures Root(s) == "disney-pinnacle" || Root(s) !in TABLE_ROOTS
  {
    LowerOf();
    if Root(s) in CASE_FOLD_ROOTS - {"disney-pinnacle"} { FoldRootsAreOffTheTable(Root(s)); }
  }

  lemma FoldRootsAreOffTheTable(root: string)
    requires root in CASE_FOLD_ROOTS && root != "disney-pinnacle"
    ensures root !in TABLE_ROOTS
  {
  }
}
