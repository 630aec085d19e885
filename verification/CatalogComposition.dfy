/** `posixpath`, as far as composed paths need it. */
module PosixNames {
  /** One past the last `c`, or 0. */
  function AfterLast(p: string, c: char): (i: nat)
    ensures i <= |p|
    ensures i > 0 ==> p[i - 1] == c
    ensures forall k :: i <= k < |p| ==> p[k] != c
  {
    if p == "" then 0
    else if p[|p| - 1] == c then |p|
    else AfterLast(p[..|p| - 1], c)
  }

  function BaseName(p: string): (r: string)
    ensures '/' !in r
  {
    p[AfterLast(p, '/')..]
  }

  function TrimSlashes(p: string): (r: string)
    ensures |r| <= |p| && (r == "" || r[|r| - 1] != '/')
  {
    if p != "" && p[|p| - 1] == '/' then TrimSlashes(p[..|p| - 1]) else p
  }

  /** The part before the base name, without trailing slashes unless it is slashes only. */
  function DirectoryName(p: string): string {
    var head := p[..AfterLast(p, '/')];
    if TrimSlashes(head) == "" then head else TrimSlashes(head)
  }

  /** `splitext(name)[1]`: leading dots do not start a suffix. */
  function SuffixOf(p: string): string {
    var base := AfterLast(p, '/');
    var dot := AfterLast(p, '.');
    if dot > base && (exists k :: base <= k < dot - 1 && p[k] != '.') then p[dot - 1..] else ""
  }

  lemma {:induction false} AfterLastIs(p: string, c: char, i: nat)
    requires i <= |p| && (i > 0 ==> p[i - 1] == c) && forall k :: i <= k < |p| ==> p[k] != c
    ensures AfterLast(p, c) == i
    decreases |p|
  {
    if p != "" && i < |p| {
      AfterLastIs(p[..|p| - 1], c, i);
    }
  }

  predicate HasMoreThanDots(stem: string) {
    exists k :: 0 <= k < |stem| && stem[k] != '.'
  }

  /** The suffix starts at the last dot of the last name, if the name has more than dots before it. */
  lemma SuffixOfMeans(directory: string, stem: string, extension: string)
    requires directory == "" || directory[|directory| - 1] == '/'
    requires '/' !in stem && '/' !in extension && '.' !in extension
    ensures SuffixOf(directory + stem + "." + extension) == if HasMoreThanDots(stem) then "." + extension else ""
    ensures '.' !in stem ==> SuffixOf(directory + stem) == ""
  {
    var p := directory + stem + "." + extension;
    LastSlashAndDot(directory, stem, extension);
    assert p[|directory|..|directory| + |stem|] == stem;
    SuffixFrom(p, |directory|, |directory| + |stem| + 1, stem);
    if '.' !in stem {
      NoSuffix(directory, stem);
    }
  }

  lemma SuffixFrom(p: string, base: nat, dot: nat, stem: string)
    requires AfterLast(p, '/') == base && AfterLast(p, '.') == dot > base && p[base..dot - 1] == stem
    ensures SuffixOf(p) == if HasMoreThanDots(stem) then p[dot - 1..] else ""
  {
    if k :| 0 <= k < |stem| && stem[k] != '.' {
      assert p[base + k] == stem[k];
    }
    if k :| base <= k < dot - 1 && p[k] != '.' {
      assert p[k] == stem[k - base];
    }
  }

  lemma LastSlashAndDot(directory: string, stem: string, extension: string)
    requires directory == "" || directory[|directory| - 1] == '/'
    requires '/' !in stem && '/' !in extension && '.' !in extension
    ensures var p, dot := directory + stem + "." + extension, |directory| + |stem| + 1;
            AfterLast(p, '/') == |directory| && AfterLast(p, '.') == dot && p[dot - 1..] == "." + extension
  {
    var p := directory + stem + "." + extension;
    var base, dot := |directory|, |directory| + |stem| + 1;
    forall k | base <= k < |p| ensures p[k] != '/' {
      assert k < dot - 1 ==> p[k] == stem[k - base];
      assert k >= dot ==> p[k] == extension[k - dot];
    }
    forall k | dot <= k < |p| ensures p[k] != '.' {
      assert p[k] == extension[k - dot];
    }
    AfterLastIs(p, '/', base);
    AfterLastIs(p, '.', dot);
  }

  lemma NoSuffix(directory: string, name: string)
    requires directory == "" || directory[|directory| - 1] == '/'
    requires '/' !in name && '.' !in name
    ensures SuffixOf(directory + name) == ""
  {
    var p := directory + name;
    forall k | |directory| <= k < |p| ensures p[k] != '/' && p[k] != '.' {
      assert p[k] == name[k - |directory|];
    }
    AfterLastIs(p, '/', |directory|);
  }

  function JoinedTo(directory: string, name: string): string {
    if name != "" && name[0] == '/' then name
    else if directory == "" || directory[|directory| - 1] == '/' then directory + name
    else directory + "/" + name
  }

  lemma {:induction false} AfterLastOfAppend(a: string, b: string, c: char)
    requires c !in b
    ensures AfterLast(a + b, c) == AfterLast(a, c)
    decreases |b|
  {
    if b == "" {
      assert a + b == a;
    } else {
      var n := |b| - 1;
      assert (a + b)[..|a + b| - 1] == a + b[..n];
      assert (a + b)[|a + b| - 1] == b[n];
      AfterLastOfAppend(a, b[..n], c);
    }
  }

  lemma {:induction false} TrimmedAppend(a: string, b: string)
    requires a != "" && a[|a| - 1] != '/'
    requires forall i :: 0 <= i < |b| ==> b[i] == '/'
    ensures TrimSlashes(a + b) == a
    decreases |b|
  {
    if b == "" {
      assert a + b == a;
    } else {
      assert (a + b)[..|a + b| - 1] == a + b[..|b| - 1];
      TrimmedAppend(a, b[..|b| - 1]);
    }
  }

  /** Joining a directory and a name, and taking them apart again. */
  lemma JoinedNames(p: string, name: string)
    requires '/' !in name
    ensures BaseName(JoinedTo(DirectoryName(p), name)) == name
    ensures DirectoryName(JoinedTo(DirectoryName(p), name)) == DirectoryName(p)
  {
    var d := DirectoryName(p);
    var head := p[..AfterLast(p, '/')];
    if d == "" {
      assert d + name == name;
      AfterLastOfAppend("", name, '/');
      assert "" + name == name;
    } else if d[|d| - 1] == '/' {
      AfterLastOfAppend(d, name, '/');
      assert AfterLast(d, '/') == |d|;
      assert (d + name)[|d|..] == name && (d + name)[..|d|] == d;
    } else {
      AfterLastOfAppend(d + "/", name, '/');
      assert AfterLast(d + "/", '/') == |d| + 1;
      assert d + "/" + name == (d + "/") + name;
      assert ((d + "/") + name)[|d| + 1..] == name && ((d + "/") + name)[..|d| + 1] == d + "/";
      TrimmedAppend(d, "/");
    }
  }
}

/** `_compose_item`: replaced assets, rewritten texts and untouched files go into one release directory. */
module CatalogComposition {
  import opened Bytes
  import opened Outcomes
  import opened Texts
  import opened Sorting
  import opened PosixNames
  import opened PosixPaths
  import opened Trademark

  datatype Content = Text(text: string) | Binary(data: seq<byte>)
  datatype AssetRule = AssetRule(sourcePath: string, assetId: string, replacementPath: string)
  datatype Replacement = Replacement(composedPath: string, assetId: string)

  /** The directory an item is written to, with no links below it, and what its file system compares of a name. */
  datatype Release = Release(directory: Path, nameKey: string -> string)

  /** What is known once the overlay rules are read. */
  datatype Plan =
    Plan(mapping: map<string, Replacement>, rewrites: seq<(string, string)>, staged: map<string, Content>,
         assets: map<string, seq<byte>>, rules: Ruleset, cases: CaseRules, release: Release)

  // ----- composed_asset_path -----

  function ComposedAssetPath(source: string, replacement: string, referenced: bool, lower: string -> string): string {
    var sameSuffix := lower(SuffixOf(BaseName(source))) == lower(SuffixOf(BaseName(replacement)));
    var name := if referenced || !sameSuffix then BaseName(replacement) else BaseName(source);
    Beside(source, name)
  }

  function Beside(source: string, name: string): string {
    if DirectoryName(source) == "" then name else JoinedTo(DirectoryName(source), name)
  }

  /** The composed file stays in the source's directory and always has the suffix of the asset it holds. */
  lemma ComposedPathFitsAsset(source: string, replacement: string, referenced: bool, lower: string -> string)
    ensures var composed := ComposedAssetPath(source, replacement, referenced, lower);
            && DirectoryName(composed) == DirectoryName(source)
            && lower(SuffixOf(BaseName(composed))) == lower(SuffixOf(BaseName(replacement)))
            && (referenced ==> BaseName(composed) == BaseName(replacement))
            && (!referenced && lower(SuffixOf(BaseName(source))) == lower(SuffixOf(BaseName(replacement))) ==>
                  BaseName(composed) == BaseName(source))
            && BaseName(composed) in {BaseName(source), BaseName(replacement)}
  {
    var sameSuffix := lower(SuffixOf(BaseName(source))) == lower(SuffixOf(BaseName(replacement)));
    var name := if referenced || !sameSuffix then BaseName(replacement) else BaseName(source);
    JoinedNames(source, name);
    if DirectoryName(source) == "" {
      assert JoinedTo("", name) == name by {
        assert "" + name == name;
      }
    }
  }

  // ----- the mapping -----

  function ReplacementFor(rule: AssetRule, blob: string, lower: string -> string): Replacement {
    Replacement(
      ComposedAssetPath(rule.sourcePath, rule.replacementPath, Contains(blob, rule.sourcePath), lower), rule.assetId)
  }

  function Entries(blob: string, lower: string -> string): AssetRule -> Replacement {
    (rule: AssetRule) => ReplacementFor(rule, blob, lower)
  }

  predicate RuleKnown(rule: AssetRule, contract: seq<string>, assets: map<string, seq<byte>>) {
    rule.sourcePath in contract && rule.assetId in assets
  }

  ghost predicate RulesValid(rules: seq<AssetRule>, contract: seq<string>, assets: map<string, seq<byte>>) {
    && (forall i :: 0 <= i < |rules| ==> RuleKnown(rules[i], contract, assets))
    && DistinctSources(rules, |rules|)
  }

  ghost predicate DistinctSources(rules: seq<AssetRule>, n: nat)
    requires n <= |rules|
  {
    forall i, j :: 0 <= i < j < n ==> rules[i].sourcePath != rules[j].sourcePath
  }

  /** The first `n` rules, and nothing else, are in the mapping. */
  ghost predicate IsMapping(
      mapping: map<string, Replacement>, rules: seq<AssetRule>, n: nat, entry: AssetRule -> Replacement)
    requires n <= |rules|
  {
    && (forall i :: 0 <= i < n ==>
          rules[i].sourcePath in mapping && mapping[rules[i].sourcePath] == entry(rules[i]))
    && forall p :: p in mapping ==> exists i :: 0 <= i < n && rules[i].sourcePath == p
  }

  lemma MappingGrows(mapping: map<string, Replacement>, rules: seq<AssetRule>, k: nat, entry: AssetRule -> Replacement)
    requires k < |rules| && IsMapping(mapping, rules, k, entry) && rules[k].sourcePath !in mapping
    requires DistinctSources(rules, k)
    ensures DistinctSources(rules, k + 1)
    ensures IsMapping(mapping[rules[k].sourcePath := entry(rules[k])], rules, k + 1, entry)
  {
    forall p | p in mapping || p == rules[k].sourcePath ensures exists i :: 0 <= i < k + 1 && rules[i].sourcePath == p {
      if p in mapping {
        var i :| 0 <= i < k && rules[i].sourcePath == p;
      }
    }
  }

  method BuildMapping(
      rules: seq<AssetRule>, contract: seq<string>, assets: map<string, seq<byte>>, entry: AssetRule -> Replacement)
    returns (r: Option<map<string, Replacement>>)
    ensures r.Some? <==> RulesValid(rules, contract, assets)
    ensures r.Some? ==> IsMapping(r.value, rules, |rules|, entry)
  {
    var mapping: map<string, Replacement> := map[];
    for k := 0 to |rules|
      invariant forall i :: 0 <= i < k ==> RuleKnown(rules[i], contract, assets)
      invariant DistinctSources(rules, k) && IsMapping(mapping, rules, k, entry)
    {
      var rule := rules[k];
      if rule.sourcePath in mapping {
        return None;
      }
      MappingGrows(mapping, rules, k, entry);
      if !RuleKnown(rule, contract, assets) {
        return None;
      }
      mapping := mapping[rule.sourcePath := entry(rule)];
    }
    r := Some(mapping);
  }

  // ----- ownership of composed paths -----

  function Destination(mapping: map<string, Replacement>, p: string): string {
    if p in mapping then mapping[p].composedPath else p
  }

  function Owner(mapping: map<string, Replacement>, p: string): string {
    if p in mapping then mapping[p].assetId else "source:" + p
  }

  /** No two contract paths with different owners share a destination. */
  ghost predicate OwnersAgree(contract: seq<string>, mapping: map<string, Replacement>) {
    forall i, j :: 0 <= i < |contract| && 0 <= j < |contract| ==>
      Destination(mapping, contract[i]) == Destination(mapping, contract[j]) ==>
      Owner(mapping, contract[i]) == Owner(mapping, contract[j])
  }

  method CheckOwners(contract: seq<string>, mapping: map<string, Replacement>) returns (ok: bool)
    ensures ok <==> OwnersAgree(contract, mapping)
  {
    ok := OneOwnerEach(
      contract, (p: string) => Destination(mapping, p), (p: string) => Owner(mapping, p));
  }

  /** The loop with `setdefault`: every destination keeps the owner that came first. */
  method OneOwnerEach(paths: seq<string>, destination: string -> string, owner: string -> string) returns (ok: bool)
    ensures ok <==> forall i, j :: 0 <= i < |paths| && 0 <= j < |paths| ==>
                      destination(paths[i]) == destination(paths[j]) ==> owner(paths[i]) == owner(paths[j])
  {
    var owners: map<string, string> := map[];
    for i := 0 to |paths|
      invariant forall k :: 0 <= k < i ==>
                  destination(paths[k]) in owners && owners[destination(paths[k])] == owner(paths[k])
      invariant forall d :: d in owners ==> exists k :: 0 <= k < i && destination(paths[k]) == d
    {
      var d := destination(paths[i]);
      if d !in owners {
        owners := owners[d := owner(paths[i])];
      } else if owners[d] != owner(paths[i]) {
        return false;
      }
    }
    ok := true;
  }

  // ----- texts -----

  predicate LongerSourceFirst(a: (string, string), b: (string, string)) {
    |a.0| >= |b.0|
  }

  /** The pairs of replaced path and composed path that differ, in rule order. */
  function Renamings(rules: seq<AssetRule>, mapping: map<string, Replacement>): seq<(string, string)> {
    if rules == [] then []
    else
      var source := rules[|rules| - 1].sourcePath;
      var composed := Destination(mapping, source);
      Renamings(rules[..|rules| - 1], mapping) + if composed != source then [(source, composed)] else []
  }

  function ReferenceRewrites(rules: seq<AssetRule>, mapping: map<string, Replacement>): seq<(string, string)> {
    Sort(Renamings(rules, mapping), LongerSourceFirst)
  }

  /** The rewrites are those of the replaced files that get another path, longer source paths before shorter ones. */
  lemma ReferenceRewritesMean(rules: seq<AssetRule>, mapping: map<string, Replacement>)
    ensures var rewrites := ReferenceRewrites(rules, mapping);
            && (forall k, m :: 0 <= k < m < |rewrites| ==> |rewrites[k].0| >= |rewrites[m].0|)
            && forall source, composed :: (source, composed) in rewrites <==>
                 IsRewrite(rules, mapping, source, composed)
  {
    var all, rewrites := Renamings(rules, mapping), ReferenceRewrites(rules, mapping);
    assert TotalPreorder(LongerSourceFirst);
    SortSorts(all, LongerSourceFirst);
    forall k, m | 0 <= k < m < |rewrites| ensures |rewrites[k].0| >= |rewrites[m].0| {
      assert LongerSourceFirst(rewrites[k], rewrites[m]);
    }
    forall source, composed
      ensures (source, composed) in rewrites <==> IsRewrite(rules, mapping, source, composed)
    {
      assert (source, composed) in multiset(rewrites) <==> (source, composed) in multiset(all);
      RenamingsAre(rules, mapping, source, composed);
    }
  }

  predicate IsRewrite(rules: seq<AssetRule>, mapping: map<string, Replacement>, source: string, composed: string) {
    composed != source && composed == Destination(mapping, source)
    && exists i :: 0 <= i < |rules| && rules[i].sourcePath == source
  }

  lemma {:induction false} RenamingsAre(
      rules: seq<AssetRule>, mapping: map<string, Replacement>, source: string, composed: string)
    ensures (source, composed) in Renamings(rules, mapping) <==> IsRewrite(rules, mapping, source, composed)
  {
    if rules != [] {
      var init := rules[..|rules| - 1];
      RenamingsAre(init, mapping, source, composed);
      if i :| 0 <= i < |rules| && rules[i].sourcePath == source {
        assert i < |init| ==> init[i].sourcePath == source;
      }
      if i :| 0 <= i < |init| && init[i].sourcePath == source {
        assert rules[i].sourcePath == source;
      }
    }
  }

  function WithReferences(text: string, rewrites: seq<(string, string)>): string
    decreases |rewrites|
  {
    if rewrites == [] then text
    else WithReferences(ReplaceAll(text, rewrites[0].0, rewrites[0].1), rewrites[1..])
  }

  function FinalText(plan: Plan, text: string): string {
    Passes(WithReferences(text, plan.rewrites), plan.rules.replace, plan.rules, plan.cases)
  }

  /** The final text names no replaced file and no trademark. */
  ghost predicate TextAllowed(plan: Plan, text: string) {
    && (forall k :: 0 <= k < |plan.rewrites| ==> !Contains(text, plan.rewrites[k].0))
    && Leftovers(text, plan.rules, plan.cases) == {}
  }

  method ComposeText(plan: Plan, source: string) returns (r: Option<string>)
    ensures r.Some? <==> TextAllowed(plan, FinalText(plan, source))
    ensures r.Some? ==> r.value == FinalText(plan, source)
  {
    var text := source;
    for k := 0 to |plan.rewrites|
      invariant WithReferences(text, plan.rewrites[k..]) == WithReferences(source, plan.rewrites)
    {
      assert plan.rewrites[k..][1..] == plan.rewrites[k + 1..];
      text := ReplaceAll(text, plan.rewrites[k].0, plan.rewrites[k].1);
    }
    text := ApplyTrademark(text, plan.rules, plan.cases);
    for k := 0 to |plan.rewrites|
      invariant forall j :: 0 <= j < k ==> !Contains(text, plan.rewrites[j].0)
    {
      if Contains(text, plan.rewrites[k].0) {
        return None;
      }
    }
    r := if Leftovers(text, plan.rules, plan.cases) == {} then Some(text) else None;
  }

  // ----- writing -----

  ghost predicate Readable(plan: Plan, p: string) {
    if p in plan.mapping then plan.mapping[p].assetId in plan.assets else p in plan.staged
  }

  /** What a contract path's destination is meant to hold. */
  function Intended(plan: Plan, p: string): Content
    requires Readable(plan, p)
  {
    if p in plan.mapping then Binary(plan.assets[plan.mapping[p].assetId])
    else
      match plan.staged[p]
      case Text(text) => Text(FinalText(plan, text))
      case Binary(data) => Binary(data)
  }

  ghost predicate MayWrite(plan: Plan, p: string)
    requires Readable(plan, p)
  {
    p in plan.mapping || plan.staged[p].Binary? || TextAllowed(plan, FinalText(plan, plan.staged[p].text))
  }

  method WriteOne(plan: Plan, p: string) returns (r: Option<Content>)
    requires Readable(plan, p)
    ensures r.Some? <==> MayWrite(plan, p)
    ensures r.Some? ==> r.value == Intended(plan, p)
  {
    if p in plan.mapping {
      return Some(Binary(plan.assets[plan.mapping[p].assetId]));
    }
    match plan.staged[p]
    case Binary(data) => r := Some(Binary(data));
    case Text(text) =>
      var composed := ComposeText(plan, text);
      r := if composed.Some? then Some(Text(composed.value)) else None;
  }

  // ----- where a destination is on disk -----

  /** One component further; the parent of the file system's root is the root. */
  function Stepped(release: Release, at: Path, part: string): Path {
    if part == ".." then (if at == [] then [] else at[..|at| - 1]) else at + [release.nameKey(part)]
  }

  function Reached(release: Release, at: Path, parts: seq<string>): Path
    decreases |parts|
  {
    if parts == [] then at else Reached(release, Stepped(release, at, parts[0]), parts[1..])
  }

  function StartOf(release: Release, destination: string): Path {
    if IsAbsolute(destination) then [] else release.directory
  }

  /** The place of `release_item_dir / destination`: different spellings may name one place. */
  function PlaceOf(release: Release, destination: string): Path {
    Reached(release, StartOf(release, destination), Kept(Split(destination)))
  }

  /** The directories on the way there, which `mkdir(parents=True)` makes or finds. */
  function StationsOf(release: Release, destination: string): set<Path> {
    var parts := Kept(Split(destination));
    set k | 0 <= k < |parts| :: Reached(release, StartOf(release, destination), parts[..k])
  }

  function Place(plan: Plan, p: string): Path {
    PlaceOf(plan.release, Destination(plan.mapping, p))
  }

  function Stations(plan: Plan, p: string): set<Path> {
    StationsOf(plan.release, Destination(plan.mapping, p))
  }

  /** A step up leaves the directory before it; above the root there is only the root. */
  lemma StepsUp(release: Release, a: string, name: string, b: string)
    requires a != "" && IsName(name)
    ensures PlaceOf(release, a + "/" + (name + "/" + (".." + "/" + b))) == PlaceOf(release, a + "/" + b)
  {
    var with, without := a + "/" + (name + "/" + (".." + "/" + b)), a + "/" + b;
    SplitAt(a, name + "/" + (".." + "/" + b));
    SplitAt(name, ".." + "/" + b);
    SplitAt("..", b);
    SplitAt(a, b);
    SplitName(name);
    DotsAreOneName();
    KeptAppend(Split(a), [name] + ([".."] + Split(b)));
    KeptAppend(Split(a), Split(b));
    KeptDetour(name, Split(b));
    assert IsAbsolute(with) == IsAbsolute(without) by {
      assert with[0] == a[0] == without[0];
    }
    var start := StartOf(release, with);
    ReachedAppend(release, start, Kept(Split(a)), [name, ".."] + Kept(Split(b)));
    ReachedAppend(release, start, Kept(Split(a)), Kept(Split(b)));
    ThereAndBack(release, Reached(release, start, Kept(Split(a))), name, Kept(Split(b)));
  }

  lemma DotsAreOneName()
    ensures Split("..") == [".."]
  {
    StepUpIsPart();
    SplitName("..");
  }

  lemma KeptDetour(name: string, rest: seq<string>)
    requires IsName(name)
    ensures Kept([name] + ([".."] + rest)) == [name, ".."] + Kept(rest)
  {
    assert ([name] + ([".."] + rest))[1..] == [".."] + rest && ([".."] + rest)[1..] == rest;
  }

  lemma {:induction false} ReachedAppend(release: Release, at: Path, a: seq<string>, b: seq<string>)
    ensures Reached(release, at, a + b) == Reached(release, Reached(release, at, a), b)
    decreases |a|
  {
    if a == [] {
      assert a + b == b;
    } else {
      assert (a + b)[0] == a[0] && (a + b)[1..] == a[1..] + b;
      ReachedAppend(release, Stepped(release, at, a[0]), a[1..], b);
    }
  }

  lemma ThereAndBack(release: Release, at: Path, name: string, rest: seq<string>)
    requires IsName(name)
    ensures Reached(release, at, [name, ".."] + rest) == Reached(release, at, rest)
  {
    var parts := [name, ".."] + rest;
    assert parts[0] == name && parts[1..] == [".."] + rest;
    assert ([".."] + rest)[0] == ".." && ([".."] + rest)[1..] == rest;
    assert (at + [release.nameKey(name)])[..|at|] == at;
  }

  lemma RespelledStations(release: Release, a: string, b: string)
    requires a != ""
    ensures StationsOf(release, a + "/" + ("/" + b)) == StationsOf(release, a + "/" + b)
  {
    DoubledSlash(a, b);
    assert (a + "/" + b)[0] == a[0] == (a + "/" + ("/" + b))[0];
  }

  lemma RespelledPlace(release: Release, a: string, b: string)
    requires a != ""
    ensures PlaceOf(release, a + "/" + ("/" + b)) == PlaceOf(release, a + "/" + b)
  {
    DoubledSlash(a, b);
    assert (a + "/" + b)[0] == a[0] == (a + "/" + ("/" + b))[0];
  }

  // ----- the second loop -----

  ghost predicate AllReadable(plan: Plan, paths: seq<string>) {
    forall i :: 0 <= i < |paths| ==> Readable(plan, paths[i])
  }

  predicate Met(mapping: map<string, Replacement>, paths: seq<string>, destination: string) {
    exists i :: 0 <= i < |paths| && Destination(mapping, paths[i]) == destination
  }

  /** The contract paths that are written: for each destination, as spelled, the first one. */
  function Firsts(mapping: map<string, Replacement>, contract: seq<string>): (r: seq<string>)
    ensures forall p :: p in r ==> p in contract
    ensures forall i :: 0 <= i < |contract| ==> Met(mapping, r, Destination(mapping, contract[i]))
  {
    if contract == [] then []
    else
      var n := |contract| - 1;
      var before := Firsts(mapping, contract[..n]);
      var r := if Met(mapping, before, Destination(mapping, contract[n])) then before else before + [contract[n]];
      FirstsMeet(mapping, contract[..n], contract[n], before, r);
      assert contract == contract[..n] + [contract[n]];
      r
  }

  lemma FirstsMeet(
    mapping: map<string, Replacement>, init: seq<string>, last: string, before: seq<string>, r: seq<string>)
    requires forall i :: 0 <= i < |init| ==> Met(mapping, before, Destination(mapping, init[i]))
    requires forall p :: p in before ==> p in init
    requires r == if Met(mapping, before, Destination(mapping, last)) then before else before + [last]
    ensures forall p :: p in r ==> p in init + [last]
    ensures forall i :: 0 <= i < |init + [last]| ==> Met(mapping, r, Destination(mapping, (init + [last])[i]))
  {
    forall i | 0 <= i < |init + [last]| ensures Met(mapping, r, Destination(mapping, (init + [last])[i])) {
      if i < |init| {
        assert Met(mapping, before, Destination(mapping, init[i]));
        var k :| 0 <= k < |before| && Destination(mapping, before[k]) == Destination(mapping, init[i]);
        assert r[k] == before[k];
      } else if r != before {
        assert r[|before|] == last;
      }
    }
  }

  lemma FirstsNext(mapping: map<string, Replacement>, contract: seq<string>, i: nat)
    requires i < |contract|
    ensures var before := Firsts(mapping, contract[..i]);
            Firsts(mapping, contract[..i + 1])
            == if Met(mapping, before, Destination(mapping, contract[i])) then before else before + [contract[i]]
  {
    assert contract[..i + 1][..i] == contract[..i];
  }

  /** The files after writing some paths one after another: a later one at the same place replaces an earlier one. */
  function Written(plan: Plan, paths: seq<string>): map<Path, Content>
    requires AllReadable(plan, paths)
  {
    if paths == [] then map[]
    else
      var n := |paths| - 1;
      Written(plan, paths[..n])[Place(plan, paths[n]) := Intended(plan, paths[n])]
  }

  function Made(plan: Plan, paths: seq<string>): set<Path> {
    if paths == [] then {} else Made(plan, paths[..|paths| - 1]) + Stations(plan, paths[|paths| - 1])
  }

  lemma {:induction false} WrittenAt(plan: Plan, paths: seq<string>, x: Path)
    requires AllReadable(plan, paths)
    ensures x in Written(plan, paths) <==> exists i :: 0 <= i < |paths| && Place(plan, paths[i]) == x
    ensures x in Written(plan, paths) ==>
              exists i :: 0 <= i < |paths| && Place(plan, paths[i]) == x
                          && Written(plan, paths)[x] == Intended(plan, paths[i])
  {
    if paths != [] {
      var init, last := paths[..|paths| - 1], paths[|paths| - 1];
      assert paths == init + [last];
      WrittenAt(plan, init, x);
      if x != Place(plan, last) {
        WrittenEarlier(plan, init, last, x);
      }
    }
  }

  lemma WrittenEarlier(plan: Plan, init: seq<string>, last: string, x: Path)
    requires AllReadable(plan, init + [last]) && AllReadable(plan, init) && x != Place(plan, last)
    ensures (exists i :: 0 <= i < |init + [last]| && Place(plan, (init + [last])[i]) == x) <==>
              exists i :: 0 <= i < |init| && Place(plan, init[i]) == x
    ensures x in Written(plan, init) && (exists i :: 0 <= i < |init| && Place(plan, init[i]) == x
                                                     && Written(plan, init)[x] == Intended(plan, init[i])) ==>
              exists i :: 0 <= i < |init + [last]| && Place(plan, (init + [last])[i]) == x
                          && Written(plan, init)[x] == Intended(plan, (init + [last])[i])
  {
    var more := init + [last];
    if i :| 0 <= i < |init| && Place(plan, init[i]) == x {
      assert more[i] == init[i];
    }
    if x in Written(plan, init) {
      if i :| 0 <= i < |init| && Place(plan, init[i]) == x && Written(plan, init)[x] == Intended(plan, init[i]) {
        assert more[i] == init[i];
      }
    }
  }

  lemma {:induction false} MadeAt(plan: Plan, paths: seq<string>, x: Path)
    ensures x in Made(plan, paths) <==> exists i :: 0 <= i < |paths| && x in Stations(plan, paths[i])
  {
    if paths != [] {
      var n := |paths| - 1;
      MadeAt(plan, paths[..n], x);
      if i :| 0 <= i < |paths| && x in Stations(plan, paths[i]) {
        assert i < n ==> paths[..n][i] == paths[i];
      }
      if i :| 0 <= i < n && x in Stations(plan, paths[..n][i]) {
        assert paths[..n][i] == paths[i];
      }
    }
  }

  /** The file for `p` would go where the release directory or a directory above it is. */
  predicate AtTop(plan: Plan, p: string) {
    Place(plan, p) <= plan.release.directory
  }

  /** The file for `p` would be in the way of a directory that `q` needs. */
  predicate InTheWay(plan: Plan, p: string, q: string) {
    Place(plan, p) in Stations(plan, q)
  }

  /** No file is to be written where the release directory itself, or a directory another file needs, has to be. */
  ghost predicate Unobstructed(plan: Plan, paths: seq<string>) {
    && (forall i {:trigger AtTop(plan, paths[i])} :: 0 <= i < |paths| ==> !AtTop(plan, paths[i]))
    && forall i, j {:trigger InTheWay(plan, paths[i], paths[j])} ::
         0 <= i < |paths| && 0 <= j < |paths| ==> !InTheWay(plan, paths[i], paths[j])
  }

  /** Writing `p` meets a directory where the file goes, or a file where a directory goes. */
  predicate Meets(plan: Plan, files: set<Path>, made: set<Path>, p: string) {
    AtTop(plan, p) || InTheWay(plan, p, p) || Place(plan, p) in made || Stations(plan, p) * files != {}
  }

  lemma MeetsMeans(plan: Plan, paths: seq<string>, p: string)
    requires AllReadable(plan, paths)
    ensures Meets(plan, Written(plan, paths).Keys, Made(plan, paths), p) <==>
              || AtTop(plan, p) || InTheWay(plan, p, p)
              || (exists i {:trigger InTheWay(plan, p, paths[i])} :: 0 <= i < |paths| && InTheWay(plan, p, paths[i]))
              || (exists i {:trigger InTheWay(plan, paths[i], p)} :: 0 <= i < |paths| && InTheWay(plan, paths[i], p))
  {
    MadeAt(plan, paths, Place(plan, p));
    FilesInTheWay(plan, paths, Stations(plan, p));
    if i :| 0 <= i < |paths| && Place(plan, p) in Stations(plan, paths[i]) {
      assert InTheWay(plan, p, paths[i]);
    }
    if i :| 0 <= i < |paths| && Place(plan, paths[i]) in Stations(plan, p) {
      assert InTheWay(plan, paths[i], p);
    }
  }

  lemma FilesInTheWay(plan: Plan, paths: seq<string>, directories: set<Path>)
    requires AllReadable(plan, paths)
    ensures directories * Written(plan, paths).Keys != {} <==>
              exists i :: 0 <= i < |paths| && Place(plan, paths[i]) in directories
  {
    forall x | x in directories
      ensures x in Written(plan, paths) <==> exists i :: 0 <= i < |paths| && Place(plan, paths[i]) == x
    {
      WrittenAt(plan, paths, x);
    }
    if directories * Written(plan, paths).Keys != {} {
      var x :| x in directories * Written(plan, paths).Keys;
    }
    if i :| 0 <= i < |paths| && Place(plan, paths[i]) in directories {
      assert Place(plan, paths[i]) in directories * Written(plan, paths).Keys;
    }
  }

  lemma UnobstructedNext(plan: Plan, paths: seq<string>, p: string)
    requires AllReadable(plan, paths)
    ensures Unobstructed(plan, paths + [p]) <==>
              Unobstructed(plan, paths) && !Meets(plan, Written(plan, paths).Keys, Made(plan, paths), p)
  {
    var more := paths + [p];
    MeetsMeans(plan, paths, p);
    assert more[|paths|] == p && forall i :: 0 <= i < |paths| ==> more[i] == paths[i];
    if Unobstructed(plan, more) {
      StillUnobstructed(plan, paths, p);
    }
  }

  lemma StillUnobstructed(plan: Plan, paths: seq<string>, p: string)
    requires AllReadable(plan, paths) && Unobstructed(plan, paths + [p])
    ensures Unobstructed(plan, paths) && !Meets(plan, Written(plan, paths).Keys, Made(plan, paths), p)
  {
    var more := paths + [p];
    MeetsMeans(plan, paths, p);
    assert !AtTop(plan, more[|paths|]) && !InTheWay(plan, more[|paths|], more[|paths|]);
    forall i | 0 <= i < |paths|
      ensures !AtTop(plan, paths[i]) && !InTheWay(plan, p, paths[i]) && !InTheWay(plan, paths[i], p)
    {
      assert !AtTop(plan, more[i]) && !InTheWay(plan, more[|paths|], more[i]);
      assert !InTheWay(plan, more[i], more[|paths|]);
    }
    forall i, j | 0 <= i < |paths| && 0 <= j < |paths| ensures !InTheWay(plan, paths[i], paths[j]) {
      assert !InTheWay(plan, more[i], more[j]);
    }
  }

  /** Every path in the list has an acceptable content and a free place. */
  ghost predicate Writable(plan: Plan, paths: seq<string>)
    requires AllReadable(plan, paths)
  {
    && (forall i {:trigger MayWrite(plan, paths[i])} :: 0 <= i < |paths| ==> MayWrite(plan, paths[i]))
    && Unobstructed(plan, paths)
  }

  lemma WritableNext(plan: Plan, paths: seq<string>, p: string)
    requires AllReadable(plan, paths) && Readable(plan, p) && AllReadable(plan, paths + [p])
    ensures Writable(plan, paths + [p]) <==>
              && Writable(plan, paths) && MayWrite(plan, p)
              && !Meets(plan, Written(plan, paths).Keys, Made(plan, paths), p)
  {
    var more := paths + [p];
    UnobstructedNext(plan, paths, p);
    assert more[|paths|] == p && forall i :: 0 <= i < |paths| ==> more[i] == paths[i];
    if Writable(plan, more) {
      forall i | 0 <= i < |paths| ensures MayWrite(plan, paths[i]) {
        assert MayWrite(plan, more[i]);
      }
      assert MayWrite(plan, more[|paths|]);
    }
  }

  lemma WrittenNext(plan: Plan, paths: seq<string>, p: string)
    requires AllReadable(plan, paths) && Readable(plan, p)
    ensures AllReadable(plan, paths + [p])
    ensures Written(plan, paths + [p]) == Written(plan, paths)[Place(plan, p) := Intended(plan, p)]
    ensures Made(plan, paths + [p]) == Made(plan, paths) + Stations(plan, p)
  {
    assert (paths + [p])[..|paths|] == paths;
  }

  lemma {:induction false} WritableTail(plan: Plan, contract: seq<string>, n: nat)
    requires n <= |contract| && AllReadable(plan, contract)
    ensures AllReadable(plan, Firsts(plan.mapping, contract[..n])) && AllReadable(plan, Firsts(plan.mapping, contract))
    ensures Writable(plan, Firsts(plan.mapping, contract)) ==> Writable(plan, Firsts(plan.mapping, contract[..n]))
    decreases |contract|
  {
    if n < |contract| {
      var init := contract[..|contract| - 1];
      assert init[..n] == contract[..n];
      WritableTail(plan, init, n);
      WritableInit(plan, init, contract[|contract| - 1], contract);
    } else {
      assert contract[..n] == contract;
      FirstsAreReadable(plan, contract);
    }
  }

  lemma WritableInit(plan: Plan, init: seq<string>, last: string, contract: seq<string>)
    requires contract != [] && init == contract[..|contract| - 1] && last == contract[|contract| - 1]
    requires AllReadable(plan, contract)
    ensures AllReadable(plan, Firsts(plan.mapping, init)) && AllReadable(plan, Firsts(plan.mapping, contract))
    ensures Writable(plan, Firsts(plan.mapping, contract)) ==> Writable(plan, Firsts(plan.mapping, init))
  {
    FirstsAreReadable(plan, init);
    FirstsAreReadable(plan, contract);
    var before := Firsts(plan.mapping, init);
    if Firsts(plan.mapping, contract) != before {
      WritableNext(plan, before, last);
    }
  }

  lemma FirstsAreReadable(plan: Plan, contract: seq<string>)
    requires AllReadable(plan, contract)
    ensures AllReadable(plan, Firsts(plan.mapping, contract))
  {
    var firsts := Firsts(plan.mapping, contract);
    forall i | 0 <= i < |firsts| ensures Readable(plan, firsts[i]) {
      assert firsts[i] in contract;
    }
  }

  /** The second loop: the first contract path of each destination is written, the others are skipped. */
  method WriteFiles(plan: Plan, contract: seq<string>) returns (r: Option<map<Path, Content>>)
    requires AllReadable(plan, contract)
    ensures AllReadable(plan, Firsts(plan.mapping, contract))
    ensures r.Some? <==> Writable(plan, Firsts(plan.mapping, contract))
    ensures r.Some? ==> r.value == Written(plan, Firsts(plan.mapping, contract))
  {
    var files: map<Path, Content> := map[];
    var made: set<Path> := {};
    var written: seq<string> := [];
    FirstsAreReadable(plan, contract);
    for i := 0 to |contract|
      invariant written == Firsts(plan.mapping, contract[..i]) && AllReadable(plan, written)
      invariant Writable(plan, written)
      invariant files == Written(plan, written) && made == Made(plan, written)
    {
      var p := contract[i];
      FirstsNext(plan.mapping, contract, i);
      if Met(plan.mapping, written, Destination(plan.mapping, p)) {
        continue;
      }
      WrittenNext(plan, written, p);
      WritableTail(plan, contract, i + 1);
      WritableNext(plan, written, p);
      if Meets(plan, files.Keys, made, p) {
        return None;
      }
      var content := WriteOne(plan, p);
      if content.None? {
        return None;
      }
      made := made + Stations(plan, p);
      files := files[Place(plan, p) := content.value];
      written := written + [p];
    }
    assert contract[..|contract|] == contract;
    r := Some(files);
  }

  // ----- what a destination holds in the end -----

  /** Two contract paths of different owners end up at one place under two spellings, which the check takes for two. */
  ghost predicate Respelled(plan: Plan, p: string, q: string) {
    && Place(plan, p) == Place(plan, q)
    && Destination(plan.mapping, p) != Destination(plan.mapping, q)
    && Owner(plan.mapping, p) != Owner(plan.mapping, q)
  }

  /** An asset lands on an unreplaced file whose owner's name its identifier pretends to be. */
  ghost predicate Forges(plan: Plan, p: string, q: string) {
    && p in plan.mapping && q !in plan.mapping
    && plan.mapping[p].assetId == "source:" + q && Place(plan, p) == Place(plan, q)
  }

  ghost predicate HoldsIntended(plan: Plan, contract: seq<string>, files: map<Path, Content>)
    requires AllReadable(plan, contract)
  {
    forall i {:trigger Place(plan, contract[i])} :: 0 <= i < |contract| ==>
      Place(plan, contract[i]) in files && files[Place(plan, contract[i])] == Intended(plan, contract[i])
  }

  /** Where the ownership check cannot see two paths meet, their contents are the same anyway. */
  ghost predicate UnseenMeetingsAgree(plan: Plan, contract: seq<string>)
    requires AllReadable(plan, contract)
  {
    forall i, j {:trigger Intended(plan, contract[i]), Intended(plan, contract[j])} ::
      0 <= i < |contract| && 0 <= j < |contract|
      && (Respelled(plan, contract[i], contract[j]) || Forges(plan, contract[i], contract[j])) ==>
        Intended(plan, contract[i]) == Intended(plan, contract[j])
  }

  lemma SameOwnerSameContent(plan: Plan, p: string, q: string)
    requires Readable(plan, p) && Readable(plan, q)
    requires Owner(plan.mapping, p) == Owner(plan.mapping, q) && Place(plan, p) == Place(plan, q)
    requires !Forges(plan, p, q) && !Forges(plan, q, p)
    ensures Intended(plan, p) == Intended(plan, q)
  {
    if p !in plan.mapping && q !in plan.mapping {
      AppendCancels("source:", p, "source:", q);
    }
  }

  /** What the ownership check has seen is in order: only what it cannot see can be wrong. */
  lemma SamePlaceSameContent(plan: Plan, contract: seq<string>, i: nat, j: nat)
    requires AllReadable(plan, contract) && i < |contract| && j < |contract|
    requires OwnersAgree(contract, plan.mapping) && UnseenMeetingsAgree(plan, contract)
    requires Place(plan, contract[i]) == Place(plan, contract[j])
    ensures Intended(plan, contract[i]) == Intended(plan, contract[j])
  {
    if !Respelled(plan, contract[i], contract[j]) && !Forges(plan, contract[i], contract[j])
       && !Forges(plan, contract[j], contract[i])
    {
      assert Owner(plan.mapping, contract[i]) == Owner(plan.mapping, contract[j]);
      SameOwnerSameContent(plan, contract[i], contract[j]);
    }
  }

  lemma WrittenContent(plan: Plan, contract: seq<string>, i: nat) returns (j: nat)
    requires AllReadable(plan, contract) && i < |contract|
    ensures AllReadable(plan, Firsts(plan.mapping, contract))
    ensures j < |contract| && Place(plan, contract[j]) == Place(plan, contract[i])
    ensures var files := Written(plan, Firsts(plan.mapping, contract));
            Place(plan, contract[i]) in files && files[Place(plan, contract[i])] == Intended(plan, contract[j])
  {
    FirstsAreReadable(plan, contract);
    var firsts, x := Firsts(plan.mapping, contract), Place(plan, contract[i]);
    assert Met(plan.mapping, firsts, Destination(plan.mapping, contract[i]));
    var k :| 0 <= k < |firsts| && Destination(plan.mapping, firsts[k]) == Destination(plan.mapping, contract[i]);
    WrittenAt(plan, firsts, x);
    assert Place(plan, firsts[k]) == x;
    var m :| 0 <= m < |firsts| && Place(plan, firsts[m]) == x
             && Written(plan, firsts)[x] == Intended(plan, firsts[m]);
    assert firsts[m] in contract;
    j :| 0 <= j < |contract| && contract[j] == firsts[m];
  }

  /**
    After the ownership check, exactly when every contract path's destination holds its own intended content: if and
    only if the contents agree wherever two paths meet without the check seeing it, under two spellings of one place or
    under a forged owner.
   */
  lemma WriteOnceIsSound(plan: Plan, contract: seq<string>)
    requires AllReadable(plan, contract) && OwnersAgree(contract, plan.mapping)
    ensures AllReadable(plan, Firsts(plan.mapping, contract))
    ensures HoldsIntended(plan, contract, Written(plan, Firsts(plan.mapping, contract))) <==>
              UnseenMeetingsAgree(plan, contract)
  {
    FirstsAreReadable(plan, contract);
    var files := Written(plan, Firsts(plan.mapping, contract));
    if UnseenMeetingsAgree(plan, contract) {
      forall i | 0 <= i < |contract|
        ensures Place(plan, contract[i]) in files && files[Place(plan, contract[i])] == Intended(plan, contract[i])
      {
        var j := WrittenContent(plan, contract, i);
        SamePlaceSameContent(plan, contract, i, j);
      }
    }
    if HoldsIntended(plan, contract, files) {
      forall i, j | 0 <= i < |contract| && 0 <= j < |contract|
                    && (Respelled(plan, contract[i], contract[j]) || Forges(plan, contract[i], contract[j]))
        ensures Intended(plan, contract[i]) == Intended(plan, contract[j])
      {
        assert Place(plan, contract[i]) == Place(plan, contract[j]);
      }
    }
  }

  /** No two of the paths meet under two spellings. */
  ghost predicate SpelledAlike(plan: Plan, contract: seq<string>) {
    forall i, j {:trigger Place(plan, contract[i]), Place(plan, contract[j])} ::
      0 <= i < |contract| && 0 <= j < |contract| && Place(plan, contract[i]) == Place(plan, contract[j]) ==>
        Destination(plan.mapping, contract[i]) == Destination(plan.mapping, contract[j])
  }

  /** No asset identifier looks like the owner of an unreplaced file. */
  ghost predicate NoneForged(mapping: map<string, Replacement>) {
    forall p {:trigger mapping[p]} :: p in mapping ==> !("source:" <= mapping[p].assetId)
  }

  /** What the ownership check is for: with it, and nothing it cannot see, skipping repeated destinations is sound. */
  lemma OwnershipCheckSuffices(plan: Plan, contract: seq<string>)
    requires AllReadable(plan, contract) && OwnersAgree(contract, plan.mapping)
    requires SpelledAlike(plan, contract) && NoneForged(plan.mapping)
    ensures AllReadable(plan, Firsts(plan.mapping, contract))
    ensures HoldsIntended(plan, contract, Written(plan, Firsts(plan.mapping, contract)))
  {
    forall p, q ensures !Forges(plan, p, q) {
      assert "source:" <= "source:" + q;
    }
    WriteOnceIsSound(plan, contract);
  }

  /** Without the check it is not: two paths with one destination and different contents lose one of them. */
  lemma UncheckedMeetingLosesAFile(plan: Plan, contract: seq<string>, i: nat, j: nat)
    requires AllReadable(plan, contract) && i < |contract| && j < |contract|
    requires Destination(plan.mapping, contract[i]) == Destination(plan.mapping, contract[j])
    requires Intended(plan, contract[i]) != Intended(plan, contract[j])
    ensures AllReadable(plan, Firsts(plan.mapping, contract))
    ensures !HoldsIntended(plan, contract, Written(plan, Firsts(plan.mapping, contract)))
    ensures SpelledAlike(plan, contract) && NoneForged(plan.mapping) ==> !OwnersAgree(contract, plan.mapping)
  {
    OverlapLosesAFile(plan, contract, i, j);
    if SpelledAlike(plan, contract) && NoneForged(plan.mapping) && OwnersAgree(contract, plan.mapping) {
      OwnershipCheckSuffices(plan, contract);
    }
  }

  // ----- plainly spelled items -----

  /** A relative path of names: nothing empty, no dots. */
  predicate IsPlain(p: string) {
    forall i {:trigger Split(p)[i]} :: 0 <= i < |Split(p)| ==> IsName(Split(p)[i])
  }

  ghost predicate TellsApart(key: string -> string) {
    forall a, b {:trigger key(a), key(b)} :: key(a) == key(b) ==> a == b
  }

  lemma PlainIsKept(p: string)
    requires IsPlain(p)
    ensures Kept(Split(p)) == Split(p)
  {
    var parts := Split(p);
    forall i | 0 <= i < |parts| ensures IsName(parts[i]) {}
    NamesAreKept(parts);
  }

  lemma PlainIsRelative(p: string)
    requires IsPlain(p)
    ensures p != "" && !IsAbsolute(p) && p[|p| - 1] != '/'
  {
    SplitLeadingSlash(p);
    assert IsName(Split(p)[0]) && IsName(Split(p)[|Split(p)| - 1]);
    if p != "" && p[|p| - 1] == '/' {
      SplitTrailingSlash(p[..|p| - 1], p);
    }
  }

  lemma SplitLeadingSlash(p: string)
    ensures p == "" || p[0] == '/' ==> Split(p)[0] == ""
  {
  }

  lemma SplitTrailingSlash(front: string, p: string)
    requires p == front + "/"
    ensures Split(p)[|Split(p)| - 1] == ""
  {
    assert p == front + "/" + "";
    SplitAt(front, "");
  }

  function Keys(release: Release, parts: seq<string>): (r: Path)
    ensures |r| == |parts| && forall i :: 0 <= i < |r| ==> r[i] == release.nameKey(parts[i])
  {
    seq(|parts|, i requires 0 <= i < |parts| => release.nameKey(parts[i]))
  }

  lemma {:induction false} NamesLeadDown(release: Release, at: Path, parts: seq<string>)
    requires forall i :: 0 <= i < |parts| ==> IsName(parts[i])
    ensures Reached(release, at, parts) == at + Keys(release, parts)
    decreases |parts|
  {
    if parts != [] {
      NamesLeadDown(release, at + [release.nameKey(parts[0])], parts[1..]);
      assert [release.nameKey(parts[0])] + Keys(release, parts[1..]) == Keys(release, parts);
      AppendAssociates(at, [release.nameKey(parts[0])], Keys(release, parts[1..]));
    } else {
      assert at + Keys(release, parts) == at;
    }
  }

  /** A plain destination lies below the item's directory, at the place it spells. */
  lemma PlainPlace(release: Release, destination: string)
    requires IsPlain(destination)
    ensures PlaceOf(release, destination) == release.directory + Keys(release, Split(destination))
  {
    PlainIsRelative(destination);
    PlainIsKept(destination);
    forall i | 0 <= i < |Split(destination)| ensures IsName(Split(destination)[i]) {}
    NamesLeadDown(release, release.directory, Split(destination));
  }

  /** Where names that differ are different, plain destinations at one place are spelled alike. */
  lemma PlainPlacesDiffer(release: Release, a: string, b: string)
    requires IsPlain(a) && IsPlain(b) && TellsApart(release.nameKey) && PlaceOf(release, a) == PlaceOf(release, b)
    ensures a == b
  {
    PlainPlace(release, a);
    PlainPlace(release, b);
    AppendCancels(release.directory, Keys(release, Split(a)), release.directory, Keys(release, Split(b)));
    forall i | 0 <= i < |Split(a)| ensures Split(a)[i] == Split(b)[i] {
      assert Keys(release, Split(a))[i] == Keys(release, Split(b))[i];
    }
    assert Split(a) == Split(b);
    JoinedSplit(a);
    JoinedSplit(b);
  }

  /** A plain destination is in nobody's way but its own file's. */
  lemma PlainIsFree(plan: Plan, p: string)
    requires IsPlain(Destination(plan.mapping, p))
    ensures !AtTop(plan, p) && !InTheWay(plan, p, p)
  {
    var parts := Split(Destination(plan.mapping, p));
    PlainPlace(plan.release, Destination(plan.mapping, p));
    PlainIsRelative(Destination(plan.mapping, p));
    PlainIsKept(Destination(plan.mapping, p));
    forall i | 0 <= i < |parts| ensures IsName(parts[i]) {}
    forall k | 0 <= k < |parts| ensures |Reached(plan.release, plan.release.directory, parts[..k])| < |Place(plan, p)| {
      NamesLeadDown(plan.release, plan.release.directory, parts[..k]);
    }
  }

  /** A plain path with a directory in it is its directory and its last name. */
  lemma PlainDirectory(p: string) returns (directory: string)
    requires IsPlain(p) && AfterLast(p, '/') > 0
    ensures IsPlain(directory) && directory != "" && directory[|directory| - 1] != '/'
    ensures DirectoryName(p) == directory
  {
    var k := AfterLast(p, '/');
    directory := p[..k - 1];
    assert p == directory + "/" + p[k..] && p[..k] == directory + "/";
    SplitAt(directory, p[k..]);
    SplitName(p[k..]);
    PlainFront(p, directory, p[k..]);
    PlainIsRelative(directory);
    TrimmedAppend(directory, "/");
  }

  lemma PlainExtended(directory: string, name: string)
    requires IsPlain(directory) && IsName(name)
    ensures IsPlain(directory + "/" + name)
  {
    SplitAt(directory, name);
    SplitName(name);
    forall i | 0 <= i < |Split(directory + "/" + name)| ensures IsName(Split(directory + "/" + name)[i]) {
      if i < |Split(directory)| {
        assert IsName(Split(directory)[i]);
      }
    }
  }

  lemma NameIsPlain(name: string)
    requires IsName(name)
    ensures IsPlain(name)
  {
    SplitName(name);
  }

  lemma PlainBase(p: string)
    requires IsPlain(p)
    ensures IsName(BaseName(p))
  {
    var k := AfterLast(p, '/');
    if k == 0 {
      assert p[..0] == "" && p[0..] == p;
      SplitName(p);
      assert IsName(Split(p)[0]);
    } else {
      assert p == p[..k - 1] + "/" + p[k..];
      SplitAt(p[..k - 1], p[k..]);
      SplitName(p[k..]);
      PlainFront(p, p[..k - 1], p[k..]);
    }
  }

  lemma BesideIsPlain(source: string, name: string)
    requires IsPlain(source) && IsName(name)
    ensures IsPlain(Beside(source, name))
  {
    if AfterLast(source, '/') == 0 {
      assert source[..0] == "";
      NameIsPlain(name);
    } else {
      var directory := PlainDirectory(source);
      PlainExtended(directory, name);
    }
  }

  /** The composed path of a plain source is plain, if the replacement's last name is one. */
  lemma ComposedPathIsPlain(source: string, replacement: string, referenced: bool, lower: string -> string)
    requires IsPlain(source) && IsName(BaseName(replacement))
    ensures IsPlain(ComposedAssetPath(source, replacement, referenced, lower))
  {
    PlainBase(source);
    BesideIsPlain(source, BaseName(source));
    BesideIsPlain(source, BaseName(replacement));
  }

  lemma PlainFront(p: string, directory: string, base: string)
    requires IsPlain(p) && Split(p) == Split(directory) + [base]
    ensures IsPlain(directory) && IsName(base)
  {
    forall i | 0 <= i < |Split(directory)| ensures IsName(Split(directory)[i]) {
      assert Split(p)[i] == Split(directory)[i];
    }
    assert Split(p)[|Split(directory)|] == base;
  }

  lemma OverlapLosesAFile(plan: Plan, contract: seq<string>, i: nat, j: nat)
    requires AllReadable(plan, contract) && i < |contract| && j < |contract|
    requires Place(plan, contract[i]) == Place(plan, contract[j])
    requires Intended(plan, contract[i]) != Intended(plan, contract[j])
    ensures AllReadable(plan, Firsts(plan.mapping, contract))
    ensures !HoldsIntended(plan, contract, Written(plan, Firsts(plan.mapping, contract)))
  {
    FirstsAreReadable(plan, contract);
  }

  lemma PairOwners(mapping: map<string, Replacement>, p: string, q: string)
    requires Destination(mapping, p) == Destination(mapping, q) ==> Owner(mapping, p) == Owner(mapping, q)
    ensures OwnersAgree([p, q], mapping)
  {
  }

  /** The pair of an asset and an unreplaced file that follows it. */
  lemma PairIsRead(plan: Plan, p: string, q: string)
    requires Readable(plan, p) && Readable(plan, q)
    ensures AllReadable(plan, [p, q]) && AllReadable(plan, Firsts(plan.mapping, [p, q]))
    ensures Firsts(plan.mapping, [p, q])
         == if Destination(plan.mapping, p) == Destination(plan.mapping, q) then [p] else [p, q]
  {
    assert [p, q][..1] == [p] && [p][..0] == [];
    assert Firsts(plan.mapping, []) == [] && [] + [p] == [p] && [p] + [q] == [p, q];
    assert Firsts(plan.mapping, [p]) == [p];
    assert Met(plan.mapping, [p], Destination(plan.mapping, q)) <==>
           Destination(plan.mapping, p) == Destination(plan.mapping, q) by {
      assert [p][0] == p;
    }
    FirstsAreReadable(plan, [p, q]);
  }

  /**
    An input that fails: an asset named `source:` and the file it lands on replaces that file unseen. If it lands on
    the file's own name, the composition succeeds with the file lost.
   */
  lemma ForgedOwnerLosesAFile(plan: Plan, p: string, q: string)
    requires Forges(plan, p, q) && Readable(plan, p) && Readable(plan, q)
    requires Intended(plan, p) != Intended(plan, q)
    ensures AllReadable(plan, [p, q]) && AllReadable(plan, Firsts(plan.mapping, [p, q]))
    ensures OwnersAgree([p, q], plan.mapping)
    ensures Destination(plan.mapping, p) == q && IsPlain(q) ==> AllWritable(plan, [p, q])
    ensures !HoldsIntended(plan, [p, q], Written(plan, Firsts(plan.mapping, [p, q])))
  {
    PairIsRead(plan, p, q);
    PairOwners(plan.mapping, p, q);
    OverlapLosesAFile(plan, [p, q], 0, 1);
    if Destination(plan.mapping, p) == q && IsPlain(q) {
      PlainIsFree(plan, p);
      assert [p][0] == p;
    }
  }

  /**
    Another one: an asset and an unreplaced file at one place, one of them spelled with a doubled slash. Unless the
    file's text is not clean, the composition succeeds with one of them lost.
   */
  lemma RespelledPathLosesAFile(plan: Plan, p: string, q: string, a: string, b: string)
    requires a != "" && p in plan.mapping && plan.mapping[p].composedPath == a + "/" + b
    requires q == a + "/" + ("/" + b) && q !in plan.mapping && Readable(plan, p) && Readable(plan, q)
    requires Intended(plan, p) != Intended(plan, q)
    ensures AllReadable(plan, [p, q]) && AllReadable(plan, Firsts(plan.mapping, [p, q]))
    ensures OwnersAgree([p, q], plan.mapping)
    ensures IsPlain(a + "/" + b) && MayWrite(plan, q) ==> AllWritable(plan, [p, q])
    ensures !HoldsIntended(plan, [p, q], Written(plan, Firsts(plan.mapping, [p, q])))
  {
    PairIsRead(plan, p, q);
    RespelledPlace(plan.release, a, b);
    assert |Destination(plan.mapping, p)| != |q|;
    PairOwners(plan.mapping, p, q);
    OverlapLosesAFile(plan, [p, q], 0, 1);
    if IsPlain(a + "/" + b) && MayWrite(plan, q) {
      PlainIsFree(plan, p);
      RespelledStations(plan.release, a, b);
      PairIsWritable(plan, p, q);
    }
  }

  lemma PairIsWritable(plan: Plan, p: string, q: string)
    requires Readable(plan, p) && Readable(plan, q) && MayWrite(plan, p) && MayWrite(plan, q)
    requires Place(plan, p) == Place(plan, q) && Stations(plan, p) == Stations(plan, q)
    requires !AtTop(plan, p) && !InTheWay(plan, p, p)
    requires Destination(plan.mapping, p) != Destination(plan.mapping, q)
    ensures AllReadable(plan, [p, q]) && AllWritable(plan, [p, q])
  {
    PairIsRead(plan, p, q);
    forall i | 0 <= i < 2 ensures !AtTop(plan, [p, q][i]) && MayWrite(plan, [p, q][i]) {}
    forall i, j | 0 <= i < 2 && 0 <= j < 2 ensures !InTheWay(plan, [p, q][i], [p, q][j]) {}
  }

  /** Text of the first occurrence of each text file, one after another. */
  function Blob(contract: seq<string>, staged: map<string, Content>): string {
    if contract == [] then ""
    else
      var n := |contract| - 1;
      Blob(contract[..n], staged)
      + if contract[n] in contract[..n] || contract[n] !in staged || staged[contract[n]].Binary? then ""
        else staged[contract[n]].text
  }

  predicate NamedInOne(contract: seq<string>, staged: map<string, Content>, p: string) {
    exists i :: 0 <= i < |contract| && NamedIn(staged, contract[i], p)
  }

  predicate NamedIn(staged: map<string, Content>, file: string, p: string) {
    file in staged && staged[file].Text? && Contains(staged[file].text, p)
  }

  /** A path named in one of the item's texts counts as referenced. */
  lemma {:induction false} ReferenceIsSeen(contract: seq<string>, staged: map<string, Content>, p: string)
    requires NamedInOne(contract, staged, p)
    ensures Contains(Blob(contract, staged), p)
  {
    var n := |contract| - 1;
    var init, last := contract[..n], contract[n];
    var more := if last in init || last !in staged || staged[last].Binary? then "" else staged[last].text;
    assert Blob(contract, staged) == Blob(init, staged) + more;
    ContainedInWhole(Blob(init, staged), more, p);
    var i :| 0 <= i < |contract| && NamedIn(staged, contract[i], p);
    if i < n || last in init {
      var k :| 0 <= k < n && init[k] == contract[i];
      ReferenceIsSeen(init, staged, p);
    }
  }

  /** In an item without texts nothing is referenced. */
  lemma {:induction false} NoTextsNoReferences(contract: seq<string>, staged: map<string, Content>)
    requires forall i :: 0 <= i < |contract| && contract[i] in staged ==> staged[contract[i]].Binary?
    ensures Blob(contract, staged) == ""
  {
    if contract != [] {
      NoTextsNoReferences(contract[..|contract| - 1], staged);
    }
  }

  lemma ContainedInWhole(a: string, b: string, p: string)
    ensures Contains(a, p) || Contains(b, p) ==> Contains(a + b, p)
  {
    ContainsMeans(a, p);
    ContainsMeans(b, p);
    ContainsMeans(a + b, p);
    if i :| 0 <= i <= |a| && p <= a[i..] {
      assert (a + b)[i..] == a[i..] + b;
    }
    if i :| 0 <= i <= |b| && p <= b[i..] {
      assert (a + b)[|a| + i..] == b[i..];
    }
  }

  /** A text in the composed item names no replaced file and no trademark, and rewriting it changes nothing. */
  lemma ComposedTextsAreClean(plan: Plan, contract: seq<string>, x: Path)
    requires AllReadable(plan, contract) && AllReadable(plan, Firsts(plan.mapping, contract))
    requires Writable(plan, Firsts(plan.mapping, contract)) && ReplacesOnlyWhatItScans(plan.rules)
    requires var files := Written(plan, Firsts(plan.mapping, contract)); x in files && files[x].Text?
    ensures var text := Written(plan, Firsts(plan.mapping, contract))[x].text;
            TextAllowed(plan, text) && Passes(text, plan.rules.replace, plan.rules, plan.cases) == text
  {
    var firsts := Firsts(plan.mapping, contract);
    WrittenAt(plan, firsts, x);
    var i :| 0 <= i < |firsts| && Place(plan, firsts[i]) == x && Written(plan, firsts)[x] == Intended(plan, firsts[i]);
    assert MayWrite(plan, firsts[i]);
    AcceptedTextIsFixed(Written(plan, firsts)[x].text, plan.rules, plan.cases);
  }

  ghost predicate InputsValid(
      contract: seq<string>, staged: map<string, Content>, rules: seq<AssetRule>, assets: map<string, seq<byte>>)
  {
    (forall i :: 0 <= i < |contract| ==> contract[i] in staged) && RulesValid(rules, contract, assets)
  }

  ghost predicate IsPlan(
      plan: Plan, contract: seq<string>, staged: map<string, Content>, rules: seq<AssetRule>,
      assets: map<string, seq<byte>>, ruleset: Ruleset, cases: CaseRules, lower: string -> string)
  {
    && IsMapping(plan.mapping, rules, |rules|, Entries(Blob(contract, staged), lower))
    && plan.rewrites == ReferenceRewrites(rules, plan.mapping)
    && plan.staged == staged && plan.assets == assets && plan.rules == ruleset && plan.cases == cases
  }

  ghost predicate AllWritable(plan: Plan, contract: seq<string>)
    requires AllReadable(plan, contract)
  {
    FirstsAreReadable(plan, contract);
    Writable(plan, Firsts(plan.mapping, contract))
  }

  /**
    The whole composition. It fails exactly on missing staged files, invalid rules, destinations spelled alike with
    different owners, texts that are not clean, and files in the way of directories; otherwise the files are those of
    the first contract paths, and each destination holds its own content exactly when the contents agree where paths
    meet unseen by the ownership check.
   */
  method ComposeItem(
      contract: seq<string>, staged: map<string, Content>, rules: seq<AssetRule>, assets: map<string, seq<byte>>,
      ruleset: Ruleset, cases: CaseRules, lower: string -> string, release: Release)
    returns (r: Option<map<Path, Content>>, plan: Plan)
    ensures InputsValid(contract, staged, rules, assets) ==>
              IsPlan(plan, contract, staged, rules, assets, ruleset, cases, lower) && plan.release == release
    ensures InputsValid(contract, staged, rules, assets) ==>
              AllReadable(plan, contract) && AllReadable(plan, Firsts(plan.mapping, contract))
    ensures r.Some? <==>
              && InputsValid(contract, staged, rules, assets)
              && OwnersAgree(contract, plan.mapping) && AllWritable(plan, contract)
    ensures r.Some? ==> r.value == Written(plan, Firsts(plan.mapping, contract))
    ensures r.Some? ==> (HoldsIntended(plan, contract, r.value) <==> UnseenMeetingsAgree(plan, contract))
  {
    plan := Plan(map[], [], staged, assets, ruleset, cases, release);
    for i := 0 to |contract|
      invariant forall k :: 0 <= k < i ==> contract[k] in staged
    {
      if contract[i] !in staged {
        return None, plan;
      }
    }
    var mapping := BuildMapping(rules, contract, assets, Entries(Blob(contract, staged), lower));
    if mapping.None? {
      return None, plan;
    }
    plan := Plan(mapping.value, ReferenceRewrites(rules, mapping.value), staged, assets, ruleset, cases, release);
    PlanIsReadable(plan, contract, staged, rules, assets, ruleset, cases, lower);
    FirstsAreReadable(plan, contract);
    var ok := CheckOwners(contract, mapping.value);
    if !ok {
      return None, plan;
    }
    r := WriteFiles(plan, contract);
    if r.Some? {
      WriteOnceIsSound(plan, contract);
    }
  }

  lemma PlanIsReadable(
      plan: Plan, contract: seq<string>, staged: map<string, Content>, rules: seq<AssetRule>,
      assets: map<string, seq<byte>>, ruleset: Ruleset, cases: CaseRules, lower: string -> string)
    requires InputsValid(contract, staged, rules, assets)
    requires IsPlan(plan, contract, staged, rules, assets, ruleset, cases, lower)
    ensures AllReadable(plan, contract)
  {
  }

  /** Nothing in the contract or the overlay is spelled oddly, and no asset identifier looks like an owner. */
  ghost predicate PlainItem(contract: seq<string>, rules: seq<AssetRule>) {
    && (forall i :: 0 <= i < |contract| ==> IsPlain(contract[i]))
    && (forall i :: 0 <= i < |rules| ==> IsName(BaseName(rules[i].replacementPath)) && !("source:" <= rules[i].assetId))
  }

  lemma PlainMapping(
      plan: Plan, contract: seq<string>, staged: map<string, Content>, rules: seq<AssetRule>,
      assets: map<string, seq<byte>>, ruleset: Ruleset, cases: CaseRules, lower: string -> string)
    requires InputsValid(contract, staged, rules, assets) && PlainItem(contract, rules)
    requires IsPlan(plan, contract, staged, rules, assets, ruleset, cases, lower)
    ensures NoneForged(plan.mapping)
    ensures forall p :: p in contract ==> IsPlain(Destination(plan.mapping, p))
  {
    var blob := Blob(contract, staged);
    forall p | p in plan.mapping
      ensures !("source:" <= plan.mapping[p].assetId) && IsPlain(plan.mapping[p].composedPath)
    {
      var i :| 0 <= i < |rules| && rules[i].sourcePath == p;
      assert RuleKnown(rules[i], contract, assets) && plan.mapping[p] == Entries(blob, lower)(rules[i]);
      ComposedPathIsPlain(p, rules[i].replacementPath, Contains(blob, p), lower);
    }
  }

  /**
    For every plainly spelled item, on a file system that tells different names apart: whatever passes the ownership
    check gives each contract path its own content.
   */
  lemma PlainItemsAreSound(
      plan: Plan, contract: seq<string>, staged: map<string, Content>, rules: seq<AssetRule>,
      assets: map<string, seq<byte>>, ruleset: Ruleset, cases: CaseRules, lower: string -> string)
    requires InputsValid(contract, staged, rules, assets) && PlainItem(contract, rules)
    requires IsPlan(plan, contract, staged, rules, assets, ruleset, cases, lower)
    requires TellsApart(plan.release.nameKey) && OwnersAgree(contract, plan.mapping)
    ensures AllReadable(plan, contract) && AllReadable(plan, Firsts(plan.mapping, contract))
    ensures HoldsIntended(plan, contract, Written(plan, Firsts(plan.mapping, contract)))
  {
    PlanIsReadable(plan, contract, staged, rules, assets, ruleset, cases, lower);
    PlainMapping(plan, contract, staged, rules, assets, ruleset, cases, lower);
    forall i, j | 0 <= i < |contract| && 0 <= j < |contract| && Place(plan, contract[i]) == Place(plan, contract[j])
      ensures Destination(plan.mapping, contract[i]) == Destination(plan.mapping, contract[j])
    {
      PlainPlacesDiffer(
        plan.release, Destination(plan.mapping, contract[i]), Destination(plan.mapping, contract[j]));
    }
    OwnershipCheckSuffices(plan, contract);
  }

  // ----- an item that is composed with a file lost -----

  const PICTURE := "b.png"
  const OTHER := "a.svg"
  const FORGED := AssetRule("b.png", "source:a.svg", "a.svg")

  /** The replacement has another suffix, so it brings its own name. */
  lemma ForgedDestination(referenced: bool, lower: string -> string)
    requires lower(".png") != lower(".svg")
    ensures ComposedAssetPath(PICTURE, OTHER, referenced, lower) == OTHER
  {
    NoDirectory(PICTURE);
    NoDirectory(OTHER);
    assert PICTURE[1..] == ".png" && OTHER[1..] == ".svg";
    LastDotAt(PICTURE, 1);
    LastDotAt(OTHER, 1);
    assert PICTURE[0] != '.' && OTHER[0] != '.';
    assert SuffixOf(PICTURE) == ".png" && SuffixOf(OTHER) == ".svg";
  }

  lemma NoDirectory(p: string)
    requires '/' !in p
    ensures AfterLast(p, '/') == 0 && BaseName(p) == p && DirectoryName(p) == ""
  {
    assert p[0..] == p && p[..0] == "";
  }

  lemma LastDotAt(p: string, i: nat)
    requires i < |p| && p[i] == '.' && forall k :: i < k < |p| ==> p[k] != '.'
    ensures AfterLast(p, '.') == i + 1
  {
  }

  lemma ForgedPlan(plan: Plan, entry: AssetRule -> Replacement)
    requires IsMapping(plan.mapping, [FORGED], 1, entry) && entry(FORGED) == Replacement(OTHER, FORGED.assetId)
    ensures PICTURE in plan.mapping && plan.mapping[PICTURE] == Replacement(OTHER, FORGED.assetId)
    ensures OTHER !in plan.mapping && Forges(plan, PICTURE, OTHER)
  {
    assert [FORGED][0] == FORGED;
    assert PICTURE[0] != OTHER[0];
  }

  lemma OtherIsPlain()
    ensures IsPlain(OTHER)
  {
    assert |OTHER| == 5 && '/' !in OTHER;
    NameIsPlain(OTHER);
  }

  lemma ForgedInputs(staged: map<string, Content>, assets: map<string, seq<byte>>)
    requires PICTURE in staged && OTHER in staged && FORGED.assetId in assets
    ensures InputsValid([PICTURE, OTHER], staged, [FORGED], assets)
  {
    assert [PICTURE, OTHER][0] == PICTURE && [FORGED][0] == FORGED;
  }

  /** Valid inputs that pass every check, whatever the two files hold: the staged one is lost. */
  lemma ForgedItemIsComposed(
      plan: Plan, staged: map<string, Content>, assets: map<string, seq<byte>>, ruleset: Ruleset, cases: CaseRules,
      lower: string -> string)
    requires lower(".png") != lower(".svg") && FORGED.assetId in assets
    requires PICTURE in staged && OTHER in staged && staged[OTHER] != Binary(assets[FORGED.assetId])
    requires IsPlan(plan, [PICTURE, OTHER], staged, [FORGED], assets, ruleset, cases, lower)
    ensures InputsValid([PICTURE, OTHER], staged, [FORGED], assets)
    ensures AllReadable(plan, [PICTURE, OTHER]) && AllReadable(plan, Firsts(plan.mapping, [PICTURE, OTHER]))
    ensures OwnersAgree([PICTURE, OTHER], plan.mapping) && AllWritable(plan, [PICTURE, OTHER])
    ensures !HoldsIntended(plan, [PICTURE, OTHER], Written(plan, Firsts(plan.mapping, [PICTURE, OTHER])))
  {
    var blob := Blob([PICTURE, OTHER], staged);
    ForgedInputs(staged, assets);
    ForgedDestination(Contains(blob, PICTURE), lower);
    ForgedPlan(plan, Entries(blob, lower));
    OtherIsPlain();
    ForgedOwnerLosesAFile(plan, PICTURE, OTHER);
  }
}
