/**
  The macOS assembly sequence: sign a payload, take its digest manifest, install it, seal the bundle around it.
  A digest manifest is identified with the bytes it records; copies are faithful; codesign succeeds.
 */
module ReleaseAssembly {
  import opened Bytes
  import opened Outcomes
  import opened SigningTree

  /** Neither path lies inside the other. */
  predicate Apart(a: Path, b: Path) {
    !(a <= b) && !(b <= a)
  }

  // ----- regions: copying and composing -----

  lemma RegionOfRegion(tree: Tree, root: Path, r: Path)
    ensures Region(Region(tree, root), r) == Region(tree, root + r)
  {
    var a, b := Region(Region(tree, root), r), Region(tree, root + r);
    forall x
      ensures x in a <==> x in b
      ensures x in a ==> a[x] == b[x]
    {
      AppendAssociates(root, r, x);
      assert x in a <==> r + x in Region(tree, root);
    }
  }

  /** `region` put at `destination`, over whatever is there. */
  function Placed(tree: Tree, destination: Path, region: Tree): Tree {
    tree + map p | p in (set r | r in region :: destination + r) :: region[p[|destination|..]]
  }

  lemma PlacedAt(tree: Tree, destination: Path, region: Tree, p: Path)
    ensures p in Placed(tree, destination, region) <==>
              p in tree || (destination <= p && p[|destination|..] in region)
    ensures destination <= p && p[|destination|..] in region ==>
              Placed(tree, destination, region)[p] == region[p[|destination|..]]
    ensures p in tree && !(destination <= p && p[|destination|..] in region) ==>
              Placed(tree, destination, region)[p] == tree[p]
  {
    var keys := set r | r in region :: destination + r;
    if destination <= p && p[|destination|..] in region {
      assert p == destination + p[|destination|..];
      assert p in keys;
    }
    forall r | r in region && p == destination + r ensures destination <= p && p[|destination|..] == r {}
  }

  lemma PlacedRegion(tree: Tree, destination: Path, region: Tree)
    requires Region(tree, destination) == map[]
    ensures Region(Placed(tree, destination, region), destination) == region
  {
    forall r
      ensures destination + r in Placed(tree, destination, region) <==> r in region
      ensures r in region ==> Placed(tree, destination, region)[destination + r] == region[r]
    {
      PlacedAt(tree, destination, region, destination + r);
      assert (destination + r)[|destination|..] == r;
      assert destination + r in tree ==> r in Region(tree, destination);
    }
  }

  /** Nothing outside `root` differs. */
  ghost predicate SameOutside(a: Tree, b: Tree, root: Path) {
    forall p :: !(root <= p) ==> (p in a <==> p in b) && (p in a ==> a[p] == b[p])
  }

  lemma OutsideKeepsRegion(a: Tree, b: Tree, root: Path, m: Path)
    requires SameOutside(a, b, root) && Apart(root, m)
    ensures Region(a, m) == Region(b, m)
  {
  }

  lemma PlacedChangesOnlyInside(tree: Tree, destination: Path, region: Tree)
    ensures SameOutside(tree, Placed(tree, destination, region), destination)
  {
  }

  lemma {:induction false} SignAllChangesOnlyInside(tree: Tree, nodes: seq<Path>, now: nat, root: Path)
    requires forall i :: 0 <= i < |nodes| ==> nodes[i] in tree && root <= nodes[i]
    ensures SameOutside(tree, SignAll(tree, nodes, now), root)
    decreases |nodes|
  {
    if nodes != [] {
      SignAllChangesOnlyInside(Signed(tree, nodes[0], now), nodes[1..], now + 1, root);
    }
  }

  // ----- code inside a payload -----

  /** Code that codesign has to have signed, by its path inside a payload. */
  predicate IsCode(region: Tree, r: Path) {
    && r in region && r != []
    && (forall i :: 0 <= i < |r| ==> !IsSignatureArtefact(r[i]))
    && (region[r].content.MachO? || IsBundle(r, region[r]))
  }

  ghost predicate HasCode(region: Tree) {
    exists r :: IsCode(region, r)
  }

  /** Every piece of code in the payload carries a seal that describes it as it is. */
  ghost predicate CodeSealed(region: Tree) {
    forall r :: IsCode(region, r) ==> SealValid(Region(region, r))
  }

  ghost predicate SameContents(a: Tree, b: Tree) {
    a.Keys == b.Keys && forall p :: p in a ==> a[p].content == b[p].content
  }

  /** A payload directory itself is not a code bundle. */
  predicate IsPlainRoot(root: Path) {
    root != [] && !IsBundleName(root[|root| - 1])
  }

  lemma SignableInPayload(tree: Tree, root: Path, r: Path)
    requires IsPlainRoot(root)
    ensures Signable(tree, root, [], root + r) <==> IsCode(Region(tree, root), r)
  {
    var p := root + r;
    assert p[|root|..] == r;
    assert r != [] ==> p[|p| - 1] == r[|r| - 1];
    assert (forall i :: |root| <= i < |p| ==> !IsSignatureArtefact(p[i])) <==>
           (forall i :: 0 <= i < |r| ==> !IsSignatureArtefact(r[i])) by {
      forall i | 0 <= i < |r| ensures r[i] == p[|root| + i] {}
      forall i | |root| <= i < |p| ensures p[i] == r[i - |root|] {}
    }
  }

  lemma {:induction false} SigningKeepsContents(tree: Tree, nodes: seq<Path>, now: nat)
    requires forall i :: 0 <= i < |nodes| ==> nodes[i] in tree
    ensures SameContents(tree, SignAll(tree, nodes, now))
    decreases |nodes|
  {
    if nodes != [] {
      SigningKeepsContents(Signed(tree, nodes[0], now), nodes[1..], now + 1);
    }
  }

  lemma SameContentsSameCode(a: Tree, b: Tree, root: Path)
    requires SameContents(a, b)
    ensures forall r :: IsCode(Region(a, root), r) <==> IsCode(Region(b, root), r)
  {
  }

  lemma SignedPayloadIsSealed(tree: Tree, root: Path, nodes: seq<Path>, now: nat)
    requires IsPlainRoot(root) && IsSigningOrder(tree, root, [], nodes)
    requires forall i :: 0 <= i < |nodes| ==> nodes[i] in tree
    ensures CodeSealed(Region(SignAll(tree, nodes, now), root))
    ensures nodes != [] <==> HasCode(Region(tree, root))
  {
    var after := SignAll(tree, nodes, now);
    SigningKeepsContents(tree, nodes, now);
    SameContentsSameCode(tree, after, root);
    forall r | IsCode(Region(after, root), r) ensures SealValid(Region(Region(after, root), r)) {
      assert IsCode(Region(tree, root), r);
      SignableInPayload(tree, root, r);
      assert root + r in nodes;
      var i :| 0 <= i < |nodes| && nodes[i] == root + r;
      SignAllLeavesEverySealValid(tree, nodes, now, i);
      RegionOfRegion(after, root, r);
    }
    if nodes != [] {
      assert nodes[0] in nodes;
      assert nodes[0] == root + nodes[0][|root|..];
      SignableInPayload(tree, root, nodes[0][|root|..]);
    }
    if r :| IsCode(Region(tree, root), r) {
      SignableInPayload(tree, root, r);
      assert root + r in nodes;
    }
  }

  // ----- digest manifests -----

  /** Which files of a payload its manifest answers for: everything below `root` except reserved names there. */
  datatype Scope = Scope(root: Path, reserved: set<string>, links: bool)

  predicate Covered(scope: Scope, r: Path, node: Node) {
    && scope.root < r
    && !(|r| == |scope.root| + 1 && r[|scope.root|] in scope.reserved)
    && (scope.links || !node.content.Link?)
    && (node.content.Folder? ==> node.seal.Some?)  // a bundle's signature files
  }

  function Taken(region: Tree, scope: Scope): Tree {
    map r | r in region && Covered(scope, r, region[r]) :: region[r]
  }

  /** The document `name` in the payload records exactly the bytes the payload carries now. */
  ghost predicate Describes(region: Tree, name: string, scope: Scope) {
    [name] in region && region[[name]].content == Inventory(Taken(region, scope))
  }

  predicate IsUncovered(scope: Scope, name: string) {
    !(scope.root <= [name]) || (scope.root == [] && name in scope.reserved)
  }

  function Documented(tree: Tree, payload: Path, name: string, entries: Tree): Tree {
    tree[payload + [name] := Node(Inventory(entries), None)]
  }

  lemma DocumentedRegion(tree: Tree, payload: Path, name: string, entries: Tree)
    ensures Region(Documented(tree, payload, name, entries), payload) ==
            Region(tree, payload)[[name] := Node(Inventory(entries), None)]
  {
    forall r ensures payload + r == payload + [name] <==> r == [name] {
      assert (payload + r)[|payload|..] == r;
    }
  }

  lemma DocumentLeavesScope(region: Tree, name: string, scope: Scope, node: Node)
    requires IsUncovered(scope, name)
    ensures Taken(region[[name] := node], scope) == Taken(region, scope)
  {
  }

  /** A document written at the top of a payload touches no code below it. */
  lemma DocumentKeepsCodeSealed(region: Tree, name: string, node: Node)
    requires CodeSealed(region) && !node.content.MachO? && !node.content.Folder?
    ensures CodeSealed(region[[name] := node])
  {
    var after := region[[name] := node];
    forall r | IsCode(after, r) ensures SealValid(Region(after, r)) {
      assert r != [name] && IsCode(region, r);
      forall x ensures r + x != [name] {
        assert r + x == [name] ==> |x| == 0 && r == [name];
      }
      SameRegion(after, region, r);
    }
  }

  lemma SignatureOutsideScope(region: Tree, n: Path, node: Node, scope: Scope)
    requires n in region && !Covered(scope, n, node) && node.content == region[n].content && node.seal.Some?
    ensures Taken(region[n := node], scope) == Taken(region, scope)
  {
  }

  /**
    Why signing must come before the inventory and why payloads are excluded from the outer signing: a manifest
    still describes its payload after one more signature exactly when that signature is outside what it covers.
   */
  lemma SignatureInvalidatesManifest(region: Tree, n: Path, now: nat, name: string, scope: Scope)
    requires Describes(region, name, scope) && n in region && n != [name]
    requires region[n].seal.Some? ==> region[n].seal.value.at < now
    ensures Describes(Signed(region, n, now), name, scope) <==> !Covered(scope, n, Signed(region, n, now)[n])
  {
    var after := Signed(region, n, now);
    if Covered(scope, n, after[n]) {
      assert after[n] == Taken(after, scope)[n];
      assert n in Taken(region, scope) ==> Taken(region, scope)[n] == region[n] != after[n];
    } else {
      SignatureOutsideScope(region, n, after[n], scope);
    }
  }

  // ----- what a release package carries -----

  /** The resources a package declares, in contract order. */
  const BROWSER: nat := 0
  const EXECUTOR: nat := 1
  const MEDIA: nat := 2
  const MOTION: nat := 3
  const MATERIAL: nat := 4
  const CATALOG: nat := 5

  /** Where each of them lands inside the bundle. */
  const LOCATIONS: seq<Path> := [
    ["Contents", "Resources", "embedded-browser"],
    ["Contents", "Resources", "local-executor", "package"],
    ["Contents", "Resources", "media-toolchain"],
    ["Contents", "Resources", "motion-video-worker", "package"],
    ["Contents", "Resources", "material-video-worker", "package"],
    ["Contents", "Resources", "motion-catalog"]
  ]

  /** Six places apart from each other, none of them named like a code bundle. */
  predicate Separate(locations: seq<Path>) {
    && |locations| == 6
    && (forall i, j {:trigger Apart(locations[i], locations[j])} ::
         0 <= i < |locations| && 0 <= j < |locations| && i != j ==> Apart(locations[i], locations[j]))
    && (forall i {:trigger IsPlainRoot(locations[i])} :: 0 <= i < |locations| ==> IsPlainRoot(locations[i]))
  }

  /** The declared locations are such places: the third component tells them apart. */
  lemma DeclaredLocationsAreSeparate()
    ensures Separate(LOCATIONS)
  {
    forall i, j | 0 <= i < |LOCATIONS| && 0 <= j < |LOCATIONS| && i != j ensures Apart(LOCATIONS[i], LOCATIONS[j]) {
      assert "embedded-browser"[0] == 'e' && "local-executor"[0] == 'l';
      assert "media-toolchain"[1] == 'e' && "motion-video-worker"[7] == 'v';
      assert "material-video-worker"[1] == 'a' && "motion-catalog"[7] == 'c';
      assert LOCATIONS[i][2] != LOCATIONS[j][2];
    }
    forall i | 0 <= i < |LOCATIONS| ensures IsPlainRoot(LOCATIONS[i]) {
      var name := LOCATIONS[i][|LOCATIONS[i]| - 1];
      assert name[|name| - 1] != 'p' && name[|name| - 1] != 'k';  // .app, .framework
    }
  }

  const STAGING_MANIFEST := "staging-manifest.json"
  const DISTRIBUTION_MANIFEST := "distribution-manifest.v1.json"
  const EXECUTOR_MANIFEST := "executor-manifest.v1.json"
  const EXECUTOR_SIGNATURE := "executor-manifest.v1.sig"
  const MEDIA_MANIFEST := "manifest.json"

  const EXECUTOR_SCOPE := Scope([], {EXECUTOR_MANIFEST, EXECUTOR_SIGNATURE}, true)
  const MEDIA_SCOPE := Scope([], {MEDIA_MANIFEST}, false)

  function BrowserScope(rootEntry: string): Scope {
    Scope([rootEntry], {}, true)
  }

  /** `inventoried_payloads`: derived from the one declaration, so none can be forgotten. */
  function InventoriedPayloads(application: Path, locations: seq<Path>): seq<Path> {
    seq(|locations|, i requires 0 <= i < |locations| => application + locations[i])
  }

  lemma InstalledApart(application: Path, x: Path, y: Path)
    requires Apart(x, y)
    ensures Apart(application + x, application + y)
  {
    assert (application + x)[|application|..] == x && (application + y)[|application|..] == y;
  }

  predicate IsFolder(region: Tree) {
    [] in region && region[[]].content.Folder?
  }

  /** A payload without the documents at its top that the assembly writes. */
  function Bare(region: Tree, documents: set<string>): Tree {
    map r | r in region && !(|r| == 1 && r[0] in documents) :: region[r]
  }

  /** The files of a payload are the staged ones: only signatures and the named documents are new. */
  ghost predicate Holds(payload: Tree, staged: Tree, documents: set<string>) {
    SameContents(Bare(staged, documents), Bare(payload, documents))
  }

  lemma HoldsTransitive(a: Tree, b: Tree, c: Tree, documents: set<string>)
    requires Holds(b, a, documents) && Holds(c, b, documents)
    ensures Holds(c, a, documents)
  {
  }

  lemma SignedHolds(a: Tree, b: Tree, documents: set<string>)
    requires SameContents(a, b)
    ensures Holds(b, a, documents)
  {
  }

  lemma SignedRegionHolds(a: Tree, b: Tree, root: Path, documents: set<string>)
    requires SameContents(a, b)
    ensures SameContents(Region(a, root), Region(b, root)) && Holds(Region(b, root), Region(a, root), documents)
  {
  }

  function WithManifest(region: Tree, name: string, scope: Scope): Tree {
    region[[name] := Node(Inventory(Taken(region, scope)), None)]
  }

  lemma ManifestHolds(region: Tree, name: string, scope: Scope, documents: set<string>)
    requires name in documents
    ensures Holds(WithManifest(region, name, scope), region, documents)
  {
  }

  lemma DocumentHolds(region: Tree, name: string, node: Node, documents: set<string>)
    requires name in documents
    ensures Holds(region[[name] := node], region, documents)
  {
  }

  const BROWSER_DOCUMENTS := {STAGING_MANIFEST, DISTRIBUTION_MANIFEST}
  const EXECUTOR_DOCUMENTS := {EXECUTOR_MANIFEST, EXECUTOR_SIGNATURE}
  const MEDIA_DOCUMENTS := {MEDIA_MANIFEST}

  ghost predicate PayloadSealed(region: Tree) {
    IsFolder(region) && CodeSealed(region)
  }

  ghost predicate BrowserSound(region: Tree, rootEntry: string) {
    && PayloadSealed(region)
    && Describes(region, STAGING_MANIFEST, BrowserScope(rootEntry))
    && Describes(region, DISTRIBUTION_MANIFEST, BrowserScope(rootEntry))
  }

  ghost predicate ExecutorSound(region: Tree) {
    PayloadSealed(region) && Describes(region, EXECUTOR_MANIFEST, EXECUTOR_SCOPE)
  }

  ghost predicate MediaSound(region: Tree) {
    PayloadSealed(region) && Describes(region, MEDIA_MANIFEST, MEDIA_SCOPE)
  }

  /** Every payload is what its manifest and its seals say. */
  ghost predicate PayloadsSound(payloads: seq<Tree>, rootEntry: string)
    requires |payloads| == 6
  {
    && BrowserSound(payloads[BROWSER], rootEntry)
    && ExecutorSound(payloads[EXECUTOR])
    && MediaSound(payloads[MEDIA])
    && PayloadSealed(payloads[MOTION])
    && PayloadSealed(payloads[MATERIAL])
  }

  // ----- the same in plain terms -----

  predicate IsListable(content: Content, links: bool) {
    content.MachO? || content.Data? || content.Inventory? || (links && content.Link?)
  }

  predicate InPlace(r: Path, place: Path, reserved: set<string>) {
    place < r && !(|r| == |place| + 1 && r[|place|] in reserved)
  }

  /**
    The document lists what is below `place`, reserved names there aside: every binary, every other file and, if asked
    for, every link, with the node it has now; and else only the signatures of bundles.
   */
  ghost predicate ListsFiles(region: Tree, document: string, place: Path, reserved: set<string>, links: bool) {
    && [document] in region && region[[document]].content.Inventory?
    && var entries := region[[document]].content.entries;
       && (forall r :: r in region && InPlace(r, place, reserved) && IsListable(region[r].content, links) ==>
             r in entries && entries[r] == region[r])
       && forall r :: r in entries ==>
            && r in region && InPlace(r, place, reserved) && entries[r] == region[r]
            && (IsListable(region[r].content, links) || (region[r].content.Folder? && region[r].seal.Some?))
  }

  ghost predicate BrowserListed(region: Tree, rootEntry: string) {
    && ListsFiles(region, "staging-manifest.json", [rootEntry], {}, true)
    && ListsFiles(region, "distribution-manifest.v1.json", [rootEntry], {}, true)
  }

  ghost predicate ExecutorListed(region: Tree) {
    ListsFiles(region, "executor-manifest.v1.json", [], {"executor-manifest.v1.json", "executor-manifest.v1.sig"}, true)
  }

  ghost predicate MediaListed(region: Tree) {
    ListsFiles(region, "manifest.json", [], {"manifest.json"}, false)
  }

  lemma DescribedIsListed(region: Tree, name: string, scope: Scope)
    requires Describes(region, name, scope)
    ensures ListsFiles(region, name, scope.root, scope.reserved, scope.links)
  {
  }

  lemma SoundIsListed(payloads: seq<Tree>, rootEntry: string)
    requires |payloads| == 6 && PayloadsSound(payloads, rootEntry)
    ensures BrowserListed(payloads[BROWSER], rootEntry)
    ensures ExecutorListed(payloads[EXECUTOR]) && MediaListed(payloads[MEDIA])
  {
    DescribedIsListed(payloads[BROWSER], STAGING_MANIFEST, BrowserScope(rootEntry));
    DescribedIsListed(payloads[BROWSER], DISTRIBUTION_MANIFEST, BrowserScope(rootEntry));
    DescribedIsListed(payloads[EXECUTOR], EXECUTOR_MANIFEST, EXECUTOR_SCOPE);
    DescribedIsListed(payloads[MEDIA], MEDIA_MANIFEST, MEDIA_SCOPE);
  }

  /** Signing any binary in the manifest's place once more makes the manifest wrong. */
  lemma LaterSignatureIsNotListed(
      region: Tree, n: Path, now: nat, document: string, place: Path, reserved: set<string>, links: bool)
    requires ListsFiles(region, document, place, reserved, links) && n != [document]
    requires n in region && region[n].content.MachO? && InPlace(n, place, reserved)
    requires region[n].seal.Some? ==> region[n].seal.value.at < now
    ensures !ListsFiles(Signed(region, n, now), document, place, reserved, links)
  {
    var after := Signed(region, n, now);
    assert after[[document]] == region[[document]];
    assert region[[document]].content.entries[n] == region[n] != after[n];
    assert IsListable(after[n].content, links);
  }

  /** A binary or a code bundle below `application`, outside the catalog and codesign's own files. */
  predicate IsShippedCode(tree: Tree, application: Path, catalog: Path, n: Path) {
    && n in tree && application < n && !(application + catalog <= n)
    && (forall i :: |application| <= i < |n| ==> n[i] != "_CodeSignature" && n[i] != "CodeResources")
    && (tree[n].content.MachO? || (tree[n].content.Folder? && HasBundleSuffix(n[|n| - 1])))
  }

  lemma SealedMeansShippedCode(tree: Tree, application: Path, catalog: Path)
    requires PackageSealed(tree, application, catalog)
    ensures forall n :: IsShippedCode(tree, application, catalog, n) ==> SealValid(Region(tree, n))
  {
    forall n | IsShippedCode(tree, application, catalog, n) ensures SealValid(Region(tree, n)) {
      assert [application + catalog][0] == application + catalog;
      assert |".app"| == 4 && |".framework"| == 10;
      assert Signable(tree, application, [application + catalog], n);
    }
  }

  /** The outer seal is valid, and so is the seal of every piece of code outside the catalog of parts. */
  ghost predicate PackageSealed(tree: Tree, application: Path, catalog: Path) {
    && SealValid(Region(tree, application))
    && forall n :: Signable(tree, application, [application + catalog], n) ==> SealValid(Region(tree, n))
  }

  lemma CodeInPayload(tree: Tree, application: Path, location: Path, exclude: seq<Path>, n: Path)
    requires IsPlainRoot(location) && PayloadSealed(Region(tree, application + location))
    requires application + location <= n && Signable(tree, application, exclude, n)
    ensures SealValid(Region(tree, n))
  {
    var payload := application + location;
    var r := n[|payload|..];
    assert n == payload + r;
    assert r in Region(tree, payload);
    assert n != application by { assert |n| > |application|; }
    assert payload[|payload| - 1] == location[|location| - 1];
    assert r != [] by {
      assert r == [] ==> n == payload;
    }
    forall k | 0 <= k < |r| ensures !IsSignatureArtefact(r[k]) {
      assert r[k] == n[|payload| + k];
    }
    assert r[|r| - 1] == n[|n| - 1];
    assert IsCode(Region(tree, payload), r);
    RegionOfRegion(tree, payload, r);
  }
}

/** The assembly steps, in the order `build_release_package.py` and `release_assembly.py` take them. */
module ReleaseWorkspace {
  import Outcomes
  import opened Enumeration
  import opened SigningTree
  import opened ReleaseAssembly

  /** Where one release run keeps its trees. */
  datatype Layout =
    Layout(browser: Path, executor: Path, media: Path, motion: Path, material: Path, catalog: Path,
           application: Path, locations: seq<Path>, rootEntry: string,
           required: seq<seq<Path>>,  // the files that prove a resource arrived, per resource
           linked: (Tree, Path) -> bool,  // a path over a link of a payload ends at a file with contents
           accepts: Tree -> bool)  // what `verify_distribution` demands of a browser besides its inventory

  /** The staged trees: browser, Executor, the three video resources, catalog. */
  function Staging(l: Layout): seq<Path> {
    [l.browser, l.executor, l.media, l.motion, l.material, l.catalog]
  }

  predicate WellPlaced(l: Layout) {
    && (forall i, j {:trigger Apart(Staging(l)[i], Staging(l)[j])} ::
         0 <= i < 6 && 0 <= j < 6 && i != j ==> Apart(Staging(l)[i], Staging(l)[j]))
    && (forall i {:trigger Apart(l.application, Staging(l)[i])} :: 0 <= i < 6 ==> Apart(l.application, Staging(l)[i]))
    && IsPlainRoot(l.browser) && IsPlainRoot(l.executor)
    && l.application != [] && IsBundleName(l.application[|l.application| - 1])
    && Separate(l.locations) && |l.required| == 6
    && l.rootEntry != STAGING_MANIFEST && l.rootEntry != DISTRIBUTION_MANIFEST
  }

  /** `is_file` and a size above zero, for one file of a payload. */
  predicate Present(region: Tree, r: Path, linked: (Tree, Path) -> bool) {
    || (r in region && HoldsBytes(region[r].content))
    || ((exists k :: 0 <= k <= |r| && r[..k] in region && region[r[..k]].content.Link?) && linked(region, r))
  }

  predicate HoldsBytes(content: Content) {
    content.MachO? || content.Inventory? || (content.Data? && content.bytes != [])
  }

  /** Which required files count: binaries, documents and files with contents; no directory and no empty file. */
  lemma PresentMeans(region: Tree, r: Path, linked: (Tree, Path) -> bool)
    ensures r in region && (forall k :: 0 <= k <= |r| && r[..k] in region ==> !region[r[..k]].content.Link?) ==>
              (Present(region, r, linked) <==> !region[r].content.Folder? && region[r].content != Data([]))
    ensures r !in region && (forall k :: 0 <= k <= |r| && r[..k] in region ==> !region[r[..k]].content.Link?) ==>
              !Present(region, r, linked)
    ensures (exists k :: 0 <= k <= |r| && r[..k] in region && region[r[..k]].content.Link?) && r !in region ==>
              (Present(region, r, linked) <==> linked(region, r))
    ensures r in region && region[r].content.Link? ==> (Present(region, r, linked) <==> linked(region, r))
  {
    assert r[..|r|] == r;
  }

  predicate HasFiles(region: Tree, names: seq<Path>, linked: (Tree, Path) -> bool) {
    forall k {:trigger names[k]} :: 0 <= k < |names| ==> Present(region, names[k], linked)
  }

  /** Resource `i` arrived whole. */
  predicate Complete(region: Tree, l: Layout, i: nat)
    requires i < |l.required|
  {
    HasFiles(region, l.required[i], l.linked)
  }

  /** Everything but the subtree at `root`. */
  function Outside(tree: Tree, root: Path): Tree {
    map p | p in tree && !(root <= p) :: tree[p]
  }

  lemma SameOutsideIsEquality(a: Tree, b: Tree, root: Path)
    ensures SameOutside(a, b, root) <==> Outside(a, root) == Outside(b, root)
  {
    if Outside(a, root) == Outside(b, root) {
      forall p | !(root <= p) ensures (p in a <==> p in b) && (p in a ==> a[p] == b[p]) {
        assert p in a <==> p in Outside(a, root);
        assert p in b <==> p in Outside(b, root);
        assert p in a ==> Outside(a, root)[p] == a[p];
      }
    }
  }

  /** What the bundle holds at each declared place. */
  function Payloads(tree: Tree, l: Layout): (r: seq<Tree>)
    ensures |r| == |l.locations|
  {
    Regions(tree, l.application, l.locations)
  }

  function Regions(tree: Tree, root: Path, places: seq<Path>): (r: seq<Tree>)
    ensures |r| == |places|
  {
    seq(|places|, i requires 0 <= i < |places| => Region(tree, root + places[i]))
  }

  lemma RegionsAt(tree: Tree, root: Path, places: seq<Path>, i: nat)
    requires i < |places|
    ensures Regions(tree, root, places)[i] == Region(tree, root + places[i])
  {
  }

  lemma RegionsBelow(tree: Tree, root: Path, places: seq<Path>)
    ensures Regions(tree, root, places) == Regions(Region(tree, root), [], places)
  {
    forall i | 0 <= i < |places| ensures Regions(tree, root, places)[i] == Regions(Region(tree, root), [], places)[i] {
      RegionsAt(tree, root, places, i);
      RegionsAt(Region(tree, root), [], places, i);
      assert [] + places[i] == places[i];
      RegionOfRegion(tree, root, places[i]);
    }
  }

  lemma SameOutsideTransitive(a: Tree, b: Tree, c: Tree, root: Path)
    requires SameOutside(a, b, root) && SameOutside(b, c, root)
    ensures SameOutside(a, c, root)
  {
  }

  lemma PayloadAt(tree: Tree, l: Layout, i: nat)
    requires i < |l.locations|
    ensures Payloads(tree, l)[i] == Region(tree, l.application + l.locations[i])
  {
    RegionsAt(tree, l.application, l.locations, i);
  }

  /** Nothing outside the application has changed, and the application directory is still there. */
  ghost predicate Kept(a: Tree, b: Tree, application: Path) {
    && Outside(a, application) == Outside(b, application)
    && (IsFolder(Region(a, application)) ==> IsFolder(Region(b, application)))
  }

  lemma KeptSource(a: Tree, b: Tree, application: Path, source: Path)
    requires Kept(a, b, application) && Apart(application, source)
    ensures Region(a, source) == Region(b, source)
  {
    SameOutsideIsEquality(a, b, application);
    OutsideKeepsRegion(a, b, application, source);
  }

  /** A change inside one payload is a change of that payload only. */
  lemma InsideLocation(a: Tree, b: Tree, l: Layout, i: nat)
    requires Separate(l.locations) && i < |l.locations|
    requires SameOutside(a, b, l.application + l.locations[i])
    ensures Kept(a, b, l.application)
    ensures Payloads(b, l) == Payloads(a, l)[i := Region(b, l.application + l.locations[i])]
  {
    assert IsPlainRoot(l.locations[i]);
    InsideApplication(a, b, l.application, l.locations[i]);
    PayloadAt(b, l, i);
    forall j | 0 <= j < |l.locations| && j != i ensures Payloads(b, l)[j] == Payloads(a, l)[j] {
      OtherPayloadKept(a, b, l, i, j);
    }
  }

  lemma OtherPayloadKept(a: Tree, b: Tree, l: Layout, i: nat, j: nat)
    requires Separate(l.locations) && i < |l.locations| && j < |l.locations| && i != j
    requires SameOutside(a, b, l.application + l.locations[i])
    ensures Payloads(b, l)[j] == Payloads(a, l)[j]
  {
    assert Apart(l.locations[i], l.locations[j]);
    InstalledApart(l.application, l.locations[i], l.locations[j]);
    OutsideKeepsRegion(a, b, l.application + l.locations[i], l.application + l.locations[j]);
    PayloadAt(a, l, j);
    PayloadAt(b, l, j);
  }

  lemma InsideApplication(a: Tree, b: Tree, application: Path, location: Path)
    requires location != [] && SameOutside(a, b, application + location)
    ensures Kept(a, b, application)
  {
  }

  lemma LocationIsPlain(l: Layout, i: nat)
    requires WellPlaced(l) && i < |l.locations|
    ensures IsPlainRoot(l.locations[i]) && IsPlainRoot(l.application + l.locations[i])
  {
  }

  lemma StagedApart(l: Layout, i: nat)
    requires WellPlaced(l) && i < 6
    ensures Apart(l.application, Staging(l)[i])
  {
  }

  /** `sorted(installed.items())`: material, media, motion. */
  const NAME_ORDER: seq<nat> := [MATERIAL, MEDIA, MOTION]

  /** The first `k` resources in `order` had code and are sealed; every resource not in that part is as it was. */
  ghost predicate SignedSoFar(before: seq<Tree>, now: seq<Tree>, order: seq<nat>, k: nat) {
    && |before| == |now| == 6 && k <= |order| && (forall j :: 0 <= j < |order| ==> order[j] < 6)
    && (forall j :: 0 <= j < k ==> HasCode(before[order[j]]) && PayloadSealed(now[order[j]]))
    && (forall i :: 0 <= i < 6 && (forall j :: 0 <= j < k ==> order[j] != i) ==> now[i] == before[i])
  }

  /** Each payload has the contents it had. */
  ghost predicate AllSameContents(a: seq<Tree>, b: seq<Tree>) {
    |a| == |b| && forall i {:trigger SameContents(a[i], b[i])} :: 0 <= i < |a| ==> SameContents(a[i], b[i])
  }

  lemma SameContentsOneMore(before: seq<Tree>, now: seq<Tree>, after: seq<Tree>, i: nat)
    requires AllSameContents(before, now) && i < |now| == |after|
    requires after == now[i := after[i]] && SameContents(now[i], after[i])
    ensures AllSameContents(before, after)
  {
    forall j | 0 <= j < |before| ensures SameContents(before[j], after[j]) {
      assert SameContents(before[j], now[j]);
    }
  }

  lemma SignedOneMore(before: seq<Tree>, now: seq<Tree>, after: seq<Tree>, order: seq<nat>, k: nat)
    requires k < |order| && SignedSoFar(before, now, order, k) && Distinct(order) && |after| == 6
    requires after == now[order[k] := after[order[k]]]
    requires HasCode(before[order[k]]) && PayloadSealed(after[order[k]])
    ensures SignedSoFar(before, after, order, k + 1)
  {
  }

  ghost predicate VideoStaged(tree: Tree, l: Layout) {
    IsFolder(Region(tree, l.media)) && IsFolder(Region(tree, l.motion)) && IsFolder(Region(tree, l.material))
  }

  ghost predicate VideoHasCode(tree: Tree, l: Layout) {
    HasCode(Region(tree, l.media)) && HasCode(Region(tree, l.motion)) && HasCode(Region(tree, l.material))
  }

  ghost predicate VideoFolders(payloads: seq<Tree>)
    requires |payloads| == 6
  {
    IsFolder(payloads[MEDIA]) && IsFolder(payloads[MOTION]) && IsFolder(payloads[MATERIAL])
  }

  ghost predicate VideoCode(payloads: seq<Tree>)
    requires |payloads| == 6
  {
    HasCode(payloads[MEDIA]) && HasCode(payloads[MOTION]) && HasCode(payloads[MATERIAL])
  }

  ghost predicate VideoSealed(payloads: seq<Tree>)
    requires |payloads| == 6
  {
    PayloadSealed(payloads[MEDIA]) && PayloadSealed(payloads[MOTION]) && PayloadSealed(payloads[MATERIAL])
  }

  ghost predicate FoldersIn(payloads: seq<Tree>, order: seq<nat>)
    requires |payloads| == 6
  {
    forall k :: 0 <= k < |order| ==> order[k] < 6 && IsFolder(payloads[order[k]])
  }

  ghost predicate CodeIn(payloads: seq<Tree>, order: seq<nat>)
    requires |payloads| == 6
  {
    forall k :: 0 <= k < |order| ==> order[k] < 6 && HasCode(payloads[order[k]])
  }

  ghost predicate SealedIn(payloads: seq<Tree>, order: seq<nat>)
    requires |payloads| == 6
  {
    forall k :: 0 <= k < |order| ==> order[k] < 6 && PayloadSealed(payloads[order[k]])
  }

  /** The name order goes through the three video resources. */
  lemma NameOrderIsVideo(payloads: seq<Tree>)
    requires |payloads| == 6
    ensures FoldersIn(payloads, NAME_ORDER) <==> VideoFolders(payloads)
    ensures CodeIn(payloads, NAME_ORDER) <==> VideoCode(payloads)
    ensures SealedIn(payloads, NAME_ORDER) <==> VideoSealed(payloads)
    ensures Distinct(NAME_ORDER)
    ensures BROWSER !in NAME_ORDER && EXECUTOR !in NAME_ORDER && CATALOG !in NAME_ORDER
  {
    assert NAME_ORDER[0] == MATERIAL && NAME_ORDER[1] == MEDIA && NAME_ORDER[2] == MOTION;
  }

  ghost predicate OthersKept(before: seq<Tree>, after: seq<Tree>)
    requires |before| == |after| == 6
  {
    && after[BROWSER] == before[BROWSER]
    && after[EXECUTOR] == before[EXECUTOR]
    && after[CATALOG] == before[CATALOG]
  }

  ghost predicate VideoSound(payloads: seq<Tree>)
    requires |payloads| == 6
  {
    MediaSound(payloads[MEDIA]) && PayloadSealed(payloads[MOTION]) && PayloadSealed(payloads[MATERIAL])
  }

  /** Each of the three holds what it was installed with. */
  ghost predicate VideoHolds(payloads: seq<Tree>, installed: seq<Tree>)
    requires |payloads| == |installed| == 6
  {
    && Holds(payloads[MEDIA], installed[MEDIA], MEDIA_DOCUMENTS)
    && Holds(payloads[MOTION], installed[MOTION], {})
    && Holds(payloads[MATERIAL], installed[MATERIAL], {})
  }

  lemma SignedVideoHolds(before: seq<Tree>, signed: seq<Tree>)
    requires |before| == 6 && AllSameContents(before, signed)
    ensures VideoHolds(signed, before)
  {
    assert SameContents(before[MEDIA], signed[MEDIA]);
    assert SameContents(before[MOTION], signed[MOTION]) && SameContents(before[MATERIAL], signed[MATERIAL]);
    SignedHolds(before[MEDIA], signed[MEDIA], MEDIA_DOCUMENTS);
    SignedHolds(before[MOTION], signed[MOTION], {});
    SignedHolds(before[MATERIAL], signed[MATERIAL], {});
  }

  /** Every payload of the package holds the files that were staged for it. */
  ghost predicate PayloadsHold(payloads: seq<Tree>, staged: Tree, l: Layout)
    requires |payloads| == 6
  {
    && Holds(payloads[BROWSER], Region(staged, l.browser), BROWSER_DOCUMENTS)
    && Holds(payloads[EXECUTOR], Region(staged, l.executor), EXECUTOR_DOCUMENTS)
    && ResourcesHold(payloads, Resources(staged, l))
  }

  ghost predicate ResourcesHold(payloads: seq<Tree>, staged: seq<Tree>)
    requires |payloads| == 6 && |staged| == 4
  {
    && Holds(payloads[MEDIA], staged[0], MEDIA_DOCUMENTS)
    && Holds(payloads[MOTION], staged[1], {})
    && Holds(payloads[MATERIAL], staged[2], {})
    && payloads[CATALOG] == staged[3]
  }

  lemma AllSealed(payloads: seq<Tree>, rootEntry: string)
    requires |payloads| == 6 && PayloadsSound(payloads, rootEntry)
    ensures forall i :: 0 <= i < 6 && i != CATALOG ==> PayloadSealed(payloads[i])
  {
  }

  predicate VideoComplete(payloads: seq<Tree>, l: Layout)
    requires |payloads| == |l.required| == 6
  {
    Complete(payloads[MEDIA], l, MEDIA) && Complete(payloads[MOTION], l, MOTION)
    && Complete(payloads[MATERIAL], l, MATERIAL)
  }

  predicate VideoRoom(payloads: seq<Tree>)
    requires |payloads| == 6
  {
    payloads[MEDIA] == map[] && payloads[MOTION] == map[] && payloads[MATERIAL] == map[]
  }

  function WithVideo(payloads: seq<Tree>, tree: Tree, l: Layout): seq<Tree>
    requires |payloads| == 6
  {
    payloads[MEDIA := Region(tree, l.media)][MOTION := Region(tree, l.motion)][MATERIAL := Region(tree, l.material)]
  }

  /** Every resource that is only copied in is staged and whole, and each executable one carries code. */
  ghost predicate HasResources(staged: seq<Tree>, l: Layout)
    requires |staged| == 4 && |l.required| == 6
  {
    && IsFolder(staged[0]) && IsFolder(staged[1]) && IsFolder(staged[2]) && IsFolder(staged[3])
    && HasCode(staged[0]) && HasCode(staged[1]) && HasCode(staged[2])
    && Complete(staged[0], l, MEDIA) && Complete(staged[1], l, MOTION)
    && Complete(staged[2], l, MATERIAL) && Complete(staged[3], l, CATALOG)
  }

  function Resources(tree: Tree, l: Layout): (r: seq<Tree>)
    ensures |r| == 4
  {
    [Region(tree, l.media), Region(tree, l.motion), Region(tree, l.material), Region(tree, l.catalog)]
  }

  ghost predicate CanInstall(tree: Tree, l: Layout)
    requires |l.locations| == |l.required| == 6
  {
    HasResources(Resources(tree, l), l) && HasRoom(Payloads(tree, l))
  }

  /** The places for the resources are free. */
  predicate HasRoom(payloads: seq<Tree>)
    requires |payloads| == 6
  {
    VideoRoom(payloads) && payloads[CATALOG] == map[] && payloads[BROWSER] == map[]
  }

  /** The three video resources are staged whole, and their places are free. */
  ghost predicate CanAddVideo(tree: Tree, l: Layout)
    requires |l.locations| == |l.required| == 6
  {
    && VideoStaged(tree, l) && VideoRoom(Payloads(tree, l))
    && VideoComplete(WithVideo(Payloads(tree, l), tree, l), l)
  }

  lemma ThreeUpdates<T>(s: seq<T>, media: T, motion: T, material: T)
    requires |s| == 6
    ensures var r := s[MEDIA := media][MOTION := motion][MATERIAL := material];
            && r[MEDIA] == media && r[MOTION] == motion && r[MATERIAL] == material
            && r[BROWSER] == s[BROWSER] && r[EXECUTOR] == s[EXECUTOR] && r[CATALOG] == s[CATALOG]
  {
  }

  lemma WithVideoHolds(payloads: seq<Tree>, tree: Tree, l: Layout)
    requires |payloads| == 6
    ensures VideoFolders(WithVideo(payloads, tree, l)) <==> VideoStaged(tree, l)
    ensures VideoCode(WithVideo(payloads, tree, l)) <==> VideoHasCode(tree, l)
    ensures OthersKept(payloads, WithVideo(payloads, tree, l))
  {
    ThreeUpdates(payloads, Region(tree, l.media), Region(tree, l.motion), Region(tree, l.material));
  }

  ghost predicate CanAddCatalog(tree: Tree, l: Layout, payloads: seq<Tree>)
    requires |payloads| == |l.required| == 6
  {
    IsFolder(Region(tree, l.catalog)) && Complete(Region(tree, l.catalog), l, CATALOG) && payloads[CATALOG] == map[]
  }

  lemma CanInstallMeans(tree: Tree, l: Layout)
    requires |l.locations| == |l.required| == 6
    ensures CanInstall(tree, l) <==>
              && CanAddVideo(tree, l) && VideoHasCode(tree, l)
              && CanAddCatalog(tree, l, Payloads(tree, l)) && Payloads(tree, l)[BROWSER] == map[]
  {
  }

  lemma WithVideoAt(payloads: seq<Tree>, tree: Tree, l: Layout)
    requires |payloads| == 6
    ensures WithVideo(payloads, tree, l)[MEDIA] == Resources(tree, l)[0]
    ensures WithVideo(payloads, tree, l)[MOTION] == Resources(tree, l)[1]
    ensures WithVideo(payloads, tree, l)[MATERIAL] == Resources(tree, l)[2]
  {
    ThreeUpdates(payloads, Region(tree, l.media), Region(tree, l.motion), Region(tree, l.material));
  }

  lemma CompletedHold(signed: seq<Tree>, installed: seq<Tree>, staged: seq<Tree>, browser: Tree)
    requires |signed| == |installed| == 6 && |staged| == 4 && VideoHolds(signed, installed)
    requires installed[MEDIA] == staged[0] && installed[MOTION] == staged[1] && installed[MATERIAL] == staged[2]
    ensures ResourcesHold(signed[CATALOG := staged[3]][BROWSER := browser], staged)
  {
  }

  lemma InstalledHold(tree: Tree, l: Layout, before: seq<Tree>, signed: seq<Tree>, after: seq<Tree>)
    requires |before| == |signed| == 6 && OthersKept(before, signed)
    requires VideoHolds(signed, WithVideo(before, tree, l))
    requires after == signed[CATALOG := Region(tree, l.catalog)][BROWSER := Region(tree, l.browser)]
    ensures ResourcesHold(after, Resources(tree, l))
    ensures after[BROWSER] == Region(tree, l.browser) && after[EXECUTOR] == before[EXECUTOR]
  {
    WithVideoAt(before, tree, l);
    CompletedHold(signed, WithVideo(before, tree, l), Resources(tree, l), Region(tree, l.browser));
  }

  lemma CatalogStays(a: Tree, b: Tree, l: Layout, payloads: seq<Tree>)
    requires |payloads| == |l.required| == 6 && Region(a, l.catalog) == Region(b, l.catalog)
    ensures CanAddCatalog(a, l, payloads) <==> CanAddCatalog(b, l, payloads)
  {
  }

  lemma VideoLeavesRest(tree: Tree, l: Layout, before: seq<Tree>, after: seq<Tree>)
    requires |before| == |after| == |l.required| == 6 && OthersKept(before, after)
    ensures CanAddCatalog(tree, l, after) <==> CanAddCatalog(tree, l, before)
  {
  }

  ghost predicate CanAssemble(tree: Tree, l: Layout, bundle: Tree)
    requires |l.locations| == |l.required| == 6
  {
    && HasCode(Region(tree, l.browser)) && HasCode(Region(tree, l.executor))
    && HasResources(Resources(tree, l), l) && HasRoom(Regions(bundle, [], l.locations))
  }

  /** Nothing before the installation touches the resources that are only copied in. */
  lemma ResourcesKept(a: Tree, b: Tree, l: Layout, root: Path)
    requires SameOutside(a, b, root)
    requires Apart(root, l.media) && Apart(root, l.motion) && Apart(root, l.material) && Apart(root, l.catalog)
    ensures Resources(a, l) == Resources(b, l)
  {
    OutsideKeepsRegion(a, b, root, l.media);
    OutsideKeepsRegion(a, b, root, l.motion);
    OutsideKeepsRegion(a, b, root, l.material);
    OutsideKeepsRegion(a, b, root, l.catalog);
  }

  lemma StagedPairsApart(l: Layout, w: nat)
    requires WellPlaced(l) && w < 2
    ensures var root := if w == 0 then l.browser else l.executor;
            Apart(root, l.media) && Apart(root, l.motion) && Apart(root, l.material) && Apart(root, l.catalog)
    ensures Apart(l.browser, l.executor) && Apart(l.executor, l.browser)
  {
    assert Apart(Staging(l)[w], Staging(l)[2]) && Apart(Staging(l)[w], Staging(l)[3]);
    assert Apart(Staging(l)[w], Staging(l)[4]) && Apart(Staging(l)[w], Staging(l)[5]);
    assert Apart(Staging(l)[0], Staging(l)[1]);
  }

  lemma BrowserWork(a: Tree, b: Tree, l: Layout)
    requires WellPlaced(l) && SameOutside(a, b, l.browser)
    ensures Region(a, l.executor) == Region(b, l.executor) && Resources(a, l) == Resources(b, l)
  {
    StagedPairsApart(l, 0);
    OutsideKeepsRegion(a, b, l.browser, l.executor);
    ResourcesKept(a, b, l, l.browser);
  }

  lemma ExecutorWork(a: Tree, b: Tree, l: Layout)
    requires WellPlaced(l) && SameOutside(a, b, l.executor)
    ensures Region(a, l.browser) == Region(b, l.browser) && Resources(a, l) == Resources(b, l)
  {
    StagedPairsApart(l, 1);
    OutsideKeepsRegion(a, b, l.executor, l.browser);
    ResourcesKept(a, b, l, l.executor);
  }

  lemma ApplicationWork(a: Tree, b: Tree, l: Layout)
    requires WellPlaced(l) && SameOutside(a, b, l.application)
    ensures Region(a, l.browser) == Region(b, l.browser) && Resources(a, l) == Resources(b, l)
  {
    StagedApart(l, 0);
    StagedApart(l, 2);
    StagedApart(l, 3);
    StagedApart(l, 4);
    StagedApart(l, 5);
    OutsideKeepsRegion(a, b, l.application, l.browser);
    ResourcesKept(a, b, l, l.application);
  }

  lemma ExecutorTakesNoRoom(payloads: seq<Tree>, executor: Tree)
    requires |payloads| == 6
    ensures HasRoom(payloads[EXECUTOR := executor]) <==> HasRoom(payloads)
  {
  }

  /** The exclusions keep the outer signing out of every declared payload. */
  lemma OuterSealKeepsPayloads(tree: Tree, l: Layout, nodes: seq<Path>, now: nat)
    requires WellPlaced(l) && forall i :: 0 <= i < |nodes| ==> nodes[i] in tree
    requires IsSigningOrder(tree, l.application, InventoriedPayloads(l.application, l.locations), nodes)
    ensures Payloads(SignAll(tree, nodes, now), l) == Payloads(tree, l)
  {
    var exclude := InventoriedPayloads(l.application, l.locations);
    forall j | 0 <= j < |l.locations|
      ensures Payloads(SignAll(tree, nodes, now), l)[j] == Payloads(tree, l)[j]
    {
      forall i | 0 <= i < |nodes| ensures !(exclude[j] <= nodes[i]) {
        assert nodes[i] in nodes;
        assert IsPlainRoot(l.locations[j]);
        assert |exclude[j]| > |l.application|;
      }
      SignAllLeavesOthers(tree, nodes, now, exclude[j]);
      PayloadAt(tree, l, j);
      PayloadAt(SignAll(tree, nodes, now), l, j);
    }
  }

  lemma BundleIsSigned(tree: Tree, l: Layout, nodes: seq<Path>)
    requires WellPlaced(l) && IsFolder(Region(tree, l.application))
    requires IsSigningOrder(tree, l.application, InventoriedPayloads(l.application, l.locations), nodes)
    ensures l.application in nodes
  {
    assert l.application + [] == l.application;
    assert Signable(tree, l.application, InventoriedPayloads(l.application, l.locations), l.application);
  }

  lemma NodesAreInside(tree: Tree, root: Path, nodes: seq<Path>, now: nat)
    requires forall i :: 0 <= i < |nodes| ==> nodes[i] in tree
    requires forall p :: p in nodes ==> root <= p
    ensures SameOutside(tree, SignAll(tree, nodes, now), root)
  {
    forall i | 0 <= i < |nodes| ensures root <= nodes[i] {
      assert nodes[i] in nodes;
    }
    SignAllChangesOnlyInside(tree, nodes, now, root);
  }

  /** Code is either inside a payload, signed there before its manifest was taken, or signed by the outer seal. */
  lemma EverythingIsSealed(before: Tree, after: Tree, l: Layout, nodes: seq<Path>)
    requires WellPlaced(l) && SameContents(before, after)
    requires IsSigningOrder(before, l.application, InventoriedPayloads(l.application, l.locations), nodes)
    requires forall i :: 0 <= i < |nodes| ==> SealValid(Region(after, nodes[i]))
    requires forall i :: 0 <= i < |l.locations| && i != CATALOG ==> PayloadSealed(Payloads(after, l)[i])
    requires l.application in nodes
    ensures PackageSealed(after, l.application, l.locations[CATALOG])
  {
    var exclude := InventoriedPayloads(l.application, l.locations);
    var catalog := [l.application + l.locations[CATALOG]];
    forall n | Signable(after, l.application, catalog, n) ensures SealValid(Region(after, n)) {
      if n != l.application && Excluded(n, exclude) {
        var i :| 0 <= i < |exclude| && exclude[i] <= n;
        assert !(catalog[0] <= n);
        assert PayloadSealed(Payloads(after, l)[i]);
        PayloadAt(after, l, i);
        CodeInPayload(after, l.application, l.locations[i], catalog, n);
      } else {
        assert Signable(before, l.application, exclude, n);
        assert n in nodes;
      }
    }
  }

  class Workspace {
    var tree: Tree
    var clock: nat

    constructor (tree: Tree)
      ensures this.tree == tree
    {
      this.tree, clock := tree, 0;
    }

    /** `sign_tree`: nothing to sign is a rejection, otherwise one codesign run per node, innermost first. */
    method SignTree(root: Path, exclude: seq<Path>) returns (ok: bool, ghost nodes: seq<Path>)
      modifies this
      ensures IsSigningOrder(old(tree), root, exclude, nodes)
      ensures forall i :: 0 <= i < |nodes| ==> nodes[i] in old(tree)
      ensures ok <==> nodes != []
      ensures tree == SignAll(old(tree), nodes, old(clock))
      ensures forall i :: 0 <= i < |nodes| ==> SealValid(Region(tree, nodes[i]))
    {
      var order := SignableNodes(tree, root, exclude);
      nodes := order;
      ghost var before, start := tree, clock;
      forall i | 0 <= i < |order| ensures order[i] in tree {
        assert order[i] in order;
      }
      ok := order != [];
      for i := 0 to |order|
        invariant tree.Keys == before.Keys
        invariant SignAll(tree, order[i..], clock) == SignAll(before, order, start)
      {
        assert order[i..][0] == order[i] && order[i..][1..] == order[i + 1..];
        tree := Signed(tree, order[i], clock);
        clock := clock + 1;
      }
      forall i | 0 <= i < |nodes| ensures SealValid(Region(tree, nodes[i])) {
        SignAllLeavesEverySealValid(before, nodes, start, i);
      }
    }

    /** Sign one payload on its own. Everything apart from it keeps its bytes. */
    method SignPayload(root: Path) returns (ok: bool)
      requires IsPlainRoot(root)
      modifies this
      ensures ok <==> HasCode(old(Region(tree, root)))
      ensures CodeSealed(Region(tree, root))
      ensures SameContents(old(tree), tree) && SameOutside(old(tree), tree, root)
    {
      ghost var nodes;
      ok, nodes := SignTree(root, []);
      ghost var before := old(tree);
      SignedPayloadIsSealed(before, root, nodes, old(clock));
      SigningKeepsContents(before, nodes, old(clock));
      forall i | 0 <= i < |nodes| ensures root <= nodes[i] {
        assert nodes[i] in nodes;
      }
      SignAllChangesOnlyInside(before, nodes, old(clock), root);
    }

    /** A faithful copy into a place that is still free; an occupied place is a rejection. */
    method CopyTree(source: Path, destination: Path) returns (ok: bool)
      modifies this`tree
      ensures ok <==> IsFolder(old(Region(tree, source))) && old(Region(tree, destination)) == map[]
      ensures ok ==> Region(tree, destination) == old(Region(tree, source))
      ensures SameOutside(old(tree), tree, destination)
    {
      var copied := Region(tree, source);
      ok := IsFolder(copied) && Region(tree, destination) == map[];
      if ok {
        PlacedRegion(tree, destination, copied);
        PlacedChangesOnlyInside(tree, destination, copied);
        tree := Placed(tree, destination, copied);
      }
    }

    /** Write one document at the top of a payload. */
    method WriteDocument(payload: Path, name: string, entries: Tree)
      modifies this`tree
      ensures Region(tree, payload) ==
              old(Region(tree, payload))[[name] := Node(Inventory(entries), Outcomes.None)]
      ensures SameOutside(old(tree), tree, payload)
    {
      DocumentedRegion(tree, payload, name, entries);
      assert payload <= payload + [name];
      tree := Documented(tree, payload, name, entries);
    }

    /** Take a payload's manifest over the bytes it has at this moment, and write it. */
    method WriteManifest(payload: Path, name: string, scope: Scope)
      requires IsUncovered(scope, name)
      modifies this`tree
      ensures Describes(Region(tree, payload), name, scope)
      ensures old(PayloadSealed(Region(tree, payload))) ==> PayloadSealed(Region(tree, payload))
      ensures Region(tree, payload) == WithManifest(old(Region(tree, payload)), name, scope)
      ensures SameOutside(old(tree), tree, payload)
    {
      ghost var region := Region(tree, payload);
      var entries := Taken(Region(tree, payload), scope);
      DocumentLeavesScope(region, name, scope, Node(Inventory(entries), Outcomes.None));
      WriteDocument(payload, name, entries);
      if PayloadSealed(region) {
        DocumentKeepsCodeSealed(region, name, Node(Inventory(entries), Outcomes.None));
      }
    }

    /** `stage_browser_distribution`: sign, re-take the staging inventory, promote it to the distribution manifest. */
    method StageBrowser(l: Layout) returns (ok: bool)
      requires WellPlaced(l) && IsFolder(Region(tree, l.browser))
      modifies this
      ensures ok <==> HasCode(old(Region(tree, l.browser)))
      ensures ok ==> BrowserSound(Region(tree, l.browser), l.rootEntry)
      ensures Holds(Region(tree, l.browser), old(Region(tree, l.browser)), BROWSER_DOCUMENTS)
      ensures SameOutside(old(tree), tree, l.browser)
    {
      ghost var staged := Region(tree, l.browser);
      ok := SignPayload(l.browser);
      ghost var signed := Region(tree, l.browser);
      SignedRegionHolds(old(tree), tree, l.browser, BROWSER_DOCUMENTS);
      if !ok {
        return;
      }
      assert l.browser + [] == l.browser;
      assert PayloadSealed(Region(tree, l.browser));
      var scope := BrowserScope(l.rootEntry);
      assert [l.rootEntry][0] != [STAGING_MANIFEST][0] && [l.rootEntry][0] != [DISTRIBUTION_MANIFEST][0];
      WriteManifest(l.browser, STAGING_MANIFEST, scope);
      ghost var region := Region(tree, l.browser);
      assert [STAGING_MANIFEST] in region;
      var entries := tree[l.browser + [STAGING_MANIFEST]].content.entries;
      DocumentLeavesScope(region, DISTRIBUTION_MANIFEST, scope, Node(Inventory(entries), Outcomes.None));
      DocumentKeepsCodeSealed(region, DISTRIBUTION_MANIFEST, Node(Inventory(entries), Outcomes.None));
      WriteDocument(l.browser, DISTRIBUTION_MANIFEST, entries);
      ManifestHolds(signed, STAGING_MANIFEST, scope, BROWSER_DOCUMENTS);
      DocumentHolds(region, DISTRIBUTION_MANIFEST, Node(Inventory(entries), Outcomes.None), BROWSER_DOCUMENTS);
      HoldsTransitive(signed, region, Region(tree, l.browser), BROWSER_DOCUMENTS);
      HoldsTransitive(staged, signed, Region(tree, l.browser), BROWSER_DOCUMENTS);
    }

    /** `build_executor_candidate`: sign, then inventory. */
    method BuildExecutor(l: Layout) returns (ok: bool)
      requires WellPlaced(l) && IsFolder(Region(tree, l.executor))
      modifies this
      ensures ok <==> HasCode(old(Region(tree, l.executor)))
      ensures ok ==> ExecutorSound(Region(tree, l.executor))
      ensures Holds(Region(tree, l.executor), old(Region(tree, l.executor)), EXECUTOR_DOCUMENTS)
      ensures SameOutside(old(tree), tree, l.executor)
    {
      ghost var staged := Region(tree, l.executor);
      ok := SignPayload(l.executor);
      ghost var signed := Region(tree, l.executor);
      SignedRegionHolds(old(tree), tree, l.executor, EXECUTOR_DOCUMENTS);
      if ok {
        assert l.executor + [] == l.executor;
        assert PayloadSealed(Region(tree, l.executor));
        WriteManifest(l.executor, EXECUTOR_MANIFEST, EXECUTOR_SCOPE);
        ManifestHolds(signed, EXECUTOR_MANIFEST, EXECUTOR_SCOPE, EXECUTOR_DOCUMENTS);
        HoldsTransitive(staged, signed, Region(tree, l.executor), EXECUTOR_DOCUMENTS);
      }
    }

    /** The bundler: the application's own files, and the Executor as the only resource it is trusted with. */
    method BuildApplication(l: Layout, bundle: Tree)
      requires WellPlaced(l) && IsFolder(bundle) && Region(bundle, l.locations[EXECUTOR]) == map[]
      requires IsFolder(Region(tree, l.executor))
      modifies this`tree
      ensures Payloads(tree, l) == Regions(bundle, [], l.locations)[EXECUTOR := old(Region(tree, l.executor))]
      ensures IsFolder(Region(tree, l.application))
      ensures SameOutside(old(tree), tree, l.application)
    {
      PlaceBundle(l, bundle);
      ghost var placed := tree;
      StagedApart(l, EXECUTOR);
      OutsideKeepsRegion(old(tree), placed, l.application, l.executor);
      RegionsAt(bundle, [], l.locations, EXECUTOR);
      assert [] + l.locations[EXECUTOR] == l.locations[EXECUTOR];
      var ok := InstallResource(l, l.executor, EXECUTOR);
      SameOutsideIsEquality(placed, tree, l.application);
      SameOutsideTransitive(old(tree), placed, tree, l.application);
    }

    /** The application directory is made afresh from the bundler's own files. */
    method PlaceBundle(l: Layout, bundle: Tree)
      modifies this`tree
      ensures Region(tree, l.application) == bundle
      ensures Payloads(tree, l) == Regions(bundle, [], l.locations)
      ensures SameOutside(old(tree), tree, l.application)
    {
      tree := map p | p in tree && !(l.application <= p) :: tree[p];
      assert Region(tree, l.application) == map[] by {
        forall r ensures l.application <= l.application + r {}
      }
      PlacedRegion(tree, l.application, bundle);
      PlacedChangesOnlyInside(tree, l.application, bundle);
      tree := Placed(tree, l.application, bundle);
      RegionsBelow(tree, l.application, l.locations);
    }

    /** Copy one staged resource to its place in the bundle. */
    method InstallResource(l: Layout, source: Path, i: nat) returns (ok: bool)
      requires WellPlaced(l) && i < |l.locations|
      modifies this`tree
      ensures ok <==> IsFolder(old(Region(tree, source))) && old(Payloads(tree, l))[i] == map[]
      ensures ok ==> Payloads(tree, l) == old(Payloads(tree, l))[i := old(Region(tree, source))]
      ensures Kept(old(tree), tree, l.application)
    {
      PayloadAt(tree, l, i);
      ok := CopyTree(source, l.application + l.locations[i]);
      InsideLocation(old(tree), tree, l, i);
    }

    /** Sign one installed resource where it landed. */
    method SignResource(l: Layout, i: nat) returns (ok: bool)
      requires WellPlaced(l) && i < |l.locations| && IsFolder(Payloads(tree, l)[i])
      modifies this
      ensures ok <==> HasCode(old(Payloads(tree, l))[i])
      ensures PayloadSealed(Payloads(tree, l)[i])
      ensures SameContents(old(Payloads(tree, l))[i], Payloads(tree, l)[i])
      ensures Payloads(tree, l) == old(Payloads(tree, l))[i := Payloads(tree, l)[i]]
      ensures Kept(old(tree), tree, l.application)
    {
      var root := l.application + l.locations[i];
      LocationIsPlain(l, i);
      PayloadAt(tree, l, i);
      ok := SignPayload(root);
      assert root + [] == root;
      InsideLocation(old(tree), tree, l, i);
      SignedRegionHolds(old(tree), tree, root, {});
    }

    /** `require_packaged_resources`: each named resource is there with all of its required files. */
    method RequireResources(l: Layout, which: seq<nat>) returns (ok: bool)
      requires WellPlaced(l) && forall k :: 0 <= k < |which| ==> which[k] < 6
      ensures ok <==>
              forall k {:trigger which[k]} :: 0 <= k < |which| ==>
                IsFolder(Payloads(tree, l)[which[k]]) && Complete(Payloads(tree, l)[which[k]], l, which[k])
    {
      var payloads := Payloads(tree, l);
      for k := 0 to |which|
        invariant forall j {:trigger which[j]} :: 0 <= j < k ==>
                    IsFolder(payloads[which[j]]) && Complete(payloads[which[j]], l, which[j])
      {
        if !IsFolder(payloads[which[k]]) {
          return false;
        }
        var whole := RequireFiles(payloads[which[k]], l.required[which[k]], l.linked);
        if !whole {
          return false;
        }
      }
      ok := true;
    }

    method RequireFiles(region: Tree, names: seq<Path>, linked: (Tree, Path) -> bool) returns (ok: bool)
      ensures ok <==> HasFiles(region, names, linked)
    {
      for k := 0 to |names|
        invariant forall j {:trigger names[j]} :: 0 <= j < k ==> Present(region, names[j], linked)
      {
        if !Present(region, names[k], linked) {
          return false;
        }
      }
      ok := true;
    }

    /** `install_video_runtime`: the three video resources, in contract order, then the check that they are whole. */
    method InstallVideo(l: Layout) returns (ok: bool)
      requires WellPlaced(l)
      modifies this`tree
      ensures ok <==> CanAddVideo(old(tree), l)
      ensures ok ==> Payloads(tree, l) == WithVideo(old(Payloads(tree, l)), old(tree), l)
      ensures Kept(old(tree), tree, l.application)
    {
      ok := CopyVideo(l);
      if ok {
        ghost var installed := Payloads(tree, l);
        var order := [MEDIA, MOTION, MATERIAL];
        assert order[0] == MEDIA && order[1] == MOTION && order[2] == MATERIAL;
        ok := RequireResources(l, order);
      }
    }

    method CopyVideo(l: Layout) returns (ok: bool)
      requires WellPlaced(l)
      modifies this`tree
      ensures ok <==> VideoStaged(old(tree), l) && VideoRoom(old(Payloads(tree, l)))
      ensures ok ==> Payloads(tree, l) == WithVideo(old(Payloads(tree, l)), old(tree), l)
      ensures Kept(old(tree), tree, l.application)
    {
      ghost var t0 := tree;
      StagedApart(l, 4);
      ok := CopyTwo(l);
      KeptSource(t0, tree, l.application, l.material);
      ThreeUpdates(Payloads(t0, l), Region(t0, l.media), Region(t0, l.motion), Region(t0, l.material));
      if ok {
        ok := InstallResource(l, l.material, MATERIAL);
      }
    }

    method CopyTwo(l: Layout) returns (ok: bool)
      requires WellPlaced(l)
      modifies this`tree
      ensures ok <==>
                && IsFolder(old(Region(tree, l.media))) && IsFolder(old(Region(tree, l.motion)))
                && old(Payloads(tree, l))[MEDIA] == map[] && old(Payloads(tree, l))[MOTION] == map[]
      ensures ok ==> Payloads(tree, l) ==
                     old(Payloads(tree, l))[MEDIA := old(Region(tree, l.media))][MOTION := old(Region(tree, l.motion))]
      ensures Kept(old(tree), tree, l.application)
    {
      ghost var t0 := tree;
      StagedApart(l, 3);
      ok := InstallResource(l, l.media, MEDIA);
      KeptSource(t0, tree, l.application, l.motion);
      if ok {
        ok := InstallResource(l, l.motion, MOTION);
      }
    }

    /** `sign_installed_video_runtime`: in name order, then the media toolchain's manifest is re-taken. */
    method SignVideo(l: Layout) returns (ok: bool)
      requires WellPlaced(l) && VideoFolders(Payloads(tree, l))
      modifies this
      ensures ok <==> VideoCode(old(Payloads(tree, l)))
      ensures ok ==> VideoSound(Payloads(tree, l))
      ensures VideoHolds(Payloads(tree, l), old(Payloads(tree, l)))
      ensures OthersKept(old(Payloads(tree, l)), Payloads(tree, l))
      ensures Kept(old(tree), tree, l.application)
    {
      ghost var before := Payloads(tree, l);
      ok := SignThree(l);
      ghost var signed := Payloads(tree, l);
      SignedVideoHolds(before, signed);
      if ok {
        RetakeMediaManifest(l);
        HoldsTransitive(before[MEDIA], signed[MEDIA], Payloads(tree, l)[MEDIA], MEDIA_DOCUMENTS);
      }
    }

    method SignThree(l: Layout) returns (ok: bool)
      requires WellPlaced(l) && VideoFolders(Payloads(tree, l))
      modifies this
      ensures ok <==> VideoCode(old(Payloads(tree, l)))
      ensures ok ==> VideoSealed(Payloads(tree, l))
      ensures AllSameContents(old(Payloads(tree, l)), Payloads(tree, l))
      ensures OthersKept(old(Payloads(tree, l)), Payloads(tree, l))
      ensures Kept(old(tree), tree, l.application)
    {
      NameOrderIsVideo(Payloads(tree, l));
      ok := SignInOrder(l, NAME_ORDER);
      NameOrderIsVideo(Payloads(tree, l));
    }

    /** Sign installed resources one after another; the first one without code ends the run. */
    method SignInOrder(l: Layout, order: seq<nat>) returns (ok: bool)
      requires WellPlaced(l) && Distinct(order)
      requires FoldersIn(Payloads(tree, l), order)
      modifies this
      ensures ok <==> CodeIn(old(Payloads(tree, l)), order)
      ensures ok ==> SealedIn(Payloads(tree, l), order)
      ensures AllSameContents(old(Payloads(tree, l)), Payloads(tree, l))
      ensures forall i :: 0 <= i < 6 && i !in order ==> Payloads(tree, l)[i] == old(Payloads(tree, l))[i]
      ensures Kept(old(tree), tree, l.application)
    {
      ghost var before := Payloads(tree, l);
      ok := true;
      for k := 0 to |order|
        invariant Kept(old(tree), tree, l.application)
        invariant SignedSoFar(before, Payloads(tree, l), order, k)
        invariant AllSameContents(before, Payloads(tree, l))
      {
        ghost var now := Payloads(tree, l);
        assert now[order[k]] == before[order[k]];
        ok := SignResource(l, order[k]);
        SameContentsOneMore(before, now, Payloads(tree, l), order[k]);
        if !ok {
          return;
        }
        SignedOneMore(before, now, Payloads(tree, l), order, k);
      }
    }

    method RetakeMediaManifest(l: Layout)
      requires WellPlaced(l) && PayloadSealed(Payloads(tree, l)[MEDIA])
      modifies this`tree
      ensures MediaSound(Payloads(tree, l)[MEDIA])
      ensures Holds(Payloads(tree, l)[MEDIA], old(Payloads(tree, l))[MEDIA], MEDIA_DOCUMENTS)
      ensures Payloads(tree, l) == old(Payloads(tree, l))[MEDIA := Payloads(tree, l)[MEDIA]]
      ensures Kept(old(tree), tree, l.application)
    {
      PayloadAt(tree, l, MEDIA);
      ManifestHolds(Payloads(tree, l)[MEDIA], MEDIA_MANIFEST, MEDIA_SCOPE, MEDIA_DOCUMENTS);
      WriteManifest(l.application + l.locations[MEDIA], MEDIA_MANIFEST, MEDIA_SCOPE);
      InsideLocation(old(tree), tree, l, MEDIA);
    }

    /** `install_motion_catalog`: the catalog of parts, then the check that it is whole. */
    method InstallCatalog(l: Layout) returns (ok: bool)
      requires WellPlaced(l)
      modifies this`tree
      ensures ok <==> CanAddCatalog(old(tree), l, old(Payloads(tree, l)))
      ensures ok ==> Payloads(tree, l) == old(Payloads(tree, l))[CATALOG := old(Region(tree, l.catalog))]
      ensures Kept(old(tree), tree, l.application)
    {
      ok := InstallResource(l, l.catalog, CATALOG);
      if ok {
        var only := [CATALOG];
        assert only[0] == CATALOG;
        ok := RequireResources(l, only);
      }
    }

    /** Install the staged browser and verify the installed copy. */
    method InstallBrowser(l: Layout) returns (ok: bool)
      requires WellPlaced(l) && BrowserSound(Region(tree, l.browser), l.rootEntry)
      modifies this`tree
      ensures ok <==> old(Payloads(tree, l))[BROWSER] == map[] && l.accepts(old(Region(tree, l.browser)))
      ensures ok ==> Payloads(tree, l) == old(Payloads(tree, l))[BROWSER := old(Region(tree, l.browser))]
      ensures Kept(old(tree), tree, l.application)
    {
      ok := InstallResource(l, l.browser, BROWSER);
      if ok {
        var installed := Region(tree, l.application + l.locations[BROWSER]);
        PayloadAt(tree, l, BROWSER);
        ok := [DISTRIBUTION_MANIFEST] in installed
          && installed[[DISTRIBUTION_MANIFEST]].content == Inventory(Taken(installed, BrowserScope(l.rootEntry)))
          && l.accepts(installed);
      }
    }

    /** The outermost signature: everything not in a declared payload, and the bundle itself last. */
    method SealApplication(l: Layout) returns (ok: bool)
      requires WellPlaced(l) && IsFolder(Region(tree, l.application))
      requires forall i :: 0 <= i < |l.locations| && i != CATALOG ==> PayloadSealed(Payloads(tree, l)[i])
      modifies this
      ensures ok
      ensures Payloads(tree, l) == old(Payloads(tree, l))
      ensures SameOutside(old(tree), tree, l.application)
      ensures PackageSealed(tree, l.application, l.locations[CATALOG])
    {
      ghost var nodes, before, start := [], tree, clock;
      ok, nodes := SignTree(l.application, InventoriedPayloads(l.application, l.locations));
      OuterSealKeepsPayloads(before, l, nodes, start);
      SigningKeepsContents(before, nodes, start);
      BundleIsSigned(before, l, nodes);
      NodesAreInside(before, l.application, nodes, start);
      EverythingIsSealed(before, tree, l, nodes);
    }

    /** The video resources go in and are signed in place. */
    method AddVideo(l: Layout) returns (ok: bool)
      requires WellPlaced(l)
      modifies this
      ensures ok <==> CanAddVideo(old(tree), l) && VideoHasCode(old(tree), l)
      ensures ok ==> VideoSound(Payloads(tree, l))
      ensures ok ==> VideoHolds(Payloads(tree, l), WithVideo(old(Payloads(tree, l)), old(tree), l))
      ensures ok ==> OthersKept(old(Payloads(tree, l)), Payloads(tree, l))
      ensures Kept(old(tree), tree, l.application)
    {
      WithVideoHolds(Payloads(tree, l), tree, l);
      ok := InstallVideo(l);
      if ok {
        ok := SignVideo(l);
      }
    }

    /** The catalog, which carries no code, and last the browser. */
    method AddCatalogAndBrowser(l: Layout) returns (ok: bool)
      requires WellPlaced(l) && BrowserSound(Region(tree, l.browser), l.rootEntry)
      modifies this`tree
      ensures ok <==>
                && CanAddCatalog(old(tree), l, old(Payloads(tree, l)))
                && old(Payloads(tree, l))[BROWSER] == map[] && l.accepts(old(Region(tree, l.browser)))
      ensures ok ==>
                Payloads(tree, l) ==
                old(Payloads(tree, l))[CATALOG := old(Region(tree, l.catalog))][BROWSER := old(Region(tree, l.browser))]
      ensures Kept(old(tree), tree, l.application)
    {
      StagedApart(l, 0);
      ok := InstallCatalog(l);
      KeptSource(old(tree), tree, l.application, l.browser);
      if ok {
        ok := InstallBrowser(l);
      }
    }

    /** From the bundler's output to a bundle with every resource in place and signed. */
    method InstallAndSign(l: Layout) returns (ok: bool)
      requires WellPlaced(l) && BrowserSound(Region(tree, l.browser), l.rootEntry)
      requires IsFolder(Region(tree, l.application)) && ExecutorSound(Payloads(tree, l)[EXECUTOR])
      modifies this
      ensures ok <==> CanInstall(old(tree), l) && l.accepts(old(Region(tree, l.browser)))
      ensures ok ==> PayloadsSound(Payloads(tree, l), l.rootEntry)
      ensures ok ==> ResourcesHold(Payloads(tree, l), old(Resources(tree, l)))
      ensures ok ==>
                && Payloads(tree, l)[BROWSER] == old(Region(tree, l.browser))
                && Payloads(tree, l)[EXECUTOR] == old(Payloads(tree, l))[EXECUTOR]
      ensures IsFolder(Region(tree, l.application)) && Region(tree, l.browser) == old(Region(tree, l.browser))
    {
      ghost var t0 := tree;
      StagedApart(l, 0);
      StagedApart(l, 5);
      ok := AddVideo(l);
      ghost var t1 := tree;
      KeptSource(t0, t1, l.application, l.catalog);
      KeptSource(t0, t1, l.application, l.browser);
      CanInstallMeans(t0, l);
      if ok {
        CatalogStays(t0, t1, l, Payloads(t1, l));
        VideoLeavesRest(t0, l, Payloads(t0, l), Payloads(t1, l));
        ghost var signed := Payloads(tree, l);
        ok := AddCatalogAndBrowser(l);
        KeptSource(t1, tree, l.application, l.browser);
        if ok {
          InstalledHold(t0, l, Payloads(t0, l), signed, Payloads(tree, l));
        }
      }
    }

    /** The staged browser and Executor are signed and inventoried before anything is copied into the bundle. */
    method PreparePayloads(l: Layout) returns (ok: bool)
      requires WellPlaced(l)
      requires IsFolder(Region(tree, l.browser)) && IsFolder(Region(tree, l.executor))
      modifies this
      ensures ok <==> HasCode(old(Region(tree, l.browser))) && HasCode(old(Region(tree, l.executor)))
      ensures ok ==> BrowserSound(Region(tree, l.browser), l.rootEntry) && ExecutorSound(Region(tree, l.executor))
      ensures Resources(tree, l) == old(Resources(tree, l))
      ensures ok ==>
                && Holds(Region(tree, l.browser), old(Region(tree, l.browser)), BROWSER_DOCUMENTS)
                && Holds(Region(tree, l.executor), old(Region(tree, l.executor)), EXECUTOR_DOCUMENTS)
    {
      ghost var t0 := tree;
      ok := StageBrowser(l);
      BrowserWork(t0, tree, l);
      if ok {
        ghost var t1 := tree;
        ok := BuildExecutor(l);
        ExecutorWork(t1, tree, l);
      }
    }

    /** The bundler run, seen from the installation that follows. */
    method Bundle(l: Layout, bundle: Tree)
      requires WellPlaced(l) && IsFolder(bundle) && Region(bundle, l.locations[EXECUTOR]) == map[]
      requires IsFolder(Region(tree, l.executor))
      modifies this`tree
      ensures Region(tree, l.browser) == old(Region(tree, l.browser)) && IsFolder(Region(tree, l.application))
      ensures Resources(tree, l) == old(Resources(tree, l))
      ensures Payloads(tree, l)[EXECUTOR] == old(Region(tree, l.executor))
      ensures CanInstall(tree, l) <==>
              HasResources(old(Resources(tree, l)), l) && HasRoom(Regions(bundle, [], l.locations))
    {
      ghost var staged := Region(tree, l.executor);
      BuildApplication(l, bundle);
      ApplicationWork(old(tree), tree, l);
      ExecutorTakesNoRoom(Regions(bundle, [], l.locations), staged);
    }

    /** The whole sequence on a bundle as the bundler makes it. */
    method Assemble(l: Layout, bundle: Tree) returns (ok: bool)
      requires WellPlaced(l) && IsFolder(bundle) && Region(bundle, l.locations[EXECUTOR]) == map[]
      requires IsFolder(Region(tree, l.browser)) && IsFolder(Region(tree, l.executor))
      modifies this
      ensures ok <==> CanAssemble(old(tree), l, bundle) && l.accepts(Region(tree, l.browser))
      ensures ok ==> PayloadsSound(Payloads(tree, l), l.rootEntry)
      ensures ok ==> PackageSealed(tree, l.application, l.locations[CATALOG])
      ensures ok ==> PayloadsHold(Payloads(tree, l), old(tree), l)
      ensures ok ==>
                && BrowserListed(Payloads(tree, l)[BROWSER], l.rootEntry)
                && ExecutorListed(Payloads(tree, l)[EXECUTOR]) && MediaListed(Payloads(tree, l)[MEDIA])
      ensures ok ==>
                forall n :: IsShippedCode(tree, l.application, l.locations[CATALOG], n) ==> SealValid(Region(tree, n))
    {
      ok := PreparePayloads(l);
      if ok {
        Bundle(l, bundle);
        ok := InstallAndSign(l);
        if ok {
          AllSealed(Payloads(tree, l), l.rootEntry);
          ghost var installed := tree;
          ok := SealApplication(l);
          StagedApart(l, 0);
          OutsideKeepsRegion(installed, tree, l.application, l.browser);
          SoundIsListed(Payloads(tree, l), l.rootEntry);
          SealedMeansShippedCode(tree, l.application, l.locations[CATALOG]);
        }
      }
    }
  }
}
