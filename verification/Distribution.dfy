/**
  The digest manifest of the embedded browser: how it is generated from a staged tree, and what its verification
  accepts. A disk is what listing it shows, plus the answers the operating system gives for any path.
 */
module EmbeddedDistribution {
  import opened Bytes
  import opened Outcomes
  import opened Texts
  import opened Sorting
  import opened Enumeration
  import opened PosixPaths

  datatype Node = Directory | File(bytes: seq<byte>, executable: bool) | Link(target: string) | Special

  /** `lstat` does not follow a link in the last place of a path, `stat` does; both follow links before that. */
  datatype Disk = Disk(tree: map<Path, Node>, lstat: Path -> Option<Node>, stat: Path -> Option<Node>)

  /** The parts of the contract and of the document that the inventory checks use. */
  datatype Target =
    Target(rootEntry: string, executable: string, excluded: seq<string>, forbidden: seq<string>,
           topLevel: set<string>)

  datatype Entry =
    | Malformed
    | LinkEntry(path: string, target: Option<string>)
    | FileEntry(path: string, digest: Option<string>, size: Option<int>, executable: Option<bool>)

  datatype Report = Report(verifiedFiles: nat, totalBytes: nat)

  ghost predicate Enterable(d: Disk, root: string, p: Path) {
    p in d.tree && (d.tree[p].Directory? || (p == [root] && d.stat(p) == Some(Directory)))
  }

  /** Every directory on the way to `p` is one the listing enters. */
  ghost predicate Reached(d: Disk, root: string, p: Path) {
    p != [] && AllNames(p) && forall k :: 0 < k < |p| ==> Enterable(d, root, p[..k])
  }

  /** The listing and the operating system agree on every path that passes through listed directories only. */
  ghost predicate Faithful(d: Disk, root: string) {
    && (forall p :: p in d.tree ==> Reached(d, root, p) && d.lstat(p) == Some(d.tree[p]))
    && (forall p :: Reached(d, root, p) && d.lstat(p).Some? ==> p in d.tree)
    && (forall p, k :: 0 <= k <= |p| && d.lstat(p).Some? ==> d.lstat(p[..k]).Some?)
  }

  predicate Inside(d: Disk, root: string, p: Path) {
    p in d.tree && |p| > 1 && p[0] == root
  }

  /** `root.rglob("*")`, in whatever order the file system yields it. */
  ghost predicate IsWalk(d: Disk, root: string, walk: seq<Path>) {
    && Distinct(walk)
    && forall p :: p in walk <==> Inside(d, root, p)
  }

  // ----- generate_manifest -----

  /** `_manifest_entry`: directories and special files have none. */
  function EntryOf(node: Node, p: Path, sha: seq<byte> -> string): Option<Entry>
    requires p != []
  {
    match node
    case Link(target) => Some(LinkEntry(Joined(p), Some(target)))
    case File(bytes, executable) => Some(FileEntry(Joined(p), Some(sha(bytes)), Some(|bytes|), Some(executable)))
    case _ => None
  }

  function Manifest(tree: map<Path, Node>, paths: seq<Path>, sha: seq<byte> -> string): (r: seq<Entry>)
    requires forall i :: 0 <= i < |paths| ==> paths[i] in tree && paths[i] != []
  {
    if paths == [] then []
    else
      var n := |paths| - 1;
      var entry := EntryOf(tree[paths[n]], paths[n], sha);
      Manifest(tree, paths[..n], sha) + if entry.Some? then [entry.value] else []
  }

  method GenerateManifest(d: Disk, root: string, walk: seq<Path>, sha: seq<byte> -> string)
    returns (r: Option<seq<Entry>>)
    requires IsWalk(d, root, walk)
    ensures r.None? <==> d.stat([root]) != Some(Directory)
    ensures r.Some? ==> r.value == ManifestOf(d, root, walk, sha)
  {
    SortedWalk(d, root, walk);
    if d.stat([root]) != Some(Directory) {
      return None;
    }
    var entries := EntriesFor(d.tree, Sort(walk, PathLe), sha);
    r := Some(entries);
  }

  /** One entry for each file and link below the root, in path order. */
  ghost function ManifestOf(d: Disk, root: string, walk: seq<Path>, sha: seq<byte> -> string): seq<Entry>
    requires IsWalk(d, root, walk)
  {
    SortedWalk(d, root, walk);
    Manifest(d.tree, Sort(walk, PathLe), sha)
  }

  lemma SortedWalk(d: Disk, root: string, walk: seq<Path>)
    requires IsWalk(d, root, walk)
    ensures forall i :: 0 <= i < |Sort(walk, PathLe)| ==> Inside(d, root, Sort(walk, PathLe)[i])
  {
    var paths := Sort(walk, PathLe);
    forall i | 0 <= i < |paths| ensures Inside(d, root, paths[i]) {
      assert paths[i] in multiset(paths);
      assert paths[i] in walk;
    }
  }

  method EntriesFor(tree: map<Path, Node>, paths: seq<Path>, sha: seq<byte> -> string) returns (entries: seq<Entry>)
    requires forall i :: 0 <= i < |paths| ==> paths[i] in tree && paths[i] != []
    ensures entries == Manifest(tree, paths, sha)
  {
    entries := [];
    for i := 0 to |paths|
      invariant entries == Manifest(tree, paths[..i], sha)
    {
      assert paths[..i + 1][..i] == paths[..i];
      var entry := EntryOf(tree[paths[i]], paths[i], sha);
      if entry.Some? {
        entries := entries + [entry.value];
      }
    }
    assert paths[..|paths|] == paths;
  }

  lemma {:induction false} ManifestHolds(tree: map<Path, Node>, paths: seq<Path>, sha: seq<byte> -> string, e: Entry)
    requires forall i :: 0 <= i < |paths| ==> paths[i] in tree && paths[i] != []
    ensures e in Manifest(tree, paths, sha) <==>
              exists i :: 0 <= i < |paths| && EntryOf(tree[paths[i]], paths[i], sha) == Some(e)
  {
    if paths != [] {
      var n := |paths| - 1;
      ManifestHolds(tree, paths[..n], sha, e);
      if i :| 0 <= i < |paths| && EntryOf(tree[paths[i]], paths[i], sha) == Some(e) {
        assert i < n ==> paths[..n][i] == paths[i];
      }
    }
  }

  /**
    What the manifest lists, in plain terms: each file below the root with its path, digest, size and executable flag,
    each link with its path and target, and nothing else.
   */
  lemma ManifestListsTheTree(d: Disk, root: string, walk: seq<Path>, sha: seq<byte> -> string, e: Entry)
    requires IsWalk(d, root, walk)
    ensures e in ManifestOf(d, root, walk, sha) <==>
              exists p :: p in d.tree && |p| > 1 && p[0] == root && IsEntryFor(d.tree[p], Joined(p), sha, e)
  {
    SortedWalk(d, root, walk);
    var paths := Sort(walk, PathLe);
    ManifestHolds(d.tree, paths, sha, e);
    if p :| p in d.tree && |p| > 1 && p[0] == root && IsEntryFor(d.tree[p], Joined(p), sha, e) {
      assert Inside(d, root, p) && p in multiset(walk) && p in multiset(paths);
      var i :| 0 <= i < |paths| && paths[i] == p;
    }
    if i :| 0 <= i < |paths| && EntryOf(d.tree[paths[i]], paths[i], sha) == Some(e) {
      assert Inside(d, root, paths[i]);
    }
  }

  predicate IsEntryFor(node: Node, path: string, sha: seq<byte> -> string, e: Entry) {
    || (node.Link? && e == LinkEntry(path, Some(node.target)))
    || (node.File? && e == FileEntry(path, Some(sha(node.bytes)), Some(|node.bytes|), Some(node.executable)))
  }

  lemma {:induction false} SameNodesSameManifest(
      a: map<Path, Node>, b: map<Path, Node>, paths: seq<Path>, sha: seq<byte> -> string)
    requires forall i :: 0 <= i < |paths| ==>
               paths[i] in a && paths[i] in b && a[paths[i]] == b[paths[i]] && paths[i] != []
    ensures Manifest(a, paths, sha) == Manifest(b, paths, sha)
  {
    if paths != [] {
      SameNodesSameManifest(a, b, paths[..|paths| - 1], sha);
    }
  }

  /** Below the root, the two disks hold the same nodes. */
  ghost predicate SameInside(a: Disk, b: Disk, root: string) {
    && (forall p :: Inside(a, root, p) <==> Inside(b, root, p))
    && forall p :: Inside(a, root, p) ==> a.tree[p] == b.tree[p]
  }

  lemma WalksHaveSameBag(a: Disk, b: Disk, root: string, walkA: seq<Path>, walkB: seq<Path>)
    requires IsWalk(a, root, walkA) && IsWalk(b, root, walkB)
    requires forall p :: Inside(a, root, p) <==> Inside(b, root, p)
    ensures multiset(walkA) == multiset(walkB)
  {
    SameElementsSameBag(walkA, walkB);
  }

  /** The manifest is a function of the tree below the root: neither walk order nor anything else matters. */
  lemma ManifestIsDeterministic(
      a: Disk, b: Disk, root: string, walkA: seq<Path>, walkB: seq<Path>, sha: seq<byte> -> string)
    requires IsWalk(a, root, walkA) && IsWalk(b, root, walkB) && SameInside(a, b, root)
    ensures ManifestOf(a, root, walkA, sha) == ManifestOf(b, root, walkB, sha)
  {
    WalksHaveSameBag(a, b, root, walkA, walkB);
    PathLeIsTotalOrder();
    SortIgnoresOrder(walkA, walkB, PathLe);
    var paths := Sort(walkA, PathLe);
    SortedWalk(a, root, walkA);
    SameNodesSameManifest(a.tree, b.tree, paths, sha);
  }

  // ----- verify_distribution: the inventory checks -----

  predicate StartsWithAny(s: string, prefixes: seq<string>) {
    exists i :: 0 <= i < |prefixes| && prefixes[i] <= s
  }

  predicate ContainsAny(hay: string, needles: seq<string>) {
    exists i :: 0 <= i < |needles| && Contains(hay, needles[i])
  }

  function WithoutTrailingSlash(s: string): string {
    if s != "" && s[|s| - 1] == '/' then WithoutTrailingSlash(s[..|s| - 1]) else s
  }

  predicate ExcludedAbsent(d: Disk, t: Target) {
    forall i :: 0 <= i < |t.excluded| ==> d.lstat(PureParts(WithoutTrailingSlash(t.excluded[i]))).None?
  }

  predicate EntryHolds(d: Disk, t: Target, sha: seq<byte> -> string, e: Entry) {
    && !e.Malformed?
    && !StartsWithAny(e.path, t.excluded)
    && var actual := d.lstat(Located(e.path));
       if e.LinkEntry? then
         && actual.Some? && actual.value.Link? && e.target == Some(actual.value.target)
         && Confined(e.path, actual.value.target, t.rootEntry)
       else
         && actual.Some? && actual.value.File?
         && e.digest == Some(sha(actual.value.bytes)) && e.size == Some(|actual.value.bytes|)
  }

  /** What the walk over the tree refuses: a forbidden name, or a file the manifest does not list. */
  predicate Listed(t: Target, lower: string -> string, expected: set<string>, p: Path)
    requires p != []
  {
    !ContainsAny(lower(Joined(p)), t.forbidden) && Joined(p) in expected
  }

  ghost predicate OnlyListed(d: Disk, t: Target, lower: string -> string, expected: set<string>) {
    forall p :: Inside(d, t.rootEntry, p) && !d.tree[p].Directory? ==> Listed(t, lower, expected, p)
  }

  predicate TopLevelAllowed(d: Disk, t: Target) {
    forall p :: p in d.tree && |p| == 1 ==> p[0] in t.topLevel
  }

  predicate ExecutableThere(d: Disk, t: Target) {
    var found := d.stat(Located(t.executable));
    found.Some? && found.value.File? && found.value.executable
  }

  function PathsOf(entries: seq<Entry>): set<string> {
    if entries == [] then {}
    else
      var n := |entries| - 1;
      PathsOf(entries[..n]) + if entries[n].Malformed? then {} else {entries[n].path}
  }

  lemma {:induction false} PathsOfAre(entries: seq<Entry>, s: string)
    ensures s in PathsOf(entries) <==>
              exists i :: 0 <= i < |entries| && !entries[i].Malformed? && entries[i].path == s
  {
    if entries != [] {
      var n := |entries| - 1;
      PathsOfAre(entries[..n], s);
      if i :| 0 <= i < |entries| && !entries[i].Malformed? && entries[i].path == s {
        assert i < n ==> entries[..n][i].path == s;
      }
    }
  }

  /** An entry that names what is there: the file with its digest and size, or the confined link with its target. */
  ghost predicate IsRight(d: Disk, t: Target, sha: seq<byte> -> string, e: Entry) {
    && !e.Malformed? && (forall k :: 0 <= k < |t.excluded| ==> !(t.excluded[k] <= e.path))
    && match d.lstat(Located(e.path))
       case Some(File(bytes, _)) => e.FileEntry? && e.digest == Some(sha(bytes)) && e.size == Some(|bytes|)
       case Some(Link(target)) =>
         e.LinkEntry? && e.target == Some(target) && Confined(e.path, target, t.rootEntry)
       case _ => false
  }

  lemma RightMeansHolds(d: Disk, t: Target, sha: seq<byte> -> string, e: Entry)
    ensures EntryHolds(d, t, sha, e) <==> IsRight(d, t, sha, e)
  {
  }

  lemma {:induction false} TrailingSlashesGo(s: string)
    requires s == "" || s[|s| - 1] != '/'
    ensures WithoutTrailingSlash(s) == s && WithoutTrailingSlash(s + "/") == s
  {
    assert (s + "/")[..|s + "/"| - 1] == s;
  }

  lemma ExcludedPlace(p: Path)
    requires p != [] && AllNames(p)
    ensures PureParts(WithoutTrailingSlash(Joined(p) + "/")) == p
  {
    forall i | 0 <= i < |p| ensures IsPart(p[i]) {}
    PartsOfJoined(p);
    LastOfJoined(p);
    TrailingSlashesGo(Joined(p));
  }

  lemma {:induction false} LastOfJoined(p: Path)
    requires p != [] && AllNames(p)
    ensures Joined(p) != "" && Joined(p)[|Joined(p)| - 1] != '/'
  {
    if |p| == 1 {
      assert p[0][|p[0]| - 1] in p[0];
    } else {
      LastOfJoined(p[1..]);
    }
  }

  ghost predicate Accepted(d: Disk, t: Target, entries: seq<Entry>, sha: seq<byte> -> string, lower: string -> string) {
    && ExcludedAbsent(d, t)
    && entries != []
    && (forall i {:trigger EntryHolds(d, t, sha, entries[i])} ::
          0 <= i < |entries| ==> EntryHolds(d, t, sha, entries[i]))
    && d.stat([t.rootEntry]) == Some(Directory)
    && TopLevelAllowed(d, t)
    && OnlyListed(d, t, lower, PathsOf(entries))
    && ExecutableThere(d, t)
  }

  function FileBytes(node: Option<Node>): nat {
    if node.Some? && node.value.File? then |node.value.bytes| else 0
  }

  function FileCount(node: Option<Node>): nat {
    if node.Some? && node.value.File? then 1 else 0
  }

  function LocationOf(e: Entry): Path {
    if e.Malformed? then [] else Located(e.path)
  }

  /** The counts with one more location. */
  function Counted(before: Report, node: Option<Node>): Report {
    Report(before.verifiedFiles + FileCount(node), before.totalBytes + FileBytes(node))
  }

  /** What the report counts: the regular files the entries point at, and their sizes. */
  function Tally(d: Disk, entries: seq<Entry>): Report {
    if entries == [] then Report(0, 0)
    else
      var n := |entries| - 1;
      Counted(Tally(d, entries[..n]), d.lstat(LocationOf(entries[n])))
  }

  lemma OneMoreEntry(d: Disk, entries: seq<Entry>, i: nat)
    requires i < |entries| && !entries[i].Malformed?
    ensures PathsOf(entries[..i + 1]) == PathsOf(entries[..i]) + {entries[i].path}
    ensures Tally(d, entries[..i + 1]) == Counted(Tally(d, entries[..i]), d.lstat(LocationOf(entries[i])))
  {
    assert entries[..i + 1][..i] == entries[..i];
  }

  /** One turn of the loop over the manifest, with what it adds to the counts. */
  method CheckEntry(d: Disk, t: Target, entry: Entry, sha: seq<byte> -> string)
    returns (ok: bool, files: nat, bytes: nat)
    ensures ok <==> EntryHolds(d, t, sha, entry)
    ensures ok ==> files == FileCount(d.lstat(LocationOf(entry))) && bytes == FileBytes(d.lstat(LocationOf(entry)))
  {
    ok, files, bytes := false, 0, 0;
    if entry.Malformed? || StartsWithAny(entry.path, t.excluded) {
      return;
    }
    var actual := d.lstat(Located(entry.path));
    if entry.LinkEntry? {
      if actual.None? || !actual.value.Link? || entry.target != Some(actual.value.target) {
        return;
      }
      ok := SymlinkTargetIsConfined(entry.path, actual.value.target, t.rootEntry);
      return;
    }
    if actual.None? || !actual.value.File?
    || entry.digest != Some(sha(actual.value.bytes)) || entry.size != Some(|actual.value.bytes|) {
      return;
    }
    ok, files, bytes := true, 1, |actual.value.bytes|;
  }

  /** The loop over the manifest: the paths it names, and the totals it counts. */
  method CheckEntries(d: Disk, t: Target, entries: seq<Entry>, sha: seq<byte> -> string)
    returns (ok: bool, expected: set<string>, report: Report)
    ensures ok <==> forall i {:trigger EntryHolds(d, t, sha, entries[i])} ::
                   0 <= i < |entries| ==> EntryHolds(d, t, sha, entries[i])
    ensures ok ==> expected == PathsOf(entries) && report == Tally(d, entries)
  {
    var verifiedFiles, totalBytes := 0, 0;
    expected := {};
    for i := 0 to |entries|
      invariant forall k {:trigger EntryHolds(d, t, sha, entries[k])} :: 0 <= k < i ==>
                  EntryHolds(d, t, sha, entries[k])
      invariant expected == PathsOf(entries[..i])
      invariant Report(verifiedFiles, totalBytes) == Tally(d, entries[..i])
    {
      var holds, files, bytes := CheckEntry(d, t, entries[i], sha);
      if !holds {
        return false, {}, Report(0, 0);
      }
      OneMoreEntry(d, entries, i);
      expected := expected + {entries[i].path};
      verifiedFiles := verifiedFiles + files;
      totalBytes := totalBytes + bytes;
    }
    assert entries[..|entries|] == entries;
    ok, report := true, Report(verifiedFiles, totalBytes);
  }

  /** The walk over the tree: nothing is there that the manifest does not name. */
  method CheckTree(d: Disk, t: Target, lower: string -> string, expected: set<string>, walk: seq<Path>)
    returns (ok: bool)
    requires IsWalk(d, t.rootEntry, walk)
    ensures ok <==> OnlyListed(d, t, lower, expected)
  {
    for i := 0 to |walk|
      invariant forall k :: 0 <= k < i ==> walk[k] != [] && walk[k] in d.tree
      invariant forall k :: 0 <= k < i ==> !d.tree[walk[k]].Directory? ==> Listed(t, lower, expected, walk[k])
    {
      assert walk[i] in walk;
      if !d.tree[walk[i]].Directory? && !Listed(t, lower, expected, walk[i]) {
        return false;
      }
    }
    ok := true;
  }

  method VerifyDistribution(
      d: Disk, t: Target, entries: seq<Entry>, walk: seq<Path>, sha: seq<byte> -> string, lower: string -> string)
    returns (r: Option<Report>)
    requires IsWalk(d, t.rootEntry, walk)
    ensures r.Some? <==> Accepted(d, t, entries, sha, lower)
    ensures r.Some? ==> r.value == Tally(d, entries)
  {
    if !ExcludedAbsent(d, t) || entries == [] {
      return None;
    }
    var ok, expected, report := CheckEntries(d, t, entries, sha);
    if !ok || d.stat([t.rootEntry]) != Some(Directory) || !TopLevelAllowed(d, t) {
      return None;
    }
    ok := CheckTree(d, t, lower, expected, walk);
    if !ok || !ExecutableThere(d, t) {
      return None;
    }
    r := Some(report);
  }

  // ----- what acceptance means -----

  /** A file or link below the root that may be there: named by some entry, and without a forbidden word in its name. */
  ghost predicate MayBeThere(t: Target, entries: seq<Entry>, lower: string -> string, path: string) {
    && (exists i :: 0 <= i < |entries| && !entries[i].Malformed? && entries[i].path == path)
    && forall k, i :: 0 <= k < |t.forbidden| && 0 <= i <= |lower(path)| ==> !(t.forbidden[k] <= lower(path)[i..])
  }

  lemma MayBeThereMeansListed(t: Target, entries: seq<Entry>, lower: string -> string, p: Path)
    requires p != []
    ensures Listed(t, lower, PathsOf(entries), p) <==> MayBeThere(t, entries, lower, Joined(p))
  {
    PathsOfAre(entries, Joined(p));
    forall k | 0 <= k < |t.forbidden|
      ensures Contains(lower(Joined(p)), t.forbidden[k]) <==>
              exists i :: 0 <= i <= |lower(Joined(p))| && t.forbidden[k] <= lower(Joined(p))[i..]
    {
      ContainsMeans(lower(Joined(p)), t.forbidden[k]);
    }
  }

  /**
    When a tree is accepted, in plain terms: no excluded component is there, there are entries and every one is right,
    the root is a directory and nothing unknown stands beside it, every file and link below it may be there, and the
    declared executable is an executable file.
   */
  lemma AcceptedMeans(
      d: Disk, t: Target, entries: seq<Entry>, sha: seq<byte> -> string, lower: string -> string, places: seq<Path>)
    requires |places| == |t.excluded|
    requires forall k :: 0 <= k < |places| ==>
               places[k] != [] && AllNames(places[k]) && t.excluded[k] == Joined(places[k]) + "/"
    ensures Accepted(d, t, entries, sha, lower) <==>
              && (forall k :: 0 <= k < |places| ==> d.lstat(places[k]).None?)
              && entries != [] && (forall i :: 0 <= i < |entries| ==> IsRight(d, t, sha, entries[i]))
              && d.stat([t.rootEntry]) == Some(Directory)
              && (forall p :: p in d.tree && |p| == 1 ==> p[0] in t.topLevel)
              && (forall p :: p in d.tree && |p| > 1 && p[0] == t.rootEntry && !d.tree[p].Directory? ==>
                    MayBeThere(t, entries, lower, Joined(p)))
              && exists bytes :: d.stat(Located(t.executable)) == Some(File(bytes, true))
  {
    forall k | 0 <= k < |places| ensures PureParts(WithoutTrailingSlash(t.excluded[k])) == places[k] {
      ExcludedPlace(places[k]);
    }
    forall i | 0 <= i < |entries| ensures EntryHolds(d, t, sha, entries[i]) <==> IsRight(d, t, sha, entries[i]) {
      RightMeansHolds(d, t, sha, entries[i]);
    }
    forall p: Path | p != []
      ensures Listed(t, lower, PathsOf(entries), p) <==> MayBeThere(t, entries, lower, Joined(p))
    {
      MayBeThereMeansListed(t, entries, lower, p);
    }
    if ExecutableThere(d, t) {
      assert d.stat(Located(t.executable)) == Some(File(d.stat(Located(t.executable)).value.bytes, true));
    }
  }

  ghost predicate Recorded(d: Disk, root: string, p: Path) {
    Inside(d, root, p) && (d.tree[p].File? || d.tree[p].Link?)
  }

  /** The spelling of everything below the root that is not a directory. */
  ghost function TreePaths(d: Disk, root: string): set<string> {
    set p | p in d.tree && |p| > 1 && p[0] == root && !d.tree[p].Directory? :: Joined(p)
  }

  /** A manifest path spelled with ordinary names, below the root, passing through listed directories only. */
  ghost predicate Plain(d: Disk, root: string, s: string) {
    |Split(s)| > 1 && Split(s)[0] == root && Reached(d, root, Split(s))
  }

  ghost predicate PlainEntry(d: Disk, root: string, e: Entry) {
    !e.Malformed? && Plain(d, root, e.path)
  }

  lemma PlainEntryIsInTree(d: Disk, t: Target, sha: seq<byte> -> string, e: Entry)
    requires Faithful(d, t.rootEntry) && EntryHolds(d, t, sha, e) && PlainEntry(d, t.rootEntry, e)
    ensures Located(e.path) == Split(e.path) && Joined(Split(e.path)) == e.path
    ensures Recorded(d, t.rootEntry, Split(e.path))
  {
    NamesAreKept(Split(e.path));
    JoinedSplit(e.path);
  }

  /**
    Every accepted manifest lists all that is below the root; it lists exactly that if and only if each of its
    paths is spelled plainly.
   */
  lemma AcceptedPathsAreTreePaths(
      d: Disk, t: Target, entries: seq<Entry>, sha: seq<byte> -> string, lower: string -> string)
    requires Faithful(d, t.rootEntry) && Accepted(d, t, entries, sha, lower)
    ensures TreePaths(d, t.rootEntry) <= PathsOf(entries)
    ensures PathsOf(entries) == TreePaths(d, t.rootEntry) <==>
              forall i :: 0 <= i < |entries| ==> PlainEntry(d, t.rootEntry, entries[i])
  {
    var root := t.rootEntry;
    forall s | s in TreePaths(d, root) ensures s in PathsOf(entries) {
      var p :| p in d.tree && |p| > 1 && p[0] == root && !d.tree[p].Directory? && Joined(p) == s;
      assert Inside(d, root, p);
      assert Listed(t, lower, PathsOf(entries), p);
    }
    if forall i :: 0 <= i < |entries| ==> PlainEntry(d, root, entries[i]) {
      forall s | s in PathsOf(entries) ensures s in TreePaths(d, root) {
        PathsOfAre(entries, s);
        var i :| 0 <= i < |entries| && !entries[i].Malformed? && entries[i].path == s;
        assert EntryHolds(d, t, sha, entries[i]);
        PlainEntryIsInTree(d, t, sha, entries[i]);
      }
    }
    if PathsOf(entries) == TreePaths(d, root) {
      forall i | 0 <= i < |entries| ensures PlainEntry(d, root, entries[i]) {
        assert EntryHolds(d, t, sha, entries[i]);
        PathsOfAre(entries, entries[i].path);
        var p :| p in d.tree && |p| > 1 && p[0] == root && Joined(p) == entries[i].path;
        SplitJoined(p);
      }
    }
  }

  /** Equal as far as a manifest records them: the executable flag is not compared. */
  ghost predicate SameBytes(a: Node, b: Node) {
    match a
    case Link(target) => b == Link(target)
    case File(bytes, _) => b.File? && b.bytes == bytes
    case _ => a == b
  }

  lemma ManifestPath(
      a: Disk, root: string, walk: seq<Path>, sha: seq<byte> -> string, entries: seq<Entry>, i: nat) returns (p: Path)
    requires Faithful(a, root) && IsWalk(a, root, walk) && i < |entries|
    requires entries == ManifestOf(a, root, walk, sha)
    ensures Recorded(a, root, p) && EntryOf(a.tree[p], p, sha) == Some(entries[i])
    ensures Located(entries[i].path) == p && Split(entries[i].path) == p
  {
    SortedWalk(a, root, walk);
    ManifestHolds(a.tree, Sort(walk, PathLe), sha, entries[i]);
    assert entries[i] in entries;
    var k :| 0 <= k < |Sort(walk, PathLe)| &&
             EntryOf(a.tree[Sort(walk, PathLe)[k]], Sort(walk, PathLe)[k], sha) == Some(entries[i]);
    p := Sort(walk, PathLe)[k];
    LocatedJoined(p);
    SplitJoined(p);
  }

  lemma RecordedHasEntry(
      a: Disk, root: string, walk: seq<Path>, sha: seq<byte> -> string, entries: seq<Entry>, p: Path) returns (i: nat)
    requires IsWalk(a, root, walk) && Recorded(a, root, p)
    requires entries == ManifestOf(a, root, walk, sha)
    ensures i < |entries| && EntryOf(a.tree[p], p, sha) == Some(entries[i])
  {
    SortedWalk(a, root, walk);
    assert p in walk;
    SortKeepsMembers(walk, p);
    i := PathHasEntry(a.tree, Sort(walk, PathLe), sha, p);
  }

  lemma SortKeepsMembers(walk: seq<Path>, p: Path)
    requires p in walk
    ensures p in Sort(walk, PathLe)
  {
    assert p in multiset(Sort(walk, PathLe));
  }

  lemma PathHasEntry(tree: map<Path, Node>, paths: seq<Path>, sha: seq<byte> -> string, p: Path) returns (i: nat)
    requires forall i :: 0 <= i < |paths| ==> paths[i] in tree && paths[i] != []
    requires p in paths && p != [] && p in tree && EntryOf(tree[p], p, sha).Some?
    ensures i < |Manifest(tree, paths, sha)| && EntryOf(tree[p], p, sha) == Some(Manifest(tree, paths, sha)[i])
  {
    var e := EntryOf(tree[p], p, sha).value;
    ManifestHolds(tree, paths, sha, e);
    i :| 0 <= i < |Manifest(tree, paths, sha)| && Manifest(tree, paths, sha)[i] == e;
  }

  /** A directory of the recorded tree is still a directory on an accepted disk: nothing may replace it. */
  lemma DirectoryStays(
      a: Disk, b: Disk, t: Target, walk: seq<Path>, sha: seq<byte> -> string, lower: string -> string,
      entries: seq<Entry>, q: Path)
    requires Faithful(a, t.rootEntry) && Faithful(b, t.rootEntry) && IsWalk(a, t.rootEntry, walk)
    requires entries == ManifestOf(a, t.rootEntry, walk, sha) && Accepted(b, t, entries, sha, lower)
    requires Enterable(a, t.rootEntry, q) && q != [] && q[0] == t.rootEntry
    requires Reached(b, t.rootEntry, q) && b.lstat(q).Some?
    ensures Enterable(b, t.rootEntry, q)
  {
    if |q| == 1 {
      assert q == [t.rootEntry];
    } else if !b.tree[q].Directory? {
      assert Listed(t, lower, PathsOf(entries), q);
      PathsOfAre(entries, Joined(q));
      var i :| 0 <= i < |entries| && !entries[i].Malformed? && entries[i].path == Joined(q);
      var r := ManifestPath(a, t.rootEntry, walk, sha, entries, i);
      SplitJoined(q);
    }
  }

  /** `p` was recorded when the manifest was taken, so an accepted disk reaches it through real directories. */
  lemma {:induction false} RecordedIsReached(
      a: Disk, b: Disk, t: Target, walk: seq<Path>, sha: seq<byte> -> string, lower: string -> string,
      entries: seq<Entry>, p: Path, k: nat)
    requires Faithful(a, t.rootEntry) && Faithful(b, t.rootEntry) && IsWalk(a, t.rootEntry, walk)
    requires entries == ManifestOf(a, t.rootEntry, walk, sha) && Accepted(b, t, entries, sha, lower)
    requires Recorded(a, t.rootEntry, p) && b.lstat(p).Some? && 0 < k <= |p|
    ensures Reached(b, t.rootEntry, p[..k])
    decreases k
  {
    if k > 1 {
      var q := p[..k - 1];
      RecordedIsReached(a, b, t, walk, sha, lower, entries, p, k - 1);
      assert Enterable(a, t.rootEntry, q);
      DirectoryStays(a, b, t, walk, sha, lower, entries, q);
      ReachedNext(b, t.rootEntry, p, k);
    }
  }

  lemma ReachedNext(b: Disk, root: string, p: Path, k: nat)
    requires 1 < k <= |p| && AllNames(p) && Reached(b, root, p[..k - 1]) && Enterable(b, root, p[..k - 1])
    ensures Reached(b, root, p[..k])
  {
    forall j | 0 < j < k ensures Enterable(b, root, p[..k][..j]) {
      assert p[..k][..j] == p[..j];
      assert j < k - 1 ==> p[..k - 1][..j] == p[..j];
    }
  }

  predicate Collide(sha: seq<byte> -> string, a: Node, b: Node) {
    && a.File? && b.File? && a.bytes != b.bytes
    && |a.bytes| == |b.bytes| && sha(a.bytes) == sha(b.bytes)
  }

  /**
    Tampering is seen: when the manifest taken over disk `a` is accepted on disk `b`, below the root `b` holds
    exactly the files and links `a` had, with the same bytes and targets. Only two files of the same size whose
    digests collide could tell otherwise.
   */
  lemma AcceptedMeansUnchanged(
      a: Disk, b: Disk, t: Target, walk: seq<Path>, sha: seq<byte> -> string, lower: string -> string,
      entries: seq<Entry>)
    requires Faithful(a, t.rootEntry) && Faithful(b, t.rootEntry) && IsWalk(a, t.rootEntry, walk)
    requires entries == ManifestOf(a, t.rootEntry, walk, sha) && Accepted(b, t, entries, sha, lower)
    requires forall p :: Inside(a, t.rootEntry, p) && Inside(b, t.rootEntry, p) ==>
               !Collide(sha, a.tree[p], b.tree[p])
    ensures forall p :: Recorded(a, t.rootEntry, p) ==>
              Recorded(b, t.rootEntry, p) && SameBytes(a.tree[p], b.tree[p])
    ensures forall p :: Inside(b, t.rootEntry, p) && !b.tree[p].Directory? ==> Recorded(a, t.rootEntry, p)
  {
    var root := t.rootEntry;
    forall p | Recorded(a, root, p) ensures Recorded(b, root, p) && SameBytes(a.tree[p], b.tree[p]) {
      var i := RecordedHasEntry(a, root, walk, sha, entries, p);
      assert EntryHolds(b, t, sha, entries[i]);
      LocatedJoined(p);
      RecordedIsReached(a, b, t, walk, sha, lower, entries, p, |p|);
      assert p[..|p|] == p;
      assert p in b.tree;
    }
    forall p | Inside(b, root, p) && !b.tree[p].Directory? ensures Recorded(a, root, p) {
      assert Listed(t, lower, PathsOf(entries), p);
      PathsOfAre(entries, Joined(p));
      var i :| 0 <= i < |entries| && !entries[i].Malformed? && entries[i].path == Joined(p);
      var q := ManifestPath(a, root, walk, sha, entries, i);
      SplitJoined(p);
    }
  }

  // ----- what an untouched tree gets -----

  ghost predicate NodeShippable(d: Disk, t: Target, lower: string -> string, p: Path)
    requires p in d.tree && p != []
  {
    match d.tree[p]
    case Directory => true
    case Special => false
    case File(_, _) => !StartsWithAny(Joined(p), t.excluded) && !ContainsAny(lower(Joined(p)), t.forbidden)
    case Link(target) =>
      && !StartsWithAny(Joined(p), t.excluded) && !ContainsAny(lower(Joined(p)), t.forbidden)
      && Confined(Joined(p), target, t.rootEntry)
  }

  /** What the staged tree has to be like, digests aside. */
  ghost predicate Shippable(d: Disk, t: Target, lower: string -> string) {
    && ExcludedAbsent(d, t) && d.stat([t.rootEntry]) == Some(Directory)
    && TopLevelAllowed(d, t) && ExecutableThere(d, t)
    && (exists p :: Recorded(d, t.rootEntry, p))
    && forall p :: Inside(d, t.rootEntry, p) ==> NodeShippable(d, t, lower, p)
  }

  lemma GeneratedEntriesHold(
      d: Disk, t: Target, walk: seq<Path>, sha: seq<byte> -> string, lower: string -> string, entries: seq<Entry>)
    requires Faithful(d, t.rootEntry) && IsWalk(d, t.rootEntry, walk)
    requires entries == ManifestOf(d, t.rootEntry, walk, sha) && Shippable(d, t, lower)
    ensures Accepted(d, t, entries, sha, lower)
  {
    var root := t.rootEntry;
    forall i | 0 <= i < |entries| ensures EntryHolds(d, t, sha, entries[i]) {
      var p := ManifestPath(d, root, walk, sha, entries, i);
      assert NodeShippable(d, t, lower, p);
    }
    forall p | Inside(d, root, p) && !d.tree[p].Directory? ensures Listed(t, lower, PathsOf(entries), p) {
      assert NodeShippable(d, t, lower, p);
      assert Recorded(d, root, p);
      var i := RecordedHasEntry(d, root, walk, sha, entries, p);
      PathsOfAre(entries, entries[i].path);
    }
    var p :| Recorded(d, root, p);
    var i := RecordedHasEntry(d, root, walk, sha, entries, p);
  }

  lemma AcceptedIsShippable(
      d: Disk, t: Target, walk: seq<Path>, sha: seq<byte> -> string, lower: string -> string, entries: seq<Entry>)
    requires Faithful(d, t.rootEntry) && IsWalk(d, t.rootEntry, walk)
    requires entries == ManifestOf(d, t.rootEntry, walk, sha) && Accepted(d, t, entries, sha, lower)
    ensures Shippable(d, t, lower)
  {
    var root := t.rootEntry;
    var first := ManifestPath(d, root, walk, sha, entries, 0);
    forall p | Inside(d, root, p) ensures NodeShippable(d, t, lower, p) {
      if !d.tree[p].Directory? {
        assert Listed(t, lower, PathsOf(entries), p);
        PathsOfAre(entries, Joined(p));
        var i :| 0 <= i < |entries| && !entries[i].Malformed? && entries[i].path == Joined(p);
        var q := ManifestPath(d, root, walk, sha, entries, i);
        SplitJoined(p);
        assert EntryHolds(d, t, sha, entries[i]);
      }
    }
  }

  /**
    A tree unchanged below the root since its manifest was generated never fails an inventory check: it is accepted
    exactly when the tree itself may ship.
   */
  lemma UnchangedIsAccepted(
      a: Disk, b: Disk, t: Target, walkA: seq<Path>, walkB: seq<Path>, sha: seq<byte> -> string,
      lower: string -> string)
    requires IsWalk(a, t.rootEntry, walkA) && IsWalk(b, t.rootEntry, walkB)
    requires SameInside(a, b, t.rootEntry) && Faithful(b, t.rootEntry)
    ensures Accepted(b, t, ManifestOf(a, t.rootEntry, walkA, sha), sha, lower) <==> Shippable(b, t, lower)
  {
    ManifestIsDeterministic(a, b, t.rootEntry, walkA, walkB, sha);
    var entries := ManifestOf(b, t.rootEntry, walkB, sha);
    if Shippable(b, t, lower) {
      GeneratedEntriesHold(b, t, walkB, sha, lower, entries);
    }
    if Accepted(b, t, entries, sha, lower) {
      AcceptedIsShippable(b, t, walkB, sha, lower, entries);
    }
  }

  ghost predicate SameButModes(b: Disk, c: Disk, t: Target) {
    && b.tree.Keys == c.tree.Keys && (forall p :: p in b.tree ==> SameBytes(b.tree[p], c.tree[p]))
    && (forall p :: b.lstat(p).Some? == c.lstat(p).Some?)
    && (forall p :: b.lstat(p).Some? ==> SameBytes(b.lstat(p).value, c.lstat(p).value))
    && b.stat([t.rootEntry]) == c.stat([t.rootEntry])
    && b.stat(Located(t.executable)) == c.stat(Located(t.executable))
  }

  /** Executable flags other than the declared executable's make no difference to the verdict. */
  lemma ModesAreNotVerified(
      b: Disk, c: Disk, t: Target, entries: seq<Entry>, sha: seq<byte> -> string, lower: string -> string)
    requires SameButModes(b, c, t) && Accepted(b, t, entries, sha, lower)
    ensures Accepted(c, t, entries, sha, lower)
  {
    forall i | 0 <= i < |entries| ensures EntryHolds(c, t, sha, entries[i]) {
      assert EntryHolds(b, t, sha, entries[i]);
    }
    forall p | Inside(c, t.rootEntry, p) && !c.tree[p].Directory? ensures Listed(t, lower, PathsOf(entries), p) {
      assert Inside(b, t.rootEntry, p) && !b.tree[p].Directory?;
    }
  }
}

/** The counts `verify_distribution` reports, and what they count. */
module DistributionReport {
  import opened Bytes
  import opened Outcomes
  import opened Sorting
  import opened Enumeration
  import opened PosixPaths
  import opened EmbeddedDistribution

  /** The same count over a list of locations. */
  function TallyAt(d: Disk, paths: seq<Path>): Report {
    if paths == [] then Report(0, 0)
    else
      var n := |paths| - 1;
      Counted(TallyAt(d, paths[..n]), d.lstat(paths[n]))
  }

  /** What one location adds: one `true` for a file, one `false` for each of its bytes. */
  ghost function Units(d: Disk): Path -> multiset<bool> {
    (p: Path) => multiset{}[true := FileCount(d.lstat(p))][false := FileBytes(d.lstat(p))]
  }

  lemma {:induction false} TallyIsBag(d: Disk, paths: seq<Path>, units: Path -> multiset<bool>)
    requires units == Units(d)
    ensures TallyAt(d, paths) == Report(BagOf(paths, units)[true], BagOf(paths, units)[false])
  {
    if paths != [] {
      TallyIsBag(d, paths[..|paths| - 1], units);
    }
  }

  lemma TallyIgnoresOrder(d: Disk, a: seq<Path>, b: seq<Path>)
    requires multiset(a) == multiset(b)
    ensures TallyAt(d, a) == TallyAt(d, b)
  {
    TallyIsBag(d, a, Units(d));
    TallyIsBag(d, b, Units(d));
    BagOfIgnoresOrder(a, b, Units(d));
  }

  function Locations(entries: seq<Entry>): (r: seq<Path>)
    ensures |r| == |entries|
    ensures forall i :: 0 <= i < |r| ==> r[i] == LocationOf(entries[i])
  {
    if entries == [] then [] else Locations(entries[..|entries| - 1]) + [LocationOf(entries[|entries| - 1])]
  }

  function Filtered<T>(s: seq<T>, keep: T -> bool): (r: seq<T>) {
    if s == [] then []
    else
      var n := |s| - 1;
      Filtered(s[..n], keep) + if keep(s[n]) then [s[n]] else []
  }

  lemma {:induction false} FilteredHolds<T>(s: seq<T>, keep: T -> bool, x: T)
    ensures x in Filtered(s, keep) <==> x in s && keep(x)
  {
    if s != [] {
      var n := |s| - 1;
      FilteredHolds(s[..n], keep, x);
      assert s == s[..n] + [s[n]];
    }
  }

  lemma {:induction false} FilteredIsDistinct<T>(s: seq<T>, keep: T -> bool)
    requires Distinct(s)
    ensures Distinct(Filtered(s, keep))
  {
    if s != [] {
      var n := |s| - 1;
      FilteredIsDistinct(s[..n], keep);
      FilteredHolds(s[..n], keep, s[n]);
    }
  }

  lemma FilteredLast<T>(s: seq<T>, keep: T -> bool)
    requires s != []
    ensures var n := |s| - 1; Filtered(s, keep) == Filtered(s[..n], keep) + if keep(s[n]) then [s[n]] else []
  {
  }

  lemma TallySnoc(d: Disk, paths: seq<Path>, p: Path)
    ensures TallyAt(d, paths + [p]) == Counted(TallyAt(d, paths), d.lstat(p))
    ensures TallyAt(d, paths + []) == TallyAt(d, paths)
  {
    assert (paths + [p])[..|paths|] == paths;
    assert paths + [] == paths;
  }

  lemma LastTallied(d: Disk, paths: seq<Path>)
    requires paths != []
    ensures TallyAt(d, paths) == Counted(TallyAt(d, paths[..|paths| - 1]), d.lstat(paths[|paths| - 1]))
  {
  }

  lemma NoFileCountsNothing(before: Report, node: Option<Node>)
    requires FileCount(node) == 0
    ensures Counted(before, node) == before
  {
  }

  lemma {:induction false} WhatIsNoFileAddsNothing(d: Disk, walk: seq<Path>, keep: Path -> bool)
    requires forall i :: 0 <= i < |walk| && !keep(walk[i]) ==> FileCount(d.lstat(walk[i])) == 0
    ensures TallyAt(d, Filtered(walk, keep)) == TallyAt(d, walk)
  {
    if walk != [] {
      var n := |walk| - 1;
      WhatIsNoFileAddsNothing(d, walk[..n], keep);
      FilteredLast(walk, keep);
      LastTallied(d, walk);
      TallySnoc(d, Filtered(walk[..n], keep), walk[n]);
      if !keep(walk[n]) {
        NoFileCountsNothing(TallyAt(d, walk[..n]), d.lstat(walk[n]));
      }
    }
  }

  function IsFileEntry(): Entry -> bool {
    (e: Entry) => e.FileEntry?
  }

  function IsFile(d: Disk): Path -> bool {
    (p: Path) => d.lstat(p).Some? && d.lstat(p).value.File?
  }

  /** Where the manifest says the files are, one location for each file entry. */
  function FileLocations(entries: seq<Entry>): seq<Path> {
    Locations(Filtered(entries, IsFileEntry()))
  }

  /** What the walk finds of files. */
  function FilesFound(d: Disk, walk: seq<Path>): seq<Path> {
    Filtered(walk, IsFile(d))
  }

  ghost predicate CountsIfFileEntry(d: Disk, e: Entry) {
    !e.FileEntry? ==> FileCount(d.lstat(LocationOf(e))) == 0
  }

  lemma {:induction false} LinkEntriesAddNothing(d: Disk, entries: seq<Entry>)
    requires forall i {:trigger CountsIfFileEntry(d, entries[i])} ::
               0 <= i < |entries| ==> CountsIfFileEntry(d, entries[i])
    ensures Tally(d, entries) == TallyAt(d, FileLocations(entries))
  {
    if entries != [] {
      var n := |entries| - 1;
      forall i | 0 <= i < n ensures CountsIfFileEntry(d, entries[..n][i]) {
        assert CountsIfFileEntry(d, entries[i]);
      }
      LinkEntriesAddNothing(d, entries[..n]);
      assert CountsIfFileEntry(d, entries[n]);
      OneMoreTallied(d, entries);
    }
  }

  lemma OneMoreTallied(d: Disk, entries: seq<Entry>)
    requires entries != [] && CountsIfFileEntry(d, entries[|entries| - 1])
    requires Tally(d, entries[..|entries| - 1]) == TallyAt(d, FileLocations(entries[..|entries| - 1]))
    ensures Tally(d, entries) == TallyAt(d, FileLocations(entries))
  {
    var n := |entries| - 1;
    LastFileEntry(entries);
    LastEntryTallied(d, entries);
    if entries[n].FileEntry? {
      TallySnoc(d, FileLocations(entries[..n]), LocationOf(entries[n]));
    } else {
      NoFileCountsNothing(Tally(d, entries[..n]), d.lstat(LocationOf(entries[n])));
    }
  }

  lemma LastEntryTallied(d: Disk, entries: seq<Entry>)
    requires entries != []
    ensures Tally(d, entries)
         == Counted(Tally(d, entries[..|entries| - 1]), d.lstat(LocationOf(entries[|entries| - 1])))
  {
  }

  lemma LastFileEntry(entries: seq<Entry>)
    requires entries != []
    ensures var n := |entries| - 1;
            if entries[n].FileEntry? then
              FileLocations(entries) == FileLocations(entries[..n]) + [LocationOf(entries[n])]
            else FileLocations(entries) == FileLocations(entries[..n])
  {
    var n := |entries| - 1;
    var before := Filtered(entries[..n], IsFileEntry());
    FilteredLast(entries, IsFileEntry());
    assert (before + [entries[n]])[..|before|] == before;
  }

  lemma AcceptedLinkIsNoFile(d: Disk, t: Target, sha: seq<byte> -> string, e: Entry)
    requires EntryHolds(d, t, sha, e)
    ensures CountsIfFileEntry(d, e)
  {
  }

  lemma {:induction false} FilesCountOne(d: Disk, paths: seq<Path>)
    requires forall i :: 0 <= i < |paths| ==> IsFile(d)(paths[i])
    ensures TallyAt(d, paths).verifiedFiles == |paths|
  {
    if paths != [] {
      FilesCountOne(d, paths[..|paths| - 1]);
    }
  }

  /** As many as a list without repetition, and all of them: a rearrangement of it. */
  lemma SameSizeSameBag<T>(all: seq<T>, some: seq<T>)
    requires Distinct(some) && |all| == |some| && forall x :: x in some ==> x in all
    ensures multiset(all) == multiset(some) && Distinct(all)
  {
    forall x ensures multiset(some)[x] <= multiset(all)[x] {
      OccursOnce(some, x);
    }
    assert multiset(some) <= multiset(all);
    assert |multiset(all) - multiset(some)| == |all| - |some|;
    assert multiset(all) == multiset(some) + (multiset(all) - multiset(some));
    PermutationStaysDistinct(some, all);
  }

  /** Each file entry is spelled plainly, and no path is given twice. Entries for links do not matter. */
  ghost predicate CountsOnce(d: Disk, t: Target, entries: seq<Entry>) {
    var files := Filtered(entries, IsFileEntry());
    && (forall i {:trigger PlainEntry(d, t.rootEntry, files[i])} ::
          0 <= i < |files| ==> PlainEntry(d, t.rootEntry, files[i]))
    && forall i, j :: 0 <= i < j < |files| && files[i].FileEntry? && files[j].FileEntry? ==>
         files[i].path != files[j].path
  }

  lemma FileEntryAt(entries: seq<Entry>, i: nat)
    requires i < |Filtered(entries, IsFileEntry())|
    ensures |FileLocations(entries)| == |Filtered(entries, IsFileEntry())|
    ensures var e := Filtered(entries, IsFileEntry())[i];
            e in entries && e.FileEntry? && FileLocations(entries)[i] == Located(e.path)
  {
    var files := Filtered(entries, IsFileEntry());
    FilteredHolds(entries, IsFileEntry(), files[i]);
    assert files[i] in files;
  }

  /** An accepted file entry points at a file; one spelled plainly, at a file the walk finds. */
  lemma AcceptedFile(
      d: Disk, t: Target, entries: seq<Entry>, walk: seq<Path>, sha: seq<byte> -> string, lower: string -> string,
      i: nat)
    requires Faithful(d, t.rootEntry) && IsWalk(d, t.rootEntry, walk) && Accepted(d, t, entries, sha, lower)
    requires i < |Filtered(entries, IsFileEntry())|
    ensures |FileLocations(entries)| == |Filtered(entries, IsFileEntry())|
    ensures IsFile(d)(FileLocations(entries)[i])
    ensures PlainEntry(d, t.rootEntry, Filtered(entries, IsFileEntry())[i]) ==>
              FileLocations(entries)[i] in FilesFound(d, walk)
  {
    FileEntryAt(entries, i);
    var e := Filtered(entries, IsFileEntry())[i];
    var k :| 0 <= k < |entries| && entries[k] == e;
    assert EntryHolds(d, t, sha, entries[k]);
    if PlainEntry(d, t.rootEntry, e) {
      PlainEntryIsInTree(d, t, sha, e);
      FilteredHolds(walk, IsFile(d), Located(e.path));
    }
  }

  /** Every file the walk finds has a file entry with its plain path. */
  lemma FoundFileHasEntry(
      d: Disk, t: Target, entries: seq<Entry>, walk: seq<Path>, sha: seq<byte> -> string, lower: string -> string,
      p: Path) returns (i: nat)
    requires Faithful(d, t.rootEntry) && IsWalk(d, t.rootEntry, walk) && Accepted(d, t, entries, sha, lower)
    requires p in FilesFound(d, walk)
    ensures i < |Filtered(entries, IsFileEntry())| == |FileLocations(entries)|
    ensures FileLocations(entries)[i] == p && PlainEntry(d, t.rootEntry, Filtered(entries, IsFileEntry())[i])
    ensures Filtered(entries, IsFileEntry())[i].FileEntry? && p != []
    ensures Filtered(entries, IsFileEntry())[i].path == Joined(p)
  {
    FilteredHolds(walk, IsFile(d), p);
    assert Inside(d, t.rootEntry, p);
    assert Listed(t, lower, PathsOf(entries), p);
    PathsOfAre(entries, Joined(p));
    var k :| 0 <= k < |entries| && !entries[k].Malformed? && entries[k].path == Joined(p);
    LocatedJoined(p);
    SplitJoined(p);
    assert EntryHolds(d, t, sha, entries[k]);
    FilteredHolds(entries, IsFileEntry(), entries[k]);
    i :| 0 <= i < |Filtered(entries, IsFileEntry())| && Filtered(entries, IsFileEntry())[i] == entries[k];
    FileEntryAt(entries, i);
  }

  lemma CountsMatchWhenOnce(
      d: Disk, t: Target, entries: seq<Entry>, walk: seq<Path>, sha: seq<byte> -> string, lower: string -> string)
    requires Faithful(d, t.rootEntry) && IsWalk(d, t.rootEntry, walk) && Accepted(d, t, entries, sha, lower)
    requires CountsOnce(d, t, entries)
    ensures multiset(FileLocations(entries)) == multiset(FilesFound(d, walk))
  {
    var files, at := Filtered(entries, IsFileEntry()), FileLocations(entries);
    FilteredIsDistinct(walk, IsFile(d));
    forall i, j | 0 <= i < j < |at| ensures at[i] != at[j] {
      FileEntryAt(entries, i);
      FileEntryAt(entries, j);
      PlainPath(d, t, files[i]);
      PlainPath(d, t, files[j]);
    }
    forall p ensures p in at <==> p in FilesFound(d, walk) {
      if p in at {
        var i :| 0 <= i < |at| && at[i] == p;
        AcceptedFile(d, t, entries, walk, sha, lower, i);
      }
      if p in FilesFound(d, walk) {
        var i := FoundFileHasEntry(d, t, entries, walk, sha, lower, p);
      }
    }
    SameElementsSameBag(at, FilesFound(d, walk));
  }

  lemma PlainPath(d: Disk, t: Target, e: Entry)
    requires PlainEntry(d, t.rootEntry, e)
    ensures Located(e.path) == Split(e.path) && Joined(Located(e.path)) == e.path
  {
    NamesAreKept(Split(e.path));
    JoinedSplit(e.path);
  }

  lemma CountsMatchOnlyWhenOnce(
      d: Disk, t: Target, entries: seq<Entry>, walk: seq<Path>, sha: seq<byte> -> string, lower: string -> string)
    requires Faithful(d, t.rootEntry) && IsWalk(d, t.rootEntry, walk) && Accepted(d, t, entries, sha, lower)
    requires |FileLocations(entries)| == |FilesFound(d, walk)|
    ensures CountsOnce(d, t, entries)
  {
    var files, at, found := Filtered(entries, IsFileEntry()), FileLocations(entries), FilesFound(d, walk);
    FilteredIsDistinct(walk, IsFile(d));
    forall p | p in found ensures p in at {
      var i := FoundFileHasEntry(d, t, entries, walk, sha, lower, p);
    }
    SameSizeSameBag(at, found);
    forall i | 0 <= i < |files| ensures PlainEntry(d, t.rootEntry, files[i]) && files[i].FileEntry?
    {
      FileEntryAt(entries, i);
      assert at[i] in multiset(at);
      var j := FoundFileHasEntry(d, t, entries, walk, sha, lower, at[i]);
      assert j == i;
    }
    forall i, j | 0 <= i < j < |files| ensures files[i].path != files[j].path {
      FileEntryAt(entries, i);
      FileEntryAt(entries, j);
    }
  }

  /**
    When the reported counts are the tree's own, exactly: if and only if each file entry is spelled plainly and no
    file is listed twice.
   */
  lemma ReportCountsTheTree(
      d: Disk, t: Target, entries: seq<Entry>, walk: seq<Path>, sha: seq<byte> -> string, lower: string -> string)
    requires Faithful(d, t.rootEntry) && IsWalk(d, t.rootEntry, walk) && Accepted(d, t, entries, sha, lower)
    ensures Tally(d, entries) == TallyAt(d, walk) <==> CountsOnce(d, t, entries)
  {
    var at, found := FileLocations(entries), FilesFound(d, walk);
    forall i | 0 <= i < |entries| ensures CountsIfFileEntry(d, entries[i]) {
      assert EntryHolds(d, t, sha, entries[i]);
      AcceptedLinkIsNoFile(d, t, sha, entries[i]);
    }
    LinkEntriesAddNothing(d, entries);
    WhatIsNoFileAddsNothing(d, walk, IsFile(d));
    if CountsOnce(d, t, entries) {
      CountsMatchWhenOnce(d, t, entries, walk, sha, lower);
      TallyIgnoresOrder(d, at, found);
    }
    if Tally(d, entries) == TallyAt(d, walk) {
      forall i | 0 <= i < |at| ensures IsFile(d)(at[i]) {
        AcceptedFile(d, t, entries, walk, sha, lower, i);
      }
      forall i | 0 <= i < |found| ensures IsFile(d)(found[i]) {
        FilteredHolds(walk, IsFile(d), found[i]);
        assert found[i] in found;
      }
      FilesCountOne(d, at);
      FilesCountOne(d, found);
      CountsMatchOnlyWhenOnce(d, t, entries, walk, sha, lower);
    }
  }

  /** The same file listed under another path. */
  function Twin(e: Entry, path: string): Entry
    requires e.FileEntry?
  {
    FileEntry(path, e.digest, e.size, e.executable)
  }

  /**
    An input that fails: one more entry for a listed file, its path written with a doubled slash, is
    accepted too, is counted again, and names nothing the tree lists.
   */
  lemma DoubledSlashIsAccepted(
      d: Disk, t: Target, entries: seq<Entry>, sha: seq<byte> -> string, lower: string -> string,
      i: nat, a: string, b: string)
    requires Accepted(d, t, entries, sha, lower)
    requires i < |entries| && entries[i].FileEntry? && entries[i].path == a + "/" + b
    requires !StartsWithAny(a + "/" + ("/" + b), t.excluded)
    ensures var more := entries + [Twin(entries[i], a + "/" + ("/" + b))];
            && Accepted(d, t, more, sha, lower)
            && Tally(d, more).verifiedFiles == Tally(d, entries).verifiedFiles + 1
            && !PlainEntry(d, t.rootEntry, more[|entries|])
  {
    var alias := Twin(entries[i], a + "/" + ("/" + b));
    var more := entries + [alias];
    DoubledSlash(a, b);
    assert EntryHolds(d, t, sha, entries[i]);
    assert EntryHolds(d, t, sha, alias);
    assert more[..|entries|] == entries;
    forall k | 0 <= k < |more| ensures EntryHolds(d, t, sha, more[k]) {
      if k < |entries| {
        assert EntryHolds(d, t, sha, entries[k]);
      }
    }
    forall p | Inside(d, t.rootEntry, p) && !d.tree[p].Directory? ensures Listed(t, lower, PathsOf(more), p) {
      assert Listed(t, lower, PathsOf(entries), p);
    }
    SplitAt(a, "/" + b);
    assert ("/" + b)[1..] == b;
    assert Split(alias.path)[|Split(a)|] == "";
    assert !IsName("");
  }
}
