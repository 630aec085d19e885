/**
  The cache key: the byte stream `contract_fingerprint` feeds to SHA-256, and what that stream identifies.
  Names are UTF-8 byte strings. The digest of a file is an arbitrary function into 64 hexadecimal characters.
 */
module CacheKey {
  import opened Outcomes
  import opened Bytes
  import opened Sorting
  import opened Enumeration

  type Name = seq<byte>
  type Digest = d: seq<byte> | |d| == 64 witness seq(64, _ => 48)

  const BYTE_CODE_CACHE: Name := [95, 95, 112, 121, 99, 97, 99, 104, 101, 95, 95]  // __pycache__
  const COMPILED: Name := [46, 112, 121, 99]  // .pyc
  const OPTIMIZED: Name := [46, 112, 121, 111]  // .pyo
  const DOT: byte := 46
  const SLASH: byte := 47

  /** One path below a source package, as `rglob` and `lstat` present it. */
  datatype Node = Regular(contents: seq<byte>) | SymbolicLink | NotAFile
  datatype Listed = Listed(path: seq<Name>, node: Node)

  /** One pinned input: a file, a directory of sources (its own name and its listing), or neither. */
  datatype Input =
    | PinnedFile(name: Name, contents: seq<byte>)
    | SourcePackage(name: Name, listing: seq<Listed>)
    | Unusable

  /** A file that takes part in the key, under the name the key uses for it. */
  datatype Pinned = Pinned(name: Name, contents: seq<byte>)
  datatype Entry = Entry(name: Name, digest: Digest)

  function LastDot(name: Name): (i: int)
    ensures -1 <= i < |name|
    ensures i >= 0 ==> name[i] == DOT
  {
    if name == [] then -1
    else if name[|name| - 1] == DOT then |name| - 1
    else LastDot(name[..|name| - 1])
  }

  /** `Path.suffix`: a leading or a trailing dot does not start a suffix. */
  function Suffix(name: Name): Name {
    var i := LastDot(name);
    if 0 < i < |name| - 1 then name[i..] else []
  }

  function FileName(path: seq<Name>): Name {
    if path == [] then [] else path[|path| - 1]
  }

  predicate InByteCodeCache(path: seq<Name>) {
    BYTE_CODE_CACHE in path
  }

  predicate IsByteCode(path: seq<Name>) {
    Suffix(FileName(path)) == COMPILED || Suffix(FileName(path)) == OPTIMIZED
  }

  /** A symbolic link the build could follow out of the digest. */
  predicate IsForbiddenLink(l: Listed) {
    !InByteCodeCache(l.path) && l.node.SymbolicLink?
  }

  predicate TakesPart(l: Listed) {
    !InByteCodeCache(l.path) && l.node.Regular? && !IsByteCode(l.path)
  }

  function Posix(path: seq<Name>): Name {
    if path == [] then [] else if |path| == 1 then path[0] else path[0] + [SLASH] + Posix(path[1..])
  }

  function KeyName(directory: Name, path: seq<Name>): Name {
    directory + [SLASH] + Posix(path)
  }

  function PackageFiles(directory: Name, listing: seq<Listed>): seq<Pinned> {
    if listing == [] then []
    else
      var l := listing[|listing| - 1];
      PackageFiles(directory, listing[..|listing| - 1])
      + if TakesPart(l) then [Pinned(KeyName(directory, l.path), l.node.contents)] else []
  }

  /** The order of `sorted(directory.rglob("*"))`: component by component. */
  predicate PathOrder(a: seq<Name>, b: seq<Name>) {
    if a == [] then true
    else if b == [] then false
    else if a[0] == b[0] then PathOrder(a[1..], b[1..])
    else LexLe(a[0], b[0])
  }

  predicate ListedLe(a: Listed, b: Listed) {
    PathOrder(a.path, b.path)
  }

  function InOrder(listing: seq<Listed>): seq<Listed> {
    Sort(listing, ListedLe)
  }

  lemma {:induction false} PathOrderTotal(a: seq<Name>, b: seq<Name>)
    ensures PathOrder(a, b) || PathOrder(b, a)
  {
    if a != [] && b != [] {
      if a[0] == b[0] {
        PathOrderTotal(a[1..], b[1..]);
      } else {
        LexLeTotal(a[0], b[0]);
      }
    }
  }

  lemma {:induction false} PathOrderTransitive(a: seq<Name>, b: seq<Name>, c: seq<Name>)
    requires PathOrder(a, b) && PathOrder(b, c)
    ensures PathOrder(a, c)
  {
    if a != [] && b != [] && c != [] {
      if a[0] == b[0] == c[0] {
        PathOrderTransitive(a[1..], b[1..], c[1..]);
      } else if a[0] == c[0] {
        LexLeAntisymmetric(a[0], b[0]);
      } else if a[0] != b[0] && b[0] != c[0] {
        LexLeTransitive(a[0], b[0], c[0]);
      }
    }
  }

  /** The first component that differs decides; a path comes before what is below it. */
  lemma {:induction false} PathOrderMeans(a: seq<Name>, b: seq<Name>)
    ensures PathOrder(a, b) <==>
              || a <= b
              || exists k :: 0 <= k < |a| && k < |b| && a[..k] == b[..k] && a[k] != b[k] && LexLe(a[k], b[k])
  {
    if a != [] && b != [] {
      if a[0] != b[0] {
        assert a[..0] == b[..0];
      } else {
        PathOrderMeans(a[1..], b[1..]);
        SameHead(a, b);
        if k :| 0 <= k < |a[1..]| && k < |b[1..]| && a[1..][..k] == b[1..][..k] && a[1..][k] != b[1..][k]
                && LexLe(a[1..][k], b[1..][k])
        {
          assert a[..k + 1] == [a[0]] + a[1..][..k] && b[..k + 1] == [b[0]] + b[1..][..k];
        }
        if k :| 0 <= k < |a| && k < |b| && a[..k] == b[..k] && a[k] != b[k] && LexLe(a[k], b[k]) {
          assert a[1..][..k - 1] == a[..k][1..] && b[1..][..k - 1] == b[..k][1..];
          assert a[1..][k - 1] == a[k] && b[1..][k - 1] == b[k];
        }
      }
    }
  }

  lemma InOrderIsSorted(listing: seq<Listed>)
    ensures SortedBy(InOrder(listing), ListedLe)
  {
    forall a: Listed, b: Listed ensures ListedLe(a, b) || ListedLe(b, a) {
      PathOrderTotal(a.path, b.path);
    }
    forall a: Listed, b: Listed, c: Listed | ListedLe(a, b) && ListedLe(b, c) ensures ListedLe(a, c) {
      PathOrderTransitive(a.path, b.path, c.path);
    }
    SortSorts(listing, ListedLe);
  }

  predicate AcceptedPackage(listing: seq<Listed>) {
    && (forall i :: 0 <= i < |listing| ==> !IsForbiddenLink(listing[i]))
    && (exists i :: 0 <= i < |listing| && TakesPart(listing[i]))
  }

  function FilesOf(input: Input): seq<Pinned> {
    match input
    case PinnedFile(name, contents) => [Pinned(name, contents)]
    case SourcePackage(name, listing) => PackageFiles(name, InOrder(listing))
    case Unusable => []
  }

  /** Every file the key answers for. */
  function Files(inputs: seq<Input>): seq<Pinned> {
    if inputs == [] then [] else Files(inputs[..|inputs| - 1]) + FilesOf(inputs[|inputs| - 1])
  }

  predicate AcceptedInput(input: Input) {
    !input.Unusable? && (input.SourcePackage? ==> AcceptedPackage(input.listing))
  }

  predicate DistinctNames(files: seq<Pinned>) {
    forall i, j :: 0 <= i < j < |files| ==> files[i].name != files[j].name
  }

  /** The inputs `contract_fingerprint` does not refuse. */
  predicate Accepted(inputs: seq<Input>) {
    && AllAccepted(inputs)
    && Files(inputs) != []
    && DistinctNames(Files(inputs))
    && (forall f :: f in Files(inputs) ==> |f.name| < FIELD_LIMIT)
  }

  function Digested(files: seq<Pinned>, sha: seq<byte> -> Digest): (r: seq<Entry>)
    ensures |r| == |files|
    ensures forall i :: 0 <= i < |files| ==> r[i] == Entry(files[i].name, sha(files[i].contents))
  {
    seq(|files|, i requires 0 <= i < |files| => Entry(files[i].name, sha(files[i].contents)))
  }

  /** Python's order on (name, digest) pairs. */
  predicate EntryLe(a: Entry, b: Entry) {
    if a.name == b.name then LexLe(a.digest, b.digest) else LexLe(a.name, b.name)
  }

  lemma EntryLeIsTotalOrder()
    ensures TotalOrder(EntryLe)
  {
    forall a: Entry, b: Entry ensures EntryLe(a, b) || EntryLe(b, a) {
      LexLeTotal(a.name, b.name);
      LexLeTotal(a.digest, b.digest);
    }
    forall a: Entry, b: Entry, c: Entry | EntryLe(a, b) && EntryLe(b, c) ensures EntryLe(a, c) {
      if a.name == b.name == c.name {
        LexLeTransitive(a.digest, b.digest, c.digest);
      } else if a.name == c.name {
        LexLeAntisymmetric(a.name, b.name);
      } else if a.name != b.name && b.name != c.name {
        LexLeTransitive(a.name, b.name, c.name);
      }
    }
    forall a: Entry, b: Entry | EntryLe(a, b) && EntryLe(b, a) ensures a == b {
      if a.name != b.name {
        LexLeAntisymmetric(a.name, b.name);
      }
      LexLeAntisymmetric(a.digest, b.digest);
    }
  }

  ghost predicate Framable(entries: seq<Entry>) {
    forall i :: 0 <= i < |entries| ==> |entries[i].name| < FIELD_LIMIT
  }

  function Piece(e: Entry): seq<byte>
    requires |e.name| < FIELD_LIMIT
  {
    Framed(e.name) + e.digest
  }

  /** Where the parts of a piece are: the length of the name, the name, the 64 characters of the digest. */
  lemma PieceParts(e: Entry)
    requires |e.name| < FIELD_LIMIT
    ensures var p, n := Piece(e), 8 + |e.name|;
            |p| == n + 64 && FromBigEndian(p[..8]) == |e.name| && p[8..n] == e.name && p[n..] == e.digest
  {
    FramedParts(e.name);
    var f := Framed(e.name);
    assert Piece(e)[..8] == f[..8] && Piece(e)[8..8 + |e.name|] == f[8..];
  }

  /** The stream the key hashes: per entry a length-framed name, then the fixed-width digest. */
  function Encode(entries: seq<Entry>): seq<byte>
    requires Framable(entries)
  {
    if entries == [] then [] else Piece(entries[0]) + Encode(entries[1..])
  }

  ghost function KeyStream(inputs: seq<Input>, sha: seq<byte> -> Digest): seq<byte>
    requires Accepted(inputs)
  {
    SortedEntriesFramable(inputs, sha);
    Encode(Sort(Digested(Files(inputs), sha), EntryLe))
  }

  lemma SortedEntriesFramable(inputs: seq<Input>, sha: seq<byte> -> Digest)
    requires Accepted(inputs)
    ensures Framable(Sort(Digested(Files(inputs), sha), EntryLe))
  {
    var entries := Digested(Files(inputs), sha);
    var ordered := Sort(entries, EntryLe);
    forall k | 0 <= k < |ordered| ensures |ordered[k].name| < FIELD_LIMIT {
      assert ordered[k] in multiset(ordered);
      var i :| 0 <= i < |entries| && entries[i] == ordered[k];
      assert Files(inputs)[i] in Files(inputs);
    }
  }

  /** The names in the stream ascend strictly, in dictionary order of their bytes. */
  lemma StreamNamesAscend(inputs: seq<Input>, sha: seq<byte> -> Digest, i: nat, j: nat)
    requires Accepted(inputs) && i < j < |Files(inputs)|
    ensures var ordered := Sort(Digested(Files(inputs), sha), EntryLe);
            LexLe(ordered[i].name, ordered[j].name) && ordered[i].name != ordered[j].name
  {
    var entries := Digested(Files(inputs), sha);
    var ordered := Sort(entries, EntryLe);
    EntryLeIsTotalOrder();
    SortSorts(entries, EntryLe);
    assert EntryLe(ordered[i], ordered[j]);
    PermutedNamesStayDistinct(entries, ordered, i, j);
  }

  lemma PermutedNamesStayDistinct(entries: seq<Entry>, ordered: seq<Entry>, i: nat, j: nat)
    requires forall k, m :: 0 <= k < m < |entries| ==> entries[k].name != entries[m].name
    requires multiset(ordered) == multiset(entries) && i < j < |ordered|
    ensures ordered[i].name != ordered[j].name
  {
    PermutationStaysDistinct(entries, ordered);
    assert ordered[i] in multiset(entries) && ordered[j] in multiset(entries);
    var k :| 0 <= k < |entries| && entries[k] == ordered[i];
    var m :| 0 <= m < |entries| && entries[m] == ordered[j];
    assert k != m;
  }

  /** Exactly the regular files outside byte-code caches, byte code excepted, take part. */
  lemma {:induction false} PackageFilesAreExactly(directory: Name, listing: seq<Listed>, f: Pinned)
    ensures f in PackageFiles(directory, listing) <==>
            exists i :: 0 <= i < |listing| && TakesPart(listing[i])
                        && f == Pinned(KeyName(directory, listing[i].path), listing[i].node.contents)
  {
    if listing != [] {
      var n := |listing| - 1;
      PackageFilesAreExactly(directory, listing[..n], f);
      forall i | 0 <= i < n ensures listing[..n][i] == listing[i] {}
    }
  }

  lemma PackageFilesNonEmpty(directory: Name, listing: seq<Listed>)
    ensures PackageFiles(directory, listing) != [] <==>
            exists i :: 0 <= i < |listing| && TakesPart(listing[i])
  {
  }

  lemma OrderKeepsAcceptance(listing: seq<Listed>)
    ensures AcceptedPackage(InOrder(listing)) <==> AcceptedPackage(listing)
  {
    var ordered := InOrder(listing);
    forall l ensures l in ordered <==> l in listing {
      assert l in multiset(ordered) <==> l in multiset(listing);
    }
    assert (forall i :: 0 <= i < |listing| ==> !IsForbiddenLink(listing[i])) <==>
           (forall i :: 0 <= i < |ordered| ==> !IsForbiddenLink(ordered[i])) by {
      SameMembersSameAnswer(listing, ordered, (l: Listed) => IsForbiddenLink(l));
    }
    SameMembersSameAnswer(listing, ordered, (l: Listed) => TakesPart(l));
  }

  lemma SameMembersSameAnswer<T>(s: seq<T>, t: seq<T>, holds: T -> bool)
    requires forall x :: x in s <==> x in t
    ensures (exists i :: 0 <= i < |s| && holds(s[i])) <==> (exists i :: 0 <= i < |t| && holds(t[i]))
  {
    if i :| 0 <= i < |s| && holds(s[i]) {
      assert s[i] in t;
    }
    if i :| 0 <= i < |t| && holds(t[i]) {
      assert t[i] in s;
    }
  }

  /** `_source_package_entries`: in path order, refused exactly for a followable link or for a package without files. */
  method SourcePackageEntries(directory: Name, listing: seq<Listed>, sha: seq<byte> -> Digest)
    returns (r: Option<seq<Entry>>)
    ensures r.Some? <==> AcceptedPackage(listing)
    ensures r.Some? ==> r.value == Digested(PackageFiles(directory, InOrder(listing)), sha)
  {
    OrderKeepsAcceptance(listing);
    r := EntriesInOrder(directory, InOrder(listing), sha);
  }

  /** What the loop makes of one listed path: nothing, its entry, or (`None`) the end of the run. */
  function Reading(directory: Name, l: Listed, sha: seq<byte> -> Digest): Option<seq<Entry>> {
    if InByteCodeCache(l.path) then Some([])
    else if l.node.SymbolicLink? then None
    else if !l.node.Regular? || IsByteCode(l.path) then Some([])
    else Some([Entry(KeyName(directory, l.path), sha(l.node.contents))])
  }

  lemma ReadingMeans(directory: Name, listing: seq<Listed>, i: nat, sha: seq<byte> -> Digest)
    requires i < |listing|
    ensures Reading(directory, listing[i], sha).None? <==> IsForbiddenLink(listing[i])
    ensures !IsForbiddenLink(listing[i]) ==>
            Digested(PackageFiles(directory, listing[..i + 1]), sha) ==
            Digested(PackageFiles(directory, listing[..i]), sha) + Reading(directory, listing[i], sha).value
  {
    assert listing[..i + 1][..i] == listing[..i];
  }

  method EntriesInOrder(directory: Name, ordered: seq<Listed>, sha: seq<byte> -> Digest)
    returns (r: Option<seq<Entry>>)
    ensures r.Some? <==> AcceptedPackage(ordered)
    ensures r.Some? ==> r.value == Digested(PackageFiles(directory, ordered), sha)
  {
    var entries: seq<Entry> := [];
    for i := 0 to |ordered|
      invariant forall k {:trigger ordered[k]} :: 0 <= k < i ==> !IsForbiddenLink(ordered[k])
      invariant entries == Digested(PackageFiles(directory, ordered[..i]), sha)
    {
      var read := Reading(directory, ordered[i], sha);
      ReadingMeans(directory, ordered, i, sha);
      if read.None? {
        return None;
      }
      entries := entries + read.value;
    }
    assert ordered[..|ordered|] == ordered;
    PackageFilesNonEmpty(directory, ordered);
    r := if entries == [] then None else Some(entries);
  }

  lemma DigestedConcat(a: seq<Pinned>, b: seq<Pinned>, sha: seq<byte> -> Digest)
    ensures Digested(a + b, sha) == Digested(a, sha) + Digested(b, sha)
  {
  }

  lemma EntriesShowAcceptance(files: seq<Pinned>, sha: seq<byte> -> Digest)
    ensures DistinctNames(files) <==>
            forall i, j :: 0 <= i < j < |files| ==> Digested(files, sha)[i].name != Digested(files, sha)[j].name
    ensures (forall f :: f in files ==> |f.name| < FIELD_LIMIT) <==>
            forall i :: 0 <= i < |files| ==> |Digested(files, sha)[i].name| < FIELD_LIMIT
  {
    forall i | 0 <= i < |files| ensures Digested(files, sha)[i].name == files[i].name && files[i] in files {}
  }

  /** The entries of all inputs, one input after the other. */
  function Collected(inputs: seq<Input>, sha: seq<byte> -> Digest): seq<Entry> {
    if inputs == [] then []
    else Collected(inputs[..|inputs| - 1], sha) + Digested(FilesOf(inputs[|inputs| - 1]), sha)
  }

  lemma CollectedNext(inputs: seq<Input>, i: nat, sha: seq<byte> -> Digest)
    requires i < |inputs|
    ensures Collected(inputs[..i + 1], sha) == Collected(inputs[..i], sha) + Digested(FilesOf(inputs[i]), sha)
  {
    assert inputs[..i + 1][..i] == inputs[..i];
  }

  lemma {:induction false} CollectedAreDigested(inputs: seq<Input>, sha: seq<byte> -> Digest)
    ensures Collected(inputs, sha) == Digested(Files(inputs), sha)
  {
    if inputs != [] {
      var n := |inputs| - 1;
      CollectedAreDigested(inputs[..n], sha);
      DigestedConcat(Files(inputs[..n]), FilesOf(inputs[n]), sha);
    }
  }

  /** Every input is a file or an accepted package. */
  predicate AllAccepted(inputs: seq<Input>) {
    inputs == [] || (AllAccepted(inputs[..|inputs| - 1]) && AcceptedInput(inputs[|inputs| - 1]))
  }

  lemma {:induction false} AllAcceptedMeans(inputs: seq<Input>)
    ensures AllAccepted(inputs) <==> forall i :: 0 <= i < |inputs| ==> AcceptedInput(inputs[i])
  {
    if inputs != [] {
      AllAcceptedMeans(inputs[..|inputs| - 1]);
    }
  }

  lemma {:induction false} RefusedStaysRefused(inputs: seq<Input>, i: nat)
    requires i <= |inputs| && !AllAccepted(inputs[..i])
    ensures !AllAccepted(inputs)
    decreases |inputs|
  {
    if i == |inputs| {
      assert inputs[..i] == inputs;
    } else {
      var front := inputs[..|inputs| - 1];
      assert front[..i] == inputs[..i];
      RefusedStaysRefused(front, i);
    }
  }

  method InputEntries(input: Input, sha: seq<byte> -> Digest) returns (r: Option<seq<Entry>>)
    ensures r.Some? <==> AcceptedInput(input)
    ensures r.Some? ==> r.value == Digested(FilesOf(input), sha)
  {
    match input
    case SourcePackage(name, listing) =>
      r := SourcePackageEntries(name, listing, sha);
    case Unusable =>
      r := None;
    case PinnedFile(name, contents) =>
      r := Some([Entry(name, sha(contents))]);
  }

  /** One turn of the loop: the entries so far are extended, or the inputs are refused. */
  method CollectNext(inputs: seq<Input>, i: nat, sha: seq<byte> -> Digest, entries: seq<Entry>)
    returns (r: Option<seq<Entry>>)
    requires i < |inputs| && AllAccepted(inputs[..i]) && entries == Collected(inputs[..i], sha)
    ensures r.Some? <==> AllAccepted(inputs[..i + 1])
    ensures r.Some? ==> r.value == Collected(inputs[..i + 1], sha)
  {
    var more := InputEntries(inputs[i], sha);
    CollectedNext(inputs, i, sha);
    assert inputs[..i + 1][..i] == inputs[..i];
    r := if more.None? then None else Some(entries + more.value);
  }

  /** The entries `contract_fingerprint` collects, one input after the other. */
  method CollectEntries(inputs: seq<Input>, sha: seq<byte> -> Digest) returns (r: Option<seq<Entry>>)
    ensures r.Some? <==> AllAccepted(inputs)
    ensures r.Some? ==> r.value == Digested(Files(inputs), sha)
  {
    var entries: seq<Entry> := [];
    for i := 0 to |inputs|
      invariant AllAccepted(inputs[..i])
      invariant entries == Collected(inputs[..i], sha)
    {
      var longer := CollectNext(inputs, i, sha, entries);
      if longer.None? {
        RefusedStaysRefused(inputs, i + 1);
        return None;
      }
      entries := longer.value;
    }
    assert inputs[..|inputs|] == inputs;
    CollectedAreDigested(inputs, sha);
    r := Some(entries);
  }

  /** The body of `contract_fingerprint` up to the final digest: accepted inputs, and the exact stream. */
  method ContractFingerprintStream(inputs: seq<Input>, sha: seq<byte> -> Digest) returns (r: Option<seq<byte>>)
    ensures r.Some? <==> Accepted(inputs)
    ensures r.Some? ==> r.value == KeyStream(inputs, sha)
  {
    var collected := CollectEntries(inputs, sha);
    if collected.None? {
      return None;
    }
    var entries := collected.value;
    EntriesShowAcceptance(Files(inputs), sha);
    if
      || entries == []
      || (exists i, j :: 0 <= i < j < |entries| && entries[i].name == entries[j].name)
      || (exists i :: 0 <= i < |entries| && |entries[i].name| >= FIELD_LIMIT)  // overflows the 8-byte prefix
    {
      return None;
    }
    SortedEntriesFramable(inputs, sha);
    var stream := StreamOf(Sort(entries, EntryLe));
    r := Some(stream);
  }

  method StreamOf(ordered: seq<Entry>) returns (stream: seq<byte>)
    requires Framable(ordered)
    ensures stream == Encode(ordered)
  {
    stream := [];
    for i := 0 to |ordered|
      invariant Framable(ordered[i..])
      invariant stream + Encode(ordered[i..]) == Encode(ordered)
    {
      TailOf(ordered, i);
      AppendAssociates(stream, Piece(ordered[i]), Encode(ordered[i + 1..]));
      stream := stream + Piece(ordered[i]);
    }
    assert ordered[|ordered|..] == [];
  }

  lemma PieceIsPrefixFree(e: Entry, x: seq<byte>, f: Entry, y: seq<byte>)
    requires |e.name| < FIELD_LIMIT && |f.name| < FIELD_LIMIT && Piece(e) + x == Piece(f) + y
    ensures e == f && x == y
  {
    AppendAssociates(Framed(e.name), e.digest, x);
    AppendAssociates(Framed(f.name), f.digest, y);
    FramedIsPrefixFree(e.name, e.digest + x, f.name, f.digest + y);
    AppendCancels(e.digest, x, f.digest, y);
  }

  /** Without the length frame two entry lists could concatenate to one stream; with it they cannot. */
  lemma {:induction false} EncodeInjective(a: seq<Entry>, b: seq<Entry>)
    requires Framable(a) && Framable(b) && Encode(a) == Encode(b)
    ensures a == b
  {
    if a == [] || b == [] {
      assert forall e: Entry :: |e.name| < FIELD_LIMIT ==> |Piece(e)| > 0;
    } else {
      PieceIsPrefixFree(a[0], Encode(a[1..]), b[0], Encode(b[1..]));
      EncodeInjective(a[1..], b[1..]);
      assert a == [a[0]] + a[1..] && b == [b[0]] + b[1..];
    }
  }

  /** No two of these particular files are a SHA-256 collision. */
  ghost predicate CollisionFree(files: set<Pinned>, sha: seq<byte> -> Digest) {
    forall f, g :: f in files && g in files && sha(f.contents) == sha(g.contents) ==> f.contents == g.contents
  }

  ghost function FileSet(inputs: seq<Input>): set<Pinned> {
    set f | f in Files(inputs)
  }

  lemma DistinctSeqAsSet<T>(s: seq<T>)
    requires forall i, j :: 0 <= i < j < |s| ==> s[i] != s[j]
    ensures multiset(s) == multiset(set x | x in s)
  {
    if s != [] {
      var t := s[..|s| - 1];
      DistinctSeqAsSet(t);
      assert s == t + [s[|s| - 1]];
      assert (set x | x in s) == (set x | x in t) + {s[|s| - 1]};
    }
  }

  lemma EntriesOfSubset(a: seq<Pinned>, b: seq<Pinned>, sha: seq<byte> -> Digest)
    requires forall f :: f in a ==> f in b
    ensures forall e :: e in Digested(a, sha) ==> e in Digested(b, sha)
  {
    forall e | e in Digested(a, sha) ensures e in Digested(b, sha) {
      var i :| 0 <= i < |a| && Digested(a, sha)[i] == e;
      assert a[i] in b;
      var j :| 0 <= j < |b| && b[j] == a[i];
      assert Digested(b, sha)[j] == e;
    }
  }

  lemma SameFilesSameEntries(a: seq<Pinned>, b: seq<Pinned>, sha: seq<byte> -> Digest)
    requires DistinctNames(a) && DistinctNames(b) && (set f | f in a) == (set f | f in b)
    ensures multiset(Digested(a, sha)) == multiset(Digested(b, sha))
  {
    var da, db := Digested(a, sha), Digested(b, sha);
    DistinctSeqAsSet(da);
    DistinctSeqAsSet(db);
    var sa, sb := set f | f in a, set f | f in b;
    assert forall f :: f in sa <==> f in sb;
    forall f | f in a ensures f in b { assert f in sa; }
    forall f | f in b ensures f in a { assert f in sb; }
    EntriesOfSubset(a, b, sha);
    EntriesOfSubset(b, a, sha);
    assert (set x | x in da) == (set x | x in db);
  }

  lemma EntriesIdentifyFiles(a: seq<Pinned>, b: seq<Pinned>, sha: seq<byte> -> Digest)
    requires multiset(Digested(a, sha)) == multiset(Digested(b, sha))
    requires CollisionFree((set f | f in a) + (set f | f in b), sha)
    ensures forall f :: f in a ==> f in b
  {
    forall f | f in a ensures f in b {
      var i :| 0 <= i < |a| && a[i] == f;
      var e := Digested(a, sha)[i];
      assert e in multiset(Digested(b, sha));
      var j :| 0 <= j < |b| && Digested(b, sha)[j] == e;
      assert b[j] in (set f | f in a) + (set f | f in b);
    }
  }

  /**
    The key stream is the same exactly when the pinned files are the same: changing, adding or removing any
    file that takes part changes it, and nothing else does. Assumes no SHA-256 collision among these files.
   */
  lemma StreamIdentifiesFiles(a: seq<Input>, b: seq<Input>, sha: seq<byte> -> Digest)
    requires Accepted(a) && Accepted(b) && CollisionFree(FileSet(a) + FileSet(b), sha)
    ensures KeyStream(a, sha) == KeyStream(b, sha) <==> FileSet(a) == FileSet(b)
  {
    var da, db := Digested(Files(a), sha), Digested(Files(b), sha);
    EntryLeIsTotalOrder();
    SortedEntriesFramable(a, sha);
    SortedEntriesFramable(b, sha);
    if KeyStream(a, sha) == KeyStream(b, sha) {
      EncodeInjective(Sort(da, EntryLe), Sort(db, EntryLe));
      assert multiset(da) == multiset(db);
      EntriesIdentifyFiles(Files(a), Files(b), sha);
      EntriesIdentifyFiles(Files(b), Files(a), sha);
    }
    if FileSet(a) == FileSet(b) {
      SameFilesSameEntries(Files(a), Files(b), sha);
      SortIgnoresOrder(da, db, EntryLe);
    }
  }

  ghost function Contribution(input: Input): multiset<Pinned> {
    multiset(FilesOf(input))
  }

  lemma {:induction false} FilesAsBag(inputs: seq<Input>)
    ensures multiset(Files(inputs)) == BagOf(inputs, Contribution)
  {
    if inputs != [] {
      FilesAsBag(inputs[..|inputs| - 1]);
    }
  }

  lemma DistinctNamesIgnoreOrder(a: seq<Pinned>, b: seq<Pinned>)
    requires multiset(a) == multiset(b) && DistinctNames(a)
    ensures DistinctNames(b)
  {
    forall i, j | 0 <= i < j < |b| ensures b[i].name != b[j].name {
      assert b == b[..j] + [b[j]] + b[j + 1..];
      assert b[i] in b[..j];
      assert multiset(b)[b[j]] >= 1 + multiset(b[..j])[b[j]];
      DistinctSeqAsSet(a);
      assert b[i] != b[j];
      assert b[i] in multiset(a) && b[j] in multiset(a);
    }
  }

  lemma OrderKeepsAllAccepted(a: seq<Input>, b: seq<Input>)
    requires multiset(a) == multiset(b) && AllAccepted(a)
    ensures AllAccepted(b)
  {
    AllAcceptedMeans(a);
    forall i | 0 <= i < |b| ensures AcceptedInput(b[i]) {
      assert b[i] in multiset(a);
    }
    AllAcceptedMeans(b);
  }

  lemma OrderKeepsFiles(a: seq<Input>, b: seq<Input>)
    requires multiset(a) == multiset(b)
    ensures multiset(Files(a)) == multiset(Files(b))
  {
    BagOfIgnoresOrder(a, b, Contribution);
    FilesAsBag(a);
    FilesAsBag(b);
  }

  lemma OrderKeepsFileNames(a: seq<Pinned>, b: seq<Pinned>)
    requires multiset(a) == multiset(b) && DistinctNames(a) && forall f :: f in a ==> |f.name| < FIELD_LIMIT
    ensures DistinctNames(b) && forall f :: f in b ==> f in a && |f.name| < FIELD_LIMIT
  {
    DistinctNamesIgnoreOrder(a, b);
    forall f | f in b ensures f in a { assert f in multiset(a); }
  }

  lemma OrderKeepsStream(a: seq<Pinned>, b: seq<Pinned>, sha: seq<byte> -> Digest)
    requires multiset(a) == multiset(b) && DistinctNames(a) && DistinctNames(b)
    ensures Sort(Digested(a, sha), EntryLe) == Sort(Digested(b, sha), EntryLe)
  {
    forall f ensures f in a <==> f in b { assert f in multiset(a) <==> f in multiset(b); }
    SameFilesSameEntries(a, b, sha);
    EntryLeIsTotalOrder();
    SortIgnoresOrder(Digested(a, sha), Digested(b, sha), EntryLe);
  }

  /** The caller's argument order changes neither acceptance nor the stream. */
  lemma ArgumentOrderIsIrrelevant(a: seq<Input>, b: seq<Input>, sha: seq<byte> -> Digest)
    requires multiset(a) == multiset(b) && Accepted(a)
    ensures Accepted(b) && KeyStream(a, sha) == KeyStream(b, sha)
  {
    OrderKeepsAllAccepted(a, b);
    OrderKeepsFiles(a, b);
    OrderKeepsFileNames(Files(a), Files(b));
    assert |multiset(Files(a))| == |Files(a)|;
    OrderKeepsStream(Files(a), Files(b), sha);
  }

  // ----- a source package, in plain terms -----

  /** A file that pins the package: regular, in no `__pycache__`, and not named like compiled byte code. */
  ghost predicate IsPinned(l: Listed) {
    && l.node.Regular? && l.path != []
    && Ascii("__pycache__") !in l.path
    && !IsNamedLike(l.path[|l.path| - 1], Ascii(".pyc")) && !IsNamedLike(l.path[|l.path| - 1], Ascii(".pyo"))
  }

  /** Something before the suffix, and then the suffix. */
  predicate IsNamedLike(name: Name, suffix: Name) {
    |name| > |suffix| && name[|name| - |suffix|..] == suffix
  }

  /** What a listing is: each path once, made of names without slashes. */
  ghost predicate IsListing(listing: seq<Listed>) {
    && (forall i :: 0 <= i < |listing| ==> IsPath(listing[i].path))
    && forall i, j :: 0 <= i < j < |listing| ==> listing[i].path != listing[j].path
  }

  predicate IsPath(path: seq<Name>) {
    path != [] && forall k :: 0 <= k < |path| ==> path[k] != [] && 47 !in path[k]
  }

  /** A name's components, cut at the slashes. */
  function Components(name: Name): (r: seq<Name>)
    ensures r != []
  {
    if name == [] then [[]]
    else if name[0] == 47 then [[]] + Components(name[1..])
    else
      var rest := Components(name[1..]);
      [[name[0]] + rest[0]] + rest[1..]
  }

  lemma {:induction false} ComponentsOfName(name: Name)
    requires 47 !in name
    ensures Components(name) == [name]
  {
    if name != [] {
      ComponentsOfName(name[1..]);
      assert [name[0]] + name[1..] == name;
    }
  }

  lemma HeadAndTail<T>(left: seq<T>, right: seq<T>)
    requires left != []
    ensures (left + right)[0] == left[0] && (left + right)[1..] == left[1..] + right
  {
  }

  lemma {:induction false} ComponentsAt(a: Name, b: Name)
    ensures Components(a + [47] + b) == Components(a) + Components(b)
  {
    var s := a + [47] + b;
    if a == [] {
      assert s[0] == 47 && s[1..] == b;
    } else {
      assert s[0] == a[0] && s[1..] == a[1..] + [47] + b;
      ComponentsAt(a[1..], b);
      HeadAndTail(Components(a[1..]), Components(b));
    }
  }

  lemma {:induction false} ComponentsOfPosix(path: seq<Name>)
    requires IsPath(path)
    ensures Components(Posix(path)) == path
  {
    ComponentsOfName(path[0]);
    if |path| > 1 {
      ComponentsAt(path[0], Posix(path[1..]));
      ComponentsOfPosix(path[1..]);
    } else {
      assert path == [path[0]];
    }
  }

  /** The name in the key is the package's name and all of the path, so it gives the path back. */
  lemma KeyNameGivesPath(directory: Name, path: seq<Name>)
    requires IsPath(path)
    ensures Components(KeyName(directory, path)) == Components(directory) + path
    ensures directory + [47] <= KeyName(directory, path)
  {
    ComponentsAt(directory, Posix(path));
    ComponentsOfPosix(path);
  }

  lemma SamePathFromKeyName(directory: Name, p: seq<Name>, q: seq<Name>)
    requires IsPath(p) && IsPath(q) && KeyName(directory, p) == KeyName(directory, q)
    ensures p == q
  {
    KeyNameGivesPath(directory, p);
    KeyNameGivesPath(directory, q);
    AppendCancels(Components(directory), p, Components(directory), q);
  }

  lemma {:induction false} LastDotBefore(a: Name, b: Name)
    requires DOT !in b
    ensures LastDot(a + b) == LastDot(a)
    decreases |b|
  {
    if b == [] {
      assert a + b == a;
    } else {
      var init := b[..|b| - 1];
      assert (a + b)[..|a + b| - 1] == a + init && (a + b)[|a + b| - 1] in b;
      LastDotBefore(a, init);
    }
  }

  lemma LastDotOf(stem: Name, suffix: Name)
    requires |suffix| == 4 && suffix[0] == DOT && DOT !in suffix[1..]
    ensures LastDot(stem + suffix) == |stem|
  {
    var tail, dotted := suffix[1..], stem + [DOT];
    assert suffix == [DOT] + tail;
    AppendAssociates(stem, [DOT], tail);
    LastDotBefore(dotted, tail);
    assert dotted[|dotted| - 1] == DOT;
  }

  lemma SuffixIs(name: Name, suffix: Name)
    requires |suffix| == 4 && suffix[0] == DOT && DOT !in suffix[1..]
    ensures Suffix(name) == suffix <==> IsNamedLike(name, suffix)
  {
    if IsNamedLike(name, suffix) {
      var stem := name[..|name| - 4];
      assert name == stem + suffix;
      LastDotOf(stem, suffix);
    }
  }

  lemma Literals()
    ensures BYTE_CODE_CACHE == Ascii("__pycache__") && COMPILED == Ascii(".pyc") && OPTIMIZED == Ascii(".pyo")
  {
  }

  /** The files that take part are those that pin the package. */
  lemma TakesPartMeans(l: Listed)
    requires l.path != []
    ensures TakesPart(l) <==> IsPinned(l)
  {
    Literals();
    SuffixIs(FileName(l.path), COMPILED);
    SuffixIs(FileName(l.path), OPTIMIZED);
  }

  ghost predicate FileIsIn(files: seq<Pinned>, directory: Name, l: Listed) {
    IsPinned(l) && Pinned(KeyName(directory, l.path), l.node.contents) in files
  }

  lemma PackageFilesMean(directory: Name, listing: seq<Listed>)
    requires IsListing(listing)
    ensures forall l :: l in listing && IsPinned(l) ==>
              FileIsIn(PackageFiles(directory, InOrder(listing)), directory, l)
    ensures forall f :: f in PackageFiles(directory, InOrder(listing)) ==>
              exists l :: l in listing && IsPinned(l) && f == Pinned(KeyName(directory, l.path), l.node.contents)
  {
    var ordered := InOrder(listing);
    forall l ensures l in ordered <==> l in listing {
      assert l in multiset(ordered) <==> l in multiset(listing);
    }
    forall l | l in listing && IsPinned(l) ensures FileIsIn(PackageFiles(directory, ordered), directory, l) {
      TakesPartMeans(l);
      var i :| 0 <= i < |ordered| && ordered[i] == l;
      PackageFilesAreExactly(directory, ordered, Pinned(KeyName(directory, l.path), l.node.contents));
    }
    forall f | f in PackageFiles(directory, ordered)
      ensures exists l :: l in listing && IsPinned(l) && f == Pinned(KeyName(directory, l.path), l.node.contents)
    {
      PackageFilesAreExactly(directory, ordered, f);
      var i :| 0 <= i < |ordered| && TakesPart(ordered[i])
               && f == Pinned(KeyName(directory, ordered[i].path), ordered[i].node.contents);
      assert ordered[i] in listing;
      TakesPartMeans(ordered[i]);
    }
  }

  /**
    The entries of a package: one for each file that pins it, under the package's name and the file's whole path, with
    the digest of its contents; and no other.
   */
  lemma PackageEntriesMean(directory: Name, listing: seq<Listed>, sha: seq<byte> -> Digest, e: Entry)
    requires IsListing(listing)
    ensures var entries := Digested(PackageFiles(directory, InOrder(listing)), sha);
            e in entries <==>
              exists l :: l in listing && IsPinned(l) && e.digest == sha(l.node.contents)
                          && Components(e.name) == Components(directory) + l.path
  {
    var files := PackageFiles(directory, InOrder(listing));
    PackageFilesMean(directory, listing);
    if e in Digested(files, sha) {
      var i :| 0 <= i < |files| && Digested(files, sha)[i] == e;
      assert files[i] in files;
      var l :| l in listing && IsPinned(l) && files[i] == Pinned(KeyName(directory, l.path), l.node.contents);
      ListedPath(listing, l);
      KeyNameGivesPath(directory, l.path);
    }
    if l :| l in listing && IsPinned(l) && e.digest == sha(l.node.contents)
            && Components(e.name) == Components(directory) + l.path
    {
      ListedPath(listing, l);
      KeyNameGivesPath(directory, l.path);
      SameComponentsSameName(e.name, KeyName(directory, l.path));
      assert FileIsIn(files, directory, l);
      var i :| 0 <= i < |files| && files[i] == Pinned(KeyName(directory, l.path), l.node.contents);
      assert Digested(files, sha)[i] == e;
    }
  }

  lemma ListedPath(listing: seq<Listed>, l: Listed)
    requires IsListing(listing) && l in listing
    ensures IsPath(l.path)
  {
  }

  lemma {:induction false} SameComponentsSameName(a: Name, b: Name)
    requires Components(a) == Components(b)
    ensures a == b
    decreases |a| + |b|
  {
    if a != [] && b != [] {
      var x, y := Components(a[1..]), Components(b[1..]);
      if a[0] == 47 && b[0] == 47 {
        assert Components(a)[1..] == x && Components(b)[1..] == y;
      } else if a[0] != 47 && b[0] != 47 {
        assert Components(a)[0][1..] == x[0] && Components(b)[0][1..] == y[0];
        assert Components(a)[1..] == x[1..] && Components(b)[1..] == y[1..];
        assert x == [x[0]] + x[1..] && y == [y[0]] + y[1..];
        assert Components(a)[0][0] == a[0] && Components(b)[0][0] == b[0];
      }
      if (a[0] == 47) == (b[0] == 47) {
        SameComponentsSameName(a[1..], b[1..]);
        assert a == [a[0]] + a[1..] && b == [b[0]] + b[1..];
      }
    }
  }

  // ----- acceptance of one package -----

  /** A link that the build may follow. */
  predicate IsFollowed(l: Listed) {
    l.node.SymbolicLink? && Ascii("__pycache__") !in l.path
  }

  function Total(path: seq<Name>): nat {
    if path == [] then 0 else 1 + |path[0]| + Total(path[1..])
  }

  lemma {:induction false} KeyNameLength(directory: Name, path: seq<Name>)
    requires path != []
    ensures |KeyName(directory, path)| == |directory| + Total(path)
  {
    PosixLength(path);
  }

  lemma {:induction false} PosixLength(path: seq<Name>)
    requires path != []
    ensures 1 + |Posix(path)| == Total(path)
  {
    if |path| > 1 {
      PosixLength(path[1..]);
    } else {
      assert Total(path[1..]) == 0;
    }
  }

  lemma OrderedIsListing(listing: seq<Listed>)
    requires IsListing(listing)
    ensures IsListing(InOrder(listing))
  {
    var ordered := InOrder(listing);
    PermutationStaysDistinct(listing, ordered);
    forall i | 0 <= i < |ordered| ensures IsPath(ordered[i].path) && ordered[i] in listing {
      assert ordered[i] in multiset(ordered);
    }
    forall i, j | 0 <= i < j < |ordered| ensures ordered[i].path != ordered[j].path {
      var k :| 0 <= k < |listing| && listing[k] == ordered[i];
      var m :| 0 <= m < |listing| && listing[m] == ordered[j];
      assert k != m;
    }
  }

  /** No two files of a package get the same name. */
  lemma {:induction false} PackageNamesAreDistinct(directory: Name, listing: seq<Listed>)
    requires IsListing(listing)
    ensures DistinctNames(PackageFiles(directory, listing))
  {
    if listing != [] {
      var n := |listing| - 1;
      var init, last := listing[..n], listing[n];
      PackageNamesAreDistinct(directory, init);
      forall f | f in PackageFiles(directory, init) ensures f.name != KeyName(directory, last.path) {
        PackageFilesAreExactly(directory, init, f);
        var i :| 0 <= i < |init| && TakesPart(init[i])
                 && f == Pinned(KeyName(directory, init[i].path), init[i].node.contents);
        if f.name == KeyName(directory, last.path) {
          SamePathFromKeyName(directory, listing[i].path, listing[n].path);
        }
      }
    }
  }

  /**
    When a package is accepted as the only input, exactly: if every link in it lies in a `__pycache__` and some file
    pins it. Its files never collide with each other, however often a name occurs in it.
   */
  lemma PackageIsAccepted(name: Name, listing: seq<Listed>)
    requires IsListing(listing) && forall i :: 0 <= i < |listing| ==> |name| + Total(listing[i].path) < FIELD_LIMIT
    ensures Accepted([SourcePackage(name, listing)]) <==>
              && (forall i :: 0 <= i < |listing| ==> !IsFollowed(listing[i]))
              && exists i :: 0 <= i < |listing| && IsPinned(listing[i])
  {
    OnlyPackage(SourcePackage(name, listing));
    OrderedIsListing(listing);
    PackageNamesAreDistinct(name, InOrder(listing));
    PackageNamesAreShort(name, listing);
    AcceptedPackageMeans(listing);
    if i :| 0 <= i < |listing| && IsPinned(listing[i]) {
      PackageHasFiles(name, listing, i);
    }
  }

  lemma PackageNamesAreShort(name: Name, listing: seq<Listed>)
    requires IsListing(listing) && forall i :: 0 <= i < |listing| ==> |name| + Total(listing[i].path) < FIELD_LIMIT
    ensures forall f :: f in PackageFiles(name, InOrder(listing)) ==> |f.name| < FIELD_LIMIT
  {
    PackageFilesMean(name, listing);
    forall f | f in PackageFiles(name, InOrder(listing)) ensures |f.name| < FIELD_LIMIT {
      var l :| l in listing && IsPinned(l) && f == Pinned(KeyName(name, l.path), l.node.contents);
      KeyNameLength(name, l.path);
    }
  }

  lemma PackageHasFiles(name: Name, listing: seq<Listed>, i: nat)
    requires IsListing(listing) && i < |listing| && IsPinned(listing[i])
    ensures PackageFiles(name, InOrder(listing)) != []
  {
    PackageFilesMean(name, listing);
    assert FileIsIn(PackageFiles(name, InOrder(listing)), name, listing[i]);
  }

  lemma AcceptedPackageMeans(listing: seq<Listed>)
    requires IsListing(listing)
    ensures AcceptedPackage(listing) <==>
              && (forall i :: 0 <= i < |listing| ==> !IsFollowed(listing[i]))
              && exists i :: 0 <= i < |listing| && IsPinned(listing[i])
  {
    Literals();
    forall i | 0 <= i < |listing| ensures TakesPart(listing[i]) <==> IsPinned(listing[i]) {
      TakesPartMeans(listing[i]);
    }
  }

  lemma OnlyPackage(input: Input)
    ensures Files([input]) == FilesOf(input)
    ensures AllAccepted([input]) <==> AcceptedInput(input)
  {
    assert [input][..0] == [];
  }

  // ----- what a package's key identifies -----

  ghost function PinnedIn(listing: seq<Listed>): set<Listed> {
    set l | l in listing && IsPinned(l)
  }

  /** Two packages of one name have one key exactly when the files that pin them have the same paths and contents. */
  lemma PackageStreamIdentifiesFiles(name: Name, a: seq<Listed>, b: seq<Listed>, sha: seq<byte> -> Digest)
    requires IsListing(a) && IsListing(b)
    requires Accepted([SourcePackage(name, a)]) && Accepted([SourcePackage(name, b)])
    requires forall l, m :: l in PinnedIn(a) + PinnedIn(b) && m in PinnedIn(a) + PinnedIn(b) ==>
               sha(l.node.contents) == sha(m.node.contents) ==> l.node.contents == m.node.contents
    ensures KeyStream([SourcePackage(name, a)], sha) == KeyStream([SourcePackage(name, b)], sha) <==>
            PinnedIn(a) == PinnedIn(b)
  {
    var x, y := [SourcePackage(name, a)], [SourcePackage(name, b)];
    PinnedAreCollisionFree(name, a, b, sha);
    StreamIdentifiesFiles(x, y, sha);
    if PinnedIn(a) == PinnedIn(b) {
      PackageFileSet(name, a);
      PackageFileSet(name, b);
      assert FileSet(x) == FileSet(y);
    }
    if FileSet(x) == FileSet(y) {
      SamePinned(name, a, b);
      SamePinned(name, b, a);
      assert PinnedIn(a) == PinnedIn(b);
    }
  }

  lemma PinnedAreCollisionFree(name: Name, a: seq<Listed>, b: seq<Listed>, sha: seq<byte> -> Digest)
    requires IsListing(a) && IsListing(b)
    requires forall l, m :: l in PinnedIn(a) + PinnedIn(b) && m in PinnedIn(a) + PinnedIn(b) ==>
               sha(l.node.contents) == sha(m.node.contents) ==> l.node.contents == m.node.contents
    ensures CollisionFree(FileSet([SourcePackage(name, a)]) + FileSet([SourcePackage(name, b)]), sha)
  {
    PackageFileSet(name, a);
    PackageFileSet(name, b);
    var files := FileSet([SourcePackage(name, a)]) + FileSet([SourcePackage(name, b)]);
    var pinned := PinnedIn(a) + PinnedIn(b);
    forall f | f in files ensures exists l :: l in pinned && l.node.contents == f.contents {}
  }

  lemma PackageFileSet(name: Name, listing: seq<Listed>)
    requires IsListing(listing)
    ensures forall f :: f in FileSet([SourcePackage(name, listing)]) <==>
              exists l :: l in PinnedIn(listing) && f == Pinned(KeyName(name, l.path), l.node.contents)
  {
    OnlyPackage(SourcePackage(name, listing));
    PackageFilesMean(name, listing);
    forall l | l in PinnedIn(listing)
      ensures Pinned(KeyName(name, l.path), l.node.contents) in FileSet([SourcePackage(name, listing)])
    {
      assert FileIsIn(PackageFiles(name, InOrder(listing)), name, l);
    }
  }

  lemma SamePinned(name: Name, a: seq<Listed>, b: seq<Listed>)
    requires IsListing(a) && IsListing(b)
    requires FileSet([SourcePackage(name, a)]) == FileSet([SourcePackage(name, b)])
    ensures PinnedIn(a) <= PinnedIn(b)
  {
    PackageFileSet(name, a);
    PackageFileSet(name, b);
    forall l | l in PinnedIn(a) ensures l in PinnedIn(b) {
      var f := Pinned(KeyName(name, l.path), l.node.contents);
      assert f in FileSet([SourcePackage(name, a)]);
      var m :| m in PinnedIn(b) && f == Pinned(KeyName(name, m.path), m.node.contents);
      ListedPath(a, l);
      ListedPath(b, m);
      SamePathFromKeyName(name, l.path, m.path);
    }
  }
}
