/** What `repository_source_facts` reads of a repository on disk, and the identity it derives from that. */
module WorkingTree {
  import opened Bytes
  import opened Outcomes
  import opened Sorting
  import opened Enumeration
  import opened SourceIdentity
  import opened FileTrees

  datatype IndexEntry = Blob | Gitlink(id: ObjectId)

  /**
    A checked-out repository: the nodes a checkout of its commit writes and the names it tracks, its index, its
    working tree without `.git` and without the insides of submodules, the repositories checked out at its
    submodules, its ignore rules, whether `git status` has nothing to report, whether it has a remote named `origin`,
    whether its index has neither hidden nor unmerged entries, and how deeply links inside links are followed.
   */
  datatype Repository =
    Repository(commit: ObjectId, head: Disk, headNames: set<Name>, index: map<Name, IndexEntry>, disk: Disk,
               modules: map<Name, Repository>, ignored: Name -> bool, clean: bool, hasOrigin: bool, settled: bool,
               depth: nat)

  datatype Facts = Facts(commit: ObjectId, tree: Digest)

  predicate Listed(r: Repository, p: Name) {
    p in r.index || (p in r.disk && IsFile(r.disk[p]) && !r.ignored(p))
  }

  /** `git ls-files --cached --others --exclude-standard`, less what `release` leaves out. */
  function NamesOf(r: Repository, release: Name -> bool): set<Name> {
    set p | p in r.index.Keys + r.disk.Keys && Listed(r, p) && release(p)
  }

  function Everything(): Name -> bool {
    (p: Name) => true
  }

  predicate IsGitlink(r: Repository, p: Name) {
    p in r.index && r.index[p].Gitlink?
  }

  // ----- _require_inventoried_symlink_target -----

  /** The inventory has the place itself, or something below it if it is a directory. */
  predicate Represented(disk: Disk, names: set<Name>, at: Name) {
    if at == [] then names != {}
    else if IsDirectory(disk, at) then exists c :: c in names && Under(at, c)
    else at in names
  }

  /** A link at `place` must be relative and lead, through links that exist, to something in the inventory. */
  predicate LinkAccepted(disk: Disk, depth: nat, names: set<Name>, place: Name, target: Field) {
    && !IsAbsoluteTarget(target)
    && var end := Walk(disk, depth, true, ParentOf(place), TargetParts(target));
       end.At? && Represented(disk, names, end.place)
  }

  /** Which links are accepted: relative ones that lead to a reviewed name, or to a directory with one below it. */
  lemma LinkAcceptedMeans(disk: Disk, depth: nat, names: set<Name>, place: Name, target: Field)
    ensures LinkAccepted(disk, depth, names, place, target) <==>
              && (target == [] || target[0] != 47)
              && exists at :: Walk(disk, depth, true, ParentOf(place), TargetParts(target)) == At(at)
                              && (at !in names || at == [] || IsDirectory(disk, at) ==>
                                    && (at == [] || (at in disk && disk[at].Directory?))
                                    && exists c :: c in names && (at == [] || at + [47] <= c))
  {
    if LinkAccepted(disk, depth, names, place, target) {
      var at := Walk(disk, depth, true, ParentOf(place), TargetParts(target)).place;
      assert Represented(disk, names, at);
    }
  }

  // ----- the identity -----

  /** What the identity records for one name; none when the repository is rejected there. */
  ghost function EntryOf(r: Repository, names: set<Name>, p: Name): Option<Entry>
    decreases r, 0, 1
  {
    if IsGitlink(r, p) then SubmoduleEntry(r, p) else NodeEntry(r, names, p)
  }

  /** A submodule must be checked out, at the commit the index names, and clean. */
  predicate Initialized(r: Repository, p: Name)
    requires IsGitlink(r, p)
  {
    && (match Lstat(r.disk, r.depth, p) case Found(_, node) => node == Directory case _ => false)
    && p in r.modules && r.modules[p].commit == r.index[p].id && r.modules[p].clean
  }

  ghost function SubmoduleEntry(r: Repository, p: Name): Option<Entry>
    requires IsGitlink(r, p)
    decreases r, 0, 0
  {
    if Initialized(r, p) then
      match SourceOf(r.modules[p], Everything())
      case None => None
      case Some(source) => Some(Submodule(r.index[p].id, source))
    else None
  }

  function NodeEntry(r: Repository, names: set<Name>, p: Name): (e: Option<Entry>)
    ensures e.Some? ==> !e.value.Submodule?
  {
    match Lstat(r.disk, r.depth, p)
    case NotFound => if p in r.index then Some(Missing) else None
    case Unreachable => None
    case Found(_, Regular(executable, contents)) => Some(File(executable, contents))
    case Found(place, Link(target)) =>
      if LinkAccepted(r.disk, r.depth, names, place, target) then Some(Symlink(target)) else None
    case Found(_, _) => None
  }

  /** Everything the identity covers; none when the repository is rejected. */
  ghost function SourceOf(r: Repository, release: Name -> bool): Option<Source>
    decreases r, 1, 0
  {
    var names := NamesOf(r, release);
    if !r.settled || names == {} || (exists p :: p in names && EntryOf(r, names, p).None?) then None
    else Some(Source(map p | p in names :: EntryOf(r, names, p).value))
  }

  ghost function FactsOf(r: Repository, release: Name -> bool, sha: seq<byte> -> Digest): Option<Facts> {
    match SourceOf(r, release)
    case None => None
    case Some(source) => Some(Facts(r.commit, sha(IdentityStream(source, sha))))
  }

  /** Accepted repositories with equal facts hold the same sources under the same commit, nested ones included. */
  lemma EqualFactsEqualSources(
      a: Repository, b: Repository, release: Name -> bool, sha: seq<byte> -> Digest, x: Source, y: Source)
    requires SourceOf(a, release) == Some(x) && SourceOf(b, release) == Some(y) && CollisionFree(x, y, sha)
    ensures FactsOf(a, release, sha) == FactsOf(b, release, sha) <==> a.commit == b.commit && x == y
  {
    if FactsOf(a, release, sha) == FactsOf(b, release, sha) {
      IdentityDeterminesSource(x, y, sha);
    }
  }

  // ----- which repositories are accepted -----

  /** What there has to be at a reviewed name. */
  ghost predicate Acceptable(r: Repository, names: set<Name>, p: Name) {
    var found := Lstat(r.disk, r.depth, p);
    if p in r.index && r.index[p].Gitlink? then
      && found.Found? && found.node == Directory && p in r.modules
      && r.modules[p].commit == r.index[p].id && r.modules[p].clean
      && SourceOf(r.modules[p], Everything()).Some?
    else if found.Found? then
      || found.node.Regular?
      || (found.node.Link? && LinkAccepted(r.disk, r.depth, names, found.place, found.node.target))
    else
      found.NotFound? && p in r.index
  }

  /** A repository is accepted exactly if something is reviewed, its index hides nothing and each name is acceptable. */
  lemma AcceptedExactly(r: Repository, release: Name -> bool)
    ensures SourceOf(r, release).Some? <==>
              && r.settled && NamesOf(r, release) != {}
              && forall p :: p in NamesOf(r, release) ==> Acceptable(r, NamesOf(r, release), p)
  {
    var names := NamesOf(r, release);
    forall p ensures EntryOf(r, names, p).Some? <==> Acceptable(r, names, p) {}
  }

  /** What git lists: everything tracked, and untracked files and links that are not ignored; less the ledgers. */
  lemma WhatIsReviewed(r: Repository, release: Name -> bool, p: Name)
    ensures p in r.index ==> (p in NamesOf(r, release) <==> release(p))
    ensures p !in r.index && p in r.disk && !r.ignored(p) && (r.disk[p].Regular? || r.disk[p].Link?) ==>
              (p in NamesOf(r, release) <==> release(p))
    ensures p !in r.index && (p in r.disk ==> r.ignored(p) || r.disk[p].Directory? || r.disk[p].Special?) ==>
              p !in NamesOf(r, release)
  {
  }

  // ----- what the facts depend on, on disk -----

  /** The same node, executable flag, bytes and link target included, or no node in both. */
  predicate SameNode(x: Lookup, y: Lookup) {
    if x.Found? then y.Found? && x.node == y.node else !y.Found?
  }

  /** The same reviewed names, and under each the same submodule commit and an agreeing repository, or the same node. */
  ghost predicate Agree(a: Repository, b: Repository, release: Name -> bool)
    decreases a, 1
  {
    NamesOf(a, release) == NamesOf(b, release) && forall p :: p in NamesOf(a, release) ==> AgreeAt(a, b, p)
  }

  ghost predicate AgreeAt(a: Repository, b: Repository, p: Name)
    decreases a, 0
  {
    && (IsGitlink(a, p) <==> IsGitlink(b, p))
    && if IsGitlink(a, p) then
         && a.index[p] == b.index[p] && p in a.modules && p in b.modules
         && Agree(a.modules[p], b.modules[p], Everything())
       else SameNode(Lstat(a.disk, a.depth, p), Lstat(b.disk, b.depth, p))
  }

  lemma EntriesOfSource(r: Repository, release: Name -> bool)
    requires SourceOf(r, release).Some?
    ensures SourceOf(r, release).value.entries.Keys == NamesOf(r, release)
    ensures forall p :: p in NamesOf(r, release) ==>
              EntryOf(r, NamesOf(r, release), p) == Some(SourceOf(r, release).value.entries[p])
  {
  }

  lemma {:induction false} SameSourceMeansAgree(a: Repository, b: Repository, release: Name -> bool)
    requires SourceOf(a, release).Some? && SourceOf(b, release).Some?
    ensures SourceOf(a, release) == SourceOf(b, release) <==> Agree(a, b, release)
    decreases a, 1
  {
    var names := NamesOf(a, release);
    EntriesOfSource(a, release);
    EntriesOfSource(b, release);
    var x, y := SourceOf(a, release).value.entries, SourceOf(b, release).value.entries;
    if names == NamesOf(b, release) {
      forall p | p in names ensures x[p] == y[p] <==> AgreeAt(a, b, p) {
        SameEntryMeansAgree(a, b, names, p);
      }
      assert (forall p :: p in names ==> x[p] == y[p]) ==> x == y;
    }
  }

  lemma {:induction false} SameEntryMeansAgree(a: Repository, b: Repository, names: set<Name>, p: Name)
    requires EntryOf(a, names, p).Some? && EntryOf(b, names, p).Some?
    ensures EntryOf(a, names, p) == EntryOf(b, names, p) <==> AgreeAt(a, b, p)
    decreases a, 0
  {
    if IsGitlink(a, p) && IsGitlink(b, p) {
      SameSourceMeansAgree(a.modules[p], b.modules[p], Everything());
    } else if !IsGitlink(a, p) && !IsGitlink(b, p) {
      SameNodeSameEntry(a, b, names, p);
    }
  }

  lemma SameNodeSameEntry(a: Repository, b: Repository, names: set<Name>, p: Name)
    requires NodeEntry(a, names, p).Some? && NodeEntry(b, names, p).Some?
    ensures NodeEntry(a, names, p) == NodeEntry(b, names, p) <==>
            SameNode(Lstat(a.disk, a.depth, p), Lstat(b.disk, b.depth, p))
  {
  }

  /**
    What the facts of an accepted repository are a function of, exactly: the commit, the reviewed names, the commits of
    the submodules with the same inside each of them, and at every other name the node `lstat` finds, its executable
    flag, bytes and link target, or that there is none. A change of any of those changes the facts, and nothing else.
   */
  lemma FactsMeanAgreement(
      a: Repository, b: Repository, release: Name -> bool, sha: seq<byte> -> Digest)
    requires SourceOf(a, release).Some? && SourceOf(b, release).Some?
    requires CollisionFree(SourceOf(a, release).value, SourceOf(b, release).value, sha)
    ensures FactsOf(a, release, sha).Some? && FactsOf(b, release, sha).Some?
    ensures FactsOf(a, release, sha) == FactsOf(b, release, sha) <==> a.commit == b.commit && Agree(a, b, release)
  {
    EqualFactsEqualSources(a, b, release, sha, SourceOf(a, release).value, SourceOf(b, release).value);
    SameSourceMeansAgree(a, b, release);
  }

  // ----- the loop of repository_source_facts -----

  ghost function RecordAt(r: Repository, inventory: set<Name>, p: Name, sha: seq<byte> -> Digest): seq<byte> {
    RecordFor(p, EntryOf(r, inventory, p), sha)
  }

  ghost function RecordsAt(r: Repository, inventory: set<Name>, names: seq<Name>, sha: seq<byte> -> Digest): seq<byte> {
    if names == [] then [] else RecordAt(r, inventory, names[0], sha) + RecordsAt(r, inventory, names[1..], sha)
  }

  lemma {:induction false} RecordsAtAreRecords(
      r: Repository, inventory: set<Name>, source: Source, names: seq<Name>, sha: seq<byte> -> Digest)
    requires forall i :: 0 <= i < |names| ==> names[i] in source.entries
    requires forall i :: 0 <= i < |names| ==> EntryOf(r, inventory, names[i]) == Some(source.entries[names[i]])
    ensures RecordsAt(r, inventory, names, sha) == Records(source, names, sha)
    decreases |names|
  {
    if names != [] {
      RecordsAtAreRecords(r, inventory, source, names[1..], sha);
    }
  }

  ghost function RecordFor(p: Name, e: Option<Entry>, sha: seq<byte> -> Digest): seq<byte> {
    match e
    case None => []
    case Some(e) => Record(KindOf(e), p, ValueOf(e, sha))
  }

  lemma SubmoduleFacts(r: Repository, p: Name, sha: seq<byte> -> Digest)
    requires IsGitlink(r, p) && Initialized(r, p) && FactsOf(r.modules[p], Everything(), sha).Some?
    ensures SubmoduleEntry(r, p).Some?
    ensures RecordFor(p, SubmoduleEntry(r, p), sha) ==
            Record(GITLINK, p, SubmoduleValue(r.index[p].id, FactsOf(r.modules[p], Everything(), sha).value.tree))
  {
    GitlinkRecord(p, r.index[p].id, SourceOf(r.modules[p], Everything()).value, sha);
  }

  lemma GitlinkRecord(p: Name, id: ObjectId, source: Source, sha: seq<byte> -> Digest)
    ensures RecordFor(p, Some(Submodule(id, source)), sha) ==
            Record(GITLINK, p, SubmoduleValue(id, sha(IdentityStream(source, sha))))
  {
  }

  method ReadSubmodule(r: Repository, p: Name, sha: seq<byte> -> Digest) returns (ok: bool, record: seq<byte>)
    requires IsGitlink(r, p)
    ensures ok <==> SubmoduleEntry(r, p).Some?
    ensures ok ==> record == RecordFor(p, SubmoduleEntry(r, p), sha)
    decreases r, 0, 0
  {
    ok, record := false, [];
    if Initialized(r, p) {
      var submodule := RepositorySourceFacts(r.modules[p], Everything(), sha);
      if submodule.Some? && submodule.value.commit == r.index[p].id {
        SubmoduleFacts(r, p, sha);
        var value := SubmoduleValue(r.index[p].id, submodule.value.tree);
        ok, record := true, Record(GITLINK, p, value);
      }
    }
  }

  method ReadNode(r: Repository, inventory: set<Name>, p: Name, sha: seq<byte> -> Digest)
    returns (ok: bool, record: seq<byte>)
    ensures ok <==> NodeEntry(r, inventory, p).Some?
    ensures ok ==> record == RecordFor(p, NodeEntry(r, inventory, p), sha)
  {
    var entry := NodeEntry(r, inventory, p);
    ok, record := entry.Some?, [];
    if ok {
      NodeRecord(p, entry.value, sha);
      record := Record(KindOf(entry.value), p, NodeValue(entry.value));
    }
  }

  function NodeValue(e: Entry): Field
    requires !e.Submodule?
  {
    match e
    case File(_, contents) => contents
    case Symlink(target) => target
    case Missing => []
  }

  lemma NodeRecord(p: Name, e: Entry, sha: seq<byte> -> Digest)
    requires !e.Submodule?
    ensures RecordFor(p, Some(e), sha) == Record(KindOf(e), p, NodeValue(e))
  {
  }

  /** One name's record, or a rejection. */
  method ReadEntry(r: Repository, inventory: set<Name>, p: Name, sha: seq<byte> -> Digest)
    returns (ok: bool, record: seq<byte>)
    ensures ok <==> EntryOf(r, inventory, p).Some?
    ensures ok ==> record == RecordAt(r, inventory, p, sha)
    decreases r, 0, 1
  {
    if IsGitlink(r, p) {
      ok, record := ReadSubmodule(r, p, sha);
    } else {
      ok, record := ReadNode(r, inventory, p, sha);
    }
  }

  /** `_source_names`: the listing, sorted. */
  method SourceNames(r: Repository, release: Name -> bool) returns (names: seq<Name>)
    ensures names == Ordered(NamesOf(r, release)) && Enumerates(names, NamesOf(r, release))
  {
    var listing := ListAny(NamesOf(r, release));
    NameLeIsTotalOrder();
    SortedListing(listing, NamesOf(r, release), NameLe);
    OrderedEnumerates(NamesOf(r, release));
    names := Sort(listing, NameLe);
  }

  method ReadNames(r: Repository, inventory: set<Name>, names: seq<Name>, sha: seq<byte> -> Digest)
    returns (ok: bool, stream: seq<byte>)
    ensures ok <==> forall k {:trigger EntryOf(r, inventory, names[k])} ::
                      0 <= k < |names| ==> EntryOf(r, inventory, names[k]).Some?
    ensures ok ==> stream == RecordsAt(r, inventory, names, sha)
    decreases r, 0, 2
  {
    ok, stream := true, [];
    for i := 0 to |names|
      invariant forall k {:trigger EntryOf(r, inventory, names[k])} ::
                  0 <= k < i ==> EntryOf(r, inventory, names[k]).Some?
      invariant stream + RecordsAt(r, inventory, names[i..], sha) == RecordsAt(r, inventory, names, sha)
    {
      var record;
      ok, record := ReadEntry(r, inventory, names[i], sha);
      if !ok {
        return;
      }
      TailOf(names, i);
      AppendAssociates(stream, record, RecordsAt(r, inventory, names[i + 1..], sha));
      stream := stream + record;
    }
    ok := true;
    assert stream + [] == stream;
  }

  method RepositorySourceFacts(r: Repository, release: Name -> bool, sha: seq<byte> -> Digest)
    returns (facts: Option<Facts>)
    ensures facts == FactsOf(r, release, sha)
    decreases r, 1, 0
  {
    var names := SourceNames(r, release);
    MembersByIndex(names, NamesOf(r, release));
    if !r.settled || names == [] {
      return None;
    }
    assert names[0] in NamesOf(r, release);
    var ok, stream := ReadNames(r, NamesOf(r, release), names, sha);
    if !ok {
      ghost var k :| 0 <= k < |names| && EntryOf(r, NamesOf(r, release), names[k]).None?;
      assert names[k] in NamesOf(r, release);
      return None;
    }
    ReadAll(r, release, names, sha);
    facts := Some(Facts(r.commit, sha(stream)));
  }

  lemma ReadAll(r: Repository, release: Name -> bool, names: seq<Name>, sha: seq<byte> -> Digest)
    requires names == Ordered(NamesOf(r, release)) && Enumerates(names, NamesOf(r, release)) && names != []
    requires r.settled && forall k {:trigger EntryOf(r, NamesOf(r, release), names[k])} ::
               0 <= k < |names| ==> EntryOf(r, NamesOf(r, release), names[k]).Some?
    ensures SourceOf(r, release).Some?
    ensures IdentityStream(SourceOf(r, release).value, sha) == RecordsAt(r, NamesOf(r, release), names, sha)
  {
    MembersByIndex(names, NamesOf(r, release));
    assert names[0] in NamesOf(r, release);
    forall p | p in NamesOf(r, release) ensures EntryOf(r, NamesOf(r, release), p).Some? {
      var i :| 0 <= i < |names| && names[i] == p;
    }
    var source := SourceOf(r, release).value;
    assert source.entries.Keys == NamesOf(r, release);
    RecordsAtAreRecords(r, NamesOf(r, release), source, names, sha);
  }
}
