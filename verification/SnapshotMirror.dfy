/** `materialize_repository_snapshot`: a detached checkout is turned into the reviewed working tree. */
module SnapshotMirror {
  import opened Bytes
  import opened Outcomes
  import opened Enumeration
  import opened Sorting
  import opened SourceIdentity
  import opened FileTrees
  import opened WorkingTree
  import opened TreeEdits

  ghost predicate PrefixFree(names: set<Name>) {
    forall p, q :: p in names && q in names ==> !Under(p, q)
  }

  /** What git itself keeps true of a repository. */
  ghost predicate WellFormed(r: Repository) {
    && IsTree(r.disk) && IsTree(r.head) && r.headNames <= r.head.Keys
    && (forall p :: p in r.index || p in r.disk || p in r.head ==> IsRelative(p))
    && PrefixFree(r.index.Keys)
    && (forall p, q :: IsGitlink(r, p) && q in r.disk ==> !Under(p, q))
    && (forall p, q :: p in r.headNames && q in r.head ==> !Under(p, q))
    && (forall q :: q in r.head && r.head[q] != Directory ==> q in r.headNames)
    && (r.clean ==> IsClean(r))
  }

  /** What `git status --porcelain` with no output tells. */
  ghost predicate IsClean(r: Repository) {
    && r.headNames == r.index.Keys == NamesOf(r, Everything())
    && forall p :: p in r.index ==>
         p in r.disk && if r.index[p].Blob? then IsFile(r.disk[p]) else r.disk[p] == Directory
  }

  // ----- which repositories can be mirrored -----

  /** A file the checkout wrote that the release rule leaves out. */
  ghost predicate IsLedger(r: Repository, release: Name -> bool, q: Name) {
    q in r.headNames && q in r.head && r.head[q] != Directory && !release(q)
  }

  /** A ledger file of the checkout stands where `p` needs a directory. */
  ghost predicate BlockedAt(r: Repository, release: Name -> bool, p: Name) {
    exists q :: IsLedger(r, release, q) && Under(q, p)
  }

  ghost predicate Blocked(r: Repository, release: Name -> bool) {
    exists p :: p in PlainNames(r, release) && BlockedAt(r, release, p)
  }

  /** A reviewed name that lies below another one. In an accepted repository that one is a link. */
  predicate BelowReviewed(r: Repository, release: Name -> bool, p: Name) {
    exists q :: q in NamesOf(r, release) && Under(q, p)
  }

  function PlainNames(r: Repository, release: Name -> bool): set<Name> {
    set p | p in NamesOf(r, release) && !BelowReviewed(r, release, p)
  }

  lemma PlainPrefixFree(r: Repository, release: Name -> bool)
    ensures PrefixFree(PlainNames(r, release))
  {
  }

  /** Whether `lstat` finds a name, and what. */
  predicate Exists(r: Repository, p: Name) {
    Lstat(r.disk, r.depth, p).Found?
  }

  function NodeFor(r: Repository, p: Name): Node
    requires Exists(r, p)
  {
    Lstat(r.disk, r.depth, p).node
  }

  /** A reviewed name lies below a reviewed link, or below a link that is a ledger of the checkout. */
  ghost predicate LinkInTheWay(r: Repository, release: Name -> bool) {
    exists p, q :: p in NamesOf(r, release) && Under(q, p) &&
      (|| (q in NamesOf(r, release) && Exists(r, q) && NodeFor(r, q).Link?)
       || (IsLedger(r, release, q) && r.head[q].Link?))
  }

  ghost predicate HasSubmodules(r: Repository) {
    exists p :: IsGitlink(r, p)
  }

  /** A submodule can be copied: it has no submodules itself, and a remote named `origin`. */
  ghost predicate Copyable(r: Repository) {
    !HasSubmodules(r) && r.hasOrigin
  }

  ghost predicate SubmodulesCopyable(r: Repository, release: Name -> bool) {
    forall p :: p in NamesOf(r, release) && IsGitlink(r, p) && p in r.modules ==> Copyable(r.modules[p])
  }

  // ----- the snapshot, predicted from the repository -----

  /** A release input of the checkout that the reviewed source no longer lists. */
  predicate Obsolete(r: Repository, release: Name -> bool, q: Name) {
    q in r.headNames && release(q) && q !in NamesOf(r, release)
  }

  /** What the checkout wrote and neither the removal nor the mirroring of `done` touches. */
  predicate Survives(r: Repository, release: Name -> bool, done: set<Name>, q: Name) {
    q in r.head && !Obsolete(r, release, q) && forall p :: p in done ==> p != q && !Under(p, q)
  }

  predicate IsWritten(r: Repository, done: set<Name>, q: Name) {
    q in done && Exists(r, q)
  }

  /** A directory on the way to something written. */
  predicate IsNeeded(r: Repository, done: set<Name>, q: Name) {
    exists p :: p in done && Exists(r, p) && Under(q, p)
  }

  predicate Stands(r: Repository, release: Name -> bool, done: set<Name>, q: Name) {
    Survives(r, release, done, q) || IsWritten(r, done, q) || IsNeeded(r, done, q)
  }

  function StandsAs(r: Repository, release: Name -> bool, done: set<Name>, q: Name): Node
    requires Stands(r, release, done, q)
  {
    if IsWritten(r, done, q) then NodeFor(r, q) else if IsNeeded(r, done, q) then Directory else r.head[q]
  }

  /** The copy once the names in `done` are mirrored. */
  ghost predicate IsStage(disk: Disk, r: Repository, release: Name -> bool, done: set<Name>) {
    forall q ::
      && (q in disk <==> Stands(r, release, done, q))
      && (q in disk ==> disk[q] == StandsAs(r, release, done, q))
  }

  function AllParents(names: set<Name>): set<Name> {
    set p, q | p in names && q in Parents(p) :: q
  }

  function StageOf(r: Repository, release: Name -> bool, done: set<Name>): Disk {
    map q | q in r.head.Keys + done + AllParents(done) && Stands(r, release, done, q) :: StandsAs(r, release, done, q)
  }

  /**
    The finished snapshot: every reviewed name that exists and lies below no other, the directories above them, and
    what else the checkout wrote, except release inputs no longer listed and what reviewed names replace.
   */
  function Predicted(r: Repository, release: Name -> bool): Disk {
    StageOf(r, release, PlainNames(r, release))
  }

  lemma StageOfIsStage(r: Repository, release: Name -> bool, done: set<Name>)
    ensures IsStage(StageOf(r, release, done), r, release, done)
  {
    forall q | IsNeeded(r, done, q) ensures q in AllParents(done) {
      var p :| p in done && Exists(r, p) && Under(q, p);
      ParentsAre(p, q);
    }
  }

  lemma StageIsUnique(a: Disk, b: Disk, r: Repository, release: Name -> bool, done: set<Name>)
    requires IsStage(a, r, release, done) && IsStage(b, r, release, done)
    ensures a == b
  {
    assert forall q :: q in a <==> Stands(r, release, done, q);
  }

  // ----- reviewed names below reviewed links -----

  /** The reviewed names before `q` in the order of copying that lie below no other. */
  function Earlier(r: Repository, release: Name -> bool, q: Name): set<Name> {
    set p | p in PlainNames(r, release) && p != q && NameLe(p, q)
  }

  /** Once `done` is mirrored, `q` leads to the same file in the snapshot as in the working tree, or to none in both. */
  predicate LeadsAlong(r: Repository, release: Name -> bool, q: Name, done: set<Name>) {
    && Lstat(StageOf(r, release, done), r.depth, q) == Lstat(r.disk, r.depth, q)
    && (Exists(r, q) ==> NodeFor(r, q).Regular?)
  }

  ghost predicate NoLedgerLinkAbove(r: Repository, release: Name -> bool, p: Name) {
    forall q :: IsLedger(r, release, q) && Under(q, p) ==> !r.head[q].Link?
  }

  /**
    No reviewed name lies below a ledger link, and one below a reviewed link comes after everything its way needs: what
    the link leads to is then in the snapshot already, and it stays there.
   */
  ghost predicate LinksComeFirst(r: Repository, release: Name -> bool) {
    && (forall p :: p in NamesOf(r, release) ==> NoLedgerLinkAbove(r, release, p))
    && forall q :: q in NamesOf(r, release) && BelowReviewed(r, release, q) ==>
         LeadsAlong(r, release, q, Earlier(r, release, q)) && LeadsAlong(r, release, q, PlainNames(r, release))
  }

  /** Every reviewed link still leads to something reviewed in the snapshot, where what it leads through may be gone. */
  ghost predicate LinksCarry(r: Repository, release: Name -> bool) {
    forall p :: p in NamesOf(r, release) && !IsGitlink(r, p) && Exists(r, p) && NodeFor(r, p).Link? ==>
      LinkAccepted(Predicted(r, release), r.depth, NamesOf(r, release), p, NodeFor(r, p).target)
  }

  ghost predicate AllLinksCarry(r: Repository, release: Name -> bool) {
    && LinksCarry(r, release)
    && forall p :: p in NamesOf(r, release) && IsGitlink(r, p) && p in r.modules ==>
         LinksCarry(r.modules[p], Everything())
  }

  /** A reviewed link that leads through something unreviewed, say an ignored link, does not carry. */
  lemma LinkThroughUnreviewedFails(r: Repository, release: Name -> bool, p: Name)
    requires p in NamesOf(r, release) && !IsGitlink(r, p) && Exists(r, p) && NodeFor(r, p).Link?
    requires var parts := TargetParts(NodeFor(r, p).target);
             && parts != [] && parts[0] != [46, 46] && Nameable(ParentOf(p), parts[0])
             && Child(ParentOf(p), parts[0]) !in Predicted(r, release)
    ensures !LinksCarry(r, release)
  {
  }

  // ----- names of accepted repositories -----

  lemma ReviewedIsRelative(r: Repository, release: Name -> bool, p: Name)
    requires WellFormed(r) && p in NamesOf(r, release)
    ensures IsRelative(p)
  {
  }

  /** What an accepted name is. */
  lemma AcceptedName(r: Repository, names: set<Name>, p: Name)
    requires EntryOf(r, names, p).Some?
    ensures IsGitlink(r, p) ==> Exists(r, p) && NodeFor(r, p) == Directory
    ensures IsGitlink(r, p) ==> Initialized(r, p) && p in r.modules && SubmoduleEntry(r, p).Some?
    ensures !IsGitlink(r, p) && Exists(r, p) ==> IsFile(NodeFor(r, p))
    ensures !Exists(r, p) ==> p in r.index && Lstat(r.disk, r.depth, p) == NotFound
  {
  }

  lemma ReviewedEntry(r: Repository, release: Name -> bool, p: Name)
    requires SourceOf(r, release).Some? && p in NamesOf(r, release)
    ensures EntryOf(r, NamesOf(r, release), p).Some?
  {
  }

  /** A node of the working tree is found where its name says. */
  lemma OwnPlace(r: Repository, p: Name)
    requires WellFormed(r) && p in r.disk
    ensures IsRelative(p) && Lstat(r.disk, r.depth, p) == Found(p, r.disk[p])
  {
    LstatPlain(r.disk, r.depth, p);
  }

  /** In an accepted repository a reviewed name lies below another only if that one is a link. */
  lemma ReviewedNamesArePrefixFree(r: Repository, release: Name -> bool, p: Name, q: Name)
    requires WellFormed(r) && SourceOf(r, release).Some?
    requires p in NamesOf(r, release) && q in NamesOf(r, release) && Under(p, q)
    ensures Exists(r, p) && NodeFor(r, p).Link?
  {
    ReviewedEntry(r, release, p);
    ReviewedEntry(r, release, q);
    if q in r.index {
      assert p !in r.index;
      OwnPlace(r, p);
      if !r.disk[p].Link? {
        FileAbove(r.disk, r.depth, p, q);
      }
    } else {
      assert r.disk[p] == Directory;
      OwnPlace(r, p);
    }
  }

  /** Without links in the way every reviewed name is plain, and the order does not matter. */
  lemma NothingInTheWay(r: Repository, release: Name -> bool)
    requires WellFormed(r) && SourceOf(r, release).Some? && !LinkInTheWay(r, release)
    ensures PlainNames(r, release) == NamesOf(r, release) && LinksComeFirst(r, release)
  {
    forall p, q | p in NamesOf(r, release) && q in NamesOf(r, release) ensures !Under(p, q) {
      if Under(p, q) {
        ReviewedNamesArePrefixFree(r, release, p, q);
      }
    }
  }

  lemma PlainUnlessBelow(r: Repository, release: Name -> bool, p: Name)
    requires WellFormed(r) && SourceOf(r, release).Some? && p in NamesOf(r, release) && p in r.disk
    ensures p in PlainNames(r, release)
  {
    if q :| q in NamesOf(r, release) && Under(q, p) {
      ReviewedNamesArePrefixFree(r, release, q, p);
      OwnPlace(r, q);
    }
  }

  // ----- one more name -----

  ghost predicate Ready(disk: Disk, r: Repository, release: Name -> bool, done: set<Name>) {
    && IsTree(disk) && IsStage(disk, r, release, done)
    && done <= NamesOf(r, release) && forall p :: p in done ==> !BlockedAt(r, release, p)
  }

  /** What stands in the way of a reviewed name is a ledger file, and every ledger file above it does. */
  lemma ObstructedMeansBlocked(disk: Disk, r: Repository, release: Name -> bool, done: set<Name>, p: Name)
    requires WellFormed(r) && Ready(disk, r, release, done) && PrefixFree(done + {p})
    requires p in PlainNames(r, release)
    ensures Obstructed(disk, p) <==> BlockedAt(r, release, p)
    ensures NoLedgerLinkAbove(r, release, p) ==> NoLinkAbove(disk, p)
  {
    forall q | q in disk && Under(q, p) && disk[q] != Directory
      ensures IsLedger(r, release, q) && disk[q] == r.head[q]
    {
      assert !IsWritten(r, done, q);
      assert Survives(r, release, done, q);
    }
    if BlockedAt(r, release, p) {
      var q :| IsLedger(r, release, q) && Under(q, p);
      LedgerStillThere(disk, r, release, done, p, q);
    }
  }

  lemma LedgerStillThere(disk: Disk, r: Repository, release: Name -> bool, done: set<Name>, p: Name, q: Name)
    requires Ready(disk, r, release, done) && PrefixFree(done + {p})
    requires p in NamesOf(r, release) && IsLedger(r, release, q) && Under(q, p)
    ensures q in disk && disk[q] != Directory
  {
    forall m | m in done ensures m != q && !Under(m, q) && !(Exists(r, m) && Under(q, m)) {
      if Under(m, q) {
        UnderTransitive(m, q, p);
      }
      assert !BlockedAt(r, release, m);
    }
    assert Survives(r, release, done, q);
  }

  /** Writing one more reviewed name that exists. */
  lemma PutIsNextStage(disk: Disk, r: Repository, release: Name -> bool, done: set<Name>, p: Name)
    requires Ready(disk, r, release, done) && PrefixFree(done + {p})
    requires p in NamesOf(r, release) && p !in done && Exists(r, p) && !BlockedAt(r, release, p)
    ensures Ready(Put(disk, p, NodeFor(r, p)), r, release, done + {p})
  {
    var after := Put(disk, p, NodeFor(r, p));
    PutIsTree(disk, p, NodeFor(r, p));
    NotUnderItself(p);
    forall q
      ensures q in after <==> Stands(r, release, done + {p}, q)
      ensures q in after ==> after[q] == StandsAs(r, release, done + {p}, q)
    {
      PutAt(disk, p, NodeFor(r, p), q);
      StandsNext(r, release, done, p, q);
    }
  }

  lemma StandsNext(r: Repository, release: Name -> bool, done: set<Name>, p: Name, q: Name)
    requires done <= NamesOf(r, release) && PrefixFree(done + {p})
    requires p in NamesOf(r, release) && p !in done && Exists(r, p)
    ensures Stands(r, release, done + {p}, q) <==>
              q == p || Under(q, p) || (Stands(r, release, done, q) && !Under(p, q))
    ensures q == p ==> StandsAs(r, release, done + {p}, q) == NodeFor(r, p)
    ensures q != p && Under(q, p) ==> StandsAs(r, release, done + {p}, q) == Directory
    ensures q != p && !Under(q, p) && Stands(r, release, done, q) && !Under(p, q) ==>
              StandsAs(r, release, done + {p}, q) == StandsAs(r, release, done, q)
  {
    var next := done + {p};
    assert p in next;
    assert IsWritten(r, next, q) <==> q == p || IsWritten(r, done, q);
    assert IsNeeded(r, next, q) <==> Under(q, p) || IsNeeded(r, done, q) by {
      if m :| m in done && Exists(r, m) && Under(q, m) {
        assert m in next;
      }
    }
    assert Survives(r, release, next, q) <==> Survives(r, release, done, q) && p != q && !Under(p, q) by {
      if Survives(r, release, next, q) {
        forall m | m in done ensures m != q && !Under(m, q) {
          assert m in next;
        }
      }
    }
    if Under(p, q) {
      if m :| m in done && Exists(r, m) && Under(q, m) {
        UnderTransitive(p, q, m);
      }
    }
  }

  /** Removing one more reviewed name that the working tree no longer has. */
  lemma WithoutIsNextStage(disk: Disk, r: Repository, release: Name -> bool, done: set<Name>, p: Name)
    requires Ready(disk, r, release, done) && PrefixFree(done + {p})
    requires p in NamesOf(r, release) && p !in done && !Exists(r, p) && !BlockedAt(r, release, p)
    ensures Ready(Without(disk, p), r, release, done + {p})
  {
    var after := Without(disk, p);
    WithoutIsTree(disk, p);
    forall q
      ensures q in after <==> Stands(r, release, done + {p}, q)
      ensures q in after ==> after[q] == StandsAs(r, release, done + {p}, q)
    {
      StandsWithout(r, release, done, p, q);
    }
  }

  lemma StandsWithout(r: Repository, release: Name -> bool, done: set<Name>, p: Name, q: Name)
    requires done <= NamesOf(r, release) && PrefixFree(done + {p})
    requires p in NamesOf(r, release) && p !in done && !Exists(r, p)
    ensures Stands(r, release, done + {p}, q) <==> Stands(r, release, done, q) && q != p && !Under(p, q)
    ensures Stands(r, release, done + {p}, q) ==>
              StandsAs(r, release, done + {p}, q) == StandsAs(r, release, done, q)
  {
    var next := done + {p};
    assert p in next;
    assert IsWritten(r, next, q) <==> IsWritten(r, done, q);
    assert IsNeeded(r, next, q) <==> IsNeeded(r, done, q) by {
      if m :| m in done && Exists(r, m) && Under(q, m) {
        assert m in next;
      }
    }
    assert Survives(r, release, next, q) <==> Survives(r, release, done, q) && p != q && !Under(p, q) by {
      if Survives(r, release, next, q) {
        forall m | m in done ensures m != q && !Under(m, q) {
          assert m in next;
        }
      }
    }
    if m :| m in done && Exists(r, m) && Under(q, m) {
      if Under(p, q) {
        UnderTransitive(p, q, m);
      }
    }
  }

  // ----- the finished copy -----

  /** A repository made of the copy, under the reviewed index and ignore rules. */
  function Copied(r: Repository, disk: Disk, modules: map<Name, Repository>): Repository {
    Repository(r.commit, r.head, r.headNames, r.index, disk, modules, r.ignored, true, true, r.settled, r.depth)
  }

  /** A copied submodule: its checkout with every tracked name copied over it. */
  function CopyOf(m: Repository): Repository {
    Copied(m, Predicted(m, Everything()), map[])
  }

  function CopiedModules(r: Repository, names: set<Name>): map<Name, Repository> {
    ModulesBy(r, names, (m: Repository) => CopyOf(m))
  }

  function ModulesBy(r: Repository, names: set<Name>, copy: Repository -> Repository): map<Name, Repository> {
    map p | p in names && IsGitlink(r, p) && p in r.modules :: copy(r.modules[p])
  }

  /** The copy of a submodule has its source if its links carry, and is rejected otherwise. */
  ghost predicate IsFaithful(m: Repository) {
    && (SourceOf(CopyOf(m), Everything()).Some? <==> LinksCarry(m, Everything()))
    && (SourceOf(CopyOf(m), Everything()).Some? ==> SourceOf(CopyOf(m), Everything()) == SourceOf(m, Everything()))
  }

  ghost predicate CarriesAt(r: Repository, release: Name -> bool, p: Name) {
    if IsGitlink(r, p) then p in r.modules && LinksCarry(r.modules[p], Everything())
    else Exists(r, p) && NodeFor(r, p).Link? ==>
      LinkAccepted(Predicted(r, release), r.depth, NamesOf(r, release), p, NodeFor(r, p).target)
  }

  /** Everything is mirrored. */
  ghost predicate Finished(disk: Disk, modules: map<Name, Repository>, r: Repository, release: Name -> bool) {
    && WellFormed(r) && SourceOf(r, release).Some? && LinksComeFirst(r, release)
    && Ready(disk, r, release, PlainNames(r, release)) && modules == CopiedModules(r, NamesOf(r, release))
    && forall p :: p in NamesOf(r, release) && IsGitlink(r, p) && p in r.modules ==> IsFaithful(r.modules[p])
  }

  lemma FinishedNames(disk: Disk, modules: map<Name, Repository>, r: Repository, release: Name -> bool)
    requires Finished(disk, modules, r, release)
    ensures NamesOf(Copied(r, disk, modules), release) == NamesOf(r, release)
    ensures disk == Predicted(r, release)
  {
    var copy, plain := Copied(r, disk, modules), PlainNames(r, release);
    StageOfIsStage(r, release, plain);
    StageIsUnique(disk, Predicted(r, release), r, release, plain);
    forall p ensures p in NamesOf(copy, release) <==> p in NamesOf(r, release) {
      if p in NamesOf(copy, release) && p !in r.index {
        assert Stands(r, release, plain, p) && IsFile(StandsAs(r, release, plain, p));
      }
      if p in NamesOf(r, release) && p !in r.index {
        OwnPlace(r, p);
        PlainUnlessBelow(r, release, p);
        assert IsWritten(r, plain, p);
      }
    }
  }

  /** A mirrored name looks as it does in the reviewed tree; a plain one is where it says. */
  lemma FinishedLookup(disk: Disk, modules: map<Name, Repository>, r: Repository, release: Name -> bool, p: Name)
    requires Finished(disk, modules, r, release) && p in NamesOf(r, release)
    ensures p in PlainNames(r, release) ==>
              Lstat(disk, r.depth, p) == if Exists(r, p) then Found(p, NodeFor(r, p)) else NotFound
    ensures p !in PlainNames(r, release) ==>
              Lstat(disk, r.depth, p) == Lstat(r.disk, r.depth, p) && (Exists(r, p) ==> NodeFor(r, p).Regular?)
  {
    var plain := PlainNames(r, release);
    FinishedNames(disk, modules, r, release);
    if p in plain {
      PlainLookup(disk, r, release, p);
    } else {
      assert LeadsAlong(r, release, p, plain);
    }
  }

  lemma PlainLookup(disk: Disk, r: Repository, release: Name -> bool, p: Name)
    requires WellFormed(r) && Ready(disk, r, release, PlainNames(r, release))
    requires p in PlainNames(r, release) && NoLedgerLinkAbove(r, release, p)
    ensures Lstat(disk, r.depth, p) == if Exists(r, p) then Found(p, NodeFor(r, p)) else NotFound
  {
    var plain := PlainNames(r, release);
    PlainPrefixFree(r, release);
    assert plain + {p} == plain;
    ReviewedIsRelative(r, release, p);
    ObstructedMeansBlocked(disk, r, release, plain, p);
    LstatPlain(disk, r.depth, p);
    if Exists(r, p) {
      assert IsWritten(r, plain, p);
    } else {
      assert !Stands(r, release, plain, p);
    }
  }

  lemma FinishedEntry(disk: Disk, modules: map<Name, Repository>, r: Repository, release: Name -> bool, p: Name)
    requires Finished(disk, modules, r, release) && p in NamesOf(r, release)
    ensures var copy, names := Copied(r, disk, modules), NamesOf(r, release);
            && (EntryOf(copy, names, p).Some? <==> CarriesAt(r, release, p))
            && (EntryOf(copy, names, p).Some? ==> EntryOf(copy, names, p) == EntryOf(r, names, p))
  {
    var names := NamesOf(r, release);
    ReviewedEntry(r, release, p);
    FinishedNames(disk, modules, r, release);
    FinishedLookup(disk, modules, r, release, p);
    AcceptedName(r, names, p);
    if IsGitlink(r, p) {
      FinishedSubmodule(disk, modules, r, p);
    } else {
      FinishedNode(disk, modules, r, release, p);
    }
  }

  lemma FinishedSubmodule(disk: Disk, modules: map<Name, Repository>, r: Repository, p: Name)
    requires IsGitlink(r, p) && SubmoduleEntry(r, p).Some? && Initialized(r, p)
    requires Lstat(disk, r.depth, p) == Found(p, Directory)
    requires p in modules && modules[p] == CopyOf(r.modules[p]) && IsFaithful(r.modules[p])
    ensures var copy := Copied(r, disk, modules);
            && (SubmoduleEntry(copy, p).Some? <==> LinksCarry(r.modules[p], Everything()))
            && (SubmoduleEntry(copy, p).Some? ==> SubmoduleEntry(copy, p) == SubmoduleEntry(r, p))
  {
  }

  lemma FinishedNode(disk: Disk, modules: map<Name, Repository>, r: Repository, release: Name -> bool, p: Name)
    requires !IsGitlink(r, p) && NodeEntry(r, NamesOf(r, release), p).Some?
    requires || Lstat(disk, r.depth, p) == (if Exists(r, p) then Found(p, NodeFor(r, p)) else NotFound)
             || (Lstat(disk, r.depth, p) == Lstat(r.disk, r.depth, p) && (Exists(r, p) ==> NodeFor(r, p).Regular?))
    requires disk == Predicted(r, release)
    ensures var copy, names := Copied(r, disk, modules), NamesOf(r, release);
            && (NodeEntry(copy, names, p).Some? <==> CarriesAt(r, release, p))
            && (NodeEntry(copy, names, p).Some? ==> NodeEntry(copy, names, p) == NodeEntry(r, names, p))
  {
  }

  /** The finished copy has the reviewed source exactly when every link carries. */
  lemma MirroredHasSameSource(disk: Disk, modules: map<Name, Repository>, r: Repository, release: Name -> bool)
    requires Finished(disk, modules, r, release)
    ensures SourceOf(Copied(r, disk, modules), release).Some? <==> AllLinksCarry(r, release)
    ensures AllLinksCarry(r, release) ==> SourceOf(Copied(r, disk, modules), release) == SourceOf(r, release)
  {
    var copy, names := Copied(r, disk, modules), NamesOf(r, release);
    FinishedNames(disk, modules, r, release);
    CarryEverywhere(r, release);
    forall p | p in names
      ensures EntryOf(copy, names, p).Some? <==> CarriesAt(r, release, p)
      ensures EntryOf(copy, names, p).Some? ==> EntryOf(copy, names, p) == EntryOf(r, names, p)
    {
      FinishedEntry(disk, modules, r, release, p);
    }
    if AllLinksCarry(r, release) {
      SameEntriesSameSource(copy, r, release);
    }
  }

  lemma SameEntriesSameSource(a: Repository, b: Repository, release: Name -> bool)
    requires NamesOf(a, release) == NamesOf(b, release) && a.settled && SourceOf(b, release).Some?
    requires forall p :: p in NamesOf(b, release) ==>
               EntryOf(a, NamesOf(b, release), p) == EntryOf(b, NamesOf(b, release), p)
    ensures SourceOf(a, release) == SourceOf(b, release)
  {
    forall p | p in NamesOf(b, release) ensures EntryOf(a, NamesOf(b, release), p).Some? {
      assert EntryOf(b, NamesOf(b, release), p).Some?;
    }
    assert SourceOf(a, release).value.entries == SourceOf(b, release).value.entries;
  }

  lemma CarryEverywhere(r: Repository, release: Name -> bool)
    requires WellFormed(r) && SourceOf(r, release).Some?
    ensures AllLinksCarry(r, release) <==> forall p :: p in NamesOf(r, release) ==> CarriesAt(r, release, p)
  {
    forall p | p in NamesOf(r, release) && IsGitlink(r, p) ensures p in r.modules {
      ReviewedEntry(r, release, p);
      AcceptedName(r, NamesOf(r, release), p);
    }
    if forall p :: p in NamesOf(r, release) ==> CarriesAt(r, release, p) {
      forall p | p in NamesOf(r, release) && !IsGitlink(r, p) && Exists(r, p) && NodeFor(r, p).Link?
        ensures LinkAccepted(Predicted(r, release), r.depth, NamesOf(r, release), p, NodeFor(r, p).target)
      {
        assert CarriesAt(r, release, p);
      }
      forall p | p in NamesOf(r, release) && IsGitlink(r, p) && p in r.modules
        ensures LinksCarry(r.modules[p], Everything())
      {
        assert CarriesAt(r, release, p);
      }
    }
  }

  // ----- submodules -----

  /** A fresh clone of a clean submodule is its commit's checkout, and nothing is in the way in it. */
  lemma CleanCheckout(m: Repository)
    requires WellFormed(m) && m.clean
    ensures Ready(m.head, m, Everything(), {})
    ensures PlainNames(m, Everything()) == NamesOf(m, Everything()) && PrefixFree(NamesOf(m, Everything()))
    ensures LinksComeFirst(m, Everything()) && forall p :: !BlockedAt(m, Everything(), p)
  {
    forall q ensures q in m.head <==> Stands(m, Everything(), {}, q) {}
  }

  /** Every tracked file and link copied in turn; anything else is an error. */
  function Tracked(disk: Disk, m: Repository, names: seq<Name>): Option<Disk>
    decreases |names|
  {
    if names == [] then Some(disk)
    else if !Exists(m, names[0]) || !IsFile(NodeFor(m, names[0])) then None
    else
      match Replaced(disk, m.depth, names[0], NodeFor(m, names[0]))
      case None => None
      case Some(next) => Tracked(next, m, names[1..])
  }

  /** What is known of a clean submodule's next name. */
  lemma CleanName(disk: Disk, m: Repository, done: set<Name>, p: Name)
    requires WellFormed(m) && m.clean && PrefixFree(NamesOf(m, Everything())) && Ready(disk, m, Everything(), done)
    requires p in NamesOf(m, Everything()) && p !in done
    ensures Exists(m, p) && (!IsGitlink(m, p) <==> IsFile(NodeFor(m, p)))
    ensures Replaced(disk, m.depth, p, NodeFor(m, p)).Some?
    ensures Ready(Replaced(disk, m.depth, p, NodeFor(m, p)).value, m, Everything(), done + {p})
  {
    CleanCheckout(m);
    OwnPlace(m, p);
    ObstructedMeansBlocked(disk, m, Everything(), done, p);
    ReplacedPlain(disk, m.depth, p, NodeFor(m, p));
    PutIsNextStage(disk, m, Everything(), done, p);
  }

  /** In a clean submodule that works unless there is a submodule, and then the predicted copy is made. */
  lemma {:induction false} TrackedPlain(disk: Disk, m: Repository, done: set<Name>, names: seq<Name>)
    requires WellFormed(m) && m.clean && PrefixFree(NamesOf(m, Everything())) && Ready(disk, m, Everything(), done)
    requires Enumerates(names, NamesOf(m, Everything()) - done)
    ensures Tracked(disk, m, names).Some? <==> forall p :: p in names ==> !IsGitlink(m, p)
    ensures Tracked(disk, m, names).Some? ==>
              Ready(Tracked(disk, m, names).value, m, Everything(), NamesOf(m, Everything()))
    decreases |names|
  {
    if names == [] {
      NothingLeft(names, NamesOf(m, Everything()), done);
    } else {
      var p := names[0];
      RestEnumerates(names, NamesOf(m, Everything()), done);
      CleanName(disk, m, done, p);
      TrackedPlain(Replaced(disk, m.depth, p, NodeFor(m, p)).value, m, done + {p}, names[1..]);
    }
  }

  lemma TrackedIsPredicted(m: Repository, names: seq<Name>)
    requires WellFormed(m) && m.clean && SourceOf(m, Everything()).Some? && Enumerates(names, NamesOf(m, Everything()))
    ensures Tracked(m.head, m, names) == if HasSubmodules(m) then None else Some(Predicted(m, Everything()))
    ensures !HasSubmodules(m) ==> IsFaithful(m)
  {
    CleanCheckout(m);
    assert NamesOf(m, Everything()) - {} == NamesOf(m, Everything());
    TrackedPlain(m.head, m, {}, names);
    forall p ensures p in names <==> p in m.index {}
    if !HasSubmodules(m) {
      forall p ensures !IsGitlink(m, p) {}
      StageOfIsStage(m, Everything(), NamesOf(m, Everything()));
      StageIsUnique(
        Tracked(m.head, m, names).value, Predicted(m, Everything()), m, Everything(), NamesOf(m, Everything()));
      CleanCopy(m);
    }
  }

  lemma CleanCopy(m: Repository)
    requires WellFormed(m) && m.clean && SourceOf(m, Everything()).Some? && !HasSubmodules(m)
    requires Ready(Predicted(m, Everything()), m, Everything(), NamesOf(m, Everything()))
    ensures IsFaithful(m)
  {
    CleanCopyIsFinished(m);
    NoSubmodulesToCarry(m);
    MirroredHasSameSource(Predicted(m, Everything()), map[], m, Everything());
  }

  lemma CleanCopyIsFinished(m: Repository)
    requires WellFormed(m) && m.clean && SourceOf(m, Everything()).Some? && !HasSubmodules(m)
    requires Ready(Predicted(m, Everything()), m, Everything(), NamesOf(m, Everything()))
    ensures Finished(Predicted(m, Everything()), map[], m, Everything())
  {
    CleanCheckout(m);
    NoModulesCopied(m, NamesOf(m, Everything()));
  }

  lemma NoModulesCopied(m: Repository, names: set<Name>)
    requires !HasSubmodules(m)
    ensures CopiedModules(m, names) == map[] && forall p :: !IsGitlink(m, p)
  {
    forall p ensures !IsGitlink(m, p) {}
  }

  lemma NoSubmodulesToCarry(m: Repository)
    requires !HasSubmodules(m)
    ensures AllLinksCarry(m, Everything()) <==> LinksCarry(m, Everything())
  {
    forall p ensures !IsGitlink(m, p) {}
  }

  /**
    `_synchronize_clean_submodule`, on a fresh clone at the same commit. It works exactly for submodules that have no
    submodules of their own and a remote named `origin`; the copy then has the same source if its links carry.
   */
  method MirrorSubmodule(m: Repository) returns (copy: Option<Repository>)
    requires WellFormed(m) && m.clean && SourceOf(m, Everything()).Some?
    ensures copy == if Copyable(m) then Some(CopyOf(m)) else None
    ensures copy.Some? ==> IsFaithful(m)
  {
    var names := ListAny(NamesOf(m, Everything()));
    var target := new Snapshot(m.head, m.depth);
    TrackedIsPredicted(m, names);
    var ok := CopyTracked(target, m, names);
    copy := if ok && m.hasOrigin then Some(Copied(m, target.disk, map[])) else None;
  }

  /** The loop over the tracked names: the first one that is no file or link ends it. */
  method CopyTracked(target: Snapshot, m: Repository, names: seq<Name>) returns (ok: bool)
    requires target.depth == m.depth
    modifies target
    ensures ok <==> Tracked(old(target.disk), m, names).Some?
    ensures ok ==> target.disk == Tracked(old(target.disk), m, names).value
  {
    for i := 0 to |names|
      invariant Tracked(target.disk, m, names[i..]) == Tracked(old(target.disk), m, names)
    {
      TailOf(names, i);
      var found := Lstat(m.disk, m.depth, names[i]);
      if !found.Found? {
        return false;
      }
      ok := target.CopyEntry(names[i], found.node);
      if !ok {
        return;
      }
    }
    ok := true;
  }

  lemma NextOf(names: seq<Name>, i: nat, all: set<Name>, done: set<Name>)
    requires i < |names| && Enumerates(names, all) && forall p :: p in done <==> p in names[..i]
    ensures names[i] in all && names[i] !in done
    ensures forall p :: p in done + {names[i]} <==> p in names[..i + 1]
  {
    assert names[i] in names && names[i] !in names[..i];
    assert names[..i + 1] == names[..i] + [names[i]];
  }

  lemma AllOf(names: seq<Name>, all: set<Name>, done: set<Name>)
    requires Enumerates(names, all) && forall p :: p in done <==> p in names[..|names|]
    ensures done == all
  {
    assert names[..|names|] == names;
  }

  // ----- the removal of obsolete names -----

  /** The checkout without the release inputs that the reviewed source no longer lists. */
  function ClearedHead(r: Repository, release: Name -> bool): Disk {
    map q | q in r.head && !Obsolete(r, release, q) :: r.head[q]
  }

  lemma ClearedHeadIsReady(r: Repository, release: Name -> bool)
    requires WellFormed(r)
    ensures Ready(ClearedHead(r, release), r, release, {})
  {
    forall q ensures q in ClearedHead(r, release) <==> Stands(r, release, {}, q) {}
  }

  /** What is left once the names in `gone` are removed. */
  ghost predicate Cleared(disk: Disk, r: Repository, gone: set<Name>) {
    && IsTree(disk)
    && forall q :: (q in disk <==> q in r.head && q !in gone) && (q in disk ==> disk[q] == r.head[q])
  }

  lemma ClearOne(disk: Disk, r: Repository, gone: set<Name>, q: Name)
    requires WellFormed(r) && Cleared(disk, r, gone) && q in r.headNames && q !in gone
    ensures Removed(disk, r.depth, q) == Some(Without(disk, q)) && Cleared(Without(disk, q), r, gone + {q})
  {
    WithoutIsTree(disk, q);
    LstatPlain(disk, r.depth, q);
  }

  /** Release inputs of the checkout that the reviewed source no longer lists are removed; nothing else is. */
  method RemoveObsolete(target: Snapshot, r: Repository, release: Name -> bool)
    requires WellFormed(r) && target.disk == r.head && target.depth == r.depth
    modifies target
    ensures target.disk == ClearedHead(r, release)
  {
    var obsolete := ListAny(r.headNames - NamesOf(r, release));
    ghost var gone: set<Name> := {};
    for i := 0 to |obsolete|
      invariant Cleared(target.disk, r, gone)
      invariant forall q :: q in gone <==> q in obsolete[..i] && release(q)
    {
      var q := obsolete[i];
      assert q in obsolete && q in r.headNames && q !in obsolete[..i];
      if release(q) {
        ClearOne(target.disk, r, gone, q);
        var ok := target.RemoveEntry(q);
        gone := gone + {q};
      }
    }
    assert obsolete[..|obsolete|] == obsolete;
    forall q | q in r.head ensures q in gone <==> Obsolete(r, release, q) {
      assert q in obsolete <==> q in r.headNames - NamesOf(r, release);
    }
  }

  // ----- the copying loop, as a function -----

  /** One turn: a submodule's directory, a missing entry, a file or a link. */
  function Step(disk: Disk, r: Repository, p: Name): Option<Disk> {
    if IsGitlink(r, p) then Replaced(disk, r.depth, p, Directory)
    else
      match Lstat(r.disk, r.depth, p)
      case NotFound => Removed(disk, r.depth, p)
      case Found(_, node) => if IsFile(node) then Replaced(disk, r.depth, p, node) else None
      case Unreachable => None
  }

  function Replayed(disk: Disk, r: Repository, names: seq<Name>): Option<Disk>
    decreases |names|
  {
    if names == [] then Some(disk)
    else
      match Step(disk, r, names[0])
      case None => None
      case Some(next) => Replayed(next, r, names[1..])
  }

  /** The snapshot `r` gets, if the copying loop works: computed from `r` alone, for every repository. */
  ghost function SnapshotOf(r: Repository, release: Name -> bool): Option<Repository> {
    match Replayed(ClearedHead(r, release), r, Ordered(NamesOf(r, release)))
    case None => None
    case Some(disk) => Some(Copied(r, disk, CopiedModules(r, NamesOf(r, release))))
  }

  /** The turn of a name that lies below no other works unless a ledger file blocks the name, and mirrors it. */
  lemma StepPlain(disk: Disk, r: Repository, release: Name -> bool, done: set<Name>, p: Name)
    requires WellFormed(r) && LinksComeFirst(r, release)
    requires Ready(disk, r, release, done) && done <= PlainNames(r, release)
    requires p in PlainNames(r, release) && p !in done && EntryOf(r, NamesOf(r, release), p).Some?
    ensures Step(disk, r, p).Some? <==> !BlockedAt(r, release, p)
    ensures Step(disk, r, p).Some? ==> Ready(Step(disk, r, p).value, r, release, done + {p})
  {
    PlainPrefixFree(r, release);
    ReviewedIsRelative(r, release, p);
    AcceptedName(r, NamesOf(r, release), p);
    ObstructedMeansBlocked(disk, r, release, done, p);
    if Exists(r, p) {
      ReplacedPlain(disk, r.depth, p, NodeFor(r, p));
      if !BlockedAt(r, release, p) {
        PutIsNextStage(disk, r, release, done, p);
      }
    } else {
      RemovedPlain(disk, r.depth, p);
      if !BlockedAt(r, release, p) {
        WithoutIsNextStage(disk, r, release, done, p);
      }
    }
  }

  lemma StageHasNames(disk: Disk, r: Repository, release: Name -> bool, done: set<Name>)
    requires WellFormed(r) && Ready(disk, r, release, done)
    ensures [] !in disk
  {
  }

  /** The turn of a name below a link changes nothing, if the way leads to the same file already. */
  lemma StepBelowLink(disk: Disk, r: Repository, release: Name -> bool, done: set<Name>, q: Name)
    requires WellFormed(r) && Ready(disk, r, release, done) && q in NamesOf(r, release)
    requires EntryOf(r, NamesOf(r, release), q).Some? && LeadsAlong(r, release, q, done)
    ensures Step(disk, r, q) == Some(disk)
  {
    ReviewedIsRelative(r, release, q);
    AcceptedName(r, NamesOf(r, release), q);
    StageOfIsStage(r, release, done);
    StageIsUnique(disk, StageOf(r, release, done), r, release, done);
    if Exists(r, q) {
      StageHasNames(disk, r, release, done);
      RewriteIsIdle(disk, r.depth, q);
    }
  }

  /** The names below no other among the first `i`. */
  function PlainAmong(r: Repository, release: Name -> bool, names: seq<Name>, i: nat): set<Name>
    requires i <= |names|
  {
    set p | p in PlainNames(r, release) && p in names[..i]
  }

  lemma PlainAmongNext(r: Repository, release: Name -> bool, names: seq<Name>, i: nat)
    requires i < |names| && Distinct(names)
    ensures names[i] !in PlainAmong(r, release, names, i)
    ensures PlainAmong(r, release, names, i + 1)
         == if names[i] in PlainNames(r, release) then PlainAmong(r, release, names, i) + {names[i]}
            else PlainAmong(r, release, names, i)
  {
    assert names[..i + 1] == names[..i] + [names[i]];
  }

  /** In the order of copying those are the ones before the name in turn. */
  lemma PlainAmongIsEarlier(r: Repository, release: Name -> bool, names: seq<Name>, i: nat)
    requires names == Ordered(NamesOf(r, release)) && i < |names|
    ensures PlainAmong(r, release, names, i) == Earlier(r, release, names[i])
  {
    OrderedEnumerates(NamesOf(r, release));
    OrderedIsSorted(NamesOf(r, release));
    NameLeIsTotalOrder();
    forall p | p in PlainNames(r, release)
      ensures p in names[..i] <==> p != names[i] && NameLe(p, names[i])
    {
      var k :| 0 <= k < |names| && names[k] == p;
      assert k < i ==> names[..i][k] == p;
    }
  }

  lemma OrderedIsSorted(names: set<Name>)
    ensures SortedBy(Ordered(names), NameLe)
  {
    NameLeIsTotalOrder();
    SortSorts(SomeOrder(names), NameLe);
  }

  ghost predicate NoneBlocked(r: Repository, release: Name -> bool, names: seq<Name>, i: nat)
    requires i <= |names|
  {
    forall k :: i <= k < |names| && names[k] in PlainNames(r, release) ==> !BlockedAt(r, release, names[k])
  }

  lemma NoneBlockedNext(r: Repository, release: Name -> bool, names: seq<Name>, i: nat)
    requires i < |names|
    ensures NoneBlocked(r, release, names, i) <==>
              && (names[i] in PlainNames(r, release) ==> !BlockedAt(r, release, names[i]))
              && NoneBlocked(r, release, names, i + 1)
  {
  }

  lemma {:induction false} ReplayPlain(disk: Disk, r: Repository, release: Name -> bool, names: seq<Name>, i: nat)
    requires WellFormed(r) && SourceOf(r, release).Some? && LinksComeFirst(r, release)
    requires names == Ordered(NamesOf(r, release)) && i <= |names|
    requires Ready(disk, r, release, PlainAmong(r, release, names, i))
    ensures Replayed(disk, r, names[i..]).Some? <==> NoneBlocked(r, release, names, i)
    ensures Replayed(disk, r, names[i..]).Some? ==>
              Ready(Replayed(disk, r, names[i..]).value, r, release, PlainAmong(r, release, names, |names|))
    decreases |names| - i
  {
    if i == |names| {
      assert names[i..] == [];
    } else {
      StepInOrder(disk, r, release, names, i);
      ReplayedNext(disk, r, names, i);
      NoneBlockedNext(r, release, names, i);
      if Step(disk, r, names[i]).Some? {
        ReplayPlain(Step(disk, r, names[i]).value, r, release, names, i + 1);
      }
    }
  }

  /** The turn of the next name. */
  lemma StepInOrder(disk: Disk, r: Repository, release: Name -> bool, names: seq<Name>, i: nat)
    requires WellFormed(r) && SourceOf(r, release).Some? && LinksComeFirst(r, release)
    requires names == Ordered(NamesOf(r, release)) && i < |names|
    requires Ready(disk, r, release, PlainAmong(r, release, names, i))
    ensures Step(disk, r, names[i]).Some? <==> (names[i] in PlainNames(r, release) ==> !BlockedAt(r, release, names[i]))
    ensures Step(disk, r, names[i]).Some? ==>
              Ready(Step(disk, r, names[i]).value, r, release, PlainAmong(r, release, names, i + 1))
  {
    var p, done := names[i], PlainAmong(r, release, names, i);
    OrderedEnumerates(NamesOf(r, release));
    assert p in names;
    ReviewedEntry(r, release, p);
    PlainAmongNext(r, release, names, i);
    if p in PlainNames(r, release) {
      StepPlain(disk, r, release, done, p);
    } else {
      PlainAmongIsEarlier(r, release, names, i);
      assert LeadsAlong(r, release, p, done);
      StepBelowLink(disk, r, release, done, p);
    }
  }

  lemma AllPlain(r: Repository, release: Name -> bool, names: seq<Name>)
    requires Enumerates(names, NamesOf(r, release))
    ensures PlainAmong(r, release, names, 0) == {}
    ensures PlainAmong(r, release, names, |names|) == PlainNames(r, release)
    ensures NoneBlocked(r, release, names, 0) <==> !Blocked(r, release)
  {
    assert names[..0] == [] && names[..|names|] == names;
    if Blocked(r, release) {
      var p :| p in PlainNames(r, release) && BlockedAt(r, release, p);
      var k :| 0 <= k < |names| && names[k] == p;
    }
    if k :| 0 <= k < |names| && names[k] in PlainNames(r, release) && BlockedAt(r, release, names[k]) {
      assert names[k] in PlainNames(r, release);
    }
  }

  lemma NothingLeft(names: seq<Name>, all: set<Name>, done: set<Name>)
    requires names == [] && Enumerates(names, all - done) && done <= all
    ensures done == all
  {
    forall p | p in all ensures p in done {
      assert p in names <==> p in all - done;
    }
  }

  lemma RestEnumerates(names: seq<Name>, all: set<Name>, done: set<Name>)
    requires names != [] && Enumerates(names, all - done)
    ensures names[0] in all && names[0] !in done && Enumerates(names[1..], all - (done + {names[0]}))
    ensures forall p :: p in names <==> p == names[0] || p in names[1..]
  {
    assert names[0] in names && names == [names[0]] + names[1..];
    forall p ensures p in names[1..] <==> p in all - (done + {names[0]}) {
      assert p in names <==> p in all - done;
    }
  }

  /**
    When the snapshot has the reviewed source, exactly, where the links come first: if and only if no ledger file of the
    checkout is in the way of a reviewed name and every reviewed link, in submodules too, leads to something reviewed
    in the snapshot as well. It is then the predicted one, whatever the index, the working tree and the commit
    disagree about.
   */
  lemma SnapshotIsFaithfulExactly(r: Repository, release: Name -> bool)
    requires WellFormed(r) && (forall m :: m in r.modules ==> WellFormed(r.modules[m]))
    requires SourceOf(r, release).Some? && LinksComeFirst(r, release) && SubmodulesCopyable(r, release)
    ensures SnapshotOf(r, release).Some? <==> !Blocked(r, release)
    ensures SnapshotOf(r, release).Some? ==>
              var copy := SnapshotOf(r, release).value;
              && copy.disk == Predicted(r, release)
              && (SourceOf(copy, release).Some? <==> AllLinksCarry(r, release))
              && (SourceOf(copy, release).Some? ==> SourceOf(copy, release) == SourceOf(r, release))
  {
    var names := Ordered(NamesOf(r, release));
    OrderedEnumerates(NamesOf(r, release));
    AllPlain(r, release, names);
    ClearedHeadIsReady(r, release);
    assert names[0..] == names;
    ReplayPlain(ClearedHead(r, release), r, release, names, 0);
    if SnapshotOf(r, release).Some? {
      var copy := SnapshotOf(r, release).value;
      SubmodulesAreFaithful(r, release);
      MirroredHasSameSource(copy.disk, copy.modules, r, release);
      FinishedNames(copy.disk, copy.modules, r, release);
    }
  }

  lemma SubmodulesAreFaithful(r: Repository, release: Name -> bool)
    requires forall m :: m in r.modules ==> WellFormed(r.modules[m])
    requires SourceOf(r, release).Some? && SubmodulesCopyable(r, release)
    ensures forall p :: p in NamesOf(r, release) && IsGitlink(r, p) && p in r.modules ==> IsFaithful(r.modules[p])
  {
    forall p | p in NamesOf(r, release) && IsGitlink(r, p) && p in r.modules ensures IsFaithful(r.modules[p]) {
      ReviewedEntry(r, release, p);
      AcceptedName(r, NamesOf(r, release), p);
      TrackedIsPredicted(r.modules[p], SomeOrder(NamesOf(r.modules[p], Everything())));
    }
  }

  // ----- the method -----

  /** One turn of the copying loop. */
  method MirrorEntry(target: Snapshot, modules: map<Name, Repository>, r: Repository, p: Name, ghost names: set<Name>)
    returns (ok: bool, after: map<Name, Repository>)
    requires target.depth == r.depth && EntryOf(r, names, p).Some?
    requires forall m :: m in r.modules ==> WellFormed(r.modules[m])
    modifies target
    ensures ok <==> Step(old(target.disk), r, p).Some? && (IsGitlink(r, p) && p in r.modules ==> Copyable(r.modules[p]))
    ensures ok ==> target.disk == Step(old(target.disk), r, p).value
    ensures ok ==> after == if IsGitlink(r, p) && p in r.modules then modules[p := CopyOf(r.modules[p])] else modules
  {
    AcceptedName(r, names, p);
    after := modules;
    if IsGitlink(r, p) {
      ok := target.MakeRoom(p);
      if ok {
        var copy := MirrorSubmodule(r.modules[p]);
        ok := copy.Some?;
        if ok {
          after := modules[p := copy.value];
        }
      }
      return;
    }
    match Lstat(r.disk, r.depth, p)
    case NotFound =>
      ok := target.RemoveEntry(p);
    case Found(_, node) =>
      ok := target.CopyEntry(p, node);
    case Unreachable =>
      ok := false;
  }

  /** The whole copying loop. */
  method MirrorNames(target: Snapshot, r: Repository, release: Name -> bool, names: seq<Name>)
    returns (ok: bool, modules: map<Name, Repository>)
    requires target.depth == r.depth && SourceOf(r, release).Some? && Enumerates(names, NamesOf(r, release))
    requires forall m :: m in r.modules ==> WellFormed(r.modules[m])
    modifies target
    ensures ok <==> Replayed(old(target.disk), r, names).Some? && SubmodulesCopyable(r, release)
    ensures ok ==> target.disk == Replayed(old(target.disk), r, names).value
    ensures ok ==> modules == CopiedModules(r, NamesOf(r, release))
  {
    ghost var start := target.disk;
    modules := map[];
    ghost var done: set<Name> := {};
    for i := 0 to |names|
      invariant forall p :: p in done <==> p in names[..i]
      invariant Replayed(target.disk, r, names[i..]) == Replayed(start, r, names)
      invariant CopyableSoFar(modules, r, done)
    {
      var p := names[i];
      ghost var before, had := target.disk, modules;
      NextOf(names, i, NamesOf(r, release), done);
      ReplayedNext(before, r, names, i);
      ReviewedEntry(r, release, p);
      ok, modules := MirrorEntry(target, modules, r, p, NamesOf(r, release));
      if !ok {
        StoppedAt(before, r, release, names, i);
        return;
      }
      CopyableNext(had, r, done, p);
      done := done + {p};
    }
    AllOf(names, NamesOf(r, release), done);
    ok := true;
  }

  ghost predicate CopyableSoFar(modules: map<Name, Repository>, r: Repository, done: set<Name>) {
    && modules == CopiedModules(r, done)
    && forall p :: p in done && IsGitlink(r, p) && p in r.modules ==> Copyable(r.modules[p])
  }

  lemma CopyableNext(modules: map<Name, Repository>, r: Repository, done: set<Name>, p: Name)
    requires CopyableSoFar(modules, r, done)
    requires IsGitlink(r, p) && p in r.modules ==> Copyable(r.modules[p])
    ensures CopyableSoFar(
              if IsGitlink(r, p) && p in r.modules then modules[p := CopyOf(r.modules[p])] else modules, r, done + {p})
  {
    ModulesNext(r, done, p, (m: Repository) => CopyOf(m));
  }

  lemma ModulesNext(r: Repository, done: set<Name>, p: Name, copy: Repository -> Repository)
    ensures ModulesBy(r, done + {p}, copy)
         == if IsGitlink(r, p) && p in r.modules then ModulesBy(r, done, copy)[p := copy(r.modules[p])]
            else ModulesBy(r, done, copy)
  {
  }

  lemma ReplayedNext(disk: Disk, r: Repository, names: seq<Name>, i: nat)
    requires i < |names|
    ensures Step(disk, r, names[i]).None? ==> Replayed(disk, r, names[i..]).None?
    ensures Step(disk, r, names[i]).Some? ==>
              Replayed(disk, r, names[i..]) == Replayed(Step(disk, r, names[i]).value, r, names[i + 1..])
  {
    TailOf(names, i);
  }

  lemma StoppedAt(disk: Disk, r: Repository, release: Name -> bool, names: seq<Name>, i: nat)
    requires i < |names| && names[i] in NamesOf(r, release)
    requires !(Step(disk, r, names[i]).Some?
               && (IsGitlink(r, names[i]) && names[i] in r.modules ==> Copyable(r.modules[names[i]])))
    ensures Replayed(disk, r, names[i..]).None? || !SubmodulesCopyable(r, release)
  {
    ReplayedNext(disk, r, names, i);
  }

  /** Every check the code makes, on the repository and on the snapshot it would get. */
  ghost predicate Succeeds(r: Repository, release: Name -> bool, expected: Facts, sha: seq<byte> -> Digest) {
    && FactsOf(r, release, sha) == Some(expected)
    && SubmodulesCopyable(r, release)
    && SnapshotOf(r, release).Some? && FactsOf(SnapshotOf(r, release).value, release, sha) == Some(expected)
  }

  /**
    The whole materialisation, for every repository: what it returns is the snapshot replayed from the repository, and
    it has exactly the expected facts, which are those of the reviewed repository. `SuccessMeans` says when.
   */
  method MaterializeRepositorySnapshot(
      r: Repository, release: Name -> bool, expected: Facts, sha: seq<byte> -> Digest)
    returns (copy: Option<Repository>)
    requires WellFormed(r) && forall m :: m in r.modules ==> WellFormed(r.modules[m])
    ensures copy == if Succeeds(r, release, expected, sha) then SnapshotOf(r, release) else None
    ensures copy.Some? ==> FactsOf(copy.value, release, sha) == Some(expected) == FactsOf(r, release, sha)
  {
    var facts := RepositorySourceFacts(r, release, sha);
    if facts != Some(expected) {
      return None;
    }
    copy := BuildSnapshot(r, release);
    if copy.Some? {
      facts := RepositorySourceFacts(copy.value, release, sha);
      if facts != Some(expected) {
        copy := None;
      }
    }
  }

  /** The checkout, the removal and the copying, before the result is checked. */
  method BuildSnapshot(r: Repository, release: Name -> bool) returns (copy: Option<Repository>)
    requires WellFormed(r) && (forall m :: m in r.modules ==> WellFormed(r.modules[m])) && SourceOf(r, release).Some?
    ensures copy == if SubmodulesCopyable(r, release) then SnapshotOf(r, release) else None
  {
    var target := new Snapshot(r.head, r.depth);
    RemoveObsolete(target, r, release);
    var names := SourceNames(r, release);
    var ok, modules := MirrorNames(target, r, release, names);
    copy := if ok then Some(Copied(r, target.disk, modules)) else None;
  }

  /**
    When the materialisation succeeds, exactly, where the links come first: the sources are the expected ones, no
    ledger file of the checkout is in the way of a reviewed name, every submodule can be copied, and every reviewed
    link, in submodules too, leads to something reviewed in the snapshot as well.
   */
  lemma SuccessMeans(r: Repository, release: Name -> bool, expected: Facts, sha: seq<byte> -> Digest)
    requires WellFormed(r) && (forall m :: m in r.modules ==> WellFormed(r.modules[m]))
    requires LinksComeFirst(r, release)
    ensures Succeeds(r, release, expected, sha) <==>
              && FactsOf(r, release, sha) == Some(expected) && SubmodulesCopyable(r, release)
              && !Blocked(r, release) && AllLinksCarry(r, release)
    ensures Succeeds(r, release, expected, sha) ==>
              var copy := SnapshotOf(r, release).value;
              copy.disk == Predicted(r, release) && SourceOf(copy, release) == SourceOf(r, release)
  {
    if FactsOf(r, release, sha) == Some(expected) && SubmodulesCopyable(r, release) {
      SnapshotIsFaithfulExactly(r, release);
    }
  }

  /** Where no reviewed name lies below a link at all, that is always so. */
  lemma SuccessWithoutLinksInTheWay(
      r: Repository, release: Name -> bool, expected: Facts, sha: seq<byte> -> Digest)
    requires WellFormed(r) && (forall m :: m in r.modules ==> WellFormed(r.modules[m])) && !LinkInTheWay(r, release)
    ensures Succeeds(r, release, expected, sha) <==>
              && FactsOf(r, release, sha) == Some(expected) && SubmodulesCopyable(r, release)
              && !Blocked(r, release) && AllLinksCarry(r, release)
  {
    if SourceOf(r, release).Some? {
      NothingInTheWay(r, release);
      SuccessMeans(r, release, expected, sha);
    }
  }
}
