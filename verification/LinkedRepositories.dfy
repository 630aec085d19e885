/**
  A repository that `repository_source_facts` accepts and that cannot be materialised: the commit has `a/b`, the
  working tree has a link `a` to the new directory `n` instead, with a new `n/b`. `lstat` finds `a/b` through the
  link; the snapshot gets `a` before `n` exists, so the directory for `a/b` cannot be made.
 */
module LinkedDirectory {
  import opened Outcomes
  import opened Sorting
  import opened Enumeration
  import opened SourceIdentity
  import opened FileTrees
  import opened WorkingTree
  import opened TreeEdits
  import opened SnapshotMirror

  const A: Name := [97]
  const AB: Name := [97, 47, 98]
  const N: Name := [110]
  const NB: Name := [110, 47, 98]
  const EMPTY: Node := Regular(false, [])

  function Working(): Disk {
    map[A := Link(N), N := Directory, NB := EMPTY]
  }

  function Committed(): Disk {
    map[A := Directory, AB := EMPTY]
  }

  function Example(commit: ObjectId): Repository {
    Repository(commit, Committed(), {AB}, map[AB := Blob], Working(), map[], (p: Name) => false, false, true, true, 40)
  }

  lemma Parts()
    ensures ParentOf(A) == [] && ParentOf(AB) == A && BaseOf(AB) == [98]
    ensures ParentOf(N) == [] && ParentOf(NB) == N && BaseOf(NB) == [98]
    ensures TargetParts(N) == [N]
  {
    assert LastSlash(A[..0]) == -1 && A[..0] == [];
    assert AB[..2] == [97, 47] && NB[..2] == [110, 47];
    assert LastSlash(AB[..2]) == 1 && LastSlash(NB[..2]) == 1;
    assert AB[..1] == A && NB[..1] == N;
    assert FirstSlash(N[1..]) == 0 && FirstSlash(N) == 1 && N[..1] == N;
  }

  lemma BelowOnly(q: Name)
    ensures Under(q, A) || Under(q, N) ==> false
    ensures Under(q, AB) ==> q == A
    ensures Under(q, NB) ==> q == N
  {
    Parts();
    AboveAre(q, A);
    AboveAre(q, N);
    AboveAre(q, AB);
    AboveAre(q, NB);
  }

  lemma InOrder()
    ensures SortedBy([A, AB, NB], NameLe) && Distinct([A, AB, NB])
  {
    assert LexLe(A, AB) && LexLe(AB, NB) && LexLe(A, NB);
  }

  lemma Names(commit: ObjectId)
    ensures NamesOf(Example(commit), Everything()) == {A, AB, NB}
  {
  }

  lemma NamesInOrder()
    ensures Ordered({A, AB, NB}) == [A, AB, NB]
  {
    var names := [A, AB, NB];
    InOrder();
    NameLeIsTotalOrder();
    assert Enumerates(names, {A, AB, NB}) by {
      forall p ensures p in names <==> p in {A, AB, NB} {}
    }
    SortedListing(names, {A, AB, NB}, NameLe);
    SortSorts(names, NameLe);
    SortedPermutationIsUnique(names, Sort(names, NameLe), NameLe);
  }

  lemma FromTop(disk: Disk, depth: nat, lexically: bool)
    requires N in disk ==> !disk[N].Link?
    ensures Walk(disk, depth, lexically, [], [N]) == if N in disk then At(N) else Absent
  {
    assert [N][0] == N && [N][1..] == [] && N != [46, 46];
    assert Child([], N) == N;
    assert N in disk ==> Walk(disk, depth, lexically, N, []) == At(N);
  }

  lemma ThroughLink(disk: Disk)
    requires A in disk && disk[A] == Link(N) && (N in disk ==> disk[N] == Directory)
    ensures Enter(disk, 40, A) == if N in disk then At(N) else Absent
    ensures Locate(disk, 40, AB) == if N in disk then At(NB) else Absent
  {
    Parts();
    FromTop(disk, 39, false);
    assert Locate(disk, 40, A) == At(A);
  }

  /** The working tree: `a/b` is found at `n/b`. */
  lemma Lookups()
    ensures Lstat(Working(), 40, A) == Found(A, Link(N))
    ensures Lstat(Working(), 40, AB) == Found(NB, EMPTY)
    ensures Lstat(Working(), 40, NB) == Found(NB, EMPTY)
  {
    Parts();
    ThroughLink(Working());
    assert Locate(Working(), 40, N) == At(N);
    assert Enter(Working(), 40, N) == At(N);
  }

  lemma LinkIsAccepted()
    ensures LinkAccepted(Working(), 40, {A, AB, NB}, A, N)
  {
    Parts();
    FromTop(Working(), 40, true);
    assert Under(N, NB) && NB in {A, AB, NB};
  }

  lemma EntriesAreThere(r: Repository, p: Name)
    requires r.disk == Working() && r.depth == 40 && r.index == map[AB := Blob] && p in {A, AB, NB}
    ensures EntryOf(r, {A, AB, NB}, p).Some?
  {
    Lookups();
    LinkIsAccepted();
    assert EntryOf(r, {A, AB, NB}, p) == NodeEntry(r, {A, AB, NB}, p);
  }

  lemma IsAccepted(commit: ObjectId)
    ensures SourceOf(Example(commit), Everything()).Some?
  {
    var r := Example(commit);
    Names(commit);
    assert A in {A, AB, NB};
    forall p | p in {A, AB, NB} ensures EntryOf(r, {A, AB, NB}, p).Some? {
      EntriesAreThere(r, p);
    }
  }

  lemma IsRepository(commit: ObjectId)
    ensures WellFormed(Example(commit))
  {
    forall q ensures !Under(q, A) && !Under(q, N) && (Under(q, AB) ==> q == A) && (Under(q, NB) ==> q == N) {
      BelowOnly(q);
    }
    NotUnderItself(AB);
  }

  /** The link takes the place of the committed directory; then `a/b` is next. */
  lemma LinkOverDirectory()
    ensures Replaced(Committed(), 40, A, Link(N)) == Some(map[A := Link(N)])
  {
    forall q ensures !Under(q, A) && (Under(q, AB) ==> q == A) {
      BelowOnly(q);
    }
    ReplacedPlain(Committed(), 40, A, Link(N));
    OnlyTheLink(Link(N));
  }

  lemma OnlyTheLink(node: Node)
    ensures Put(Committed(), A, node) == map[A := node]
  {
    assert Under(A, AB);
    forall q ensures q in Put(Committed(), A, node) <==> q == A {
      PutAt(Committed(), A, node, q);
      BelowOnly(q);
    }
    PutAt(Committed(), A, node, A);
  }

  lemma TheLinkComesFirst(r: Repository)
    requires r.disk == Working() && r.depth == 40 && !IsGitlink(r, A)
    ensures Step(Committed(), r, A) == Some(map[A := Link(N)])
  {
    Lookups();
    LinkOverDirectory();
  }

  lemma TheNextNameStops(disk: Disk, r: Repository)
    requires disk == map[A := Link(N)] && r.disk == Working() && r.depth == 40 && !IsGitlink(r, AB)
    ensures Step(disk, r, AB).None?
  {
    Parts();
    Lookups();
    ThroughLink(disk);
    assert Locate(disk, 40, A) == At(A);
    assert MakeDirectories(disk, 40, A) == None;
  }

  lemma CannotBeReplayed(r: Repository)
    requires r.disk == Working() && r.depth == 40 && r.index == map[AB := Blob]
    ensures Replayed(Committed(), r, [A, AB, NB]).None?
  {
    var names := [A, AB, NB];
    TheLinkComesFirst(r);
    TheNextNameStops(map[A := Link(N)], r);
    assert names[0] == A && names[1..][0] == AB;
    assert Replayed(map[A := Link(N)], r, names[1..]) == None;
  }

  lemma NothingObsolete(commit: ObjectId)
    ensures ClearedHead(Example(commit), Everything()) == Committed()
  {
    Names(commit);
  }

  lemma TheLinkIsInTheWay(commit: ObjectId)
    ensures LinkInTheWay(Example(commit), Everything())
  {
    var r := Example(commit);
    Names(commit);
    Lookups();
    assert Under(A, AB) && AB in NamesOf(r, Everything()) && A in NamesOf(r, Everything());
    assert Exists(r, A) && NodeFor(r, A).Link?;
  }

  /** Accepted, and not materialised: a reviewed link is in the way. */
  lemma AcceptedYetNotMaterialised(commit: ObjectId)
    ensures WellFormed(Example(commit)) && SourceOf(Example(commit), Everything()).Some?
    ensures LinkInTheWay(Example(commit), Everything()) && SnapshotOf(Example(commit), Everything()).None?
  {
    TheLinkIsInTheWay(commit);
    IsRepository(commit);
    IsAccepted(commit);
    Names(commit);
    NamesInOrder();
    NothingObsolete(commit);
    CannotBeReplayed(Example(commit));
  }
}

/**
  A repository that `repository_source_facts` accepts, that is copied name by name, and whose copy is rejected: a
  tracked link `a` to an ignored link `k` to the tracked file `f`. The copy does not get `k`.
 */
module IgnoredLink {
  import opened Outcomes
  import opened SourceIdentity
  import opened FileTrees
  import opened WorkingTree
  import opened SnapshotMirror

  const A: Name := [97]
  const K: Name := [107]
  const F: Name := [102]
  const EMPTY: Node := Regular(false, [])

  function Working(): Disk {
    map[A := Link(K), K := Link(F), F := EMPTY]
  }

  function Committed(): Disk {
    map[A := Link(K), F := EMPTY]
  }

  function Example(commit: ObjectId): Repository {
    Repository(
      commit, Committed(), {A, F}, map[A := Blob, F := Blob], Working(), map[], (p: Name) => p == K, false, true, true,
      40)
  }

  lemma Parts()
    ensures ParentOf(A) == [] && ParentOf(K) == [] && ParentOf(F) == []
    ensures TargetParts(K) == [K] && TargetParts(F) == [F]
  {
    assert A[..0] == [] && K[..0] == [] && F[..0] == [];
    assert FirstSlash(K[1..]) == 0 && FirstSlash(K) == 1 && K[..1] == K;
    assert FirstSlash(F[1..]) == 0 && FirstSlash(F) == 1 && F[..1] == F;
  }

  lemma NothingAbove(q: Name, p: Name)
    requires p == A || p == K || p == F
    ensures !Under(q, p)
  {
    Parts();
    AboveAre(q, p);
  }

  lemma Names(commit: ObjectId)
    ensures NamesOf(Example(commit), Everything()) == {A, F}
  {
  }

  /** `a` leads to `f`. */
  lemma LinkIsAccepted()
    ensures LinkAccepted(Working(), 40, {A, F}, A, K)
  {
    Parts();
    assert [K][0] == K && [K][1..] == [] && [F][0] == F && [F][1..] == [];
    assert Child([], K) == K && Child([], F) == F;
    assert Walk(Working(), 40, true, F, []) == At(F);
    assert Walk(Working(), 39, true, [], [F]) == At(F);
    assert Walk(Working(), 40, true, [], [K]) == At(F);
  }

  lemma Lookups(disk: Disk, p: Name)
    requires (p == A || p == F) && p in disk
    ensures Lstat(disk, 40, p) == Found(p, disk[p])
  {
    Parts();
    assert Locate(disk, 40, p) == At(p);
  }

  lemma EntriesAreThere(r: Repository, p: Name)
    requires r.disk == Working() && r.depth == 40 && r.index == map[A := Blob, F := Blob] && p in {A, F}
    ensures EntryOf(r, {A, F}, p).Some?
  {
    Lookups(Working(), p);
    LinkIsAccepted();
    assert EntryOf(r, {A, F}, p) == NodeEntry(r, {A, F}, p);
  }

  lemma IsAccepted(commit: ObjectId)
    ensures SourceOf(Example(commit), Everything()).Some?
  {
    Names(commit);
    assert A in {A, F};
    forall p | p in {A, F} ensures EntryOf(Example(commit), {A, F}, p).Some? {
      EntriesAreThere(Example(commit), p);
    }
  }

  lemma IsRepository(commit: ObjectId)
    ensures WellFormed(Example(commit))
    ensures !LinkInTheWay(Example(commit), Everything()) && !Blocked(Example(commit), Everything())
  {
    Names(commit);
    forall q ensures !Under(q, A) && !Under(q, K) && !Under(q, F) {
      NothingAbove(q, A);
      NothingAbove(q, K);
      NothingAbove(q, F);
    }
  }

  /** The ignored link is neither reviewed nor committed nor above anything. */
  lemma NotCopied(commit: ObjectId)
    ensures K !in Predicted(Example(commit), Everything())
  {
    Names(commit);
    forall p | p in {A, F} ensures !Under(K, p) {
      NothingAbove(K, p);
    }
  }

  lemma LeadsThroughIt(commit: ObjectId)
    ensures !LinksCarry(Example(commit), Everything())
  {
    var r := Example(commit);
    Names(commit);
    NotCopied(commit);
    Parts();
    Lookups(Working(), A);
    assert Exists(r, A) && NodeFor(r, A) == Link(K);
    assert [K][0] == K && Child([], K) == K && Nameable([], K);
    LinkThroughUnreviewedFails(r, Everything(), A);
  }

  lemma CopyIsRejected(r: Repository, release: Name -> bool)
    requires WellFormed(r) && r.modules == map[] && SourceOf(r, release).Some?
    requires !LinkInTheWay(r, release) && !Blocked(r, release) && !LinksCarry(r, release)
    ensures SnapshotOf(r, release).Some? && SourceOf(SnapshotOf(r, release).value, release).None?
  {
    NothingInTheWay(r, release);
    SnapshotIsFaithfulExactly(r, release);
  }

  /** Accepted and copied, and then rejected. */
  lemma AcceptedYetCopyIsRejected(commit: ObjectId)
    ensures WellFormed(Example(commit)) && SourceOf(Example(commit), Everything()).Some?
    ensures !LinkInTheWay(Example(commit), Everything())
    ensures SnapshotOf(Example(commit), Everything()).Some?
    ensures SourceOf(SnapshotOf(Example(commit), Everything()).value, Everything()).None?
  {
    IsRepository(commit);
    IsAccepted(commit);
    LeadsThroughIt(commit);
    CopyIsRejected(Example(commit), Everything());
  }
}

/**
  The same with a directory `0`, which comes before the link: when `a/b` is next the snapshot has `0/b` already, and
  the repository is mirrored.
 */
module DirectoryFirst {
  import opened Outcomes
  import opened SourceIdentity
  import opened FileTrees
  import opened WorkingTree
  import opened SnapshotMirror

  const A: Name := [97]
  const AB: Name := [97, 47, 98]
  const D: Name := [48]
  const DB: Name := [48, 47, 98]
  const EMPTY: Node := Regular(false, [])

  function Working(): Disk {
    map[A := Link(D), D := Directory, DB := EMPTY]
  }

  function Committed(): Disk {
    map[A := Directory, AB := EMPTY]
  }

  function Example(commit: ObjectId): Repository {
    Repository(commit, Committed(), {AB}, map[AB := Blob], Working(), map[], (p: Name) => false, false, true, true, 40)
  }

  lemma Parts()
    ensures ParentOf(A) == [] && ParentOf(AB) == A && BaseOf(AB) == [98]
    ensures ParentOf(D) == [] && ParentOf(DB) == D && BaseOf(DB) == [98]
    ensures TargetParts(D) == [D]
  {
    assert A[..0] == [] && D[..0] == [];
    assert AB[..2] == [97, 47] && DB[..2] == [48, 47];
    assert LastSlash(AB[..2]) == 1 && LastSlash(DB[..2]) == 1;
    assert AB[..1] == A && DB[..1] == D;
    assert FirstSlash(D[1..]) == 0 && FirstSlash(D) == 1 && D[..1] == D;
  }

  lemma BelowOnly(q: Name)
    ensures !Under(q, A) && !Under(q, D)
    ensures (Under(q, AB) <==> q == A) && (Under(q, DB) <==> q == D)
  {
    Parts();
    AboveAre(q, A);
    AboveAre(q, D);
    AboveAre(q, AB);
    AboveAre(q, DB);
  }

  lemma Names(commit: ObjectId)
    ensures NamesOf(Example(commit), Everything()) == {A, AB, DB}
  {
  }

  lemma FromTop(depth: nat, lexically: bool)
    ensures Walk(Working(), depth, lexically, [], [D]) == At(D)
  {
    assert [D][0] == D && [D][1..] == [] && D != [46, 46];
    assert Child([], D) == D;
    assert Walk(Working(), depth, lexically, D, []) == At(D);
  }

  lemma EnterBoth()
    ensures Enter(Working(), 40, A) == At(D) && Enter(Working(), 40, D) == At(D)
  {
    Parts();
    FromTop(39, false);
    assert Locate(Working(), 40, A) == At(A) && Locate(Working(), 40, D) == At(D);
  }

  lemma Lookups()
    ensures Lstat(Working(), 40, A) == Found(A, Link(D))
    ensures Lstat(Working(), 40, AB) == Found(DB, EMPTY)
    ensures Lstat(Working(), 40, DB) == Found(DB, EMPTY)
  {
    Parts();
    EnterBoth();
    assert Locate(Working(), 40, A) == At(A);
    assert Child(D, [98]) == DB;
  }

  lemma LinkIsAccepted()
    ensures LinkAccepted(Working(), 40, {A, AB, DB}, A, D)
  {
    Parts();
    FromTop(40, true);
    assert Under(D, DB) && DB in {A, AB, DB};
  }

  lemma EntriesAreThere(r: Repository, p: Name)
    requires r.disk == Working() && r.depth == 40 && r.index == map[AB := Blob] && p in {A, AB, DB}
    ensures EntryOf(r, {A, AB, DB}, p).Some?
  {
    Lookups();
    LinkIsAccepted();
    assert EntryOf(r, {A, AB, DB}, p) == NodeEntry(r, {A, AB, DB}, p);
  }

  lemma IsAccepted(commit: ObjectId)
    ensures SourceOf(Example(commit), Everything()).Some?
  {
    Names(commit);
    assert A in {A, AB, DB};
    forall p | p in {A, AB, DB} ensures EntryOf(Example(commit), {A, AB, DB}, p).Some? {
      EntriesAreThere(Example(commit), p);
    }
  }

  lemma IsRepository(commit: ObjectId)
    ensures WellFormed(Example(commit))
  {
    forall q ensures !Under(q, A) && !Under(q, D) && (Under(q, AB) ==> q == A) && (Under(q, DB) ==> q == D) {
      BelowOnly(q);
    }
    NotUnderItself(AB);
  }

  lemma OnlyOneBelow(commit: ObjectId)
    ensures PlainNames(Example(commit), Everything()) == {A, DB}
    ensures Earlier(Example(commit), Everything(), AB) == {A, DB}
  {
    var r := Example(commit);
    Names(commit);
    forall p | p in {A, AB, DB} ensures BelowReviewed(r, Everything(), p) <==> p == AB {
      if q :| q in NamesOf(r, Everything()) && Under(q, p) {
        BelowOnly(q);
      }
      BelowOnly(A);
    }
    assert A[0] == AB[0] && DB[0] < AB[0];
    assert NameLe(A, AB) && NameLe(DB, AB);
  }

  lemma IsStageWorking(r: Repository)
    requires r.disk == Working() && r.depth == 40 && r.head == Committed() && r.headNames == {AB}
    ensures IsStage(Working(), r, Everything(), {A, DB})
  {
    forall q
      ensures q in Working() <==> Stands(r, Everything(), {A, DB}, q)
      ensures q in Working() ==> Working()[q] == StandsAs(r, Everything(), {A, DB}, q)
    {
      StandsExactly(r, q);
    }
  }

  /** When `a/b` is next, and in the end, the snapshot is the working tree. */
  lemma SnapshotIsWorkingTree(r: Repository)
    requires r.disk == Working() && r.depth == 40 && r.head == Committed() && r.headNames == {AB}
    ensures StageOf(r, Everything(), {A, DB}) == Working()
  {
    IsStageWorking(r);
    StageOfIsStage(r, Everything(), {A, DB});
    StageIsUnique(StageOf(r, Everything(), {A, DB}), Working(), r, Everything(), {A, DB});
  }

  lemma StandsExactly(r: Repository, q: Name)
    requires r.disk == Working() && r.depth == 40 && r.head == Committed() && r.headNames == {AB}
    ensures Stands(r, Everything(), {A, DB}, q) <==> q == A || q == D || q == DB
    ensures q == A ==> StandsAs(r, Everything(), {A, DB}, q) == Link(D)
    ensures q == D ==> StandsAs(r, Everything(), {A, DB}, q) == Directory
    ensures q == DB ==> StandsAs(r, Everything(), {A, DB}, q) == EMPTY
  {
    Lookups();
    BelowOnly(q);
    assert A in {A, DB} && DB in {A, DB};
    assert Under(A, AB) && Under(D, DB) by {
      BelowOnly(A);
      BelowOnly(D);
    }
    assert Exists(r, A) && Exists(r, DB) && NodeFor(r, A) == Link(D) && NodeFor(r, DB) == EMPTY;
    assert IsNeeded(r, {A, DB}, q) <==> q == D;
    assert !Survives(r, Everything(), {A, DB}, q);
  }

  lemma LeadsToTheSame(r: Repository)
    requires r.disk == Working() && r.depth == 40 && StageOf(r, Everything(), {A, DB}) == Working()
    ensures LeadsAlong(r, Everything(), AB, {A, DB})
  {
    Lookups();
  }

  lemma OnlyOneLink(r: Repository, p: Name)
    requires r.disk == Working() && r.depth == 40 && p in {A, AB, DB} && Exists(r, p) && NodeFor(r, p).Link?
    ensures p == A && NodeFor(r, p) == Link(D)
  {
    Lookups();
  }

  lemma TheLinkComesFirst(commit: ObjectId)
    ensures LinksComeFirst(Example(commit), Everything())
  {
    var r := Example(commit);
    OnlyOneBelow(commit);
    SnapshotIsWorkingTree(r);
    LeadsToTheSame(r);
    forall q ensures !IsLedger(r, Everything(), q) {
      NoLedgers(r, q);
    }
    forall q | q in NamesOf(r, Everything()) && BelowReviewed(r, Everything(), q) ensures q == AB {
      Names(commit);
      assert q !in PlainNames(r, Everything());
    }
  }

  lemma TheLinkCarries(commit: ObjectId)
    ensures LinksCarry(Example(commit), Everything())
  {
    var r := Example(commit);
    Names(commit);
    OnlyOneBelow(commit);
    SnapshotIsWorkingTree(r);
    CarriesInWorkingTree(r);
  }

  lemma CarriesInWorkingTree(r: Repository)
    requires r.disk == Working() && r.depth == 40
    requires NamesOf(r, Everything()) == {A, AB, DB} && Predicted(r, Everything()) == Working()
    ensures LinksCarry(r, Everything())
  {
    LinkIsAccepted();
    forall p | p in {A, AB, DB} && Exists(r, p) && NodeFor(r, p).Link?
      ensures LinkAccepted(Working(), 40, {A, AB, DB}, p, NodeFor(r, p).target)
    {
      OnlyOneLink(r, p);
    }
  }

  lemma NoLedgers(r: Repository, q: Name)
    ensures !IsLedger(r, Everything(), q)
  {
  }

  lemma EverythingCarries(commit: ObjectId)
    ensures AllLinksCarry(Example(commit), Everything()) && !Blocked(Example(commit), Everything())
  {
    var r := Example(commit);
    TheLinkCarries(commit);
    NoModulesCopied(r, {});
    forall q ensures !IsLedger(r, Everything(), q) {
      NoLedgers(r, q);
    }
  }

  /** A reviewed name lies below a reviewed link, and the snapshot has the reviewed source. */
  lemma MirroredThroughALink(commit: ObjectId)
    ensures WellFormed(Example(commit)) && SourceOf(Example(commit), Everything()).Some?
    ensures LinkInTheWay(Example(commit), Everything()) && LinksComeFirst(Example(commit), Everything())
    ensures SnapshotOf(Example(commit), Everything()).Some?
    ensures SourceOf(SnapshotOf(Example(commit), Everything()).value, Everything()) ==
            SourceOf(Example(commit), Everything())
  {
    var r := Example(commit);
    IsRepository(commit);
    IsAccepted(commit);
    TheLinkComesFirst(commit);
    EverythingCarries(commit);
    Names(commit);
    Lookups();
    BelowOnly(A);
    assert Under(A, AB) && AB in NamesOf(r, Everything()) && A in NamesOf(r, Everything());
    assert Exists(r, A) && NodeFor(r, A).Link?;
    SnapshotIsFaithfulExactly(r, Everything());
  }
}
