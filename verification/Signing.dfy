/**
  Code signing over a tree of files. A path is its sequence of names. Every node has its own content and a
  slot for a signature; the slot of a bundle directory stands for the `_CodeSignature` files codesign puts
  there. Signing records a time stamp, the node's own content and everything strictly below it.
 */
module SigningTree {
  import opened Bytes
  import opened Outcomes
  import opened Sorting
  import opened Enumeration

  type Path = seq<string>

  datatype Content =
    | Folder
    | MachO(code: seq<int>)
    | Data(bytes: seq<int>)
    | Link(target: string)
    | Inventory(entries: Tree)  // a digest manifest, as the bytes it describes

  datatype Seal = Seal(at: nat, own: Content, below: Tree)
  datatype Node = Node(content: Content, seal: Option<Seal>)
  type Tree = map<Path, Node>

  function Relatives(tree: Tree, root: Path): set<Path> {
    set p | p in tree && root <= p :: p[|root|..]
  }

  lemma RelativesAre(tree: Tree, root: Path, r: Path)
    ensures r in Relatives(tree, root) <==> root + r in tree
  {
    assert (root + r)[|root|..] == r;
    forall p | p in tree && root <= p && p[|root|..] == r ensures root + r in tree {
      assert p == root + r;
    }
  }

  /** The subtree at `root`, by paths relative to it. */
  function Region(tree: Tree, root: Path): (region: Tree)
    ensures forall r {:trigger r in region} :: r in region <==> root + r in tree
    ensures forall r {:trigger region[r]} :: r in region ==> region[r] == tree[root + r]
  {
    forall r ensures r in Relatives(tree, root) <==> root + r in tree { RelativesAre(tree, root, r); }
    map r | r in Relatives(tree, root) :: tree[root + r]
  }

  lemma SameRegion(a: Tree, b: Tree, root: Path)
    requires forall r :: root + r in a <==> root + r in b
    requires forall r :: root + r in a ==> a[root + r] == b[root + r]
    ensures Region(a, root) == Region(b, root)
  {
  }

  function Below(region: Tree): Tree {
    map p | p in region && p != [] :: region[p]
  }

  /** The seal at the root of a subtree still describes that subtree. */
  ghost predicate SealValid(region: Tree) {
    && [] in region && region[[]].seal.Some?
    && region[[]].seal.value.own == region[[]].content
    && region[[]].seal.value.below == Below(region)
  }

  function Signed(tree: Tree, n: Path, now: nat): Tree
    requires n in tree
  {
    tree[n := Node(tree[n].content, Some(Seal(now, tree[n].content, Below(Region(tree, n)))))]
  }

  /** Signing `n` leaves every subtree alone that does not contain `n`. */
  lemma SigningLeavesOthers(tree: Tree, n: Path, now: nat, m: Path)
    requires n in tree && !(m <= n)
    ensures Region(Signed(tree, n, now), m) == Region(tree, m)
  {
  }

  lemma SigningMakesValid(tree: Tree, n: Path, now: nat)
    requires n in tree
    ensures SealValid(Region(Signed(tree, n, now), n))
  {
    var after := Signed(tree, n, now);
    assert n + [] == n;
    forall r | r != [] ensures n + r != n {
      assert |n + r| > |n|;
    }
    assert Below(Region(after, n)) == Below(Region(tree, n));
  }

  /** `codesign` run on one node after another; every signature gets a later time stamp. */
  ghost function SignAll(tree: Tree, nodes: seq<Path>, now: nat): (r: Tree)
    requires forall i :: 0 <= i < |nodes| ==> nodes[i] in tree
    ensures r.Keys == tree.Keys
    decreases |nodes|
  {
    if nodes == [] then tree else SignAll(Signed(tree, nodes[0], now), nodes[1..], now + 1)
  }

  lemma {:induction false} SignAllLeavesOthers(tree: Tree, nodes: seq<Path>, now: nat, m: Path)
    requires forall i :: 0 <= i < |nodes| ==> nodes[i] in tree && !(m <= nodes[i])
    ensures Region(SignAll(tree, nodes, now), m) == Region(tree, m)
    decreases |nodes|
  {
    if nodes != [] {
      SigningLeavesOthers(tree, nodes[0], now, m);
      SignAllLeavesOthers(Signed(tree, nodes[0], now), nodes[1..], now + 1, m);
    }
  }

  ghost predicate DeepestFirst(nodes: seq<Path>) {
    && (forall i, j :: 0 <= i < j < |nodes| ==> |nodes[i]| >= |nodes[j]|)
    && (forall i, j :: 0 <= i < j < |nodes| ==> nodes[i] != nodes[j])
  }

  /**
    Innermost first means no signature is invalidated: after the whole loop the seal of every signed node is
    valid, because nothing beneath it was signed later.
   */
  lemma {:induction false} SignAllLeavesEverySealValid(tree: Tree, nodes: seq<Path>, now: nat, i: nat)
    requires (forall k :: 0 <= k < |nodes| ==> nodes[k] in tree) && DeepestFirst(nodes) && i < |nodes|
    ensures SealValid(Region(SignAll(tree, nodes, now), nodes[i]))
    decreases |nodes|
  {
    var first := Signed(tree, nodes[0], now);
    if i == 0 {
      SigningMakesValid(tree, nodes[0], now);
      forall k | 0 <= k < |nodes[1..]| ensures !(nodes[0] <= nodes[1..][k]) {
        assert nodes[0] != nodes[k + 1] && |nodes[0]| >= |nodes[k + 1]|;
      }
      SignAllLeavesOthers(first, nodes[1..], now + 1, nodes[0]);
    } else {
      SignAllLeavesEverySealValid(first, nodes[1..], now + 1, i - 1);
    }
  }

  /** Without that order it fails: signing an inner node after its container breaks the container's seal. */
  lemma LaterInnerSignatureBreaksSeal(tree: Tree, n: Path, inner: Path, now: nat)
    requires n in tree && inner in tree && n < inner
    requires SealValid(Region(tree, n)) && (tree[inner].seal.Some? ==> tree[inner].seal.value.at < now)
    ensures !SealValid(Region(Signed(tree, inner, now), n))
  {
    var before, after := Region(tree, n), Region(Signed(tree, inner, now), n);
    var r := inner[|n|..];
    assert n + r == inner && n + [] == n;
    assert Below(after)[r].seal.value.at == now && Below(before)[r] == tree[inner];
  }

  // ----- signable_nodes -----

  predicate IsBundleName(name: string) {
    EndsWith(name, ".app") || EndsWith(name, ".framework")
  }

  /** `Path.suffix` is the given one: the name ends with it and has something before the dot. */
  predicate EndsWith(name: string, suffix: string) {
    |name| > |suffix| && name[|name| - |suffix|..] == suffix
  }

  predicate IsSignatureArtefact(name: string) {
    name == "_CodeSignature" || name == "CodeResources"
  }

  predicate IsBundle(path: Path, node: Node) {
    node.content.Folder? && path != [] && IsBundleName(path[|path| - 1])
  }

  predicate Excluded(path: Path, exclude: seq<Path>) {
    exists i :: 0 <= i < |exclude| && exclude[i] <= path
  }

  /** What codesign must be handed: bundles and Mach-O files, no links, no signature files, nothing excluded. */
  predicate Signable(tree: Tree, root: Path, exclude: seq<Path>, path: Path) {
    && path in tree
    && if path == root then IsBundle(path, tree[path])
       else
         && root < path
         && (forall i :: |root| <= i < |path| ==> !IsSignatureArtefact(path[i]))
         && !Excluded(path, exclude)
         && (tree[path].content.MachO? || IsBundle(path, tree[path]))
  }

  function Rendered(path: Path): string {
    if path == [] then "" else Rendered(path[..|path| - 1]) + "/" + path[|path| - 1]
  }

  /** A path's text is a slash and the name for each component, one after another. */
  lemma {:induction false} RenderedAppend(a: Path, b: Path)
    ensures Rendered(a + b) == Rendered(a) + Rendered(b)
    ensures |b| == 1 ==> Rendered(b) == "/" + b[0]
    decreases |b|
  {
    if b == [] {
      assert a + b == a;
    } else {
      assert (a + b)[..|a + b| - 1] == a + b[..|b| - 1];
      RenderedAppend(a, b[..|b| - 1]);
      AppendAssociates(Rendered(a), Rendered(b[..|b| - 1]), "/");
      AppendAssociates(Rendered(a), Rendered(b[..|b| - 1]) + "/", b[|b| - 1]);
    }
  }

  /** The sort key of `signable_nodes`: more components first, then by rendered path. */
  predicate DeeperFirst(a: Path, b: Path) {
    |a| > |b| || (|a| == |b| && TextLe(Rendered(a), Rendered(b)))
  }

  lemma DeeperFirstIsPreorder()
    ensures TotalPreorder(DeeperFirst)
  {
    TextLeIsTotalOrder();
    forall a: Path, b: Path ensures DeeperFirst(a, b) || DeeperFirst(b, a) {
      assert TextLe(Rendered(a), Rendered(b)) || TextLe(Rendered(b), Rendered(a));
    }
    forall a: Path, b: Path, c: Path | DeeperFirst(a, b) && DeeperFirst(b, c) ensures DeeperFirst(a, c) {
      if |a| == |b| == |c| {
        assert TextLe(Rendered(a), Rendered(b)) && TextLe(Rendered(b), Rendered(c));
      }
    }
  }

  /** `nodes` is the list `signable_nodes` owes: each signable node once, contained ones before containers. */
  ghost predicate IsSigningOrder(tree: Tree, root: Path, exclude: seq<Path>, nodes: seq<Path>) {
    && DeepestFirst(nodes)
    && forall p :: p in nodes <==> Signable(tree, root, exclude, p)
  }

  /** A name with something before its suffix `.app` or `.framework`. */
  predicate HasBundleSuffix(name: string) {
    || (|name| > 4 && name[|name| - 4..] == ".app")
    || (|name| > 10 && name[|name| - 10..] == ".framework")
  }

  /**
    What is listed, in plain terms: the root itself if it is a bundle directory, and below it every Mach-O file and
    bundle directory that is neither inside one of codesign's own files nor inside an excluded payload; no link, no
    other file.
   */
  lemma ListedForSigning(tree: Tree, root: Path, exclude: seq<Path>, nodes: seq<Path>, p: Path)
    requires IsSigningOrder(tree, root, exclude, nodes)
    ensures p in nodes <==>
              && p in tree && root <= p
              && (tree[p].content.Folder? ==> p != [] && HasBundleSuffix(p[|p| - 1]))
              && if p == root then tree[p].content.Folder?
                 else
                   && (tree[p].content.MachO? || tree[p].content.Folder?)
                   && "_CodeSignature" !in p[|root|..] && "CodeResources" !in p[|root|..]
                   && forall k :: 0 <= k < |exclude| ==> !(exclude[k] <= p)
  {
    assert |".app"| == 4 && |".framework"| == 10;
    forall i | |root| <= i < |p| ensures p[i] in p[|root|..] {
      assert p[|root|..][i - |root|] == p[i];
    }
  }

  /** Each contained code node is listed before every container of it. */
  lemma ContainedBeforeContainer(tree: Tree, root: Path, exclude: seq<Path>, nodes: seq<Path>, i: nat, j: nat)
    requires IsSigningOrder(tree, root, exclude, nodes) && i < |nodes| && j < |nodes|
    requires nodes[j] < nodes[i]
    ensures i < j
  {
  }

  /** Nodes of one depth come in the order of their paths' texts. */
  ghost predicate TextOrder(nodes: seq<Path>) {
    forall i, j :: 0 <= i < j < |nodes| && |nodes[i]| == |nodes[j]| ==> TextLe(Rendered(nodes[i]), Rendered(nodes[j]))
  }

  lemma SortedIsSigningOrder(tree: Tree, root: Path, exclude: seq<Path>, found: seq<Path>)
    requires Distinct(found) && forall p :: p in found <==> Signable(tree, root, exclude, p)
    ensures IsSigningOrder(tree, root, exclude, Sort(found, DeeperFirst))
    ensures TextOrder(Sort(found, DeeperFirst))
  {
    var nodes := Sort(found, DeeperFirst);
    DeeperFirstIsPreorder();
    SortSorts(found, DeeperFirst);
    PermutationStaysDistinct(found, nodes);
    forall p ensures p in nodes <==> p in found {
      assert p in multiset(nodes) <==> p in multiset(found);
    }
  }

  /** The walk over the tree, in whatever order the file system lists it, and the final sort. */
  method SignableNodes(tree: Tree, root: Path, exclude: seq<Path>) returns (nodes: seq<Path>)
    ensures IsSigningOrder(tree, root, exclude, nodes) && TextOrder(nodes)
  {
    var found: seq<Path> := [];
    var unseen := tree.Keys;
    while unseen != {}
      invariant unseen <= tree.Keys && Distinct(found)
      invariant forall p :: p in found <==> p !in unseen && Signable(tree, root, exclude, p)
      decreases unseen
    {
      var path :| path in unseen;
      unseen := unseen - {path};
      if Signable(tree, root, exclude, path) {
        found := found + [path];
      }
    }
    SortedIsSigningOrder(tree, root, exclude, found);
    nodes := Sort(found, DeeperFirst);
  }
}
