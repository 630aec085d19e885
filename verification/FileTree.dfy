/**
  A working tree as a map from name to node, and how its names are found: `lstat` follows the links on the way to a
  name, `resolve(strict=True)` follows every link. A way that climbs above the tree's root is refused.
 */
module FileTrees {
  import opened Bytes
  import opened Outcomes
  import opened SourceIdentity

  datatype Node = Directory | Regular(executable: bool, contents: Field) | Link(target: Field) | Special
  type Disk = map<Name, Node>

  /** `q` lies below the directory `p`. */
  predicate Under(p: Name, q: Name) {
    p + [47] <= q
  }

  predicate IsFile(node: Node) {
    node.Regular? || node.Link?
  }

  /** Everything on the way to a node is a directory. */
  ghost predicate IsTree(disk: Disk) {
    forall p, q :: p in disk && Under(q, p) ==> q in disk && disk[q] == Directory
  }

  /** The root counts as a directory and has the empty name. */
  predicate IsDirectory(disk: Disk, at: Name) {
    at == [] || (at in disk && disk[at] == Directory)
  }

  // ----- names -----

  /** The index of the last slash, or -1. */
  function LastSlash(p: Name): (i: int)
    ensures -1 <= i < |p|
    ensures i >= 0 ==> p[i] == 47
    ensures forall k :: i < k < |p| ==> p[k] != 47
  {
    if p == [] then -1
    else if p[|p| - 1] == 47 then |p| - 1
    else LastSlash(p[..|p| - 1])
  }

  /** A name as git prints it: not empty, not starting at the file system's root. */
  predicate IsRelative(p: Name) {
    p != [] && p[0] != 47
  }

  function ParentOf(p: Name): (q: Name)
    ensures q == [] || |q| < |p|
  {
    if LastSlash(p) < 0 then [] else p[..LastSlash(p)]
  }

  function BaseOf(p: Name): (r: Name)
    ensures 47 !in r && |r| <= |p|
  {
    p[LastSlash(p) + 1..]
  }

  predicate Nameable(at: Name, part: Name) {
    (if at == [] then 0 else |at| + 1) + |part| < FIELD_LIMIT
  }

  function Child(at: Name, part: Name): Name
    requires Nameable(at, part)
  {
    if at == [] then part else at + [47] + part
  }

  lemma ParentAndBase(p: Name)
    requires IsRelative(p)
    ensures ParentOf(p) == [] <==> 47 !in p
    ensures ParentOf(p) != [] ==> IsRelative(ParentOf(p)) && Under(ParentOf(p), p)
    ensures Nameable(ParentOf(p), BaseOf(p)) && Child(ParentOf(p), BaseOf(p)) == p
  {
    var i := LastSlash(p);
    if i >= 0 {
      assert i > 0 && p == p[..i] + [47] + p[i + 1..];
      assert p[..i + 1] == p[..i] + [47];
    }
  }

  /** What lies above a name: its parent, and what lies above that. */
  lemma AboveAre(q: Name, p: Name)
    requires IsRelative(p)
    ensures Under(q, p) <==> ParentOf(p) != [] && (q == ParentOf(p) || Under(q, ParentOf(p)))
  {
    var i := LastSlash(p);
    ParentAndBase(p);
    if Under(q, p) {
      assert p[|q|] == (q + [47])[|q|] == 47;
      assert |q| <= i;
      if |q| < i {
        assert q + [47] == p[..|q| + 1] == p[..i][..|q| + 1];
      } else {
        assert q == (q + [47])[..|q|] == p[..i];
      }
    }
    if ParentOf(p) != [] && Under(q, ParentOf(p)) {
      assert q + [47] == p[..i][..|q| + 1] == p[..|q| + 1];
    }
  }

  lemma UnderTransitive(a: Name, b: Name, c: Name)
    requires Under(a, b) && Under(b, c)
    ensures Under(a, c)
  {
    assert b == c[..|b|];
    assert a + [47] == b[..|a| + 1] == c[..|a| + 1];
  }

  lemma NotUnderItself(a: Name)
    ensures !Under(a, a)
  {
    assert |a + [47]| > |a|;
  }

  function Parents(p: Name): set<Name> {
    set k | 0 <= k < |p| && p[k] == 47 :: p[..k]
  }

  lemma ParentsAre(p: Name, q: Name)
    ensures q in Parents(p) <==> Under(q, p)
  {
    if Under(q, p) {
      assert p[..|q| + 1] == q + [47];
      assert p[|q|] == 47 && p[..|q|] == q;
    }
    forall k | 0 <= k < |p| && p[k] == 47 && p[..k] == q ensures Under(q, p) {
      assert p[..k + 1] == q + [47];
    }
  }

  // ----- following links -----

  predicate IsAbsoluteTarget(target: Field) {
    target != [] && target[0] == 47
  }

  function FirstSlash(s: Name): (i: nat)
    ensures i <= |s| && (i < |s| ==> s[i] == 47)
  {
    if s == [] || s[0] == 47 then 0 else 1 + FirstSlash(s[1..])
  }

  /** The components of a link's target, without the empty ones and the dots. */
  function TargetParts(target: Field): seq<Name>
    decreases |target|
  {
    var i := FirstSlash(target);
    var part := target[..i];
    var rest := if i < |target| then TargetParts(target[i + 1..]) else [];
    if part == [] || part == [46] then rest else [part] + rest
  }

  /** Where a way leads: a place, which need not exist yet; nowhere; or an error other than that. */
  datatype Walked = At(place: Name) | Absent | Refused

  /**
    Follow components from `at`, links included, up to `depth` links inside links; deeper nesting, and so every loop,
    is refused. Going up from something that is no directory is an error, unless the way is resolved `lexically`.
   */
  function Walk(disk: Disk, depth: nat, lexically: bool, at: Name, parts: seq<Name>): Walked
    decreases depth, |parts|
  {
    if parts == [] then At(at)
    else if parts[0] == [46, 46] then
      if at == [] || !(lexically || IsDirectory(disk, at)) then Refused
      else Walk(disk, depth, lexically, ParentOf(at), parts[1..])
    else if !IsDirectory(disk, at) || !Nameable(at, parts[0]) then Refused
    else
      var x := Child(at, parts[0]);
      if x !in disk then Absent
      else if disk[x].Link? then
        if depth == 0 || IsAbsoluteTarget(disk[x].target) then Refused
        else
          match Walk(disk, depth - 1, lexically, at, TargetParts(disk[x].target))
          case At(y) => Walk(disk, depth, lexically, y, parts[1..])
          case other => other
      else Walk(disk, depth, lexically, x, parts[1..])
  }

  /** Where `lstat` looks for `p`: the links on the way are followed, one in the last place is not. */
  function Locate(disk: Disk, depth: nat, p: Name): Walked
    decreases |p|, 0
  {
    if ParentOf(p) == [] then At(p)
    else
      match Enter(disk, depth, ParentOf(p))
      case At(d) => if Nameable(d, BaseOf(p)) then At(Child(d, BaseOf(p))) else Refused
      case other => other
  }

  /** The directory `q` leads to. */
  function Enter(disk: Disk, depth: nat, q: Name): (r: Walked)
    ensures r.At? ==> IsDirectory(disk, r.place)
    decreases |q|, 1
  {
    match Locate(disk, depth, q)
    case At(x) =>
      if x !in disk then Absent
      else if disk[x] == Directory then At(x)
      else if !disk[x].Link? || depth == 0 || IsAbsoluteTarget(disk[x].target) then Refused
      else
        (match Walk(disk, depth - 1, false, ParentOf(x), TargetParts(disk[x].target))
         case At(y) => if IsDirectory(disk, y) then At(y) else Refused
         case other => other)
    case other => other
  }

  datatype Lookup = Found(place: Name, node: Node) | NotFound | Unreachable

  function Lstat(disk: Disk, depth: nat, p: Name): Lookup {
    match Locate(disk, depth, p)
    case At(x) => if x in disk then Found(x, disk[x]) else NotFound
    case Absent => NotFound
    case Refused => Unreachable
  }

  // ----- what following means -----

  /** On from where a way has led. */
  function Onward(disk: Disk, depth: nat, lexically: bool, way: Walked, rest: seq<Name>): Walked {
    if way.At? then Walk(disk, depth, lexically, way.place, rest) else way
  }

  /** A way in two parts: the second starts where the first leads. */
  lemma {:induction false} WalkAppend(
      disk: Disk, depth: nat, lexically: bool, at: Name, a: seq<Name>, b: seq<Name>)
    ensures Walk(disk, depth, lexically, at, a + b)
         == Onward(disk, depth, lexically, Walk(disk, depth, lexically, at, a), b)
    decreases |a|
  {
    if a == [] {
      assert a + b == b;
    } else {
      assert (a + b)[0] == a[0] && (a + b)[1..] == a[1..] + b;
      if a[0] == [46, 46] {
        WalkAppend(disk, depth, lexically, ParentOf(at), a[1..], b);
      } else if IsDirectory(disk, at) && Nameable(at, a[0]) && Child(at, a[0]) in disk {
        var x := Child(at, a[0]);
        if !disk[x].Link? {
          WalkAppend(disk, depth, lexically, x, a[1..], b);
        } else if depth > 0 {
          var inner := Walk(disk, depth - 1, lexically, at, TargetParts(disk[x].target));
          if inner.At? {
            WalkAppend(disk, depth, lexically, inner.place, a[1..], b);
          }
        }
      }
    }
  }

  /** A name in a directory leads to what is there; to nothing, if nothing is. */
  lemma WalkToChild(disk: Disk, depth: nat, lexically: bool, at: Name, name: Name)
    requires IsDirectory(disk, at) && Nameable(at, name) && name != [46, 46]
    requires Child(at, name) in disk ==> !disk[Child(at, name)].Link?
    ensures Walk(disk, depth, lexically, at, [name])
         == if Child(at, name) in disk then At(Child(at, name)) else Absent
  {
    assert [name][1..] == [];
  }

  /** Into a directory and back is nowhere else. */
  lemma WalkThereAndBack(disk: Disk, depth: nat, lexically: bool, at: Name, name: Name)
    requires IsDirectory(disk, at) && (at == [] || IsRelative(at))
    requires Nameable(at, name) && name != [] && 47 !in name && name != [46, 46]
    requires Child(at, name) in disk && disk[Child(at, name)] == Directory
    ensures Walk(disk, depth, lexically, at, [name, [46, 46]]) == At(at)
  {
    var x := Child(at, name);
    assert [name, [46, 46]] == [name] + [[46, 46]] && [[46, 46]][1..] == [];
    WalkToChild(disk, depth, lexically, at, name);
    WalkAppend(disk, depth, lexically, at, [name], [[46, 46]]);
    ParentOfChild(at, name);
    assert x != [] && Walk(disk, depth, lexically, x, [[46, 46]]) == At(ParentOf(x));
  }

  lemma LastSlashIs(p: Name, i: int)
    requires -1 <= i < |p| && (i >= 0 ==> p[i] == 47) && forall k :: i < k < |p| ==> p[k] != 47
    ensures LastSlash(p) == i
  {
  }

  lemma ParentOfChild(at: Name, name: Name)
    requires Nameable(at, name) && name != [] && 47 !in name
    ensures ParentOf(Child(at, name)) == at
  {
    var x := Child(at, name);
    var i := if at == [] then -1 else |at|;
    forall k | i < k < |x| ensures x[k] != 47 {
      assert x[k] == name[k - i - 1] && name[k - i - 1] in name;
    }
    LastSlashIs(x, i);
    assert at != [] ==> x[..|at|] == at;
  }

  /** A link in a directory leads where its target leads from there; an absolute one, or too deep a one, nowhere. */
  lemma WalkThroughLink(disk: Disk, depth: nat, lexically: bool, at: Name, name: Name, rest: seq<Name>)
    requires IsDirectory(disk, at) && Nameable(at, name) && name != [46, 46]
    requires Child(at, name) in disk && disk[Child(at, name)].Link?
    ensures depth == 0 || 47 == (disk[Child(at, name)].target + [0])[0] ==>
              Walk(disk, depth, lexically, at, [name] + rest) == Refused
    ensures depth > 0 && 47 != (disk[Child(at, name)].target + [0])[0] ==>
              Walk(disk, depth, lexically, at, [name] + rest) ==
              Onward(disk, depth, lexically,
                     Walk(disk, depth - 1, lexically, at, TargetParts(disk[Child(at, name)].target)), rest)
  {
    assert ([name] + rest)[0] == name && ([name] + rest)[1..] == rest;
  }

  /** The components of a target that is spelled by its components are those. */
  lemma PartsOfTarget(a: Name, rest: Field)
    requires 47 !in a && |a| + 1 + |rest| < FIELD_LIMIT
    ensures TargetParts(a + [47] + rest)
         == if a == [] || a == [46] then TargetParts(rest) else [a] + TargetParts(rest)
  {
    var target: Field := a + [47] + rest;
    FirstSlashAfter(a, rest);
    assert target[..|a|] == a && target[|a| + 1..] == rest;
  }

  lemma {:induction false} FirstSlashAfter(a: Name, rest: Name)
    requires 47 !in a && |a| + 1 + |rest| < FIELD_LIMIT
    ensures FirstSlash(a + [47] + rest) == |a|
    decreases |a|
  {
    if a != [] {
      assert (a + [47] + rest)[1..] == a[1..] + [47] + rest;
      assert a[0] in a;
      FirstSlashAfter(a[1..], rest);
    }
  }

  lemma PartsOfLastName(a: Name)
    requires 47 !in a
    ensures TargetParts(a) == if a == [] || a == [46] then [] else [a]
  {
    NoSlash(a);
    assert a[..|a|] == a;
  }

  lemma {:induction false} NoSlash(a: Name)
    requires 47 !in a
    ensures FirstSlash(a) == |a|
  {
    if a != [] {
      assert a[0] in a;
      NoSlash(a[1..]);
    }
  }

  predicate AreComponents(parts: seq<Name>) {
    parts != [] && forall i :: 0 <= i < |parts| ==> parts[i] != [] && parts[i] != [46, 46] && 47 !in parts[i]
  }

  /** The components with slashes between them. */
  function Spelling(parts: seq<Name>): (q: seq<byte>)
    requires AreComponents(parts)
    ensures |q| > 0
  {
    if |parts| == 1 then parts[0] else Spelling(parts[..|parts| - 1]) + [47] + parts[|parts| - 1]
  }

  /**
    What `lstat` needs of the directory above a name: it is where all its components lead from the root, refused if
    that is something else than a directory.
   */
  lemma {:induction false} EnterIsWalk(disk: Disk, depth: nat, parts: seq<Name>)
    requires AreComponents(parts) && |Spelling(parts)| < FIELD_LIMIT
    ensures var way := Walk(disk, depth, false, [], parts);
            Enter(disk, depth, Spelling(parts)) == if way.At? && !IsDirectory(disk, way.place) then Refused else way
    decreases |parts|
  {
    var last, init := parts[|parts| - 1], parts[..|parts| - 1];
    var q: Name := Spelling(parts);
    assert parts == init + [last];
    WalkAppend(disk, depth, false, [], init, [last]);
    SpelledParts(parts);
    if |parts| > 1 {
      EnterIsWalk(disk, depth, init);
      if Enter(disk, depth, ParentOf(q)).At? {
        EnterFrom(disk, depth, q, Enter(disk, depth, ParentOf(q)).place, last);
      } else {
        NoWayFromFile(disk, depth, Walk(disk, depth, false, [], init), last);
      }
    } else {
      assert init == [] && q == last;
      EnterFrom(disk, depth, q, [], last);
    }
  }

  /** The last component, from the directory that the others lead to. */
  lemma EnterFrom(disk: Disk, depth: nat, q: Name, d: Name, last: Name)
    requires IsDirectory(disk, d) && last != [] && last != [46, 46] && 47 !in last
    requires Locate(disk, depth, q) == if Nameable(d, last) then At(Child(d, last)) else Refused
    ensures var way := Walk(disk, depth, false, d, [last]);
            Enter(disk, depth, q) == if way.At? && !IsDirectory(disk, way.place) then Refused else way
  {
    if Nameable(d, last) {
      var x := Child(d, last);
      ParentOfChild(d, last);
      if x in disk && disk[x].Link? {
        assert [last] + [] == [last];
        WalkThroughLink(disk, depth, false, d, last, []);
        EndOfWay(disk, depth, Walk(disk, if depth == 0 then 0 else depth - 1, false, d, TargetParts(disk[x].target)));
      } else {
        WalkToChild(disk, depth, false, d, last);
      }
    } else {
      assert [last][0] == last;
    }
  }

  lemma EndOfWay(disk: Disk, depth: nat, way: Walked)
    ensures Onward(disk, depth, false, way, []) == way
  {
  }

  lemma NoWayFromFile(disk: Disk, depth: nat, way: Walked, last: Name)
    requires last != [46, 46] && (way.At? ==> !IsDirectory(disk, way.place))
    ensures Onward(disk, depth, false, way, [last]) == if way.At? then Refused else way
  {
    assert [last][0] == last;
  }

  lemma SpelledParts(parts: seq<Name>)
    requires AreComponents(parts) && |Spelling(parts)| < FIELD_LIMIT
    ensures BaseOf(Spelling(parts)) == parts[|parts| - 1]
    ensures |parts| == 1 ==> ParentOf(Spelling(parts)) == []
    ensures |parts| > 1 ==>
              AreComponents(parts[..|parts| - 1]) && ParentOf(Spelling(parts)) == Spelling(parts[..|parts| - 1])
  {
    var last := parts[|parts| - 1];
    if |parts| == 1 {
      NoSlashToCut(last);
    } else {
      CutAtLastSlash(Spelling(parts[..|parts| - 1]), last, Spelling(parts));
    }
  }

  lemma NoSlashToCut(last: Name)
    requires 47 !in last
    ensures ParentOf(last) == [] && BaseOf(last) == last
  {
    forall k | 0 <= k < |last| ensures last[k] != 47 {
      assert last[k] in last;
    }
    LastSlashIs(last, -1);
    assert last[0..] == last;
  }

  lemma CutAtLastSlash(up: seq<byte>, last: Name, q: Name)
    requires 47 !in last && q == up + [47] + last
    ensures ParentOf(q) == up && BaseOf(q) == last
  {
    forall k | |up| < k < |q| ensures q[k] != 47 {
      assert q[k] == last[k - |up| - 1] && last[k - |up| - 1] in last;
    }
    assert q[|up|] == 47;
    LastSlashIs(q, |up|);
    Slices(up, [47], last);
    assert q[|up| + 1..] == last;
  }

  // ----- names with no link above them -----

  ghost predicate NoLinkAbove(disk: Disk, p: Name) {
    forall q :: q in disk && Under(q, p) ==> !disk[q].Link?
  }

  /** Something that is not a directory stands in the way of `p`. */
  predicate Obstructed(disk: Disk, p: Name) {
    exists q :: q in disk && Under(q, p) && disk[q] != Directory
  }

  function PlainLstat(disk: Disk, p: Name): Lookup {
    if p in disk then Found(p, disk[p]) else if Obstructed(disk, p) then Unreachable else NotFound
  }

  lemma {:induction false} LocatePlain(disk: Disk, depth: nat, p: Name)
    requires IsTree(disk) && IsRelative(p) && NoLinkAbove(disk, p)
    ensures Locate(disk, depth, p)
         == if Obstructed(disk, p) then Refused
            else if ParentOf(p) != [] && ParentOf(p) !in disk then Absent
            else At(p)
    decreases |p|
  {
    var up := ParentOf(p);
    ParentAndBase(p);
    forall q ensures Under(q, p) <==> up != [] && (q == up || Under(q, up)) {
      AboveAre(q, p);
    }
    if up != [] {
      LocatePlain(disk, depth, up);
      if up in disk {
        assert !Obstructed(disk, up);
      }
    }
  }

  /** Below a file there is no way on. */
  lemma {:induction false} FileAbove(disk: Disk, depth: nat, p: Name, q: Name)
    requires IsTree(disk) && IsRelative(p) && IsRelative(q) && Under(p, q)
    requires p in disk && disk[p] != Directory && !disk[p].Link?
    ensures Locate(disk, depth, q) == Refused
    decreases |q|
  {
    AboveAre(p, q);
    ParentAndBase(q);
    if p == ParentOf(q) {
      LocatePlain(disk, depth, p);
      assert !Obstructed(disk, p);
      ParentAndBase(p);
    } else {
      FileAbove(disk, depth, p, ParentOf(q));
    }
  }

  /** Without links above a name, `lstat` simply looks it up. */
  lemma LstatPlain(disk: Disk, depth: nat, p: Name)
    requires IsTree(disk) && IsRelative(p) && NoLinkAbove(disk, p)
    ensures Lstat(disk, depth, p) == PlainLstat(disk, p)
  {
    LocatePlain(disk, depth, p);
    ParentAndBase(p);
    if p in disk {
      assert !Obstructed(disk, p);
    }
  }
}

/** Changing a working tree: removing one entry, and writing one. */
module TreeEdits {
  import opened Bytes
  import opened Outcomes
  import opened SourceIdentity
  import opened FileTrees

  /** Remove `p` and all that is below it. */
  function Without(disk: Disk, p: Name): Disk {
    map q | q in disk && q != p && !Under(p, q) :: disk[q]
  }

  function Directories(names: set<Name>): Disk {
    map q | q in names :: Directory
  }

  /** Replace whatever is at `p` by `node`, making the directories on the way. */
  function Put(disk: Disk, p: Name, node: Node): Disk {
    (Without(disk, p) + Directories(Parents(p)))[p := node]
  }

  lemma PutAt(disk: Disk, p: Name, node: Node, q: Name)
    ensures q in Put(disk, p, node) <==> q == p || Under(q, p) || (q in disk && !Under(p, q))
    ensures Put(disk, p, node)[p] == node
    ensures q != p && Under(q, p) ==> Put(disk, p, node)[q] == Directory
    ensures q != p && !Under(q, p) && q in disk && !Under(p, q) ==> Put(disk, p, node)[q] == disk[q]
  {
    ParentsAre(p, q);
  }

  lemma WithoutIsTree(disk: Disk, p: Name)
    requires IsTree(disk)
    ensures IsTree(Without(disk, p))
  {
    forall x, y | x in Without(disk, p) && Under(y, x)
      ensures y in Without(disk, p) && Without(disk, p)[y] == Directory
    {
      if Under(p, y) {
        UnderTransitive(p, y, x);
      }
    }
  }

  lemma PutIsTree(disk: Disk, p: Name, node: Node)
    requires IsTree(disk)
    ensures IsTree(Put(disk, p, node))
  {
    var after := Put(disk, p, node);
    forall x, y | x in after && Under(y, x) ensures y in after && after[y] == Directory {
      PutAt(disk, p, node, x);
      PutAt(disk, p, node, y);
      NotUnderItself(p);
      if x == p {
        assert Under(y, p) && y != p;
      } else if Under(x, p) {
        UnderTransitive(y, x, p);
      } else if Under(p, y) {
        UnderTransitive(p, y, x);
      }
    }
  }

  /** A node below a directory that is there. */
  function Placed(disk: Disk, x: Name, node: Node): Disk {
    Without(disk, x)[x := node]
  }

  lemma NotAbove(q: Name, x: Name)
    requires Under(q, x)
    ensures q != x && !Under(x, q)
  {
    NotUnderItself(x);
    if Under(x, q) {
      UnderTransitive(x, q, x);
    }
  }

  /** `mkdir(q, parents=True, exist_ok=True)`: the tree after it and the directory `q` leads to. */
  function MakeDirectories(disk: Disk, depth: nat, q: Name): Option<(Disk, Name)>
    decreases |q|
  {
    if q == [] then Some((disk, []))
    else
      match Locate(disk, depth, q)
      case At(x) =>
        if x !in disk then Some((Placed(disk, x, Directory), x))
        else
          (match Enter(disk, depth, q)
           case At(d) => Some((disk, d))
           case _ => None)
      case Absent =>
        (match MakeDirectories(disk, depth, ParentOf(q))
         case None => None
         case Some((made, at)) =>
           if !Nameable(at, BaseOf(q)) then None
           else if Child(at, BaseOf(q)) !in made then
             Some((Placed(made, Child(at, BaseOf(q)), Directory), Child(at, BaseOf(q))))
           else if made[Child(at, BaseOf(q))] == Directory then Some((made, Child(at, BaseOf(q))))
           else None)
      case Refused => None
  }

  /** `mkdir` of the directory for `p`, then the write. */
  function WrittenAt(disk: Disk, depth: nat, p: Name, node: Node): Option<Disk> {
    match MakeDirectories(disk, depth, ParentOf(p))
    case None => None
    case Some((made, at)) =>
      if Nameable(at, BaseOf(p)) then Some(Placed(made, Child(at, BaseOf(p)), node)) else None
  }

  // ----- the same with no link above the name -----

  lemma {:induction false} MakeDirectoriesPlain(disk: Disk, depth: nat, p: Name)
    requires IsTree(disk) && IsRelative(p) && NoLinkAbove(disk, p) && !Obstructed(disk, p)
    ensures MakeDirectories(disk, depth, ParentOf(p)) == Some((disk + Directories(Parents(p)), ParentOf(p)))
    decreases |p|
  {
    var up := ParentOf(p);
    ParentAndBase(p);
    if up == [] {
      forall q ensures q !in Parents(p) {
        ParentsAre(p, q);
        AboveAre(q, p);
      }
      AlreadyThere(disk, Parents(p));
    } else {
      ParentIsPlain(disk, p);
      LocatePlain(disk, depth, up);
      if up in disk {
        AlreadyThere(disk, Parents(p));
      } else {
        OneMoreDirectory(disk, Parents(up), up);
        if Locate(disk, depth, up) == At(up) {
          AlreadyThere(disk, Parents(up));
        } else {
          MakeDirectoriesPlain(disk, depth, up);
          ParentAndBase(up);
        }
      }
    }
  }

  /** The directories above a name are those above its parent, and the parent. */
  lemma ParentIsPlain(disk: Disk, p: Name)
    requires IsTree(disk) && IsRelative(p) && NoLinkAbove(disk, p) && !Obstructed(disk, p) && ParentOf(p) != []
    ensures var up := ParentOf(p);
            && IsRelative(up) && NoLinkAbove(disk, up) && !Obstructed(disk, up)
            && Parents(p) == Parents(up) + {up}
            && (up in disk ==> forall q :: q in Parents(p) ==> q in disk && disk[q] == Directory)
            && (up !in disk ==> forall q :: q in disk || q in Parents(up) ==> q != up && !Under(up, q))
            && (ParentOf(up) == [] || ParentOf(up) in disk ==>
                  forall q :: q in Parents(up) ==> q in disk && disk[q] == Directory)
  {
    var up := ParentOf(p);
    ParentAndBase(p);
    ParentAndBase(up);
    forall q
      ensures q in Parents(p) <==> q == up || Under(q, up)
      ensures q in Parents(up) <==> Under(q, up)
      ensures Under(q, up) ==> Under(q, p) && q != up && !Under(up, q)
      ensures Under(q, up) <==> ParentOf(up) != [] && (q == ParentOf(up) || Under(q, ParentOf(up)))
    {
      ParentsAre(p, q);
      ParentsAre(up, q);
      AboveAre(q, p);
      AboveAre(q, up);
      if Under(q, up) {
        NotAbove(q, up);
      }
    }
    if ParentOf(up) != [] && ParentOf(up) in disk {
      assert Under(ParentOf(up), p);
    }
  }

  lemma AlreadyThere(disk: Disk, names: set<Name>)
    requires forall q :: q in names ==> q in disk && disk[q] == Directory
    ensures disk + Directories(names) == disk
  {
  }

  lemma OneMoreDirectory(disk: Disk, names: set<Name>, up: Name)
    requires up !in disk && forall q :: q in disk || q in names ==> q != up && !Under(up, q)
    ensures up !in disk + Directories(names)
    ensures Placed(disk + Directories(names), up, Directory) == disk + Directories(names + {up})
  {
  }

  lemma NothingBelow(disk: Disk, p: Name)
    requires IsTree(disk) && p !in disk
    ensures forall q :: q in disk ==> !Under(p, q)
  {
  }

  /** Without links above it, a name is written exactly when nothing else is in its way. */
  lemma WrittenPlain(disk: Disk, depth: nat, p: Name, node: Node)
    requires IsTree(disk) && IsRelative(p) && NoLinkAbove(disk, p) && !Obstructed(disk, p)
    ensures WrittenAt(disk, depth, p, node) == Some(Put(disk, p, node))
  {
    ParentAndBase(p);
    MakeDirectoriesPlain(disk, depth, p);
    forall q | q in Parents(p) ensures q != p && !Under(p, q) {
      ParentsAre(p, q);
      NotAbove(q, p);
    }
    PlacedOverParents(disk, Parents(p), p, node);
  }

  lemma PlacedOverParents(disk: Disk, names: set<Name>, p: Name, node: Node)
    requires forall q :: q in names ==> q != p && !Under(p, q)
    ensures Placed(disk + Directories(names), p, node) == (Without(disk, p) + Directories(names))[p := node]
  {
  }

  lemma PutAfterWithout(disk: Disk, p: Name, node: Node)
    ensures Put(Without(disk, p), p, node) == Put(disk, p, node)
  {
  }

  /** `_remove_snapshot_entry`: a missing entry is fine, a way that cannot be followed is an error. */
  function Removed(disk: Disk, depth: nat, p: Name): Option<Disk> {
    match Lstat(disk, depth, p)
    case Found(x, _) => Some(Without(disk, x))
    case NotFound => Some(disk)
    case Unreachable => None
  }

  /** Remove what is there and write something else. */
  function Replaced(disk: Disk, depth: nat, p: Name, node: Node): Option<Disk> {
    match Removed(disk, depth, p)
    case None => None
    case Some(rest) => WrittenAt(rest, depth, p, node)
  }

  /** What removing a name does when there is no link above it. */
  lemma RemovedPlain(disk: Disk, depth: nat, p: Name)
    requires IsTree(disk) && IsRelative(p) && NoLinkAbove(disk, p)
    ensures Removed(disk, depth, p) == if Obstructed(disk, p) then None else Some(Without(disk, p))
  {
    LstatPlain(disk, depth, p);
    if p in disk {
      assert !Obstructed(disk, p);
    } else {
      NothingBelow(disk, p);
      assert Without(disk, p) == disk;
    }
  }

  lemma ReplacedPlain(disk: Disk, depth: nat, p: Name, node: Node)
    requires IsTree(disk) && IsRelative(p) && NoLinkAbove(disk, p)
    ensures Replaced(disk, depth, p, node) == if Obstructed(disk, p) then None else Some(Put(disk, p, node))
  {
    RemovedPlain(disk, depth, p);
    if !Obstructed(disk, p) {
      WithoutIsTree(disk, p);
      WrittenPlain(Without(disk, p), depth, p, node);
      PutAfterWithout(disk, p, node);
    }
  }

  // ----- writing a file over itself -----

  /** One file is gone. */
  ghost predicate IsWithoutFile(disk: Disk, rest: Disk, x: Name) {
    && x != [] && x in disk && disk[x].Regular?
    && forall z :: (z in rest <==> z in disk && z != x) && (z in rest ==> rest[z] == disk[z])
  }

  lemma WithoutFile(disk: Disk, x: Name)
    requires IsTree(disk) && x != [] && x in disk && disk[x].Regular?
    ensures IsWithoutFile(disk, Without(disk, x), x)
    ensures Placed(Without(disk, x), x, disk[x]) == disk
  {
  }

  /** No way to a directory leads over a file. */
  lemma {:induction false} WalkAroundFile(disk: Disk, rest: Disk, x: Name, depth: nat, at: Name, parts: seq<Name>)
    requires IsWithoutFile(disk, rest, x)
    requires Walk(disk, depth, false, at, parts).At? && IsDirectory(disk, Walk(disk, depth, false, at, parts).place)
    ensures Walk(rest, depth, false, at, parts) == Walk(disk, depth, false, at, parts)
    decreases depth, |parts|
  {
    if parts != [] {
      if parts[0] == [46, 46] {
        WalkAroundFile(disk, rest, x, depth, ParentOf(at), parts[1..]);
      } else {
        var z := Child(at, parts[0]);
        if disk[z].Link? {
          var inner := Walk(disk, depth - 1, false, at, TargetParts(disk[z].target));
          WalkStartsAtDirectory(disk, depth, inner.place, parts[1..]);
          WalkAroundFile(disk, rest, x, depth - 1, at, TargetParts(disk[z].target));
          WalkAroundFile(disk, rest, x, depth, inner.place, parts[1..]);
        } else {
          WalkStartsAtDirectory(disk, depth, z, parts[1..]);
          WalkAroundFile(disk, rest, x, depth, z, parts[1..]);
        }
      }
    }
  }

  lemma WalkStartsAtDirectory(disk: Disk, depth: nat, at: Name, parts: seq<Name>)
    requires Walk(disk, depth, false, at, parts).At? && IsDirectory(disk, Walk(disk, depth, false, at, parts).place)
    ensures IsDirectory(disk, at)
  {
  }

  lemma {:induction false} EnterAroundFile(disk: Disk, rest: Disk, x: Name, depth: nat, q: Name)
    requires IsWithoutFile(disk, rest, x) && Enter(disk, depth, q).At?
    ensures Enter(rest, depth, q) == Enter(disk, depth, q)
    ensures Locate(rest, depth, q) == Locate(disk, depth, q)
    ensures Locate(rest, depth, q).At? && Locate(rest, depth, q).place in rest
    decreases |q|, 1
  {
    LocateAroundFile(disk, rest, x, depth, q);
    var y := Locate(disk, depth, q).place;
    if disk[y].Link? {
      WalkAroundFile(disk, rest, x, depth - 1, ParentOf(y), TargetParts(disk[y].target));
    }
  }

  lemma {:induction false} LocateAroundFile(disk: Disk, rest: Disk, x: Name, depth: nat, q: Name)
    requires IsWithoutFile(disk, rest, x) && Locate(disk, depth, q).At?
    ensures Locate(rest, depth, q) == Locate(disk, depth, q)
    decreases |q|, 0
  {
    if ParentOf(q) != [] {
      EnterAroundFile(disk, rest, x, depth, ParentOf(q));
    }
  }

  /** Where a name is found, and what directory it is found in. */
  lemma FoundInDirectory(disk: Disk, depth: nat, q: Name)
    requires IsRelative(q) && Lstat(disk, depth, q).Found?
    ensures var x := Lstat(disk, depth, q).place;
            && Locate(disk, depth, q) == At(x) && x in disk
            && (ParentOf(q) == [] ==> x == q && Nameable([], BaseOf(q)) && Child([], BaseOf(q)) == x)
            && (ParentOf(q) != [] ==>
                  && Enter(disk, depth, ParentOf(q)).At?
                  && var d := Enter(disk, depth, ParentOf(q)).place;
                     Nameable(d, BaseOf(q)) && Child(d, BaseOf(q)) == x)
  {
    ParentAndBase(q);
  }

  lemma PlacedOverFile(disk: Disk, x: Name, node: Node)
    requires IsTree(disk) && x in disk && disk[x].Regular?
    ensures Placed(Without(disk, x), x, node) == disk[x := node]
  {
    NotUnderItself(x);
    forall z | z in disk ensures !Under(x, z) {}
  }

  /** Writing over a file, links on the way followed, changes that file and nothing else. */
  lemma ReplacedThroughLinks(disk: Disk, depth: nat, q: Name, node: Node)
    requires IsTree(disk) && IsRelative(q) && Lstat(disk, depth, q).Found?
    requires Lstat(disk, depth, q).node.Regular? && Lstat(disk, depth, q).place != []
    ensures Replaced(disk, depth, q, node) == Some(disk[Lstat(disk, depth, q).place := node])
  {
    var x := Lstat(disk, depth, q).place;
    var rest := Without(disk, x);
    WithoutFile(disk, x);
    PlacedOverFile(disk, x, node);
    WrittenWhereFound(disk, rest, depth, q, node);
  }

  lemma WrittenWhereFound(disk: Disk, rest: Disk, depth: nat, q: Name, node: Node)
    requires IsRelative(q) && Lstat(disk, depth, q).Found?
    requires IsWithoutFile(disk, rest, Lstat(disk, depth, q).place)
    ensures WrittenAt(rest, depth, q, node) == Some(Placed(rest, Lstat(disk, depth, q).place, node))
  {
    FoundInDirectory(disk, depth, q);
    if ParentOf(q) != [] {
      DirectoryIsThere(disk, rest, Lstat(disk, depth, q).place, depth, ParentOf(q));
    } else {
      assert MakeDirectories(rest, depth, []) == Some((rest, []));
    }
  }

  lemma DirectoryIsThere(disk: Disk, rest: Disk, x: Name, depth: nat, up: Name)
    requires IsWithoutFile(disk, rest, x) && up != [] && Enter(disk, depth, up).At?
    ensures MakeDirectories(rest, depth, up) == Some((rest, Enter(disk, depth, up).place))
  {
    EnterAroundFile(disk, rest, x, depth, up);
  }

  /** Copying a file to where it already is changes nothing, links on the way or not. */
  lemma RewriteIsIdle(disk: Disk, depth: nat, q: Name)
    requires IsTree(disk) && IsRelative(q) && Lstat(disk, depth, q).Found?
    requires Lstat(disk, depth, q).node.Regular? && Lstat(disk, depth, q).place != []
    ensures Replaced(disk, depth, q, Lstat(disk, depth, q).node) == Some(disk)
  {
    ReplacedThroughLinks(disk, depth, q, Lstat(disk, depth, q).node);
    var x := Lstat(disk, depth, q).place;
    assert disk[x := disk[x]] == disk;
  }

  /** One snapshot directory being written. */
  class Snapshot {
    var disk: Disk
    const depth: nat

    constructor (disk: Disk, depth: nat)
      ensures this.disk == disk && this.depth == depth
    {
      this.disk, this.depth := disk, depth;
    }

    method RemoveEntry(p: Name) returns (ok: bool)
      modifies this
      ensures ok <==> Removed(old(disk), depth, p).Some?
      ensures disk == if ok then Removed(old(disk), depth, p).value else old(disk)
    {
      match Lstat(disk, depth, p)
      case Found(x, _) =>
        disk := Without(disk, x);
        ok := true;
      case NotFound =>
        ok := true;
      case Unreachable =>
        ok := false;
    }

    /** `mkdir(parents=True)` and the write: an error if something on the way is no directory. */
    method Write(p: Name, node: Node) returns (ok: bool)
      modifies this
      ensures ok <==> WrittenAt(old(disk), depth, p, node).Some?
      ensures disk == if ok then WrittenAt(old(disk), depth, p, node).value else old(disk)
    {
      var written := WrittenAt(disk, depth, p, node);
      ok := written.Some?;
      if ok {
        disk := written.value;
      }
    }

    /** `_copy_snapshot_entry`: only files and links can be copied. */
    method CopyEntry(p: Name, node: Node) returns (ok: bool)
      modifies this
      ensures ok <==> IsFile(node) && Replaced(old(disk), depth, p, node).Some?
      ensures ok ==> disk == Replaced(old(disk), depth, p, node).value
    {
      ok := RemoveEntry(p);
      if ok {
        ok := IsFile(node);
        if ok {
          ok := Write(p, node);
        }
      }
    }

    /** Remove what is there and make the directory for a clone. */
    method MakeRoom(p: Name) returns (ok: bool)
      modifies this
      ensures ok <==> Replaced(old(disk), depth, p, Directory).Some?
      ensures ok ==> disk == Replaced(old(disk), depth, p, Directory).value
    {
      ok := RemoveEntry(p);
      if ok {
        ok := Write(p, Directory);
      }
    }
  }
}
