/** Slash-separated paths, and the lexical rule that keeps a symbolic link inside its distribution. */
module PosixPaths {
  import opened Outcomes
  import opened Sorting

  type Path = seq<string>

  predicate IsName(s: string) {
    s != "" && s != "." && s != ".." && '/' !in s
  }

  /** `s.split("/")`. */
  function Split(s: string): (r: seq<string>)
    ensures r != []
    ensures forall i :: 0 <= i < |r| ==> '/' !in r[i]
  {
    if s == "" then [""]
    else if s[0] == '/' then [""] + Split(s[1..])
    else
      var rest := Split(s[1..]);
      [[s[0]] + rest[0]] + rest[1..]
  }

  /** `"/".join(path)`. */
  function Joined(path: Path): string
    requires path != []
  {
    if |path| == 1 then path[0] else path[0] + "/" + Joined(path[1..])
  }

  lemma {:induction false} SplitName(s: string)
    requires '/' !in s
    ensures Split(s) == [s]
  {
    if s != "" {
      SplitName(s[1..]);
      assert [s[0]] + s[1..] == s;
    }
  }

  lemma HeadAndTail<T>(left: seq<T>, right: seq<T>)
    requires left != []
    ensures (left + right)[0] == left[0] && (left + right)[1..] == left[1..] + right
  {
  }

  lemma {:induction false} SplitAt(a: string, b: string)
    ensures Split(a + "/" + b) == Split(a) + Split(b)
  {
    var s := a + "/" + b;
    if a == "" {
      assert s[0] == '/' && s[1..] == b;
    } else {
      assert s[0] == a[0] && s[1..] == a[1..] + "/" + b;
      SplitAt(a[1..], b);
      HeadAndTail(Split(a[1..]), Split(b));
    }
  }

  /** Joining names and splitting again gives the same names. */
  lemma {:induction false} SplitJoined(path: Path)
    requires path != [] && forall i :: 0 <= i < |path| ==> '/' !in path[i]
    ensures Split(Joined(path)) == path
  {
    SplitName(path[0]);
    if |path| > 1 {
      SplitAt(path[0], Joined(path[1..]));
      SplitJoined(path[1..]);
    } else {
      assert path == [path[0]];
    }
  }

  lemma {:induction false} JoinedSplit(s: string)
    ensures Joined(Split(s)) == s
  {
    if s != "" {
      var rest := Split(s[1..]);
      JoinedSplit(s[1..]);
      if s[0] == '/' {
        assert Split(s)[1..] == rest;
        assert "" + "/" + s[1..] == s;
      } else {
        var r := Split(s);
        if |rest| == 1 {
          assert r == [[s[0]] + rest[0]];
          assert [s[0]] + s[1..] == s;
        } else {
          assert r[1..] == rest[1..];
          assert ([s[0]] + rest[0]) + "/" + Joined(rest[1..]) == [s[0]] + (rest[0] + "/" + Joined(rest[1..]));
          assert [s[0]] + s[1..] == s;
        }
      }
    }
  }

  /** What pathlib keeps of a list of components. */
  function Kept(parts: seq<string>): (r: seq<string>)
    ensures |r| <= |parts|
  {
    if parts == [] then []
    else if parts[0] == "" || parts[0] == "." then Kept(parts[1..])
    else [parts[0]] + Kept(parts[1..])
  }

  lemma {:induction false} KeptAppend(a: seq<string>, b: seq<string>)
    ensures Kept(a + b) == Kept(a) + Kept(b)
  {
    if a == [] {
      assert a + b == b;
    } else {
      assert (a + b)[1..] == a[1..] + b;
      KeptAppend(a[1..], b);
    }
  }

  lemma {:induction false} NamesAreKept(path: Path)
    requires forall i :: 0 <= i < |path| ==> IsName(path[i])
    ensures Kept(path) == path
  {
    if path != [] {
      NamesAreKept(path[1..]);
    }
  }

  /** `Path(*relative.split("/"))`, below the staging directory. */
  function Located(relative: string): Path {
    Kept(Split(relative))
  }

  lemma LocatedJoined(path: Path)
    requires path != [] && forall i :: 0 <= i < |path| ==> IsName(path[i])
    ensures Located(Joined(path)) == path
  {
    SplitJoined(path);
    NamesAreKept(path);
  }

  /** A doubled slash spells the same location. */
  lemma DoubledSlash(a: string, b: string)
    ensures Located(a + "/" + ("/" + b)) == Located(a + "/" + b)
  {
    SplitAt(a, "/" + b);
    SplitAt(a, b);
    assert ("/" + b)[1..] == b;
    KeptAppend(Split(a), Split("/" + b));
    KeptAppend(Split(a), Split(b));
    assert Kept(Split("/" + b)) == Kept(Split(b)) by {
      assert ([""] + Split(b))[1..] == Split(b);
    }
  }

  /** So does a dot between slashes. */
  lemma DotBetweenSlashes(a: string, b: string)
    ensures Located(a + "/" + ("." + "/" + b)) == Located(a + "/" + b)
  {
    SplitAt(a, "." + "/" + b);
    SplitAt(".", b);
    SplitAt(a, b);
    SplitName(".");
    KeptAppend(Split(a), Split("." + "/" + b));
    KeptAppend(["."], Split(b));
    KeptAppend(Split(a), Split(b));
    assert Kept(["."]) == [];
    assert Kept(["."] + Split(b)) == Kept(Split(b));
  }

  // ----- symlink_target_is_confined -----

  /** `PurePosixPath(s).parts`: an absolute path starts with its root. */
  function PureParts(s: string): seq<string> {
    (if !IsAbsolute(s) then [] else if |s| > 1 && s[1] == '/' && (|s| == 2 || s[2] != '/') then ["//"] else ["/"])
    + Kept(Split(s))
  }

  predicate IsAbsolute(s: string) {
    s != "" && s[0] == '/'
  }

  /** One slash and three are the same root, two are another one. */
  lemma RootsOfAbsolutePaths(s: string)
    requires s != "" && s[0] != '/'
    ensures PureParts("/" + s) == ["/"] + PureParts(s)
    ensures PureParts("/" + ("/" + s)) == ["//"] + PureParts(s)
    ensures PureParts("/" + ("/" + ("/" + s))) == ["/"] + PureParts(s)
  {
    RootIsEmpty(s);
    RootIsEmpty("/" + s);
    RootIsEmpty("/" + ("/" + s));
    assert [] + Kept(Split(s)) == Kept(Split(s));
  }

  lemma TwoSlashesAlone()
    ensures PureParts("//") == ["//"] && PureParts("/") == ["/"]
  {
    RootIsEmpty("/");
    RootIsEmpty("");
    assert "/" + "/" == "//" && "/" + "" == "/";
    assert Split("") == [""] && Kept([""]) == Kept([""][1..]) == [];
  }

  lemma RootIsEmpty(s: string)
    ensures Kept(Split("/" + s)) == Kept(Split(s))
  {
    assert ("/" + s)[1..] == s;
    assert Split("/" + s) == [""] + Split(s);
    assert ([""] + Split(s))[1..] == Split(s);
  }

  /** `PurePosixPath(entry).parent.parts`. */
  function ParentParts(entry: string): seq<string> {
    var parts := PureParts(entry);
    if parts == [] || (IsAbsolute(entry) && |parts| == 1) then parts else parts[..|parts| - 1]
  }

  /** Follow the components one by one; stepping above the distribution base is a failure. */
  function Followed(at: seq<string>, parts: seq<string>): Option<seq<string>>
    decreases |parts|
  {
    if parts == [] then Some(at)
    else if parts[0] == ".." then (if at == [] then None else Followed(at[..|at| - 1], parts[1..]))
    else if parts[0] == "." then Followed(at, parts[1..])
    else Followed(at + [parts[0]], parts[1..])
  }

  predicate Confined(entry: string, target: string, rootEntry: string) {
    && target != "" && !IsAbsolute(target)
    && var end := Followed(ParentParts(entry), PureParts(target));
       end.Some? && end.value != [] && end.value[0] == rootEntry
  }

  /** How many components deep the walk is after `parts`, starting `depth` deep. */
  function Depth(depth: int, parts: seq<string>): int
    decreases |parts|
  {
    if parts == [] then depth
    else Depth(if parts[0] == ".." then depth - 1 else if parts[0] == "." then depth else depth + 1, parts[1..])
  }

  ghost predicate NeverBelow(floor: int, depth: int, parts: seq<string>) {
    forall k :: 0 <= k <= |parts| ==> floor <= Depth(depth, parts[..k])
  }

  lemma NeverBelowNext(floor: int, depth: int, parts: seq<string>)
    requires parts != []
    ensures var next := if parts[0] == ".." then depth - 1 else if parts[0] == "." then depth else depth + 1;
            NeverBelow(floor, depth, parts) <==> floor <= depth && NeverBelow(floor, next, parts[1..])
  {
    var next := if parts[0] == ".." then depth - 1 else if parts[0] == "." then depth else depth + 1;
    forall k | 0 < k <= |parts| ensures Depth(depth, parts[..k]) == Depth(next, parts[1..][..k - 1]) {
      assert parts[..k][1..] == parts[1..][..k - 1];
    }
    if NeverBelow(floor, depth, parts) {
      assert floor <= Depth(depth, parts[..0]);
      forall k | 0 <= k <= |parts[1..]| ensures floor <= Depth(next, parts[1..][..k]) {
        assert floor <= Depth(depth, parts[..k + 1]);
      }
    }
    if floor <= depth && NeverBelow(floor, next, parts[1..]) {
      forall k | 0 <= k <= |parts| ensures floor <= Depth(depth, parts[..k]) {
        if k > 0 {
          assert floor <= Depth(next, parts[1..][..k - 1]);
        }
      }
    }
  }

  /** The walk fails exactly when some prefix of the target climbs above the distribution base. */
  lemma {:induction false} WalkFailsExactlyAboveBase(at: seq<string>, parts: seq<string>)
    ensures Followed(at, parts).Some? <==> NeverBelow(0, |at|, parts)
    ensures Followed(at, parts).Some? ==> |Followed(at, parts).value| == Depth(|at|, parts)
    decreases |parts|
  {
    if parts == [] {
      assert parts[..0] == [];
    } else {
      NeverBelowNext(0, |at|, parts);
      if parts[0] == ".." {
        if at == [] {
          assert parts[1..][..0] == [];
          assert Depth(-1, parts[1..][..0]) == -1;
        } else {
          WalkFailsExactlyAboveBase(at[..|at| - 1], parts[1..]);
        }
      } else if parts[0] == "." {
        WalkFailsExactlyAboveBase(at, parts[1..]);
      } else {
        WalkFailsExactlyAboveBase(at + [parts[0]], parts[1..]);
      }
    }
  }

  /** What is never climbed out of stays underneath. */
  lemma {:induction false} WalkKeepsItsTop(at: seq<string>, parts: seq<string>)
    requires NeverBelow(1, |at|, parts)
    ensures at != []
    ensures Followed(at, parts).Some? && Followed(at, parts).value != [] && Followed(at, parts).value[0] == at[0]
    decreases |parts|
  {
    assert parts[..0] == [];
    assert Depth(|at|, parts[..0]) == |at|;
    if parts != [] {
      NeverBelowNext(1, |at|, parts);
      if parts[0] == ".." {
        var up := at[..|at| - 1];
        WalkKeepsItsTop(up, parts[1..]);
      } else if parts[0] == "." {
        WalkKeepsItsTop(at, parts[1..]);
      } else {
        WalkKeepsItsTop(at + [parts[0]], parts[1..]);
      }
    }
  }

  /** The walk of a concatenation is the walk of the rest from where the first part ends. */
  lemma {:induction false} WalkAppend(at: seq<string>, a: seq<string>, b: seq<string>)
    ensures Followed(at, a + b) == (match Followed(at, a) case None => None case Some(mid) => Followed(mid, b))
    decreases |a|
  {
    if a == [] {
      assert a + b == b;
    } else {
      assert (a + b)[1..] == a[1..] + b;
      if a[0] == ".." {
        if at != [] {
          WalkAppend(at[..|at| - 1], a[1..], b);
        }
      } else if a[0] == "." {
        WalkAppend(at, a[1..], b);
      } else {
        WalkAppend(at + [a[0]], a[1..], b);
      }
    }
  }

  /**
    What the rule means for the target's components: the walk from the link's directory never climbs above the
    distribution base, and a link from below the root that never leaves the root is always allowed.
   */
  lemma ConfinedMeans(entry: string, target: string, rootEntry: string)
    requires target != "" && !IsAbsolute(target)
    ensures Confined(entry, target, rootEntry) ==> NeverBelow(0, |ParentParts(entry)|, PureParts(target))
    ensures ParentParts(entry) != [] && NeverBelow(1, |ParentParts(entry)|, PureParts(target)) ==>
              (Confined(entry, target, rootEntry) <==> ParentParts(entry)[0] == rootEntry)
  {
    var at, parts := ParentParts(entry), PureParts(target);
    WalkFailsExactlyAboveBase(at, parts);
    if at != [] && NeverBelow(1, |at|, parts) {
      WalkKeepsItsTop(at, parts);
    }
  }

  /** A link that leaves the root and is back at base is judged by the rest of its target alone, from the base. */
  lemma ConfinedFromBase(entry: string, target: string, rootEntry: string, k: nat)
    requires target != "" && !IsAbsolute(target) && k <= |PureParts(target)|
    requires NeverBelow(0, |ParentParts(entry)|, PureParts(target)[..k])
    requires Depth(|ParentParts(entry)|, PureParts(target)[..k]) == 0
    ensures Confined(entry, target, rootEntry) <==>
              var end := Followed([], PureParts(target)[k..]);
              end.Some? && end.value != [] && end.value[0] == rootEntry
  {
    var at, parts := ParentParts(entry), PureParts(target);
    WalkFailsExactlyAboveBase(at, parts[..k]);
    WalkAppend(at, parts[..k], parts[k..]);
    assert parts == parts[..k] + parts[k..];
    assert Followed(at, parts[..k]).value == [];
  }

  // ----- the rule for targets in normal form -----

  function Ups(k: nat): (r: seq<string>)
    ensures |r| == k && forall i :: 0 <= i < k ==> r[i] == ".."
  {
    seq(k, _ => "..")
  }

  /** What pathlib keeps: a name, or the step up. */
  predicate IsPart(s: string) {
    s != "" && s != "." && '/' !in s
  }

  lemma StepUpIsPart()
    ensures IsPart("..")
  {
  }

  predicate AllNames(path: Path) {
    forall i :: 0 <= i < |path| ==> IsName(path[i])
  }

  lemma {:induction false} KeptWithoutDots(parts: seq<string>)
    requires forall i :: 0 <= i < |parts| ==> parts[i] != "" && parts[i] != "."
    ensures Kept(parts) == parts
  {
    if parts != [] {
      KeptWithoutDots(parts[1..]);
    }
  }

  /** The parts of a relative path that is spelled by its components. */
  lemma PartsOfJoined(parts: seq<string>)
    requires parts != [] && forall i :: 0 <= i < |parts| ==> IsPart(parts[i])
    ensures Joined(parts) != "" && !IsAbsolute(Joined(parts)) && PureParts(Joined(parts)) == parts
  {
    SplitJoined(parts);
    KeptWithoutDots(parts);
    FirstOfJoined(parts);
  }

  lemma FirstOfJoined(parts: seq<string>)
    requires parts != [] && parts[0] != "" && '/' !in parts[0]
    ensures Joined(parts) != "" && !IsAbsolute(Joined(parts))
  {
    assert parts[0][0] in parts[0];
  }

  lemma {:induction false} WalkDown(at: seq<string>, names: seq<string>)
    requires AllNames(names)
    ensures Followed(at, names) == Some(at + names)
    decreases |names|
  {
    if names == [] {
      assert at + names == at;
    } else {
      WalkDown(at + [names[0]], names[1..]);
      assert at + [names[0]] + names[1..] == at + names;
    }
  }

  lemma {:induction false} WalkUpAndDown(at: seq<string>, k: nat, names: seq<string>)
    requires AllNames(names)
    ensures Followed(at, Ups(k) + names) == if k <= |at| then Some(at[..|at| - k] + names) else None
    decreases k
  {
    if k == 0 {
      assert Ups(0) + names == names && at[..|at|] == at;
      WalkDown(at, names);
    } else {
      assert (Ups(k) + names)[0] == ".." && (Ups(k) + names)[1..] == Ups(k - 1) + names;
      if at != [] {
        WalkUpAndDown(at[..|at| - 1], k - 1, names);
        assert k <= |at| ==> at[..|at| - 1][..|at| - k] == at[..|at| - k];
      }
    }
  }

  lemma WalkFrom(at: seq<string>, k: nat, q: Path, rootEntry: string)
    requires AllNames(q) && k + |q| > 0
    ensures var end := Followed(at, Ups(k) + q);
            end.Some? && end.value != [] && end.value[0] == rootEntry <==>
              (k < |at| && at[0] == rootEntry) || (k == |at| && q != [] && q[0] == rootEntry)
  {
    WalkUpAndDown(at, k, q);
    if k < |at| {
      assert (at[..|at| - k] + q)[0] == at[0];
    } else if k == |at| {
      assert at[..|at| - k] + q == q;
    }
  }

  /**
    The rule, for a link named by the components `p` and a target that goes up `k` times and then down over `q`: it may
    stay strictly below the root entry, or leave it and come back into it by name. It may not end above, beside or at
    the distribution base.
   */
  lemma ConfinedExactly(p: Path, k: nat, q: Path, rootEntry: string)
    requires p != [] && AllNames(p) && AllNames(q) && k + |q| > 0
    ensures Confined(Joined(p), Joined(Ups(k) + q), rootEntry) <==>
              || (k < |p| - 1 && p[0] == rootEntry)
              || (k == |p| - 1 && q != [] && q[0] == rootEntry)
  {
    StepUpIsPart();
    PartsOfJoined(p);
    PartsOfJoined(Ups(k) + q);
    var at := p[..|p| - 1];
    assert ParentParts(Joined(p)) == at;
    WalkFrom(at, k, q, rootEntry);
  }

  /** The same for a link named by an absolute path, whose root is one more entry to leave. */
  lemma ConfinedExactlyFromRoot(p: Path, k: nat, q: Path, rootEntry: string)
    requires p != [] && AllNames(p) && AllNames(q) && k + |q| > 0
    ensures Confined("/" + Joined(p), Joined(Ups(k) + q), rootEntry) <==>
              (k < |p| && rootEntry == "/") || (k == |p| && q != [] && q[0] == rootEntry)
  {
    var at := ["/"] + p[..|p| - 1];
    StepUpIsPart();
    PartsOfJoined(Ups(k) + q);
    PartsOfJoined(p);
    RootsOfAbsolutePaths(Joined(p));
    ParentBelowRoot("/" + Joined(p), p);
    WalkFrom(at, k, q, rootEntry);
  }

  lemma ParentBelowRoot(entry: string, p: Path)
    requires p != [] && IsAbsolute(entry) && PureParts(entry) == ["/"] + p
    ensures ParentParts(entry) == ["/"] + p[..|p| - 1]
  {
  }

  /** For one at the file system's root, and for one without a name, at the base. */
  lemma ConfinedExactlyAtTop(k: nat, q: Path, rootEntry: string)
    requires AllNames(q) && k + |q| > 0
    ensures Confined("/", Joined(Ups(k) + q), rootEntry) <==>
              (k == 0 && rootEntry == "/") || (k == 1 && q != [] && q[0] == rootEntry)
    ensures Confined("", Joined(Ups(k) + q), rootEntry) <==> k == 0 && q[0] == rootEntry
  {
    StepUpIsPart();
    PartsOfJoined(Ups(k) + q);
    PartsAtTop();
    WalkFrom(["/"], k, q, rootEntry);
    WalkFrom([], k, q, rootEntry);
  }

  lemma PartsAtTop()
    ensures ParentParts("/") == ["/"] && ParentParts("") == []
  {
    assert Split("") == [""] && Kept([""]) == Kept([""][1..]) == [];
    RootIsEmpty("");
    assert "/" + "" == "/";
  }

  /** No link may have an empty or an absolute target, wherever that leads. */
  lemma NoAbsoluteTarget(entry: string, target: string, rootEntry: string)
    requires target == "" || target[0] == '/'
    ensures !Confined(entry, target, rootEntry)
  {
  }

  /** Every other target has such a normal form: a name and the step back from it can be left out. */
  lemma DetoursDoNotMatter(
      entry: string, target: string, shorter: string, rootEntry: string, a: seq<string>, name: string, b: seq<string>)
    requires target != "" && !IsAbsolute(target) && shorter != "" && !IsAbsolute(shorter)
    requires Kept(Split(target)) == a + ([name, ".."] + b) && Kept(Split(shorter)) == a + b && IsName(name)
    ensures Confined(entry, target, rootEntry) <==> Confined(entry, shorter, rootEntry)
  {
    var at := ParentParts(entry);
    WalkAppend(at, a, [name, ".."] + b);
    WalkAppend(at, a, b);
    if Followed(at, a).Some? {
      DetourIsNothing(Followed(at, a).value, name, b);
    }
    assert PureParts(target) == Kept(Split(target)) && PureParts(shorter) == Kept(Split(shorter));
  }

  lemma DetourIsNothing(at: seq<string>, name: string, b: seq<string>)
    requires IsName(name)
    ensures Followed(at, [name, ".."] + b) == Followed(at, b)
  {
    var parts := [name, ".."] + b;
    assert parts[0] == name && parts[1..] == [".."] + b;
    assert ([".."] + b)[0] == ".." && ([".."] + b)[1..] == b;
    assert (at + [name])[..|at|] == at;
    assert Followed(at + [name], [".."] + b) == Followed(at, b);
  }

  method SymlinkTargetIsConfined(entry: string, target: string, rootEntry: string) returns (ok: bool)
    ensures ok <==> Confined(entry, target, rootEntry)
  {
    if target == "" || IsAbsolute(target) {
      return false;
    }
    var parts := PureParts(target);
    var resolved := ParentParts(entry);
    for i := 0 to |parts|
      invariant Followed(resolved, parts[i..]) == Followed(ParentParts(entry), parts)
    {
      assert parts[i..] != [] && parts[i..][1..] == parts[i + 1..];
      if parts[i] == ".." {
        if resolved == [] {
          return false;
        }
        resolved := resolved[..|resolved| - 1];
      } else if parts[i] != "." {
        resolved := resolved + [parts[i]];
      }
    }
    ok := resolved != [] && resolved[0] == rootEntry;
  }

  // ----- the order of sorted(root.rglob("*")) -----

  predicate PathLe(a: Path, b: Path) {
    if a == [] then true
    else if b == [] then false
    else if a[0] == b[0] then PathLe(a[1..], b[1..])
    else TextLe(a[0], b[0])
  }

  lemma {:induction false} PathLeTotal(a: Path, b: Path)
    requires TotalOrder(TextLe)
    ensures PathLe(a, b) || PathLe(b, a)
  {
    if a != [] && b != [] {
      if a[0] == b[0] {
        PathLeTotal(a[1..], b[1..]);
      } else {
        assert TextLe(a[0], b[0]) || TextLe(b[0], a[0]);
      }
    }
  }

  lemma {:induction false} PathLeTransitive(a: Path, b: Path, c: Path)
    requires TotalOrder(TextLe) && PathLe(a, b) && PathLe(b, c)
    ensures PathLe(a, c)
  {
    if a != [] && b != [] && c != [] {
      if a[0] == b[0] == c[0] {
        PathLeTransitive(a[1..], b[1..], c[1..]);
      } else if a[0] != b[0] && b[0] != c[0] {
        assert TextLe(a[0], b[0]) && TextLe(b[0], c[0]);
        assert a[0] != c[0];
      }
    }
  }

  lemma {:induction false} PathLeAntisymmetric(a: Path, b: Path)
    requires TotalOrder(TextLe) && PathLe(a, b) && PathLe(b, a)
    ensures a == b
  {
    if a != [] && b != [] {
      assert TextLe(a[0], b[0]) && TextLe(b[0], a[0]) ==> a[0] == b[0];
      PathLeAntisymmetric(a[1..], b[1..]);
      assert a == [a[0]] + a[1..] && b == [b[0]] + b[1..];
    }
  }

  lemma PathLeIsTotalOrder()
    ensures TotalOrder(PathLe)
  {
    TextLeIsTotalOrder();
    forall a: Path, b: Path ensures PathLe(a, b) || PathLe(b, a) {
      PathLeTotal(a, b);
    }
    forall a: Path, b: Path, c: Path | PathLe(a, b) && PathLe(b, c) ensures PathLe(a, c) {
      PathLeTransitive(a, b, c);
    }
    forall a: Path, b: Path | PathLe(a, b) && PathLe(b, a) ensures a == b {
      PathLeAntisymmetric(a, b);
    }
  }
}
