/** `sorted(...)`: a stable sort, and why its result does not depend on the order it started from. */
module Sorting {
  ghost predicate TotalPreorder<T(!new)>(le: (T, T) -> bool) {
    && (forall x, y :: le(x, y) || le(y, x))
    && (forall x, y, z :: le(x, y) && le(y, z) ==> le(x, z))
  }

  ghost predicate TotalOrder<T(!new)>(le: (T, T) -> bool) {
    TotalPreorder(le) && forall x, y :: le(x, y) && le(y, x) ==> x == y
  }

  ghost predicate SortedBy<T(!new)>(s: seq<T>, le: (T, T) -> bool) {
    forall i, j :: 0 <= i < j < |s| ==> le(s[i], s[j])
  }

  function Insert<T>(x: T, s: seq<T>, le: (T, T) -> bool): (r: seq<T>)
    ensures multiset(r) == multiset([x]) + multiset(s)
  {
    if s == [] then [x]
    else if le(x, s[0]) then [x] + s
    else
      assert s == [s[0]] + s[1..];
      [s[0]] + Insert(x, s[1..], le)
  }

  /** The elements of `s` in the order of `le`, equal ones in their original order. */
  function Sort<T>(s: seq<T>, le: (T, T) -> bool): (r: seq<T>)
    ensures multiset(r) == multiset(s)
    ensures |r| == |s|
  {
    if s == [] then []
    else
      assert s == [s[0]] + s[1..];
      var r := Insert(s[0], Sort(s[1..], le), le);
      assert |r| == |multiset(r)| && |s| == |multiset(s)|;
      r
  }

  lemma {:induction false} InsertKeepsSorted<T(!new)>(x: T, s: seq<T>, le: (T, T) -> bool)
    requires TotalPreorder(le) && SortedBy(s, le)
    ensures SortedBy(Insert(x, s, le), le)
  {
    if s != [] {
      if le(x, s[0]) {
        forall j | 0 <= j < |s| ensures le(x, s[j]) {}
      } else {
        InsertKeepsSorted(x, s[1..], le);
        var t := Insert(x, s[1..], le);
        forall j | 0 <= j < |t| ensures le(s[0], t[j]) {
          assert t[j] in multiset(t);
          assert t[j] == x || t[j] in s[1..];
        }
      }
    }
  }

  lemma {:induction false} SortSorts<T(!new)>(s: seq<T>, le: (T, T) -> bool)
    requires TotalPreorder(le)
    ensures SortedBy(Sort(s, le), le)
  {
    if s != [] {
      SortSorts(s[1..], le);
      InsertKeepsSorted(s[0], Sort(s[1..], le), le);
    }
  }

  lemma TailMultiset<T>(s: seq<T>)
    requires s != []
    ensures multiset(s[1..]) == multiset(s) - multiset{s[0]}
  {
    assert s == [s[0]] + s[1..];
  }

  lemma RemovedMultiset<T>(s: seq<T>, k: nat)
    requires k < |s|
    ensures multiset(s[..k] + s[k + 1..]) == multiset(s) - multiset{s[k]}
  {
    assert s == s[..k] + ([s[k]] + s[k + 1..]);
    assert multiset(s) == multiset(s[..k]) + (multiset{s[k]} + multiset(s[k + 1..]));
  }

  /** Everything the elements of `s` contribute, as a bag. */
  ghost function BagOf<T, U>(s: seq<T>, f: T -> multiset<U>): multiset<U> {
    if s == [] then multiset{} else BagOf(s[..|s| - 1], f) + f(s[|s| - 1])
  }

  lemma {:induction false} BagOfRemoved<T, U>(s: seq<T>, k: nat, f: T -> multiset<U>)
    requires k < |s|
    ensures BagOf(s, f) == BagOf(s[..k] + s[k + 1..], f) + f(s[k])
  {
    var n := |s| - 1;
    var rest := s[..k] + s[k + 1..];
    if k == n {
      assert rest == s[..n];
    } else {
      BagOfRemoved(s[..n], k, f);
      assert rest[..n - 1] == s[..n][..k] + s[..n][k + 1..];
    }
  }

  /** The last element of `a` somewhere in `b`: without it the two are permutations still. */
  lemma MatchLast<T>(a: seq<T>, b: seq<T>) returns (k: nat)
    requires a != [] && multiset(a) == multiset(b)
    ensures k < |b| && b[k] == a[|a| - 1] && multiset(a[..|a| - 1]) == multiset(b[..k] + b[k + 1..])
  {
    var n := |a| - 1;
    assert a[n] in multiset(b);
    k :| 0 <= k < |b| && b[k] == a[n];
    RemovedMultiset(a, n);
    RemovedMultiset(b, k);
    assert a[..n] + a[n + 1..] == a[..n];
  }

  /** Contributions add up the same way in every order. */
  lemma {:induction false} BagOfIgnoresOrder<T, U>(a: seq<T>, b: seq<T>, f: T -> multiset<U>)
    requires multiset(a) == multiset(b)
    ensures BagOf(a, f) == BagOf(b, f)
    decreases |a|
  {
    if a == [] {
      assert |multiset(b)| == 0;
    } else {
      var n := |a| - 1;
      var k := MatchLast(a, b);
      BagOfIgnoresOrder(a[..n], b[..k] + b[k + 1..], f);
      BagOfRemoved(b, k, f);
    }
  }

  lemma HeadIsLeast<T(!new)>(s: seq<T>, le: (T, T) -> bool, x: T)
    requires TotalPreorder(le) && SortedBy(s, le) && x in multiset(s)
    ensures s != [] && le(s[0], x)
  {
  }

  lemma {:induction false} SortedPermutationIsUnique<T(!new)>(s: seq<T>, t: seq<T>, le: (T, T) -> bool)
    requires TotalOrder(le) && SortedBy(s, le) && SortedBy(t, le)
    requires multiset(s) == multiset(t)
    ensures s == t
  {
    if s == [] {
      assert |multiset(t)| == 0;
    } else {
      HeadIsLeast(t, le, s[0]);
      HeadIsLeast(s, le, t[0]);
      TailMultiset(s);
      TailMultiset(t);
      SortedPermutationIsUnique(s[1..], t[1..], le);
      assert s == [s[0]] + s[1..] && t == [t[0]] + t[1..];
    }
  }

  /** Two arrangements of the same elements sort to the same sequence. */
  lemma SortIgnoresOrder<T(!new)>(s: seq<T>, t: seq<T>, le: (T, T) -> bool)
    requires TotalOrder(le) && multiset(s) == multiset(t)
    ensures Sort(s, le) == Sort(t, le)
  {
    SortSorts(s, le);
    SortSorts(t, le);
    SortedPermutationIsUnique(Sort(s, le), Sort(t, le), le);
  }

  /** Dictionary order on number sequences: byte strings, and strings by code point. */
  predicate LexLe(a: seq<int>, b: seq<int>) {
    if a == [] then true
    else if b == [] then false
    else a[0] < b[0] || (a[0] == b[0] && LexLe(a[1..], b[1..]))
  }

  lemma SameHead<T>(a: seq<T>, b: seq<T>)
    requires a != [] && b != [] && a[0] == b[0]
    ensures a <= b <==> a[1..] <= b[1..]
  {
    assert a == [a[0]] + a[1..] && b == [b[0]] + b[1..];
    if a[1..] <= b[1..] {
      assert b[1..][..|a| - 1] == a[1..];
      assert b[..|a|] == [b[0]] + b[1..][..|a| - 1];
    }
  }

  /** The first difference decides; a prefix comes first. */
  lemma {:induction false} LexLeMeans(a: seq<int>, b: seq<int>)
    ensures LexLe(a, b) <==>
              a <= b || exists k :: 0 <= k < |a| && k < |b| && a[..k] == b[..k] && a[k] < b[k]
  {
    if a != [] && b != [] {
      if a[0] != b[0] {
        assert a[..0] == b[..0];
      } else {
        LexLeMeans(a[1..], b[1..]);
        SameHead(a, b);
        if k :| 0 <= k < |a[1..]| && k < |b[1..]| && a[1..][..k] == b[1..][..k] && a[1..][k] < b[1..][k] {
          assert a[..k + 1] == [a[0]] + a[1..][..k] && b[..k + 1] == [b[0]] + b[1..][..k];
        }
        if k :| 0 <= k < |a| && k < |b| && a[..k] == b[..k] && a[k] < b[k] {
          assert a[1..][..k - 1] == a[..k][1..] && b[1..][..k - 1] == b[..k][1..];
          assert a[1..][k - 1] == a[k] && b[1..][k - 1] == b[k];
        }
      }
    }
  }

  lemma {:induction false} LexLeTotal(a: seq<int>, b: seq<int>)
    ensures LexLe(a, b) || LexLe(b, a)
  {
    if a != [] && b != [] {
      LexLeTotal(a[1..], b[1..]);
    }
  }

  lemma {:induction false} LexLeTransitive(a: seq<int>, b: seq<int>, c: seq<int>)
    requires LexLe(a, b) && LexLe(b, c)
    ensures LexLe(a, c)
  {
    if a != [] && b != [] && c != [] && a[0] == b[0] == c[0] {
      LexLeTransitive(a[1..], b[1..], c[1..]);
    }
  }

  lemma {:induction false} LexLeAntisymmetric(a: seq<int>, b: seq<int>)
    requires LexLe(a, b) && LexLe(b, a)
    ensures a == b
  {
    if a != [] && b != [] {
      LexLeAntisymmetric(a[1..], b[1..]);
      assert a == [a[0]] + a[1..] && b == [b[0]] + b[1..];
    }
  }

  /** A string's code points, by which Python orders strings. */
  function Codes(s: string): (r: seq<int>)
    ensures |r| == |s| && forall i :: 0 <= i < |s| ==> r[i] == s[i] as int
  {
    if s == [] then [] else [s[0] as int] + Codes(s[1..])
  }

  predicate TextLe(a: string, b: string) {
    LexLe(Codes(a), Codes(b))
  }

  lemma CodesInjective(a: string, b: string)
    requires Codes(a) == Codes(b)
    ensures a == b
  {
  }

  lemma TextLeIsTotalOrder()
    ensures TotalOrder(TextLe)
  {
    forall a: string, b: string ensures TextLe(a, b) || TextLe(b, a) {
      LexLeTotal(Codes(a), Codes(b));
    }
    forall a: string, b: string, c: string | TextLe(a, b) && TextLe(b, c) ensures TextLe(a, c) {
      LexLeTransitive(Codes(a), Codes(b), Codes(c));
    }
    forall a: string, b: string | TextLe(a, b) && TextLe(b, a) ensures a == b {
      LexLeAntisymmetric(Codes(a), Codes(b));
      CodesInjective(a, b);
    }
  }
}

/** Listing a finite set: which order the listing has does not matter once it is sorted. */
module Enumeration {
  import opened Sorting

  ghost predicate Distinct<T>(s: seq<T>) {
    forall i, j :: 0 <= i < j < |s| ==> s[i] != s[j]
  }

  /** `s` lists every element of `keys` once. */
  ghost predicate Enumerates<T(!new)>(s: seq<T>, keys: set<T>) {
    (forall x :: x in s <==> x in keys) && Distinct(s)
  }

  lemma {:induction false} OccursOnce<T>(s: seq<T>, x: T)
    requires Distinct(s)
    ensures multiset(s)[x] == if x in s then 1 else 0
  {
    if s != [] {
      var n := |s| - 1;
      assert s == s[..n] + [s[n]];
      OccursOnce(s[..n], x);
    }
  }

  lemma SameElementsSameBag<T(!new)>(s: seq<T>, t: seq<T>)
    requires Distinct(s) && Distinct(t) && forall x :: x in s <==> x in t
    ensures multiset(s) == multiset(t)
  {
    forall x ensures multiset(s)[x] == multiset(t)[x] {
      OccursOnce(s, x);
      OccursOnce(t, x);
    }
  }

  lemma PermutationStaysDistinct<T>(s: seq<T>, t: seq<T>)
    requires Distinct(s) && multiset(s) == multiset(t)
    ensures Distinct(t)
  {
    forall i, j | 0 <= i < j < |t| ensures t[i] != t[j] {
      assert t == t[..j] + [t[j]] + t[j + 1..];
      assert multiset(t)[t[j]] >= 1 + multiset(t[..j])[t[j]];
      OccursOnce(s, t[j]);
      assert t[i] in t[..j];
    }
  }

  lemma PermutationEnumerates<T(!new)>(s: seq<T>, t: seq<T>, keys: set<T>)
    requires Enumerates(s, keys) && multiset(s) == multiset(t)
    ensures Enumerates(t, keys)
  {
    forall x ensures x in t <==> x in keys {
      assert x in multiset(t) <==> x in multiset(s);
    }
    PermutationStaysDistinct(s, t);
  }

  lemma OneEnumerationOneSet<T(!new)>(s: seq<T>, x: set<T>, y: set<T>)
    requires Enumerates(s, x) && Enumerates(s, y)
    ensures x == y
  {
  }

  lemma MembersByIndex<T(!new)>(s: seq<T>, keys: set<T>)
    requires Enumerates(s, keys)
    ensures forall i :: 0 <= i < |s| ==> s[i] in keys
    ensures forall x :: x in keys ==> exists i :: 0 <= i < |s| && s[i] == x
  {
  }

  ghost function SomeOrder<T(!new)>(keys: set<T>): (r: seq<T>)
    ensures Enumerates(r, keys)
  {
    if keys == {} then []
    else
      var x :| x in keys;
      [x] + SomeOrder(keys - {x})
  }

  /** `sorted(keys)`. */
  ghost function SortedSet<T(!new)>(keys: set<T>, le: (T, T) -> bool): seq<T> {
    Sort(SomeOrder(keys), le)
  }

  lemma SortedSetEnumerates<T(!new)>(keys: set<T>, le: (T, T) -> bool)
    ensures Enumerates(SortedSet(keys, le), keys)
  {
    PermutationEnumerates(SomeOrder(keys), SortedSet(keys, le), keys);
  }

  /** Whatever order the elements are listed in, sorting gives the same list. */
  lemma SortedListing<T(!new)>(listing: seq<T>, keys: set<T>, le: (T, T) -> bool)
    requires Enumerates(listing, keys) && TotalOrder(le)
    ensures Sort(listing, le) == SortedSet(keys, le)
  {
    SameElementsSameBag(listing, SomeOrder(keys));
    SortIgnoresOrder(listing, SomeOrder(keys), le);
  }

  /** The elements in the order they happen to come. */
  method ListAny<T(==,!new)>(keys: set<T>) returns (listing: seq<T>)
    ensures Enumerates(listing, keys)
  {
    listing := [];
    var unseen := keys;
    while unseen != {}
      invariant unseen <= keys && Enumerates(listing, keys - unseen)
      decreases unseen
    {
      var x :| x in unseen;
      listing := listing + [x];
      unseen := unseen - {x};
    }
  }
}
