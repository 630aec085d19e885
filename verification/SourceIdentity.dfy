/**
  The source identity: a length-framed digest stream over a working tree, with submodules inside it. Names are the
  bytes git prints; `sha` gives the hexadecimal digest of the fixed version tag followed by a stream.
 */
module SourceIdentity {
  import opened Bytes
  import opened Sorting
  import opened Enumeration

  type Name = Field
  type ObjectId = s: seq<byte> | |s| == 40 || |s| == 64 witness seq(40, _ => 48)
  type Digest = s: seq<byte> | |s| == 64 witness seq(64, _ => 48)

  /** What the identity sees of one repository, and of one name in it. */
  datatype Source = Source(entries: map<Name, Entry>)
  datatype Entry =
    | File(executable: bool, contents: Field)
    | Symlink(target: Field)
    | Missing
    | Submodule(id: ObjectId, source: Source)

  const FILE: Field := [102, 105, 108, 101]
  const EXECUTABLE: Field := [101, 120, 101, 99, 117, 116, 97, 98, 108, 101]
  const SYMLINK: Field := [115, 121, 109, 108, 105, 110, 107]
  const MISSING: Field := [109, 105, 115, 115, 105, 110, 103]
  const GITLINK: Field := [103, 105, 116, 108, 105, 110, 107]

  /** `_hash_field`: three framed fields, one after another. */
  function Record(kind: Field, name: Field, value: Field): (r: seq<byte>)
    ensures |r| >= 24
  {
    Framed(kind) + (Framed(name) + Framed(value))
  }

  /** One record can be read back off the front of a stream in only one way. */
  lemma RecordIsPrefixFree(
      k: Field, n: Field, v: Field, x: seq<byte>, l: Field, m: Field, w: Field, y: seq<byte>)
    requires Record(k, n, v) + x == Record(l, m, w) + y
    ensures k == l && n == m && v == w && x == y
  {
    AppendAssociates(Framed(k), Framed(n) + Framed(v), x);
    AppendAssociates(Framed(l), Framed(m) + Framed(w), y);
    FramedIsPrefixFree(k, (Framed(n) + Framed(v)) + x, l, (Framed(m) + Framed(w)) + y);
    AppendAssociates(Framed(n), Framed(v), x);
    AppendAssociates(Framed(m), Framed(w), y);
    FramedIsPrefixFree(n, Framed(v) + x, m, Framed(w) + y);
    FramedIsPrefixFree(v, x, w, y);
  }

  /** Where the three fields of a record are: the kind first, then the name, then the value. */
  lemma RecordParts(kind: Field, name: Field, value: Field)
    ensures |Record(kind, name, value)| == 24 + |kind| + |name| + |value|
    ensures IsFieldAt(Record(kind, name, value), 0, kind)
    ensures IsFieldAt(Record(kind, name, value), 8 + |kind|, name)
    ensures IsFieldAt(Record(kind, name, value), 16 + |kind| + |name|, value)
  {
    KindStands(kind, name, value);
    NameStands(kind, name, value);
    ValueStands(kind, name, value);
  }

  lemma KindStands(kind: Field, name: Field, value: Field)
    ensures IsFieldAt(Record(kind, name, value), 0, kind)
  {
    FieldAt([], kind, Framed(name) + Framed(value));
    assert [] + Framed(kind) == Framed(kind);
  }

  lemma NameStands(kind: Field, name: Field, value: Field)
    ensures IsFieldAt(Record(kind, name, value), 8 + |kind|, name)
  {
    FieldAt(Framed(kind), name, Framed(value));
    AppendAssociates(Framed(kind), Framed(name), Framed(value));
  }

  lemma ValueStands(kind: Field, name: Field, value: Field)
    ensures IsFieldAt(Record(kind, name, value), 16 + |kind| + |name|, value)
  {
    var before := Framed(kind) + Framed(name);
    FieldAt(before, value, []);
    AppendAssociates(Framed(kind), Framed(name), Framed(value));
    assert before + Framed(value) + [] == before + Framed(value);
  }

  /** At `i` stand the length of the field in eight bytes and then its bytes. */
  predicate IsFieldAt(r: seq<byte>, i: nat, field: Field) {
    && i + 8 + |field| <= |r|
    && FromBigEndian(r[i..i + 8]) == |field| && r[i + 8..i + 8 + |field|] == field
  }

  lemma FieldAt(before: seq<byte>, field: Field, behind: seq<byte>)
    ensures IsFieldAt(before + Framed(field) + behind, |before|, field)
  {
    var r, i := before + Framed(field) + behind, |before|;
    FramedParts(field);
    Slices(before, Framed(field), behind);
    assert r[i..i + 8 + |field|] == Framed(field);
    assert r[i..i + 8] == Framed(field)[..8] && r[i + 8..i + 8 + |field|] == Framed(field)[8..];
  }

  function KindOf(e: Entry): Field {
    match e
    case File(executable, _) => if executable then EXECUTABLE else FILE
    case Symlink(_) => SYMLINK
    case Missing => MISSING
    case Submodule(_, _) => GITLINK
  }

  /** What each kind of entry is called in the stream. */
  lemma KindsAreSpelled(e: Entry)
    ensures e.File? ==> KindOf(e) == if e.executable then Ascii("executable") else Ascii("file")
    ensures e.Symlink? ==> KindOf(e) == Ascii("symlink")
    ensures e.Missing? ==> KindOf(e) == Ascii("missing")
    ensures e.Submodule? ==> KindOf(e) == Ascii("gitlink")
  {
  }

  lemma KindsDiffer(a: Entry, b: Entry)
    requires KindOf(a) == KindOf(b)
    ensures a.File? == b.File? && a.Symlink? == b.Symlink? && a.Missing? == b.Missing?
    ensures a.Submodule? == b.Submodule?
    ensures a.File? && b.File? ==> a.executable == b.executable
  {
  }

  // ----- the names, in sorted order -----

  predicate NameLe(a: Name, b: Name) {
    LexLe(a, b)
  }

  /** `sorted(names)`. */
  ghost function Ordered(keys: set<Name>): seq<Name> {
    SortedSet(keys, NameLe)
  }

  lemma NameLeIsTotalOrder()
    ensures TotalOrder(NameLe)
  {
    forall a: Name, b: Name ensures NameLe(a, b) || NameLe(b, a) {
      LexLeTotal(a, b);
    }
    forall a: Name, b: Name, c: Name | NameLe(a, b) && NameLe(b, c) ensures NameLe(a, c) {
      LexLeTransitive(a, b, c);
    }
    forall a: Name, b: Name | NameLe(a, b) && NameLe(b, a) ensures a == b {
      LexLeAntisymmetric(a, b);
    }
  }

  lemma OrderedEnumerates(keys: set<Name>)
    ensures Enumerates(Ordered(keys), keys)
  {
    SortedSetEnumerates(keys, NameLe);
  }

  // ----- the stream -----

  function SubmoduleValue(id: ObjectId, tree: Digest): Field {
    id + [0] + tree
  }

  ghost function ValueOf(e: Entry, sha: seq<byte> -> Digest): Field
    decreases e, 0, 0
  {
    match e
    case File(_, contents) => contents
    case Symlink(target) => target
    case Missing => []
    case Submodule(id, source) => SubmoduleValue(id, sha(IdentityStream(source, sha)))
  }

  ghost function Records(source: Source, names: seq<Name>, sha: seq<byte> -> Digest): seq<byte>
    requires forall i :: 0 <= i < |names| ==> names[i] in source.entries
    decreases source, 0, |names|
  {
    if names == [] then []
    else
      var e := source.entries[names[0]];
      Record(KindOf(e), names[0], ValueOf(e, sha)) + Records(source, names[1..], sha)
  }

  /** Everything `repository_source_facts` feeds to its digest, for nested repositories too. */
  ghost function IdentityStream(source: Source, sha: seq<byte> -> Digest): seq<byte>
    decreases source, 1, 0
  {
    OrderedEnumerates(source.entries.Keys);
    MembersByIndex(Ordered(source.entries.Keys), source.entries.Keys);
    Records(source, Ordered(source.entries.Keys), sha)
  }

  ghost predicate SameFields(d: Entry, e: Entry, sha: seq<byte> -> Digest) {
    KindOf(d) == KindOf(e) && ValueOf(d, sha) == ValueOf(e, sha)
  }

  lemma HeadRecords(a: Source, m: seq<Name>, b: Source, n: seq<Name>, sha: seq<byte> -> Digest)
    requires forall i :: 0 <= i < |m| ==> m[i] in a.entries
    requires forall i :: 0 <= i < |n| ==> n[i] in b.entries
    requires m != [] && n != [] && Records(a, m, sha) == Records(b, n, sha)
    ensures m[0] == n[0] && SameFields(a.entries[m[0]], b.entries[n[0]], sha)
    ensures Records(a, m[1..], sha) == Records(b, n[1..], sha)
  {
    var d, e := a.entries[m[0]], b.entries[n[0]];
    RecordIsPrefixFree(
      KindOf(d), m[0], ValueOf(d, sha), Records(a, m[1..], sha),
      KindOf(e), n[0], ValueOf(e, sha), Records(b, n[1..], sha));
  }

  /** Equal streams of records: the same names in the same order, with the same kinds and values. */
  lemma {:induction false} RecordsDetermineEntries(
      a: Source, m: seq<Name>, b: Source, n: seq<Name>, sha: seq<byte> -> Digest)
    requires forall i :: 0 <= i < |m| ==> m[i] in a.entries
    requires forall i :: 0 <= i < |n| ==> n[i] in b.entries
    requires Records(a, m, sha) == Records(b, n, sha)
    ensures m == n
    ensures forall i :: 0 <= i < |m| ==> SameFields(a.entries[m[i]], b.entries[m[i]], sha)
    decreases |m|
  {
    if m != [] && n != [] {
      HeadRecords(a, m, b, n, sha);
      RecordsDetermineEntries(a, m[1..], b, n[1..], sha);
      assert m == [m[0]] + m[1..] && n == [n[0]] + n[1..];
      forall i | 0 <= i < |m| ensures SameFields(a.entries[m[i]], b.entries[m[i]], sha) {
        assert i > 0 ==> m[i] == m[1..][i - 1];
      }
    }
  }

  /** `x` is the repository itself or one of its submodules, at any depth. */
  ghost predicate Within(x: Source, root: Source)
    decreases root
  {
    x == root || exists p :: p in root.entries && root.entries[p].Submodule? && Within(x, root.entries[p].source)
  }

  /** SHA-256 tells the repositories involved apart. */
  ghost predicate CollisionFree(a: Source, b: Source, sha: seq<byte> -> Digest) {
    forall x, y {:trigger Within(x, a), Within(y, b)} :: Within(x, a) && Within(y, b) ==>
      sha(IdentityStream(x, sha)) == sha(IdentityStream(y, sha)) ==>
      IdentityStream(x, sha) == IdentityStream(y, sha)
  }

  lemma CollisionFreeBelow(a: Source, b: Source, p: Name, sha: seq<byte> -> Digest)
    requires CollisionFree(a, b, sha) && p in a.entries && p in b.entries
    requires a.entries[p].Submodule? && b.entries[p].Submodule?
    ensures CollisionFree(a.entries[p].source, b.entries[p].source, sha)
  {
    var c, d := a.entries[p].source, b.entries[p].source;
    forall x, y {:trigger Within(x, c), Within(y, d)} | Within(x, c) && Within(y, d)
      ensures sha(IdentityStream(x, sha)) == sha(IdentityStream(y, sha)) ==>
              IdentityStream(x, sha) == IdentityStream(y, sha)
    {
      assert Within(x, a) && Within(y, b);
    }
  }

  lemma SameStreamSameFields(a: Source, b: Source, sha: seq<byte> -> Digest)
    requires IdentityStream(a, sha) == IdentityStream(b, sha)
    ensures a.entries.Keys == b.entries.Keys
    ensures forall p :: p in a.entries ==> SameFields(a.entries[p], b.entries[p], sha)
  {
    var m, n := Ordered(a.entries.Keys), Ordered(b.entries.Keys);
    OrderedEnumerates(a.entries.Keys);
    OrderedEnumerates(b.entries.Keys);
    MembersByIndex(m, a.entries.Keys);
    MembersByIndex(n, b.entries.Keys);
    RecordsDetermineEntries(a, m, b, n, sha);
    OneEnumerationOneSet(m, a.entries.Keys, b.entries.Keys);
  }

  lemma SameDigestSameStream(a: Source, b: Source, sha: seq<byte> -> Digest)
    requires CollisionFree(a, b, sha) && sha(IdentityStream(a, sha)) == sha(IdentityStream(b, sha))
    ensures IdentityStream(a, sha) == IdentityStream(b, sha)
  {
    assert Within(a, a) && Within(b, b);
  }

  /**
    Equal identities mean equal sources: the same names, files, executable flags, link targets, missing entries and
    submodule commits, and the same inside every submodule at every depth.
   */
  lemma {:induction false} IdentityDeterminesSource(a: Source, b: Source, sha: seq<byte> -> Digest)
    requires CollisionFree(a, b, sha) && sha(IdentityStream(a, sha)) == sha(IdentityStream(b, sha))
    ensures a == b
    decreases a, 1
  {
    SameDigestSameStream(a, b, sha);
    SameStreamSameFields(a, b, sha);
    forall p | p in a.entries ensures a.entries[p] == b.entries[p] {
      SameFieldsSameEntry(a, b, p, sha);
    }
    assert a.entries == b.entries;
  }

  lemma {:induction false} SameFieldsSameEntry(a: Source, b: Source, p: Name, sha: seq<byte> -> Digest)
    requires CollisionFree(a, b, sha) && p in a.entries && p in b.entries
    requires SameFields(a.entries[p], b.entries[p], sha)
    ensures a.entries[p] == b.entries[p]
    decreases a, 0
  {
    var d, e := a.entries[p], b.entries[p];
    KindsDiffer(d, e);
    if d.Submodule? {
      SubmoduleValues(d.id, sha(IdentityStream(d.source, sha)), e.id, sha(IdentityStream(e.source, sha)));
      CollisionFreeBelow(a, b, p, sha);
      IdentityDeterminesSource(d.source, e.source, sha);
    }
  }

  /** Where the commit and the digest of a submodule stand, with a zero byte between them. */
  lemma SubmoduleValueParts(id: ObjectId, tree: Digest)
    ensures var v := SubmoduleValue(id, tree); v[..|id|] == id && v[|id|] == 0 && v[|id| + 1..] == tree
  {
  }

  lemma SubmoduleValues(i: ObjectId, x: Digest, j: ObjectId, y: Digest)
    requires SubmoduleValue(i, x) == SubmoduleValue(j, y)
    ensures i == j && x == y
  {
    assert |i + [0] + x| == |i| + 65 && |j + [0] + y| == |j| + 65;
    AppendCancels(i + [0], x, j + [0], y);
    AppendCancels(i, [0], j, [0]);
  }
}
