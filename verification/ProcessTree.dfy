/** Closures over process tables that may be cyclic, because process ids are reused. */
module ProcessTree {
  // ----- descendant_executables -----

  /** One line of `ps -axo pid=,ppid=,comm=`. */
  datatype Row = Row(child: int, parent: int, command: string)

  ghost predicate IsChildOf(rows: seq<Row>, child: int, parent: int) {
    exists i :: 0 <= i < |rows| && rows[i].child == child && rows[i].parent == parent
  }

  /** Each process on the path is listed as a child of the one before it. */
  ghost predicate IsDownwardPath(rows: seq<Row>, path: seq<int>) {
    && path != []
    && forall i :: 0 <= i < |path| - 1 ==> IsChildOf(rows, path[i + 1], path[i])
  }

  ghost predicate Descends(rows: seq<Row>, root: int, pid: int) {
    exists path :: IsDownwardPath(rows, path) && path[0] == root && path[|path| - 1] == pid
  }

  ghost predicate ClosedDownward(rows: seq<Row>, family: set<int>) {
    forall i :: 0 <= i < |rows| ==> rows[i].parent in family ==> rows[i].child in family
  }

  lemma {:induction false} ClosedContainsPath(rows: seq<Row>, family: set<int>, path: seq<int>)
    requires ClosedDownward(rows, family) && IsDownwardPath(rows, path) && path[0] in family
    ensures path[|path| - 1] in family
  {
    if |path| > 1 {
      assert IsChildOf(rows, path[1], path[0]);
      forall i | 0 <= i < |path[1..]| - 1 ensures IsChildOf(rows, path[1..][i + 1], path[1..][i]) {
        assert IsChildOf(rows, path[i + 2], path[i + 1]);
      }
      ClosedContainsPath(rows, family, path[1..]);
    }
  }

  lemma ChildDescends(rows: seq<Row>, root: int, i: nat)
    requires i < |rows| && Descends(rows, root, rows[i].parent)
    ensures Descends(rows, root, rows[i].child)
  {
    var path :| IsDownwardPath(rows, path) && path[0] == root && path[|path| - 1] == rows[i].parent;
    var longer := path + [rows[i].child];
    forall k | 0 <= k < |longer| - 1 ensures IsChildOf(rows, longer[k + 1], longer[k]) {
      if k < |path| - 1 {
        assert IsChildOf(rows, path[k + 1], path[k]);
      }
    }
    assert IsDownwardPath(rows, longer);
  }

  /** One pass over the rows. It grows the family unless the family is already closed. */
  method GrowOnce(root: int, rows: seq<Row>, family: set<int>) returns (grew: bool, larger: set<int>)
    requires root in family && forall pid :: pid in family ==> Descends(rows, root, pid)
    ensures family <= larger <= family + set r | r in rows :: r.child
    ensures forall pid :: pid in larger ==> Descends(rows, root, pid)
    ensures if grew then larger != family else larger == family && ClosedDownward(rows, family)
  {
    grew, larger := false, family;
    for i := 0 to |rows|
      invariant family <= larger <= family + set r | r in rows :: r.child
      invariant forall pid :: pid in larger ==> Descends(rows, root, pid)
      invariant grew ==> larger != family
      invariant !grew ==> larger == family
      invariant !grew ==> forall k :: 0 <= k < i ==> rows[k].parent in family ==> rows[k].child in family
    {
      if rows[i].parent in larger && rows[i].child !in larger {
        ChildDescends(rows, root, i);
        assert rows[i] in rows;
        larger := larger + {rows[i].child};
        grew := true;
      }
    }
  }

  /**
    The fixpoint loop stops on every table, cyclic or not, with exactly the processes reachable downward from
    the root, and reports exactly the commands those processes run.
   */
  method DescendantExecutables(root: int, rows: seq<Row>) returns (family: set<int>, commands: set<string>)
    ensures forall pid :: pid in family <==> Descends(rows, root, pid)
    ensures forall c :: c in commands <==>
              exists i :: 0 <= i < |rows| && rows[i].command == c && Descends(rows, root, rows[i].child)
  {
    family := {root};
    assert IsDownwardPath(rows, [root]);
    ghost var all := {root} + set r | r in rows :: r.child;
    var grew := true;
    while grew
      invariant root in family && family <= all
      invariant forall pid :: pid in family ==> Descends(rows, root, pid)
      invariant !grew ==> ClosedDownward(rows, family)
      decreases all - family, grew
    {
      grew, family := GrowOnce(root, rows, family);
    }
    forall pid | Descends(rows, root, pid) ensures pid in family {
      var path :| IsDownwardPath(rows, path) && path[0] == root && path[|path| - 1] == pid;
      ClosedContainsPath(rows, family, path);
    }
    commands := set r | r in rows && r.child in family :: r.command;
    forall c | c in commands
      ensures exists i :: 0 <= i < |rows| && rows[i].command == c && Descends(rows, root, rows[i].child)
    {
      var r :| r in rows && r.child in family && r.command == c;
      var i :| 0 <= i < |rows| && rows[i] == r;
    }
    forall i | 0 <= i < |rows| && Descends(rows, root, rows[i].child) ensures rows[i].command in commands {
      assert rows[i] in rows;
    }
  }

  // ----- ancestor_process_ids -----

  datatype Ancestor = Nobody | Process(pid: int)

  /** The process `steps` parents above `pid`; process id 0 is nobody's parent. */
  function Above(table: map<int, int>, pid: int, steps: nat): Ancestor {
    if steps == 0 then Process(pid)
    else
      match Above(table, pid, steps - 1)
      case Nobody => Nobody
      case Process(p) => if p in table && table[p] != 0 then Process(table[p]) else Nobody
  }

  ghost predicate AscendsWithin(table: map<int, int>, pid: int, ancestor: int, limit: int) {
    exists steps: nat :: 1 <= steps <= limit && Above(table, pid, steps) == Process(ancestor)
  }

  ghost function ParentsOf(table: map<int, int>, pids: set<int>): set<int>
    requires pids <= table.Keys
  {
    set p | p in pids :: table[p]
  }

  /** Everything reachable upward, in any number of steps. */
  ghost function Upward(table: map<int, int>, pid: int): set<int> {
    set a | a in ParentsOf(table, table.Keys)
            && exists steps: nat :: 1 <= steps && Above(table, pid, steps) == Process(a)
  }

  /** The processes one to `steps` parents above. */
  ghost function UpTo(table: map<int, int>, pid: int, steps: nat): set<int> {
    if steps == 0 then {}
    else
      UpTo(table, pid, steps - 1)
      + match Above(table, pid, steps) { case Nobody => {} case Process(a) => {a} }
  }

  lemma {:induction false} UpToIsWithin(table: map<int, int>, pid: int, a: int, steps: nat)
    ensures a in UpTo(table, pid, steps) <==> AscendsWithin(table, pid, a, steps)
  {
    if steps > 0 {
      UpToIsWithin(table, pid, a, steps - 1);
      if AscendsWithin(table, pid, a, steps - 1) {
        var n: nat :| 1 <= n <= steps - 1 && Above(table, pid, n) == Process(a);
        assert n <= steps;
      }
    }
  }

  ghost predicate ParentIn(table: map<int, int>, p: int, s: set<int>) {
    p in table && table[p] != 0 ==> table[p] in s
  }

  /** A set that holds the first parent and every parent of its members holds everything upward. */
  lemma {:induction false} ClosedContainsAbove(table: map<int, int>, pid: int, s: set<int>, steps: nat)
    requires steps >= 1
    requires forall p {:trigger ParentIn(table, p, s)} :: p == pid || p in s ==> ParentIn(table, p, s)
    ensures Above(table, pid, steps).Process? ==> Above(table, pid, steps).pid in s
  {
    if steps > 1 {
      ClosedContainsAbove(table, pid, s, steps - 1);
    }
    match Above(table, pid, steps - 1)
    case Nobody =>
    case Process(p) => assert ParentIn(table, p, s);
  }

  lemma PickOne<T>(s: set<T>) returns (x: T)
    requires |s| > 0
    ensures x in s
  {
    x :| x in s;
  }

  lemma {:induction false} ParentsNoMoreThanRecords(table: map<int, int>, pids: set<int>)
    requires pids <= table.Keys
    ensures |ParentsOf(table, pids)| <= |pids|
  {
    if |pids| > 0 {
      var p := PickOne(pids);
      var rest := pids - {p};
      ParentsNoMoreThanRecords(table, rest);
      assert ParentsOf(table, pids) == ParentsOf(table, rest) + {table[p]};
    }
  }

  lemma SubsetSize(a: set<int>, b: set<int>)
    requires a <= b
    ensures |a| <= |b|
    ensures |a| == |b| ==> a == b
  {
    assert b == a + (b - a);
    assert |b| == |a| + |b - a|;
  }

  ghost function NonNegative(limit: int): nat {
    if limit < 0 then 0 else limit
  }

  /**
    The bounded walk returns exactly the processes at most `limit` parents above. That is all of them exactly
    when the limit is no smaller than their number, and a limit of the table's size is always enough.
   */
  method AncestorProcessIds(pid: int, table: map<int, int>, limit: int) returns (ancestors: set<int>)
    ensures forall a :: a in ancestors <==> AscendsWithin(table, pid, a, limit)
    ensures ancestors <= Upward(table, pid)
    ensures ancestors == Upward(table, pid) <==> |Upward(table, pid)| <= NonNegative(limit)
    ensures limit >= |table| ==> ancestors == Upward(table, pid)
  {
    ancestors := {};
    var current := pid;
    var i := 0;
    ghost var stopped := false;
    while i < limit
      invariant 0 <= i <= NonNegative(limit)
      invariant Above(table, pid, i) == Process(current) && |ancestors| == i
      invariant ancestors == UpTo(table, pid, i)
      invariant !stopped
      invariant forall p {:trigger ParentIn(table, p, ancestors)} ::
                  (p == pid || p in ancestors) && p != current ==> ParentIn(table, p, ancestors)
    {
      if current !in table || table[current] == 0 || table[current] in ancestors {
        stopped := true;
        break;
      }
      ghost var before := ancestors;
      ancestors := ancestors + {table[current]};
      forall p | (p == pid || p in ancestors) && p != table[current] ensures ParentIn(table, p, ancestors) {
        assert p == current || ParentIn(table, p, before);
      }
      current := table[current];
      i := i + 1;
    }
    if stopped {
      assert forall p {:trigger ParentIn(table, p, ancestors)} ::
        p == pid || p in ancestors ==> ParentIn(table, p, ancestors);
    }
    WalkIsComplete(table, pid, ancestors, i, limit, stopped);
  }

  lemma WalkIsComplete(table: map<int, int>, pid: int, ancestors: set<int>, i: nat, limit: int, stopped: bool)
    requires i <= NonNegative(limit) && |ancestors| == i
    requires ancestors == UpTo(table, pid, i)
    requires !stopped ==> i == NonNegative(limit)
    requires stopped ==> i < limit
    requires stopped ==>
               forall p {:trigger ParentIn(table, p, ancestors)} ::
                 p == pid || p in ancestors ==> ParentIn(table, p, ancestors)
    ensures forall a :: a in ancestors <==> AscendsWithin(table, pid, a, limit)
    ensures ancestors <= Upward(table, pid)
    ensures ancestors == Upward(table, pid) <==> |Upward(table, pid)| <= NonNegative(limit)
    ensures limit >= |table| ==> ancestors == Upward(table, pid)
  {
    forall a ensures a in ancestors <==> AscendsWithin(table, pid, a, i) {
      UpToIsWithin(table, pid, a, i);
    }
    forall a | a in ancestors ensures a in Upward(table, pid) {
      WithinIsUpward(table, pid, a, i);
    }
    if stopped {
      StoppedWalkIsComplete(table, pid, ancestors, i, limit);
    }
    SubsetSize(ancestors, Upward(table, pid));
    SubsetSize(Upward(table, pid), ParentsOf(table, table.Keys));
    ParentsNoMoreThanRecords(table, table.Keys);
    assert |table| == |table.Keys|;
  }

  lemma WithinIsUpward(table: map<int, int>, pid: int, a: int, limit: int)
    requires AscendsWithin(table, pid, a, limit)
    ensures a in Upward(table, pid)
  {
  }

  /** A walk that stopped early has seen everything, so a larger limit would not find more. */
  lemma StoppedWalkIsComplete(table: map<int, int>, pid: int, ancestors: set<int>, i: nat, limit: int)
    requires i <= limit && forall a :: a in ancestors <==> AscendsWithin(table, pid, a, i)
    requires forall p {:trigger ParentIn(table, p, ancestors)} ::
               p == pid || p in ancestors ==> ParentIn(table, p, ancestors)
    ensures ancestors == Upward(table, pid)
    ensures forall a :: a in ancestors <==> AscendsWithin(table, pid, a, limit)
  {
    forall a | a in ancestors ensures a in Upward(table, pid) {
      WithinIsUpward(table, pid, a, i);
    }
    forall a | AscendsWithin(table, pid, a, limit) ensures a in Upward(table, pid) {
      WithinIsUpward(table, pid, a, limit);
    }
    forall a | a in Upward(table, pid) ensures a in ancestors {
      var steps: nat :| 1 <= steps && Above(table, pid, steps) == Process(a);
      ClosedContainsAbove(table, pid, ancestors, steps);
    }
    forall a | a in ancestors ensures AscendsWithin(table, pid, a, limit) {
      var steps: nat :| 1 <= steps <= i && Above(table, pid, steps) == Process(a);
    }
  }
}
