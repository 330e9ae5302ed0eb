/**
 Who is under a process, by the table `ps` prints: the guard's tree, the e2e's
 processes below it, and the simulators' processes. Each grows a list while
 scanning it; each finds what the parent relation reaches, cycles or not.
 */
module Processes {
  import opened Sequences

  type Pid = nat

  datatype Row = Row(pid: Pid, parent: Pid)

  // --- What is reachable, by paths ---

  ghost predicate IsPath(table: seq<Row>, path: seq<Pid>) {
    path != [] && forall k | 0 < k < |path| :: Row(path[k], path[k - 1]) in table
  }

  ghost predicate Joins(table: seq<Row>, roots: set<Pid>, path: seq<Pid>, pid: Pid) {
    IsPath(table, path) && path[0] in roots && path[|path| - 1] == pid
  }

  /** Some chain of parents leads from `pid` to a root. */
  ghost predicate Reaches(table: seq<Row>, roots: set<Pid>, pid: Pid) {
    exists path :: Joins(table, roots, path, pid)
  }

  lemma RootReached(table: seq<Row>, roots: set<Pid>, pid: Pid)
    requires pid in roots
    ensures Reaches(table, roots, pid)
  {
    assert Joins(table, roots, [pid], pid);
  }

  lemma ChildReached(table: seq<Row>, roots: set<Pid>, row: Row)
    requires row in table && Reaches(table, roots, row.parent)
    ensures Reaches(table, roots, row.pid)
  {
    var path :| Joins(table, roots, path, row.parent);
    assert Joins(table, roots, path + [row.pid], row.pid);
  }

  /** A set that holds the roots and every child of its members holds all that is reachable. */
  lemma {:induction false} ClosedHoldsAll(table: seq<Row>, roots: set<Pid>, held: set<Pid>, path: seq<Pid>)
    requires roots <= held && forall row | row in table && row.parent in held :: row.pid in held
    requires IsPath(table, path) && path[0] in roots
    ensures path[|path| - 1] in held
  {
    var last := |path| - 1;
    if last > 0 {
      ClosedHoldsAll(table, roots, held, path[..last]);
      assert Row(path[last], path[last - 1]) in table;
    }
  }

  lemma ClosedIsReachable(table: seq<Row>, roots: set<Pid>, held: set<Pid>)
    requires roots <= held && forall row | row in table && row.parent in held :: row.pid in held
    requires forall pid | pid in held :: Reaches(table, roots, pid)
    ensures forall pid :: pid in held <==> Reaches(table, roots, pid)
  {
    forall pid | Reaches(table, roots, pid) ensures pid in held {
      var path :| Joins(table, roots, path, pid);
      ClosedHoldsAll(table, roots, held, path);
    }
  }

  function Members(s: seq<Pid>): set<Pid> {
    set pid | pid in s
  }

  /** How many rows' pids are not in `s`: what a growing list can still take in. */
  function Outside(table: seq<Row>, s: seq<Pid>): nat {
    if table == [] then 0
    else Outside(table[1..], s) + if table[0].pid in s then 0 else 1
  }

  lemma {:induction false} OutsideShrinks(table: seq<Row>, s: seq<Pid>, more: seq<Pid>)
    requires forall pid | pid in s :: pid in more
    ensures Outside(table, more) <= Outside(table, s)
    ensures (exists row :: row in table && row.pid in more && row.pid !in s) ==>
      Outside(table, more) < Outside(table, s)
  {
    if table != [] {
      OutsideShrinks(table[1..], s, more);
      assert forall row :: row in table <==> row == table[0] || row in table[1..];
    }
  }

  // --- The guard's tree ---

  /** The children of `parent` in the table's order, but for those already in `tree`. */
  function Children(table: seq<Row>, parent: Pid, tree: seq<Pid>): seq<Pid> {
    if table == [] then []
    else (if table[0].parent == parent && table[0].pid !in tree then [table[0].pid] else [])
         + Children(table[1..], parent, tree)
  }

  lemma {:induction false} ChildrenAre(table: seq<Row>, parent: Pid, tree: seq<Pid>)
    ensures forall pid :: pid in Children(table, parent, tree) <==> Row(pid, parent) in table && pid !in tree
  {
    if table != [] {
      ChildrenAre(table[1..], parent, tree);
      assert forall row :: row in table <==> row == table[0] || row in table[1..];
    }
  }

  lemma GrowthShrinks(table: seq<Row>, parent: Pid, tree: seq<Pid>)
    ensures var more := tree + Children(table, parent, tree);
      Outside(table, more) < Outside(table, tree) || more == tree
  {
    var children := Children(table, parent, tree);
    ChildrenAre(table, parent, tree);
    OutsideShrinks(table, tree, tree + children);
    if children != [] {
      assert children[0] in children && Row(children[0], parent) in table;
    }
  }

  /** The tree the scan ends with, from `tree` with its first `next` members scanned. */
  function Grown(table: seq<Row>, tree: seq<Pid>, next: nat): seq<Pid>
    requires next <= |tree|
    decreases Outside(table, tree), |tree| - next
  {
    if next == |tree| then tree
    else
      GrowthShrinks(table, tree[next], tree);
      Grown(table, tree + Children(table, tree[next], tree), next + 1)
  }

  method GuestTree(table: seq<Row>, root: Pid) returns (tree: seq<Pid>)
    ensures tree == Grown(table, [root], 0)
    ensures [root] <= tree
    ensures forall pid :: pid in tree <==> Reaches(table, {root}, pid)
  {
    tree := [root];
    var next := 0;
    while next < |tree|
      invariant next <= |tree|
      invariant Grown(table, tree, next) == Grown(table, [root], 0)
      decreases Outside(table, tree), |tree| - next
    {
      var parent := tree[next];
      next := next + 1;
      GrowthShrinks(table, parent, tree);
      tree := tree + Children(table, parent, tree);
    }
    GrownIsTheTree(table, root);
  }

  /** The members scanned so far have all their children in the tree, and all is reachable. */
  ghost predicate Scanned(table: seq<Row>, roots: set<Pid>, tree: seq<Pid>, next: nat)
    requires next <= |tree|
  {
    && (forall pid | pid in roots :: pid in tree)
    && (forall pid | pid in tree :: Reaches(table, roots, pid))
    && (forall k, row | 0 <= k < next && row in table && row.parent == tree[k] :: row.pid in tree)
  }

  lemma ScansOneMore(table: seq<Row>, roots: set<Pid>, tree: seq<Pid>, next: nat)
    requires next < |tree| && Scanned(table, roots, tree, next)
    ensures Scanned(table, roots, tree + Children(table, tree[next], tree), next + 1)
  {
    var parent := tree[next];
    var children := Children(table, parent, tree);
    ChildrenAre(table, parent, tree);
    forall pid | pid in children ensures Reaches(table, roots, pid) {
      ChildReached(table, roots, Row(pid, parent));
    }
  }

  lemma {:induction false} GrownScans(table: seq<Row>, roots: set<Pid>, tree: seq<Pid>, next: nat)
    requires next <= |tree| && Scanned(table, roots, tree, next)
    ensures var all := Grown(table, tree, next);
      tree <= all && Scanned(table, roots, all, |all|)
    decreases Outside(table, tree), |tree| - next
  {
    if next < |tree| {
      GrowthShrinks(table, tree[next], tree);
      ScansOneMore(table, roots, tree, next);
      GrownScans(table, roots, tree + Children(table, tree[next], tree), next + 1);
    }
  }

  /** All that was scanned is all that is reachable. */
  lemma ScannedIsReachable(table: seq<Row>, roots: set<Pid>, tree: seq<Pid>)
    requires Scanned(table, roots, tree, |tree|)
    ensures forall pid :: pid in tree <==> Reaches(table, roots, pid)
  {
    var held := Members(tree);
    forall row | row in table && row.parent in held ensures row.pid in held {
      var k :| 0 <= k < |tree| && tree[k] == row.parent;
    }
    ClosedIsReachable(table, roots, held);
  }

  lemma GrownIsTheTree(table: seq<Row>, root: Pid)
    ensures [root] <= Grown(table, [root], 0)
    ensures forall pid :: pid in Grown(table, [root], 0) <==> Reaches(table, {root}, pid)
  {
    RootReached(table, {root}, root);
    GrownScans(table, {root}, [root], 0);
    ScannedIsReachable(table, {root}, Grown(table, [root], 0));
  }

  // --- Whether the tree names a process twice ---

  /** Two rows of the table are the same, of a process under the root. */
  ghost predicate Repeats(table: seq<Row>, root: Pid, i: nat, j: nat) {
    i < j < |table| && table[i] == table[j] && table[i].pid != root && Reaches(table, {root}, table[i].parent)
  }

  /** The `n`th of the tree is the first there that the table names as a parent of `pid`. */
  ghost predicate Adopts(table: seq<Row>, tree: seq<Pid>, n: nat, pid: Pid) {
    n < |tree| && Row(pid, tree[n]) in table && forall k | 0 <= k < n :: Row(pid, tree[k]) !in table
  }

  /** Two rows are the same, of a process and the first parent of it in the tree. */
  ghost predicate AdoptedTwice(table: seq<Row>, root: Pid, tree: seq<Pid>, i: nat, j: nat, n: nat) {
    && i < j < |table| && table[i] == table[j] && table[i].pid != root
    && Adopts(table, tree, n, table[i].pid) && table[i].parent == tree[n]
  }

  lemma {:induction false} ChildrenDistinct(table: seq<Row>, parent: Pid, tree: seq<Pid>)
    requires forall i, j | 0 <= i < j < |table| && table[i].parent == parent && table[i].pid !in tree ::
      table[i] != table[j]
    ensures Distinct(Children(table, parent, tree))
  {
    if table != [] {
      ChildrenDistinct(table[1..], parent, tree);
      ChildrenAre(table[1..], parent, tree);
    }
  }

  lemma JoinDistinct(a: seq<Pid>, b: seq<Pid>)
    requires Distinct(a) && Distinct(b) && forall pid | pid in b :: pid !in a
    ensures Distinct(a + b)
  {
    forall i, j | 0 <= i < j < |a + b| ensures (a + b)[i] != (a + b)[j] {
      if i < |a| <= j {
        assert b[j - |a|] in b;
        assert a[i] in a;
      }
    }
  }

  /** A child the `next`th takes in was none of the ones' before. */
  lemma AdoptsNow(table: seq<Row>, root: Pid, tree: seq<Pid>, next: nat, all: seq<Pid>, pid: Pid)
    requires next < |tree| && Scanned(table, {root}, tree, next) && tree <= all
    requires Row(pid, tree[next]) in table && pid !in tree
    ensures Adopts(table, all, next, pid) && pid != root
  {
    assert root in {root};
    forall k | 0 <= k < next ensures Row(pid, all[k]) !in table {
      assert all[k] == tree[k];
    }
  }

  lemma {:induction false} GrownDistinct(table: seq<Row>, root: Pid, tree: seq<Pid>, next: nat)
    requires next <= |tree| && Scanned(table, {root}, tree, next) && Distinct(tree)
    requires forall i: nat, j: nat, n: nat :: !AdoptedTwice(table, root, Grown(table, tree, next), i, j, n)
    ensures Distinct(Grown(table, tree, next))
    decreases Outside(table, tree), |tree| - next
  {
    if next < |tree| {
      var parent := tree[next];
      GrowthShrinks(table, parent, tree);
      ScansOneMore(table, {root}, tree, next);
      var all := Grown(table, tree, next);
      GrownScans(table, {root}, tree, next);
      forall i: nat, j: nat | i < j < |table| && table[i].parent == parent && table[i].pid !in tree
        ensures table[i] != table[j]
      {
        AdoptsNow(table, root, tree, next, all, table[i].pid);
        assert !AdoptedTwice(table, root, all, i, j, next);
      }
      ChildrenDistinct(table, parent, tree);
      ChildrenAre(table, parent, tree);
      JoinDistinct(tree, Children(table, parent, tree));
      GrownDistinct(table, root, tree + Children(table, parent, tree), next + 1);
    }
  }

  lemma {:induction false} ListedTwice(table: seq<Row>, parent: Pid, tree: seq<Pid>, i: nat, j: nat)
    requires i < j < |table| && table[i] == table[j] && table[i].parent == parent && table[i].pid !in tree
    ensures !Distinct(Children(table, parent, tree))
  {
    var rest := Children(table[1..], parent, tree);
    var all := Children(table, parent, tree);
    if i == 0 {
      ChildrenAre(table[1..], parent, tree);
      assert table[1..][j - 1] == table[j];
      var k :| 0 <= k < |rest| && rest[k] == table[j].pid;
      assert all[0] == all[k + 1];
    } else {
      ListedTwice(table[1..], parent, tree, i - 1, j - 1);
      var a, b :| 0 <= a < b < |rest| && rest[a] == rest[b];
      var shift := |all| - |rest|;
      assert all[a + shift] == all[b + shift];
    }
  }

  lemma ExtendedNotDistinct(s: seq<Pid>, middle: seq<Pid>, all: seq<Pid>)
    requires !Distinct(middle) && s + middle <= all
    ensures !Distinct(all)
  {
    var a, b :| 0 <= a < b < |middle| && middle[a] == middle[b];
    assert all[|s| + a] == (s + middle)[|s| + a] && all[|s| + b] == (s + middle)[|s| + b];
  }

  /** A row listed twice, whose process is not in the tree and whose parent is not scanned yet. */
  ghost predicate Pending(table: seq<Row>, tree: seq<Pid>, next: nat, i: nat, j: nat)
    requires next <= |tree|
  {
    i < j < |table| && table[i] == table[j] && table[i].pid !in tree && table[i].parent !in tree[..next]
  }

  lemma StaysPending(table: seq<Row>, tree: seq<Pid>, next: nat, i: nat, j: nat)
    requires next < |tree| && Pending(table, tree, next, i, j)
    requires table[i].parent != tree[next] && Row(table[i].pid, tree[next]) !in table
    ensures Pending(table, tree + Children(table, tree[next], tree), next + 1, i, j)
  {
    ChildrenAre(table, tree[next], tree);
    var more := tree + Children(table, tree[next], tree);
    assert more[..next + 1] == tree[..next] + [tree[next]];
  }

  lemma ScannedTwice(table: seq<Row>, roots: set<Pid>, tree: seq<Pid>, next: nat, i: nat, j: nat)
    requires next < |tree| && Scanned(table, roots, tree, next) && Pending(table, tree, next, i, j)
    requires table[i].parent == tree[next]
    ensures !Distinct(Grown(table, tree, next))
  {
    var children := Children(table, tree[next], tree);
    GrowthShrinks(table, tree[next], tree);
    ScansOneMore(table, roots, tree, next);
    GrownScans(table, roots, tree + children, next + 1);
    ListedTwice(table, tree[next], tree, i, j);
    ExtendedNotDistinct(tree, children, Grown(table, tree, next));
  }

  lemma NotScannedYet(tree: seq<Pid>, next: nat, all: seq<Pid>, n: nat)
    requires next <= |tree| && tree <= all && n < |all| && all[n] !in tree[..next]
    ensures next <= n
  {
    forall k | 0 <= k < next ensures all[k] in tree[..next] {
      assert tree[..next][k] == all[k];
    }
  }

  lemma {:induction false} RepeatDuplicates(table: seq<Row>, roots: set<Pid>, tree: seq<Pid>, next: nat,
                                            i: nat, j: nat, n: nat)
    requires next <= |tree| && Scanned(table, roots, tree, next) && Pending(table, tree, next, i, j)
    requires Adopts(table, Grown(table, tree, next), n, table[i].pid) && table[i].parent == Grown(table, tree, next)[n]
    ensures !Distinct(Grown(table, tree, next))
    decreases Outside(table, tree), |tree| - next
  {
    var all := Grown(table, tree, next);
    assert tree[..|tree|] == tree;
    GrownScans(table, roots, tree, next);
    NotScannedYet(tree, next, all, n);
    assert next <= n < |all| && next < |tree|;
    assert all[next] == tree[next];
    if n == next {
      ScannedTwice(table, roots, tree, next, i, j);
    } else {
      assert Row(table[i].pid, all[next]) !in table && table[i] in table;
      GrowthShrinks(table, tree[next], tree);
      ScansOneMore(table, roots, tree, next);
      StaysPending(table, tree, next, i, j);
      RepeatDuplicates(table, roots, tree + Children(table, tree[next], tree), next + 1, i, j, n);
    }
  }

  /**
   The guard's tree names none twice exactly when the table lists no process twice
   under the parent that comes first in the tree: children are collected against
   the tree as it was before the scan of their parent.
   */
  lemma TreeDistinctExactly(table: seq<Row>, root: Pid)
    ensures var tree := Grown(table, [root], 0);
      Distinct(tree) <==> forall i: nat, j: nat, n: nat :: !AdoptedTwice(table, root, tree, i, j, n)
  {
    var tree := Grown(table, [root], 0);
    RootReached(table, {root}, root);
    if i: nat, j: nat, n: nat :| AdoptedTwice(table, root, tree, i, j, n) {
      RepeatDuplicates(table, {root}, [root], 0, i, j, n);
    } else {
      GrownDistinct(table, root, [root], 0);
    }
  }

  /** Every process has one parent, as `ps` lists them. */
  ghost predicate OneParent(table: seq<Row>) {
    forall a, b | a in table && b in table && a.pid == b.pid :: a == b
  }

  /** With one parent for each process, that is when no row of a process under the root is repeated. */
  lemma OneParentDistinctExactly(table: seq<Row>, root: Pid)
    requires OneParent(table)
    ensures Distinct(Grown(table, [root], 0)) <==> forall i: nat, j: nat :: !Repeats(table, root, i, j)
  {
    var tree := Grown(table, [root], 0);
    TreeDistinctExactly(table, root);
    GrownIsTheTree(table, root);
    forall i: nat, j: nat, n: nat | AdoptedTwice(table, root, tree, i, j, n) ensures Repeats(table, root, i, j) {
      assert tree[n] in tree;
    }
    forall i: nat, j: nat | Repeats(table, root, i, j) ensures exists n: nat :: AdoptedTwice(table, root, tree, i, j, n) {
      FirstIn(tree, table[i].parent);
      var n: nat :| IsFirst(tree, table[i].parent, n);
      assert table[i] in table;
      assert AdoptedTwice(table, root, tree, i, j, n);
    }
  }

  ghost predicate IsFirst(tree: seq<Pid>, pid: Pid, n: nat) {
    n < |tree| && tree[n] == pid && forall k | 0 <= k < n :: tree[k] != pid
  }

  lemma {:induction false} FirstIn(tree: seq<Pid>, pid: Pid)
    requires pid in tree
    ensures exists n: nat :: IsFirst(tree, pid, n)
  {
    var last := |tree| - 1;
    if pid in tree[..last] {
      FirstIn(tree[..last], pid);
      var n: nat :| IsFirst(tree[..last], pid, n);
      assert IsFirst(tree, pid, n);
    } else {
      forall k | 0 <= k < last ensures tree[k] != pid {
        assert tree[..last][k] == tree[k];
      }
      assert IsFirst(tree, pid, last);
    }
  }

  lemma {:induction false} NoneLeft(table: seq<Row>, parent: Pid, tree: seq<Pid>)
    requires forall row | row in table :: row.pid in tree
    ensures Children(table, parent, tree) == []
  {
    if table != [] {
      NoneLeft(table[1..], parent, tree);
    }
  }

  /** Two parents and a repeated row, and still no process named twice: its first parent lists it once. */
  lemma RepeatedElsewhere()
    ensures var table := [Row(2, 1), Row(3, 1), Row(2, 3), Row(2, 3)];
      Grown(table, [1], 0) == [1, 2, 3] && Repeats(table, 1, 2, 3)
  {
    var rest := [Row(2, 3), Row(2, 3)];
    var table := [Row(2, 1), Row(3, 1)] + rest;
    assert table == [Row(2, 1), Row(3, 1), Row(2, 3), Row(2, 3)];
    assert table[1..] == [Row(3, 1)] + rest && table[1..][1..] == rest && rest[1..] == [Row(2, 3)];
    assert Children(rest, 1, [1]) == [];
    assert Children(table[1..], 1, [1]) == [3];
    assert Children(table, 1, [1]) == [2, 3] && [1] + [2, 3] == [1, 2, 3];
    var tree: seq<Pid> := [1, 2, 3];
    forall parent ensures Children(table, parent, tree) == [] {
      NoneLeft(table, parent, tree);
    }
    assert tree + [] == tree;
    assert Grown(table, tree, 1) == Grown(table, tree, 2) == Grown(table, tree, 3);
    RootReached(table, {1}, 1);
    ChildReached(table, {1}, Row(3, 1));
  }

  /** A row printed twice is a process signalled twice. */
  lemma RepeatedRow()
    ensures Grown([Row(2, 1), Row(2, 1)], [1], 0) == [1, 2, 2]
  {
    var table := [Row(2, 1), Row(2, 1)];
    assert table[1..] == [Row(2, 1)];
    assert Children(table, 1, [1]) == [2, 2];
    assert Children(table, 2, [1, 2, 2]) == [];
    assert [1] + [2, 2] == [1, 2, 2] && [1, 2, 2] + [] == [1, 2, 2];
    assert Grown(table, [1, 2, 2], 1) == Grown(table, [1, 2, 2], 2) == Grown(table, [1, 2, 2], 3);
  }

  // --- The processes under a root, by a stack ---

  /** What the stack scan keeps: all it named is under the root; the scanned ones' children are named. */
  ghost predicate Climbed(table: seq<Row>, root: Pid, under: seq<Pid>, todo: seq<Pid>) {
    && Distinct(under) && root !in under
    && (forall pid | pid in under :: Reaches(table, {root}, pid))
    && (forall pid | pid in todo :: pid in under || pid == root)
    && (forall row | row in table && (row.parent in under || row.parent == root) && row.parent !in todo ::
          row.pid in under || row.pid == root)
  }

  /** In the middle of a scan: `parent` is off the stack, its children in the first `upTo` rows named. */
  ghost predicate Climbing(table: seq<Row>, root: Pid, under: seq<Pid>, todo: seq<Pid>, parent: Pid, upTo: nat)
    requires upTo <= |table|
  {
    && (parent in under || parent == root)
    && Climbed(table, root, under, todo + [parent])
    && (forall k | 0 <= k < upTo && table[k].parent == parent :: table[k].pid in under || table[k].pid == root)
  }

  lemma ClimbsOneRow(table: seq<Row>, root: Pid, under: seq<Pid>, todo: seq<Pid>, parent: Pid, k: nat)
    requires k < |table| && Climbing(table, root, under, todo, parent, k)
    requires table[k].parent == parent && table[k].pid != root && table[k].pid !in under
    ensures Climbing(table, root, under + [table[k].pid], todo + [table[k].pid], parent, k + 1)
  {
    RootReached(table, {root}, root);
    ChildReached(table, {root}, table[k]);
  }

  /** The e2e's scan: a stack of processes still to look under, and the list of those found. */
  method Under(table: seq<Row>, root: Pid) returns (under: seq<Pid>)
    ensures Distinct(under)
    ensures forall pid :: pid in under <==> pid != root && Reaches(table, {root}, pid)
  {
    under := [];
    var todo := [root];
    while todo != []
      invariant Climbed(table, root, under, todo)
      decreases Outside(table, under), |todo|
    {
      var parent := todo[|todo| - 1];
      assert todo == todo[..|todo| - 1] + [parent];
      todo := todo[..|todo| - 1];
      ghost var was, left := under, todo;
      for k := 0 to |table|
        invariant Climbing(table, root, under, todo, parent, k)
        invariant was <= under
        invariant if under == was then todo == left else Outside(table, under) < Outside(table, was)
      {
        var row := table[k];
        if row.parent == parent && row.pid != root && row.pid !in under {
          ClimbsOneRow(table, root, under, todo, parent, k);
          assert row in table && row.pid in under + [row.pid] && row.pid !in was;
          OutsideShrinks(table, was, under + [row.pid]);
          under := under + [row.pid];
          todo := todo + [row.pid];
        }
      }
      PopsParent(table, root, under, todo, parent);
    }
    ClimbedIsUnder(table, root, under);
  }

  lemma PopsParent(table: seq<Row>, root: Pid, under: seq<Pid>, todo: seq<Pid>, parent: Pid)
    requires Climbing(table, root, under, todo, parent, |table|)
    ensures Climbed(table, root, under, todo)
  {
    forall row | row in table && (row.parent in under || row.parent == root) && row.parent !in todo
      ensures row.pid in under || row.pid == root
    {
      if row.parent == parent {
        var k :| 0 <= k < |table| && table[k] == row;
      }
    }
  }

  lemma ClimbedIsUnder(table: seq<Row>, root: Pid, under: seq<Pid>)
    requires Climbed(table, root, under, [])
    ensures forall pid :: pid in under <==> pid != root && Reaches(table, {root}, pid)
  {
    RootReached(table, {root}, root);
    ClosedIsReachable(table, {root}, Members(under) + {root});
  }

  /** The guard's tree is the e2e's processes under the root, and the root. */
  method TreeAndUnder(table: seq<Row>, root: Pid) returns (tree: seq<Pid>, under: seq<Pid>)
    ensures tree == Grown(table, [root], 0)
    ensures Members(tree) == Members(under) + {root} && root !in under
  {
    tree := GuestTree(table, root);
    under := Under(table, root);
  }

  // --- The simulators' processes ---

  datatype Process = Process(pid: Pid, parent: Pid, name: string)

  function Rows(processes: seq<Process>): seq<Row> {
    seq(|processes|, i requires 0 <= i < |processes| => Row(processes[i].pid, processes[i].parent))
  }

  /** The simulators' launch daemons, in the list's order. */
  function Launchers(processes: seq<Process>): seq<Pid> {
    if processes == [] then []
    else
      var before, last := Launchers(processes[..|processes| - 1]), processes[|processes| - 1];
      if last.name == "launchd_sim" then before + [last.pid] else before
  }

  predicate IsLauncher(process: Process) {
    process.name == "launchd_sim"
  }

  function PidOf(process: Process): Pid {
    process.pid
  }

  /** They are the pids of all processes of that name, in the list's order. */
  lemma {:induction false} LaunchersListed(processes: seq<Process>) returns (at: seq<nat>)
    ensures Picks(processes, IsLauncher, PidOf, at, Launchers(processes))
  {
    at := [];
    if processes != [] {
      var n := |processes| - 1;
      at := LaunchersListed(processes[..n]);
      PicksOn(processes[..n], IsLauncher, PidOf, at, Launchers(processes[..n]), processes);
      at := if IsLauncher(processes[n]) then at + [n] else at;
    }
  }

  ghost predicate AfterParent(table: seq<Row>, held: seq<Pid>, k: nat)
    requires k < |held|
  {
    exists j :: 0 <= j < k && Row(held[k], held[j]) in table
  }

  /** Every member past the roots comes after its parent. */
  ghost predicate ParentsFirst(table: seq<Row>, roots: nat, held: seq<Pid>) {
    forall k: nat | roots <= k < |held| :: AfterParent(table, held, k)
  }

  /** What the scan keeps of its list. */
  ghost predicate Kept(table: seq<Row>, roots: seq<Pid>, held: seq<Pid>) {
    && roots <= held
    && (Distinct(roots) ==> Distinct(held))
    && ParentsFirst(table, |roots|, held)
  }

  /** In the middle of the member at `next`, its children in the first `upTo` rows are held. */
  ghost predicate Holding(table: seq<Row>, roots: seq<Pid>, held: seq<Pid>, next: nat, upTo: nat)
    requires next < |held| && upTo <= |table|
  {
    && Scanned(table, Members(roots), held, next)
    && forall k | 0 <= k < upTo && table[k].parent == held[next] :: table[k].pid in held
  }

  lemma KeepsOneMore(table: seq<Row>, roots: seq<Pid>, held: seq<Pid>, next: nat, pid: Pid)
    requires next < |held| && Kept(table, roots, held)
    requires Row(pid, held[next]) in table && pid !in held
    ensures Kept(table, roots, held + [pid])
  {
    var more := held + [pid];
    forall n: nat | |roots| <= n < |more| ensures AfterParent(table, more, n) {
      if n < |held| {
        assert AfterParent(table, held, n);
        var j :| 0 <= j < n && Row(held[n], held[j]) in table;
        assert more[n] == held[n] && more[j] == held[j];
      } else {
        assert more[n] == pid && more[next] == held[next];
      }
    }
    if Distinct(roots) {
      JoinDistinct(held, [pid]);
    }
  }

  lemma HoldsOneMore(table: seq<Row>, roots: seq<Pid>, held: seq<Pid>, next: nat, k: nat)
    requires next < |held| && k < |table| && Holding(table, roots, held, next, k)
    requires table[k].parent == held[next] && table[k].pid !in held
    ensures Holding(table, roots, held + [table[k].pid], next, k + 1)
  {
    assert held[next] in held;
    ChildReached(table, Members(roots), table[k]);
    var more := held + [table[k].pid];
    assert forall j | 0 <= j <= next :: more[j] == held[j];
    forall j, row | 0 <= j < next && row in table && row.parent == more[j] ensures row.pid in more {
      assert row.parent == held[j];
    }
  }

  lemma ScannedMember(table: seq<Row>, roots: seq<Pid>, held: seq<Pid>, next: nat)
    requires next < |held| && Holding(table, roots, held, next, |table|)
    ensures Scanned(table, Members(roots), held, next + 1)
  {
    forall row | row in table && row.parent == held[next] ensures row.pid in held {
      var k :| 0 <= k < |table| && table[k] == row;
    }
  }

  /** Each simulator and every process under one, the roots first and every parent before its children. */
  method SimulatorsProcesses(processes: seq<Process>) returns (held: seq<Pid>)
    ensures exists at :: Picks(processes, IsLauncher, PidOf, at, Launchers(processes))
    ensures Launchers(processes) <= held
    ensures ParentsFirst(Rows(processes), |Launchers(processes)|, held)
    ensures Distinct(Launchers(processes)) ==> Distinct(held)
    ensures forall pid :: pid in held <==> Reaches(Rows(processes), Members(Launchers(processes)), pid)
  {
    var roots := Launchers(processes);
    ghost var at := LaunchersListed(processes);
    ghost var table := Rows(processes);
    held := roots;
    var next := 0;
    forall pid | pid in roots ensures Reaches(table, Members(roots), pid) {
      RootReached(table, Members(roots), pid);
    }
    while next < |held|
      invariant next <= |held| && Kept(table, roots, held)
      invariant Scanned(table, Members(roots), held, next)
      decreases Outside(table, held), |held| - next
    {
      ghost var was := held;
      var parent := held[next];
      for k := 0 to |processes|
        invariant was <= held && held[next] == parent
        invariant Kept(table, roots, held) && Holding(table, roots, held, next, k)
        invariant held != was ==> Outside(table, held) < Outside(table, was)
      {
        var pid := processes[k].pid;
        if processes[k].parent == parent && pid !in held {
          assert table[k] in table && table[k] == Row(pid, parent);
          KeepsOneMore(table, roots, held, next, pid);
          HoldsOneMore(table, roots, held, next, k);
          TakesOneMore(table, was, held, table[k]);
          held := held + [pid];
        }
      }
      ScannedMember(table, roots, held, next);
      next := next + 1;
    }
    ScannedIsReachable(table, Members(roots), held);
  }

  lemma TakesOneMore(table: seq<Row>, was: seq<Pid>, held: seq<Pid>, row: Row)
    requires row in table && was <= held && row.pid !in held
    ensures Outside(table, held + [row.pid]) < Outside(table, was)
  {
    assert row.pid in held + [row.pid];
    assert forall pid | pid in was :: pid in held;
    OutsideShrinks(table, was, held + [row.pid]);
  }
}
