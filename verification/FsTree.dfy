/**
 * The file system of kernel/fs.c as a tree of numbered nodes, and what creating, removing and
 * renaming do to the set of paths that lead somewhere.
 */
module FsTree {
  import opened Wrappers
  import opened FsFormat

  datatype Node = Dir(entries: seq<Entry>) | File(data: seq<byte>)

  /** The inodes in use. */
  type Tree = map<nat, Node>

  /** A path as a list of components, "." and ".." already resolved. */
  type Path = seq<Name>

  const ROOT: nat := 0

  function Child(t: Tree, p: nat, x: Name): Option<nat> {
    if p in t && t[p].Dir? then Find(t[p].entries, x) else None
  }

  /** The node reached from `i` along `c`. */
  function Walk(t: Tree, i: nat, c: Path): Option<nat>
    decreases |c|
  {
    if c == [] then Some(i)
    else match Child(t, i, c[0]) case None => None case Some(j) => Walk(t, j, c[1..])
  }

  function Lookup(t: Tree, c: Path): Option<nat> {
    Walk(t, ROOT, c)
  }

  ghost predicate Distinct(es: seq<Entry>) {
    forall i, j | 0 <= i < j < |es| :: es[i].name != es[j].name
  }

  /** A directory's entries fit the format, have distinct names and lead to nodes other than the root. */
  ghost predicate DirOk(t: Tree, p: nat) {
    p in t && t[p].Dir? ==>
      && AllOk(t[p].entries) && Distinct(t[p].entries)
      && forall i | 0 <= i < |t[p].entries| :: t[p].entries[i].ino in t && t[p].entries[i].ino != ROOT
  }

  /** No node is referenced from two places, and the root from none. */
  ghost predicate Once(t: Tree) {
    && (forall p: nat, x: Name :: Child(t, p, x) != Some(ROOT))
    && (forall p: nat, x: Name, q: nat, y: Name | Child(t, p, x).Some? && Child(t, p, x) == Child(t, q, y) :: p == q && x == y)
  }

  ghost predicate Reachable(t: Tree, n: nat) {
    exists c :: Lookup(t, c) == Some(n)
  }

  /**
   * The root is a directory, every directory is sound, every node in use is referenced
   * exactly once, the root excepted, and every node can be reached.
   */
  ghost predicate TreeOk(t: Tree) {
    && ROOT in t && t[ROOT].Dir?
    && (forall p: nat {:trigger DirOk(t, p)} :: DirOk(t, p))
    && Once(t)
    && (forall n | n in t :: Reachable(t, n))
  }

  // ---- walking ----

  lemma {:induction false} WalkAppend(t: Tree, i: nat, a: Path, b: Path)
    ensures Walk(t, i, a + b) == (match Walk(t, i, a) case None => None case Some(j) => Walk(t, j, b))
    decreases |a|
  {
    if a == [] {
      assert a + b == b;
    } else {
      assert (a + b)[1..] == a[1..] + b;
      match Child(t, i, a[0])
      case None =>
      case Some(j) => WalkAppend(t, j, a[1..], b);
    }
  }

  lemma WalkLast(t: Tree, i: nat, a: Path, x: Name)
    ensures Walk(t, i, a + [x]) == (match Walk(t, i, a) case None => None case Some(j) => Child(t, j, x))
  {
    WalkAppend(t, i, a, [x]);
    match Walk(t, i, a)
    case None =>
    case Some(j) =>
      match Child(t, j, x)
      case None =>
      case Some(k) => assert Walk(t, k, []) == Some(k);
  }

  /** Only one path leads to a node. */
  lemma {:induction false} PathUnique(t: Tree, c: Path, d: Path)
    requires Once(t) && Lookup(t, c).Some? && Lookup(t, c) == Lookup(t, d)
    ensures c == d
    decreases |c| + |d|
  {
    if c != [] {
      SplitLast(t, c);
    }
    if d != [] {
      SplitLast(t, d);
    }
    if c != [] && d != [] {
      PathUnique(t, c[..|c| - 1], d[..|d| - 1]);
    }
  }

  /** The last step of a successful lookup. */
  lemma SplitLast(t: Tree, c: Path)
    requires c != [] && Lookup(t, c).Some?
    ensures c == c[..|c| - 1] + [c[|c| - 1]]
    ensures Lookup(t, c[..|c| - 1]).Some?
    ensures Lookup(t, c) == Child(t, Lookup(t, c[..|c| - 1]).value, c[|c| - 1])
  {
    WalkLast(t, ROOT, c[..|c| - 1], c[|c| - 1]);
    assert c == c[..|c| - 1] + [c[|c| - 1]];
  }

  // ---- changing one reference ----

  /** The trees agree on every reference but the one called `x` in directory `p`. */
  ghost predicate SameExcept(t: Tree, t': Tree, p: nat, x: Name) {
    forall q: nat, y: Name | q != p || y != x :: Child(t', q, y) == Child(t, q, y)
  }

  lemma {:induction false} WalkSame(t: Tree, t': Tree, p: nat, x: Name, i: nat, c: Path)
    requires SameExcept(t, t', p, x)
    requires forall k | 0 <= k < |c| :: Walk(t, i, c[..k]) == Some(p) ==> c[k] != x
    ensures Walk(t', i, c) == Walk(t, i, c)
    decreases |c|
  {
    if c != [] {
      assert Walk(t, i, c[..0]) == Some(i);
      assert Child(t', i, c[0]) == Child(t, i, c[0]);
      if Child(t, i, c[0]).Some? {
        var j := Child(t, i, c[0]).value;
        forall k | 0 <= k < |c[1..]|
          ensures Walk(t, j, c[1..][..k]) == Some(p) ==> c[1..][k] != x
        {
          assert c[..k + 1][0] == c[0] && c[..k + 1][1..] == c[1..][..k];
          assert Walk(t, i, c[..k + 1]) == Walk(t, j, c[1..][..k]);
        }
        WalkSame(t, t', p, x, j, c[1..]);
      }
    }
  }

  lemma StepOf(c: Path, k: nat, x: Name)
    requires k < |c|
    ensures c[k] == x ==> c[..k] + [x] <= c
  {
    assert c[..k] + [c[k]] == c[..k + 1];
  }

  /** Paths that do not go through the changed reference lead where they led. */
  lemma LookupOther(t: Tree, t': Tree, p: nat, x: Name, pp: Path, c: Path)
    requires Once(t) && SameExcept(t, t', p, x) && Lookup(t, pp) == Some(p) && !(pp + [x] <= c)
    ensures Lookup(t', c) == Lookup(t, c)
  {
    forall k | 0 <= k < |c|
      ensures Walk(t, ROOT, c[..k]) == Some(p) ==> c[k] != x
    {
      if Walk(t, ROOT, c[..k]) == Some(p) {
        PathUnique(t, c[..k], pp);
        StepOf(c, k, x);
      }
    }
    WalkSame(t, t', p, x, ROOT, c);
  }

  /** Paths that do go through it follow the new reference. */
  lemma LookupThrough(t: Tree, t': Tree, p: nat, x: Name, pp: Path, c: Path)
    requires Once(t) && SameExcept(t, t', p, x) && Lookup(t, pp) == Some(p) && pp + [x] <= c
    ensures Lookup(t', c) == (match Child(t', p, x) case None => None case Some(j) => Walk(t', j, c[|pp| + 1..]))
    ensures Lookup(t, c) == (match Child(t, p, x) case None => None case Some(j) => Walk(t, j, c[|pp| + 1..]))
  {
    LookupOther(t, t', p, x, pp, pp);
    assert c == (pp + [x]) + c[|pp| + 1..];
    WalkAppend(t', ROOT, pp + [x], c[|pp| + 1..]);
    WalkAppend(t, ROOT, pp + [x], c[|pp| + 1..]);
    WalkLast(t', ROOT, pp, x);
    WalkLast(t, ROOT, pp, x);
  }

  // ---- creating ----

  /** The tree after node `n` has been entered in directory `p` as `x`. */
  function Linked(t: Tree, p: nat, x: Name, n: nat): Tree
    requires p in t && t[p].Dir?
  {
    t[p := Dir(t[p].entries + [Entry(n, x)])]
  }

  lemma {:induction false} FindAppend(es: seq<Entry>, e: Entry, y: Name)
    ensures Find(es + [e], y) == if Find(es, y).Some? then Find(es, y) else if e.name == y then Some(e.ino) else None
  {
    if es != [] {
      assert (es + [e])[1..] == es[1..] + [e];
      FindAppend(es[1..], e, y);
    }
  }

  lemma {:induction false} FindSound(es: seq<Entry>, x: Name)
    ensures match Find(es, x)
            case None => forall i | 0 <= i < |es| :: es[i].name != x
            case Some(n) => exists i :: 0 <= i < |es| && es[i] == Entry(n, x)
  {
    if es != [] && es[0].name != x {
      FindSound(es[1..], x);
      match Find(es[1..], x)
      case None =>
      case Some(n) =>
        var i :| 0 <= i < |es[1..]| && es[1..][i] == Entry(n, x);
        assert es[i + 1] == Entry(n, x);
    } else if es != [] {
      assert es[0] == Entry(es[0].ino, x);
    }
  }

  lemma LinkedChildren(t: Tree, p: nat, x: Name, n: nat)
    requires p in t && t[p].Dir? && Child(t, p, x) == None
    ensures SameExcept(t, Linked(t, p, x, n), p, x) && Child(Linked(t, p, x, n), p, x) == Some(n)
  {
    forall y: Name
      ensures y != x ==> Child(Linked(t, p, x, n), p, y) == Child(t, p, y)
      ensures Child(Linked(t, p, x, n), p, x) == Some(n)
    {
      FindAppend(t[p].entries, Entry(n, x), y);
      FindAppend(t[p].entries, Entry(n, x), x);
    }
  }

  /** A new, childless node has been created in directory `p` as `x`. */
  function Created(t: Tree, p: nat, x: Name, n: nat, node: Node): Tree
    requires p in t && t[p].Dir?
  {
    Linked(t, p, x, n)[n := node]
  }

  /** Creating adds exactly one path. */
  lemma CreateAddsOnePath(t: Tree, p: nat, x: Name, n: nat, node: Node, pp: Path, c: Path)
    requires TreeOk(t) && Lookup(t, pp) == Some(p) && p in t && t[p].Dir? && Child(t, p, x) == None
    requires n !in t && (node.Dir? ==> node.entries == [])
    ensures Lookup(Created(t, p, x, n, node), c) == if c == pp + [x] then Some(n) else Lookup(t, c)
  {
    var t' := Created(t, p, x, n, node);
    CreatedChildren(t, p, x, n, node);
    if pp + [x] <= c {
      LookupThrough(t, t', p, x, pp, c);
      var rest := c[|pp| + 1..];
      assert c == pp + [x] + rest;
      if rest != [] { assert Child(t', n, rest[0]) == None; }
    } else {
      LookupOther(t, t', p, x, pp, c);
    }
  }

  lemma CreatedChildren(t: Tree, p: nat, x: Name, n: nat, node: Node)
    requires p in t && t[p].Dir? && Child(t, p, x) == None
    requires n !in t && (node.Dir? ==> node.entries == [])
    ensures var t' := Created(t, p, x, n, node);
            && SameExcept(t, t', p, x) && Child(t', p, x) == Some(n)
            && forall y: Name :: Child(t', n, y) == None
  {
    LinkedChildren(t, p, x, n);
    var t' := Created(t, p, x, n, node);
    forall q: nat, y: Name
      ensures q != n ==> Child(t', q, y) == Child(Linked(t, p, x, n), q, y)
      ensures Child(t', n, y) == None
    {
    }
  }

  lemma CreateKeepsTree(t: Tree, p: nat, x: Name, n: nat, node: Node, pp: Path)
    requires TreeOk(t) && Lookup(t, pp) == Some(p) && p in t && t[p].Dir? && Child(t, p, x) == None
    requires n !in t && n < 0x1_0000 && (node.Dir? ==> node.entries == []) && 0 < |x| < MAX_NAME
    ensures TreeOk(Created(t, p, x, n, node))
  {
    var t' := Created(t, p, x, n, node);
    CreatedChildren(t, p, x, n, node);
    CreateKeepsDirs(t, p, x, n, node);
    CreateKeepsOnce(t, p, x, n, node);
    forall m | m in t'
      ensures Reachable(t', m)
    {
      var c := if m == n then pp + [x] else PathTo(t, m);
      CreateAddsOnePath(t, p, x, n, node, pp, c);
      WalkLast(t, ROOT, pp, x);
      assert Lookup(t', c) == Some(m);
    }
  }

  /** A path that leads to `n`. */
  ghost function PathTo(t: Tree, n: nat): (c: Path)
    requires Reachable(t, n)
    ensures Lookup(t, c) == Some(n)
  {
    var c :| Lookup(t, c) == Some(n); c
  }

  /** Whatever a path leads to is in use. */
  lemma WalkInTree(t: Tree, c: Path)
    requires TreeOk(t)
    ensures Lookup(t, c).Some? ==> Lookup(t, c).value in t
  {
    if c != [] && Lookup(t, c).Some? {
      SplitLast(t, c);
      ChildInTree(t, Lookup(t, c[..|c| - 1]).value, c[|c| - 1]);
    }
  }

  lemma ChildInTree(t: Tree, p: nat, x: Name)
    requires TreeOk(t)
    ensures Child(t, p, x).Some? ==> Child(t, p, x).value in t
  {
    assert DirOk(t, p);
    if p in t && t[p].Dir? {
      FindSound(t[p].entries, x);
    }
  }

  lemma CreateKeepsDirs(t: Tree, p: nat, x: Name, n: nat, node: Node)
    requires TreeOk(t) && p in t && t[p].Dir? && Child(t, p, x) == None
    requires n !in t && n < 0x1_0000 && (node.Dir? ==> node.entries == []) && 0 < |x| < MAX_NAME
    ensures forall q: nat {:trigger DirOk(Created(t, p, x, n, node), q)} :: DirOk(Created(t, p, x, n, node), q)
  {
    forall q: nat
      ensures DirOk(Created(t, p, x, n, node), q)
    {
      assert DirOk(t, q);
      if q == p { FindSound(t[p].entries, x); }
    }
  }

  lemma CreateKeepsOnce(t: Tree, p: nat, x: Name, n: nat, node: Node)
    requires TreeOk(t) && p in t && t[p].Dir? && Child(t, p, x) == None
    requires n !in t && (node.Dir? ==> node.entries == [])
    ensures Once(Created(t, p, x, n, node))
  {
    CreatedChildren(t, p, x, n, node);
    var t' := Created(t, p, x, n, node);
    forall q: nat, y: Name
      ensures Child(t, q, y) != Some(n)
    {
      ChildInTree(t, q, y);
    }
    LinkKeepsOnce(t, t', p, x, n);
  }

  /** A reference to a node that had none leaves every node with at most one. */
  lemma LinkKeepsOnce(t: Tree, t': Tree, p: nat, x: Name, n: nat)
    requires Once(t) && SameExcept(t, t', p, x) && Child(t', p, x) == Some(n) && n != ROOT
    requires forall q: nat, y: Name :: Child(t, q, y) != Some(n)
    ensures Once(t')
  {
    forall q: nat, y: Name
      ensures Child(t', q, y) != Some(ROOT)
    {
      if q != p || y != x { assert Child(t', q, y) == Child(t, q, y); }
    }
    forall q: nat, y: Name, r: nat, z: Name | Child(t', q, y).Some? && Child(t', q, y) == Child(t', r, z)
      ensures q == r && y == z
    {
      if q != p || y != x { assert Child(t', q, y) == Child(t, q, y); }
      if r != p || z != x { assert Child(t', r, z) == Child(t, r, z); }
    }
  }

  // ---- removing ----

  /** The tree after the entry `x` of directory `p` has been taken out; the node it led to stays. */
  function Unlinked(t: Tree, p: nat, x: Name): Tree
    requires p in t && t[p].Dir?
  {
    t[p := Dir(Without(t[p].entries, x))]
  }

  lemma {:induction false} FindWithout(es: seq<Entry>, x: Name, y: Name)
    requires Distinct(es)
    ensures Find(Without(es, x), y) == if y == x then None else Find(es, y)
  {
    if es != [] {
      if es[0].name != x {
        FindWithout(es[1..], x, y);
      } else if y == x {
        FindSound(es[1..], x);
        assert forall i | 0 <= i < |es[1..]| :: es[1..][i].name != x;
      }
    }
  }

  lemma {:induction false} WithoutOk(es: seq<Entry>, x: Name)
    requires Distinct(es)
    ensures Distinct(Without(es, x)) && forall e | e in Without(es, x) :: e in es && e.name != x
  {
    if es != [] && es[0].name == x {
      forall e | e in es[1..]
        ensures e.name != x
      {
        var i :| 0 <= i < |es[1..]| && es[1..][i] == e;
        assert es[i + 1] == e;
      }
    } else if es != [] {
      WithoutOk(es[1..], x);
      var r := Without(es[1..], x);
      forall j | 0 <= j < |r|
        ensures r[j].name != es[0].name
      {
        assert r[j] in es[1..];
      }
    }
  }

  lemma UnlinkedChildren(t: Tree, p: nat, x: Name)
    requires p in t && t[p].Dir? && DirOk(t, p)
    ensures SameExcept(t, Unlinked(t, p, x), p, x) && Child(Unlinked(t, p, x), p, x) == None
  {
    forall y: Name
      ensures Child(Unlinked(t, p, x), p, y) == if y == x then None else Child(t, p, y)
    {
      FindWithout(t[p].entries, x, y);
    }
  }

  /** A childless node is removed: its entry is taken out and its inode freed. */
  function Removed(t: Tree, p: nat, x: Name, n: nat): Tree
    requires p in t && t[p].Dir?
  {
    Unlinked(t, p, x) - {n}
  }

  predicate Childless(t: Tree, n: nat) {
    n in t && (t[n].Dir? ==> t[n].entries == [])
  }

  lemma RemovedChildren(t: Tree, p: nat, x: Name, n: nat)
    requires TreeOk(t) && p in t && t[p].Dir? && Child(t, p, x) == Some(n) && Childless(t, n)
    ensures n != p
    ensures var t' := Removed(t, p, x, n);
            SameExcept(t, t', p, x) && Child(t', p, x) == None
  {
    assert DirOk(t, p);
    UnlinkedChildren(t, p, x);
    var t' := Removed(t, p, x, n);
    forall q: nat, y: Name
      ensures Child(t', q, y) == Child(Unlinked(t, p, x), q, y)
    {
    }
  }

  /** Removing takes away exactly one path. */
  lemma RemoveDropsOnePath(t: Tree, p: nat, x: Name, n: nat, pp: Path, c: Path)
    requires TreeOk(t) && Lookup(t, pp) == Some(p) && p in t && t[p].Dir? && Child(t, p, x) == Some(n) && Childless(t, n)
    ensures Lookup(t, pp + [x]) == Some(n)
    ensures Lookup(Removed(t, p, x, n), c) == if c == pp + [x] then None else Lookup(t, c)
  {
    var t' := Removed(t, p, x, n);
    RemovedChildren(t, p, x, n);
    WalkLast(t, ROOT, pp, x);
    if pp + [x] <= c {
      LookupThrough(t, t', p, x, pp, c);
      var rest := c[|pp| + 1..];
      assert c == pp + [x] + rest;
      if rest != [] { assert Child(t, n, rest[0]) == None; }
    } else {
      LookupOther(t, t', p, x, pp, c);
    }
  }

  lemma RemoveKeepsTree(t: Tree, p: nat, x: Name, n: nat, pp: Path)
    requires TreeOk(t) && Lookup(t, pp) == Some(p) && p in t && t[p].Dir? && Child(t, p, x) == Some(n) && Childless(t, n)
    ensures TreeOk(Removed(t, p, x, n))
  {
    var t' := Removed(t, p, x, n);
    RemovedChildren(t, p, x, n);
    forall q: nat
      ensures DirOk(t', q)
    {
      RemoveKeepsDir(t, p, x, n, q);
    }
    UnlinkKeepsOnce(t, t', p, x);
    forall m | m in t'
      ensures Reachable(t', m)
    {
      var c := PathTo(t, m);
      RemoveDropsOnePath(t, p, x, n, pp, c);
      assert Lookup(t', c) == Some(m);
    }
  }

  lemma RemoveKeepsDir(t: Tree, p: nat, x: Name, n: nat, q: nat)
    requires TreeOk(t) && p in t && t[p].Dir? && Child(t, p, x) == Some(n) && Childless(t, n)
    ensures DirOk(Removed(t, p, x, n), q)
  {
    var t' := Removed(t, p, x, n);
    RemovedChildren(t, p, x, n);
    assert DirOk(t, q);
    if q in t' && t'[q].Dir? {
      if q == p { WithoutOk(t[p].entries, x); }
      var es := t'[q].entries;
      assert Distinct(es);
      forall i | 0 <= i < |es|
        ensures EntryOk(es[i]) && es[i].ino in t' && es[i].ino != ROOT
      {
        assert es[i] in es && es[i] in t[q].entries;
        FindFirst(es, i);
        assert Child(t', q, es[i].name) == Child(t, q, es[i].name) == Some(es[i].ino);
      }
    }
  }

  /** With distinct names, every entry is found under its name. */
  lemma {:induction false} FindFirst(es: seq<Entry>, i: nat)
    requires Distinct(es) && i < |es|
    ensures Find(es, es[i].name) == Some(es[i].ino)
  {
    if i > 0 {
      assert es[0].name != es[i].name;
      FindFirst(es[1..], i - 1);
    }
  }

  lemma UnlinkKeepsOnce(t: Tree, t': Tree, p: nat, x: Name)
    requires Once(t) && SameExcept(t, t', p, x) && Child(t', p, x) == None
    ensures Once(t')
  {
    forall q: nat, y: Name
      ensures Child(t', q, y).Some? ==> Child(t', q, y) == Child(t, q, y)
    {
      if q != p || y != x { assert Child(t', q, y) == Child(t, q, y); }
    }
  }

  // ---- renaming ----

  /** The entry `x` of directory `p` moves to directory `q` under the name `y`. */
  function Renamed(t: Tree, p: nat, x: Name, q: nat, y: Name, n: nat): Tree
    requires p in t && t[p].Dir? && q in t && t[q].Dir?
  {
    Linked(Unlinked(t, p, x), q, y, n)
  }

  /** The situation in which `cgrtos_fs_rename` moves node `n` from `pp/x` to `qq/y`. */
  ghost predicate CanRename(t: Tree, p: nat, x: Name, pp: Path, q: nat, y: Name, qq: Path, n: nat) {
    && TreeOk(t) && p in t && t[p].Dir? && q in t && t[q].Dir?
    && Lookup(t, pp) == Some(p) && Child(t, p, x) == Some(n)
    && Lookup(t, qq) == Some(q) && Child(t, q, y) == None
    && !(pp + [x] <= qq)
  }

  lemma RenameSteps(t: Tree, p: nat, x: Name, pp: Path, q: nat, y: Name, qq: Path, n: nat)
    requires CanRename(t, p, x, pp, q, y, qq, n)
    ensures var t1 := Unlinked(t, p, x);
            var t2 := Renamed(t, p, x, q, y, n);
            && SameExcept(t, t1, p, x) && Child(t1, p, x) == None
            && SameExcept(t1, t2, q, y) && Child(t1, q, y) == None && Child(t2, q, y) == Some(n)
            && Once(t1) && Lookup(t1, qq) == Some(q)
  {
    var t1 := Unlinked(t, p, x);
    assert DirOk(t, p);
    UnlinkedChildren(t, p, x);
    UnlinkKeepsOnce(t, t1, p, x);
    LookupOther(t, t1, p, x, pp, qq);
    assert q != p || y != x ==> Child(t1, q, y) == Child(t, q, y);
    LinkedChildren(t1, q, y, n);
  }

  /** The moved subtree looks the same from its top. */
  lemma SubtreeSame(t: Tree, p: nat, x: Name, pp: Path, q: nat, y: Name, qq: Path, n: nat, rest: Path)
    requires CanRename(t, p, x, pp, q, y, qq, n)
    ensures Walk(Renamed(t, p, x, q, y, n), n, rest) == Walk(t, n, rest)
  {
    var t1 := Unlinked(t, p, x);
    RenameSteps(t, p, x, pp, q, y, qq, n);
    WalkLast(t, ROOT, pp, x);
    forall k | 0 <= k <= |rest|
      ensures Walk(t, n, rest[..k]) != Some(p) && Walk(t, n, rest[..k]) != Some(q)
    {
      NotBelow(t, pp + [x], n, rest[..k], p, pp);
      NotBelow(t, pp + [x], n, rest[..k], q, qq);
    }
    WalkSame(t, t1, p, x, n, rest);
    forall k | 0 <= k < |rest|
      ensures Walk(t1, n, rest[..k]) != Some(q)
    {
      forall j | 0 <= j < |rest[..k]|
        ensures Walk(t, n, rest[..k][..j]) != Some(p)
      {
        assert rest[..k][..j] == rest[..j];
      }
      WalkSame(t, t1, p, x, n, rest[..k]);
    }
    WalkSame(t1, Renamed(t, p, x, q, y, n), q, y, n, rest);
  }

  /** A node whose path does not start with `from` is not below the node at `from`. */
  lemma NotBelow(t: Tree, from: Path, n: nat, rest: Path, m: nat, mm: Path)
    requires Once(t) && Lookup(t, from) == Some(n) && Lookup(t, mm) == Some(m) && !(from <= mm)
    ensures Walk(t, n, rest) != Some(m)
  {
    WalkAppend(t, ROOT, from, rest);
    if Walk(t, n, rest) == Some(m) {
      PathUnique(t, from + rest, mm);
    }
  }

  /** Renaming moves every path under the first name to the second and leaves all others alone. */
  lemma RenameMovesSubtree(t: Tree, p: nat, x: Name, pp: Path, q: nat, y: Name, qq: Path, n: nat, c: Path)
    requires CanRename(t, p, x, pp, q, y, qq, n)
    ensures var from, to := pp + [x], qq + [y];
            Lookup(Renamed(t, p, x, q, y, n), c) ==
              if to <= c then Lookup(t, from + c[|to|..])
              else if from <= c then None
              else Lookup(t, c)
  {
    var t1, t2 := Unlinked(t, p, x), Renamed(t, p, x, q, y, n);
    var from, to := pp + [x], qq + [y];
    RenameSteps(t, p, x, pp, q, y, qq, n);
    if to <= c {
      LookupThrough(t1, t2, q, y, qq, c);
      SubtreeSame(t, p, x, pp, q, y, qq, n, c[|to|..]);
      WalkLast(t, ROOT, pp, x);
      WalkAppend(t, ROOT, from, c[|to|..]);
    } else {
      LookupOther(t1, t2, q, y, qq, c);
      if from <= c {
        LookupThrough(t, t1, p, x, pp, c);
      } else {
        LookupOther(t, t1, p, x, pp, c);
      }
    }
  }

  lemma RenameKeepsTree(t: Tree, p: nat, x: Name, pp: Path, q: nat, y: Name, qq: Path, n: nat)
    requires CanRename(t, p, x, pp, q, y, qq, n) && 0 < |y| < MAX_NAME
    ensures TreeOk(Renamed(t, p, x, q, y, n))
  {
    var t1, t2 := Unlinked(t, p, x), Renamed(t, p, x, q, y, n);
    RenameSteps(t, p, x, pp, q, y, qq, n);
    forall r: nat
      ensures DirOk(t2, r)
    {
      RenameKeepsDir(t, p, x, pp, q, y, qq, n, r);
    }
    forall r: nat, z: Name
      ensures Child(t1, r, z) != Some(n)
    {
      if r != p || z != x { assert Child(t1, r, z) == Child(t, r, z); }
    }
    LinkKeepsOnce(t1, t2, q, y, n);
    forall m | m in t2
      ensures Reachable(t2, m)
    {
      RenameReach(t, p, x, pp, q, y, qq, n, m);
    }
  }

  lemma RenameReach(t: Tree, p: nat, x: Name, pp: Path, q: nat, y: Name, qq: Path, n: nat, m: nat)
    requires CanRename(t, p, x, pp, q, y, qq, n) && m in t
    ensures Reachable(Renamed(t, p, x, q, y, n), m)
  {
    var from, to := pp + [x], qq + [y];
    var c := PathTo(t, m);
    var d := if from <= c then to + c[|from|..] else c;
    RenameMovesSubtree(t, p, x, pp, q, y, qq, n, d);
    if from <= c {
      assert d[|to|..] == c[|from|..] && from + c[|from|..] == c;
    } else if to <= c {
      LookupThroughNone(t, q, y, qq, c);
    }
    assert Lookup(Renamed(t, p, x, q, y, n), d) == Some(m);
  }

  lemma LookupThroughNone(t: Tree, q: nat, y: Name, qq: Path, c: Path)
    requires Lookup(t, qq) == Some(q) && Child(t, q, y) == None
    ensures qq + [y] <= c ==> Lookup(t, c) == None
  {
    if qq + [y] <= c {
      WalkLast(t, ROOT, qq, y);
      assert c == (qq + [y]) + c[|qq| + 1..];
      WalkAppend(t, ROOT, qq + [y], c[|qq| + 1..]);
    }
  }

  lemma RenameKeepsDir(t: Tree, p: nat, x: Name, pp: Path, q: nat, y: Name, qq: Path, n: nat, r: nat)
    requires CanRename(t, p, x, pp, q, y, qq, n) && 0 < |y| < MAX_NAME
    ensures DirOk(Renamed(t, p, x, q, y, n), r)
  {
    var t1 := Unlinked(t, p, x);
    RenameSteps(t, p, x, pp, q, y, qq, n);
    ChildInTree(t, p, x);
    assert DirOk(t, p);
    FindSound(t[p].entries, x);
    UnlinkKeepsDir(t, p, x, r);
    LinkKeepsDir(t1, q, y, n, r);
  }

  lemma UnlinkKeepsDir(t: Tree, p: nat, x: Name, r: nat)
    requires p in t && t[p].Dir? && DirOk(t, r)
    ensures DirOk(Unlinked(t, p, x), r)
  {
    if r == p {
      WithoutOk(t[p].entries, x);
      var es := Without(t[p].entries, x);
      forall i | 0 <= i < |es|
        ensures es[i] in t[p].entries
      {
        assert es[i] in es;
      }
    }
  }

  lemma LinkKeepsDir(t: Tree, q: nat, y: Name, n: nat, r: nat)
    requires q in t && t[q].Dir? && DirOk(t, r) && Child(t, q, y) == None
    requires n in t && n != ROOT && n < 0x1_0000 && 0 < |y| < MAX_NAME
    ensures DirOk(Linked(t, q, y, n), r)
  {
    if r == q { FindSound(t[q].entries, y); }
  }

  /**
   * Moving a directory below itself cuts it off: with `qq` below the moved node nothing but
   * the prefix condition of CanRename fails, and afterwards no path leads to the node.
   */
  lemma RenameIntoItselfDetaches(t: Tree, p: nat, x: Name, pp: Path, q: nat, y: Name, qq: Path, n: nat)
    requires TreeOk(t) && p in t && t[p].Dir? && q in t && t[q].Dir?
    requires Lookup(t, pp) == Some(p) && Child(t, p, x) == Some(n)
    requires Lookup(t, qq) == Some(q) && Child(t, q, y) == None
    requires pp + [x] <= qq
    ensures !Reachable(Renamed(t, p, x, q, y, n), n)
  {
    var t1, t2 := Unlinked(t, p, x), Renamed(t, p, x, q, y, n);
    assert DirOk(t, p);
    UnlinkedChildren(t, p, x);
    NotAncestor(t, p, x, pp, qq);
    assert q != p || y != x;
    assert Child(t1, q, y) == Child(t, q, y);
    LinkedChildren(t1, q, y, n);
    forall c: Path
      ensures Lookup(t2, c) != Some(n)
    {
      forall k | 0 <= k <= |c|
        ensures Lookup(t1, c[..k]) != Some(q) && Lookup(t1, c[..k]) != Some(n)
      {
        CutOff(t, p, x, pp, n, c[..k], q, qq);
        WalkLast(t, ROOT, pp, x);
        CutOff(t, p, x, pp, n, c[..k], n, pp + [x]);
      }
      WalkSame(t1, t2, q, y, ROOT, c);
      assert c[..|c|] == c;
    }
  }

  /** The reference being removed is not the one being added. */
  lemma NotAncestor(t: Tree, p: nat, x: Name, pp: Path, qq: Path)
    requires Once(t) && Lookup(t, pp) == Some(p) && pp + [x] <= qq && Lookup(t, qq).Some?
    ensures Lookup(t, qq) != Some(p)
  {
    if Lookup(t, qq) == Some(p) {
      PathUnique(t, pp, qq);
    }
  }

  /** Without its reference `x` in `p`, nothing whose only path ran through it can be reached. */
  lemma CutOff(t: Tree, p: nat, x: Name, pp: Path, n: nat, c: Path, m: nat, mm: Path)
    requires TreeOk(t) && p in t && t[p].Dir? && Lookup(t, pp) == Some(p) && Child(t, p, x) == Some(n)
    requires Lookup(t, mm) == Some(m) && pp + [x] <= mm
    ensures Lookup(Unlinked(t, p, x), c) != Some(m)
  {
    assert DirOk(t, p);
    UnlinkedChildren(t, p, x);
    if pp + [x] <= c {
      LookupThrough(t, Unlinked(t, p, x), p, x, pp, c);
    } else {
      LookupOther(t, Unlinked(t, p, x), p, x, pp, c);
      if Lookup(t, c) == Some(m) {
        PathUnique(t, c, mm);
      }
    }
  }
}
