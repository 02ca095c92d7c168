/**
 * kernel/fs.c: the RAM file system, its inode pool and directory bytes updated in place.
 * `tree` is the tree of nodes the inodes represent.
 */
module RamFs {
  import opened Wrappers
  import opened FsFormat
  import opened FsTree
  import opened FsPath

  /** CGRTOS_FS_MAX_INODES. */
  const INODES: nat := 64

  /** `fs_inode_t`: `data` is the valid part of the buffer, `size` its length. */
  datatype Inode = Inode(used: bool, isDir: bool, data: seq<byte>, capacity: nat)

  const FREE := Inode(false, false, [], 0)

  /** Inode `i` stores node `i` of the tree. */
  ghost predicate Stores(inos: seq<Inode>, tree: Tree, i: nat)
    requires i < |inos|
  {
    var x := inos[i];
    && (x.used <==> i in tree)
    && |x.data| <= x.capacity
    && (i !in tree ==> x == FREE)
    && (i in tree ==> x.isDir == tree[i].Dir?)
    && (i in tree && tree[i].Dir? ==> AllOk(tree[i].entries) && x.data == Encode(tree[i].entries))
    && (i in tree && tree[i].File? ==> x.data == tree[i].data)
  }

  /** The inode pool holds exactly the nodes of a sound tree. */
  ghost predicate Represents(inos: seq<Inode>, tree: Tree) {
    && |inos| == INODES
    && TreeOk(tree)
    && (forall i | i in tree :: i < INODES)
    && (forall i: nat {:trigger Stores(inos, tree, i)} | i < INODES :: Stores(inos, tree, i))
  }

  /** The same paths lead to the same nodes, but for one more path. */
  ghost predicate PathAdded(t: Tree, t': Tree, path: Path, n: nat) {
    Lookup(t, path) == None && forall c: Path :: Lookup(t', c) == if c == path then Some(n) else Lookup(t, c)
  }

  /** The same paths lead to the same nodes, but for one path that leads nowhere now. */
  ghost predicate PathDropped(t: Tree, t': Tree, path: Path) {
    Lookup(t, path).Some? && forall c: Path :: Lookup(t', c) == if c == path then None else Lookup(t, c)
  }

  /** Every path under `from` is now under `to`; all others are as before. */
  ghost predicate PathsMoved(t: Tree, t': Tree, from: Path, to: Path) {
    forall c: Path :: Lookup(t', c) ==
      if to <= c then Lookup(t, from + c[|to|..]) else if from <= c then None else Lookup(t, c)
  }

  /** The files are the same, with the same contents, `n` aside. */
  ghost predicate FilesKept(t: Tree, t': Tree, n: nat) {
    && (forall m | m in t && m != n && t[m].File? :: m in t' && t'[m] == t[m])
    && (forall m | m in t' && m != n && t'[m].File? :: m in t && t[m] == t'[m])
  }

  class Fs {
    const inos: array<Inode>
    ghost var tree: Tree

    ghost predicate Valid()
      reads this, inos
    {
      Represents(inos[..], tree)
    }

    constructor ()
      ensures Valid() && tree == map[ROOT := Dir([])] && fresh(inos)
    {
      inos := new Inode[INODES](i => if i == 0 then Inode(true, true, [], 0) else FREE);
      tree := map[ROOT := Dir([])];
      new;
      RootOnly(tree);
      forall i: nat | i < INODES
        ensures Stores(inos[..], tree, i)
      {
      }
    }

    /** The directory search inside `path_resolve`. */
    method DirLookup(dir: nat, name: Name) returns (found: Option<nat>)
      requires Valid() && dir in tree && tree[dir].Dir?
      ensures found == Child(tree, dir, name)
      ensures found.Some? ==> found.value in tree
    {
      assert Stores(inos[..], tree, dir);
      var hit;
      ghost var k;
      hit, k := Scan(inos[dir].data, name, tree[dir].entries);
      if hit.None? {
        return None;
      }
      FindAt(tree[dir].entries, name, k);
      ChildInTree(tree, dir, name);
      found := Some(Word(inos[dir].data[hit.value], inos[dir].data[hit.value + 1]));
    }

    /** `path_resolve` without creation. */
    method PathResolve(path: seq<byte>) returns (r: Resolved)
      requires Valid()
      ensures r == Resolve(tree, path)
    {
      if path == [] || path[0] != SLASH {
        return Bad;
      }
      if |path| == 1 {
        return Hit(ROOT, Some((ROOT, [])));
      }
      var stack := [ROOT];
      var p := 1;
      while p < |path|
        invariant 1 <= p <= |path| && stack != [] && (forall i | i in stack :: i in tree)
        invariant Steps(tree, [ROOT], Split(path[1..])) == Steps(tree, stack, Split(path[p..]))
        decreases |path| - p
      {
        var comp, q := NextComponent(path, p);
        if comp.None? {
          return Bad;
        }
        p := q;
        var last := p == |path|;
        if comp.value == [] || comp.value == [DOT] {
          continue;
        }
        if comp.value == [DOT, DOT] {
          if |stack| > 1 {
            stack := stack[..|stack| - 1];
          }
          if last {
            return Hit(stack[|stack| - 1], None);
          }
          continue;
        }
        var cur := stack[|stack| - 1];
        assert cur in stack && Stores(inos[..], tree, cur);
        if !inos[cur].used || !inos[cur].isDir {
          return Bad;
        }
        var found := DirLookup(cur, comp.value);
        if found.None? {
          return if last then Missing(cur, comp.value) else Bad;
        }
        if |stack| >= MAX_STACK {
          return Bad;
        }
        if last {
          return Hit(found.value, Some((cur, comp.value)));
        }
        stack := stack + [found.value];
      }
      assert path[p..] == [];
      r := Bad;
    }

    /** `ino_alloc`: the first unused inode from 1 on. */
    method InoAlloc(isDir: bool) returns (i: Option<nat>)
      requires Valid()
      modifies inos
      ensures i.None? ==> inos[..] == old(inos[..]) && forall j: nat | 1 <= j < INODES :: j in tree
      ensures i.Some? ==> 1 <= i.value < INODES && i.value !in tree && inos[..] == old(inos[..])[i.value := Inode(true, isDir, [], 0)]
    {
      var k := 1;
      while k < INODES
        invariant 1 <= k <= INODES
        invariant forall j: nat | 1 <= j < k :: j in tree
        invariant inos[..] == old(inos[..])
      {
        assert Stores(inos[..], tree, k);
        if !inos[k].used {
          inos[k] := Inode(true, isDir, [], 0);
          return Some(k);
        }
        k := k + 1;
      }
      i := None;
    }

    /** There is an unused inode. */
    ghost predicate HasFreeInode()
      reads this
    {
      exists i: nat :: 1 <= i < INODES && i !in tree
    }

    /** The buffer of inode `p` can take `need` more bytes. */
    ghost predicate Fits(p: nat, need: nat)
      requires p < inos.Length
      reads inos
    {
      |inos[p].data| + need <= inos[p].capacity
    }

    /**
     * The buffer growth shared by directories: doubled until the new size fits.  `memory`
     * says whether the allocator has a block to give.
     */
    method Grow(p: nat, need: nat, memory: bool) returns (ok: bool)
      requires p < inos.Length
      modifies inos
      ensures ok <==> old(Fits(p, need)) || memory
      ensures !ok ==> inos[..] == old(inos[..])
      ensures ok ==> Fits(p, need) && inos[..] == old(inos[..])[p := old(inos[p]).(capacity := inos[p].capacity)]
    {
      var x := inos[p];
      if |x.data| + need <= x.capacity {
        return true;
      }
      var ncap := if x.capacity != 0 then x.capacity * 2 else 64;
      while ncap < |x.data| + need
        invariant ncap > 0
        decreases |x.data| + need - ncap
      {
        ncap := ncap * 2;
      }
      if !memory {
        return false;
      }
      inos[p] := x.(capacity := ncap);
      ok := true;
    }

    /** Appending one entry to the bytes of directory `p`. */
    method AppendEntry(p: nat, e: Entry)
      requires p < inos.Length && EntryOk(e) && Fits(p, 3 + |e.name|)
      modifies inos
      ensures inos[..] == old(inos[..])[p := old(inos[p]).(data := old(inos[p].data) + EncodeEntry(e))]
    {
      var x := inos[p];
      inos[p] := x.(data := x.data + [e.ino % 256, e.ino / 256, |e.name|] + e.name);
      assert inos[p].data == x.data + EncodeEntry(e);
    }

    /** The creating half of `path_resolve`: a new, empty node under `leaf` in directory `parent`. */
    method CreateAt(parent: nat, leaf: Name, isDir: bool, memory: bool, ghost pp: Path) returns (n: Option<nat>)
      requires Valid() && parent in tree && tree[parent].Dir? && Child(tree, parent, leaf) == None
      requires Lookup(tree, pp) == Some(parent) && 0 < |leaf| < MAX_NAME
      modifies this, inos
      ensures Valid()
      ensures n.Some? <==> old(HasFreeInode()) && (memory || old(Fits(parent, 3 + |leaf|)))
      ensures n.None? ==> tree == old(tree)
      ensures n.Some? ==>
        && n.value !in old(tree) && 1 <= n.value < INODES
        && tree == Created(old(tree), parent, leaf, n.value, if isDir then Dir([]) else File([]))
    {
      ghost var before := inos[..];
      assert Stores(before, tree, parent);
      n := InoAlloc(isDir);
      if n.None? {
        return;
      }
      assert Stores(before, tree, n.value);
      var ok := Grow(parent, 3 + |leaf|, memory);
      if !ok {
        inos[n.value] := FREE;
        assert inos[..] == before;
        return None;
      }
      AppendEntry(parent, Entry(n.value, leaf));
      ghost var node := if isDir then Dir([]) else File([]);
      CreateKeepsTree(tree, parent, leaf, n.value, node, pp);
      CreatedStored(before, inos[..], tree, parent, leaf, n.value, node);
      tree := Created(tree, parent, leaf, n.value, node);
    }

    /** `path_resolve` with one of its create flags: a missing last component is created. */
    method ResolveOrCreate(path: seq<byte>, isDir: bool, memory: bool) returns (n: Option<nat>, created: bool)
      requires Valid()
      modifies this, inos
      ensures Valid()
      ensures created <==> old(CanCreate(path, memory))
      ensures !created ==> tree == old(tree) && n == (if old(Resolve(tree, path)).Hit? then Some(old(Resolve(tree, path)).ino) else None)
      ensures created ==>
        && n.Some? && n.value !in old(tree) && n.value != ROOT && n.value in tree && tree[n.value] == (if isDir then Dir([]) else File([]))
        && PathAdded(old(tree), tree, Meaning(path), n.value) && FilesKept(old(tree), tree, n.value)
    {
      var r := PathResolve(path);
      ResolveMeans(tree, path);
      match r {
        case Hit(i, _) => return Some(i), false;
        case Bad => return None, false;
        case Missing(parent, leaf) =>
          ghost var t, full := tree, Meaning(path);
          ghost var pp := full[..|full| - 1];
          assert full == pp + [leaf];
          n := CreateAt(parent, leaf, isDir, memory, pp);
          created := n.Some?;
          if created {
            forall c: Path
              ensures Lookup(tree, c) == if c == full then n else Lookup(t, c)
            {
              CreateAddsOnePath(t, parent, leaf, n.value, if isDir then Dir([]) else File([]), pp, c);
            }
          }
      }
    }

    /** Only the last component is missing, an inode is free, and the directory's buffer fits or can grow. */
    ghost predicate CanCreate(path: seq<byte>, memory: bool)
      requires Valid()
      reads this, inos
    {
      match Resolve(tree, path)
      case Missing(parent, leaf) =>
        ResolveMeans(tree, path);
        HasFreeInode() && (memory || Fits(parent, 3 + |leaf|))
      case _ => false
    }

    /** For a path written out: a new node can be made iff an inode is free, the directory is there without that name, and its buffer fits or can grow. */
    lemma CreateIff(pp: Path, leaf: Name, memory: bool)
      requires Valid() && AllPlain(pp) && Plain(leaf) && |pp| < MAX_STACK
      ensures var d := Lookup(tree, pp);
              CanCreate(Render(pp + [leaf]), memory) <==>
                && (exists n: nat :: n < INODES && n !in tree)
                && d.Some? && d.value in tree && tree[d.value].Dir? && Child(tree, d.value, leaf) == None
                && d.value < inos.Length && (memory || |inos[d.value].data| + 3 + |leaf| <= inos[d.value].capacity)
    {
      PlainMissingIff(tree, pp, leaf);
      ResolveMeans(tree, Render(pp + [leaf]));
      forall n: nat | n < INODES
        ensures inos[n].used <==> n in tree
      {
        assert Stores(inos[..], tree, n);
      }
      if Lookup(tree, pp).Some? { WalkInTree(tree, pp); }
    }

    /** `cgrtos_fs_mkdir`: one new, empty directory under one new path. */
    method Mkdir(path: seq<byte>, memory: bool) returns (ok: bool)
      requires Valid()
      modifies this, inos
      ensures Valid()
      ensures ok <==> old(CanCreate(path, memory))
      ensures !ok ==> tree == old(tree)
      ensures ok ==> exists n ::
        && n !in old(tree) && n in tree && tree[n] == Dir([])
        && PathAdded(old(tree), tree, Meaning(path), n) && FilesKept(old(tree), tree, n)
    {
      var r := PathResolve(path);
      if r.Hit? {
        return false;
      }
      var n;
      n, ok := ResolveOrCreate(path, true, memory);
    }

    /** `dir_remove_child`: the entry's bytes are cut out and the rest moves down. */
    method DirRemoveChild(p: nat, name: Name) returns (ok: bool)
      requires Valid() && p in tree && tree[p].Dir?
      modifies inos
      ensures ok <==> Child(tree, p, name).Some?
      ensures !ok ==> inos[..] == old(inos[..])
      ensures |inos[p].data| <= |old(inos[p].data)|
      ensures ok ==>
        && AllOk(Without(tree[p].entries, name))
        && inos[..] == old(inos[..])[p := old(inos[p]).(data := Encode(Without(tree[p].entries, name)))]
    {
      assert Stores(inos[..], tree, p);
      ghost var es := tree[p].entries;
      var hit;
      ghost var k;
      var x := inos[p];
      hit, k := Scan(x.data, name, es);
      if hit.None? {
        return false;
      }
      FindAt(es, name, k);
      CutEntry(es, k);
      inos[p] := x.(data := x.data[..hit.value] + x.data[hit.value + 3 + |name|..]);
      ok := true;
    }

    /** The common end of unlink and rmdir: the entry goes, then the inode. */
    method RemoveNode(n: nat, p: nat, leaf: Name, ghost pp: Path) returns (ok: bool)
      requires Valid() && p in tree && tree[p].Dir? && Child(tree, p, leaf) == Some(n) && Childless(tree, n)
      requires Lookup(tree, pp) == Some(p)
      modifies this, inos
      ensures Valid() && ok
      ensures tree == Removed(old(tree), p, leaf, n)
      ensures PathDropped(old(tree), tree, pp + [leaf])
    {
      ghost var t, before := tree, inos[..];
      RemovedChildren(t, p, leaf, n);
      RemoveKeepsTree(t, p, leaf, n, pp);
      ok := DirRemoveChild(p, leaf);
      if !ok {
        return;
      }
      assert Stores(before, t, n) && Stores(before, t, p);
      if inos[n].used {
        inos[n] := FREE;
      }
      tree := Removed(t, p, leaf, n);
      RemovedStored(before, inos[..], t, p, leaf, n);
      forall c: Path
        ensures Lookup(t, pp + [leaf]).Some? && Lookup(tree, c) == if c == pp + [leaf] then None else Lookup(t, c)
      {
        RemoveDropsOnePath(t, p, leaf, n, pp, c);
      }
      RemoveDropsOnePath(t, p, leaf, n, pp, pp);
    }

    /** `cgrtos_fs_unlink`. */
    method Unlink(path: seq<byte>) returns (ok: bool)
      requires Valid()
      modifies this, inos
      ensures Valid()
      ensures ok <==> old(var r := Resolve(tree, path); r.Hit? && r.ino in tree && tree[r.ino].File?)
      ensures !ok ==> tree == old(tree)
      ensures ok ==> PathDropped(old(tree), tree, Meaning(path)) && FilesKept(old(tree), tree, old(Resolve(tree, path)).ino)
    {
      var r := PathResolve(path);
      ResolveMeans(tree, path);
      if !r.Hit? || r.ino == ROOT {
        return false;
      }
      WalkInTree(tree, Meaning(path));
      assert Stores(inos[..], tree, r.ino);
      if inos[r.ino].isDir {
        return false;
      }
      ghost var full := Meaning(path);
      assert full == full[..|full| - 1] + [full[|full| - 1]];
      ok := RemoveNode(r.ino, r.at.value.0, r.at.value.1, full[..|full| - 1]);
    }

    /** `cgrtos_fs_rmdir`: only empty directories other than the root. */
    method Rmdir(path: seq<byte>) returns (ok: bool)
      requires Valid()
      modifies this, inos
      ensures Valid()
      ensures ok <==> old(var r := Resolve(tree, path); r.Hit? && r.ino != ROOT && r.ino in tree && tree[r.ino] == Dir([]))
      ensures !ok ==> tree == old(tree)
      ensures ok ==> PathDropped(old(tree), tree, Meaning(path)) && FilesKept(old(tree), tree, old(Resolve(tree, path)).ino)
    {
      var r;
      ok, r := FindEmptyDir(path);
      if ok {
        ghost var full := Meaning(path);
        assert full == full[..|full| - 1] + [full[|full| - 1]];
        ok := RemoveNode(r.ino, r.at.value.0, r.at.value.1, full[..|full| - 1]);
      }
    }

    /** What `cgrtos_fs_rmdir` looks at before it removes anything. */
    method FindEmptyDir(path: seq<byte>) returns (ok: bool, r: Resolved)
      requires Valid()
      ensures r == Resolve(tree, path)
      ensures ok <==> r.Hit? && r.ino != ROOT && r.ino in tree && tree[r.ino] == Dir([])
      ensures ok ==> RemovalOk(tree, r, Meaning(path))
    {
      r := PathResolve(path);
      ResolveMeans(tree, path);
      if !r.Hit? || r.ino == ROOT {
        return false, r;
      }
      WalkInTree(tree, Meaning(path));
      assert Stores(inos[..], tree, r.ino);
      StoredEmpty(inos[..], tree, r.ino);
      ok := inos[r.ino].isDir && |inos[r.ino].data| == 0;
    }

    ghost predicate RenameApplies(oldPath: seq<byte>, newPath: seq<byte>)
      reads this
    {
      RenameAppliesTo(tree, oldPath, newPath)
    }

    /** `dir_add_child`: node `n`, on no directory's list, is entered in directory `q` as `name`. */
    method DirAddChild(q: nat, n: nat, name: Name, memory: bool) returns (ok: bool)
      requires inos.Length == INODES && q < INODES && n < INODES && inos[q].used && inos[q].isDir
      requires |inos[q].data| <= inos[q].capacity
      modifies inos
      ensures ok <==> 0 < |name| < MAX_NAME && (memory || old(Fits(q, 3 + |name|)))
      ensures !ok ==> inos[..] == old(inos[..])
      ensures ok ==> Fits(q, 0) && inos[..] == old(inos[..])[q := old(inos[q]).(
                  data := old(inos[q].data) + EncodeEntry(Entry(n, name)), capacity := inos[q].capacity)]
    {
      if name == [] || |name| >= MAX_NAME {
        return false;
      }
      ok := Grow(q, 3 + |name|, memory);
      if ok {
        AppendEntry(q, Entry(n, name));
      }
    }

    /** The last slash of a path: what precedes it is the parent, what follows is the new name. */
    method LastSlash(path: seq<byte>) returns (k: nat)
      requires path != [] && path[0] == SLASH
      ensures k < |path| && path[k] == SLASH && SLASH !in path[k + 1..]
    {
      k := 0;
      var len := 0;
      while len < |path|
        invariant 0 <= len <= |path| && k < |path| && path[k] == SLASH && (len > 0 ==> k < len)
        invariant forall j | k < j < len :: path[j] != SLASH
      {
        if path[len] == SLASH {
          k := len;
        }
        len := len + 1;
      }
    }

    /** The checks of `cgrtos_fs_rename`: which entry goes, and where to. */
    method RenamePlaces(oldPath: seq<byte>, newPath: seq<byte>) returns (ok: bool, from: Place, to: Place)
      requires Valid() && !EndsDotDot(oldPath) && |newPath| < PATH_BUFFER
      ensures ok <==> RenameApplies(oldPath, newPath)
      ensures ok ==> from == OldPlace(tree, oldPath) && to == Place(Resolve(tree, Parent(newPath)).ino, Leaf(newPath), from.ino)
    {
      from, to := Place(ROOT, [], ROOT), Place(ROOT, [], ROOT);
      ok := false;
      if oldPath == [] || newPath == [] || oldPath[0] != SLASH || newPath[0] != SLASH {
        return;
      }
      var o := PathResolve(oldPath);
      if !o.Hit? || o.ino == ROOT {
        return;
      }
      var existing := PathResolve(newPath);
      if existing.Hit? {
        return;
      }
      var slash := LastSlash(newPath);
      LastSlashUnique(newPath, slash);
      var parentPath := if slash == 0 then [SLASH] else newPath[..slash];
      var leaf := newPath[slash + 1..];
      if leaf == [] {
        return;
      }
      var q := PathResolve(parentPath);
      if !q.Hit? {
        return;
      }
      ResolveMeans(tree, parentPath);
      WalkInTree(tree, Meaning(parentPath));
      assert Stores(inos[..], tree, q.ino);
      if !inos[q.ino].isDir {
        return;
      }
      HitWithPlace(tree, oldPath);
      ok, from, to := true, Place(o.at.value.0, o.at.value.1, o.ino), Place(q.ino, leaf, o.ino);
    }

    /** `cgrtos_fs_rename`. */
    method Rename(oldPath: seq<byte>, newPath: seq<byte>, memory: bool) returns (ok: bool)
      requires Valid() && RenameAllowed(tree, oldPath, newPath)
      modifies this, inos
      ensures Valid()
      ensures ok ==> old(RenameApplies(oldPath, newPath))
      ensures old(RenameApplies(oldPath, newPath)) && memory ==> ok
      ensures old(Movable(tree, oldPath, newPath)) && memory ==> ok
      ensures ok ==> PathsMoved(old(tree), tree, Meaning(oldPath), Meaning(newPath))
      ensures !ok ==> forall c: Path :: Lookup(tree, c) == Lookup(old(tree), c)
      ensures FilesKept(old(tree), tree, ROOT)
    {
      MovableApplies(tree, oldPath, newPath);
      var from, to;
      ok, from, to := RenamePlaces(oldPath, newPath);
      if ok {
        PlacesFit(tree, oldPath, newPath);
        ok := Move(from.ino, from.dir, from.name, Meaning(oldPath), to.dir, to.name, Meaning(Parent(newPath)), memory);
      }
    }

    /** The end of rename: the entry leaves one directory and joins the other, or goes back if there is no memory. */
    method Move(n: nat, p: nat, x: Name, ghost from: Path, q: nat, y: Name, ghost qq: Path, memory: bool) returns (ok: bool)
      requires Valid() && from != [] && CanRename(tree, p, x, from[..|from| - 1], q, y, qq, n) && x == from[|from| - 1]
      requires 0 < |y| < MAX_NAME && 0 < |x| < MAX_NAME && n < INODES && p < INODES && q < INODES
      modifies this, inos
      ensures Valid()
      ensures memory ==> ok
      ensures ok ==> PathsMoved(old(tree), tree, from, qq + [y])
      ensures !ok ==> forall c: Path :: Lookup(tree, c) == Lookup(old(tree), c)
      ensures FilesKept(old(tree), tree, ROOT)
    {
      ghost var t, before, pp := tree, inos[..], from[..|from| - 1];
      assert Stores(before, t, p) && Stores(before, t, q);
      assert from == pp + [x];
      var removed := DirRemoveChild(p, x);
      ghost var cut := inos[..];
      WithoutLength(t[p].entries, x);
      ok := DirAddChild(q, n, y, memory);
      if ok {
        RenameKeepsTree(t, p, x, pp, q, y, qq, n);
        tree := Renamed(t, p, x, q, y, n);
        RenamedStored(before, cut, inos[..], t, p, x, q, y, n);
        forall c: Path
          ensures Lookup(tree, c) ==
            if qq + [y] <= c then Lookup(t, from + c[|qq + [y]|..]) else if from <= c then None else Lookup(t, c)
        {
          RenameMovesSubtree(t, p, x, pp, q, y, qq, n, c);
        }
      } else {
        PutBack(n, p, x, memory, before);
      }
    }

    /** The entry that was taken out goes back to the end of its directory, where there is room for it. */
    method PutBack(n: nat, p: nat, x: Name, memory: bool, ghost before: seq<Inode>)
      requires Represents(before, tree) && p in tree && tree[p].Dir? && Child(tree, p, x) == Some(n)
      requires 0 < |x| < MAX_NAME && n < INODES && p < INODES && AllOk(Without(tree[p].entries, x))
      requires inos.Length == INODES && inos[..] == before[p := before[p].(data := Encode(Without(tree[p].entries, x)))]
      requires |Encode(Without(tree[p].entries, x))| + 3 + |x| <= before[p].capacity && before[p].used && before[p].isDir
      modifies this`tree, inos
      ensures Valid() && FilesKept(old(tree), tree, ROOT)
      ensures forall c: Path :: Lookup(tree, c) == Lookup(old(tree), c)
    {
      ghost var t, cut := tree, inos[..];
      var back := DirAddChild(p, n, x, memory);
      PutBackKeepsTree(t, p, x, n);
      tree := Renamed(t, p, x, p, x, n);
      RenamedStored(before, cut, inos[..], t, p, x, p, x, n);
      forall c: Path
        ensures Lookup(tree, c) == Lookup(t, c)
      {
        PutBackSame(t, p, x, n, c);
      }
    }
  }

  // ---- rename ----

  /** The place of the last slash of a path that starts with one. */
  function SlashAt(path: seq<byte>): (k: nat)
    requires path != [] && path[0] == SLASH
    ensures k < |path| && path[k] == SLASH && SLASH !in path[k + 1..]
  {
    SlashUpTo(path, |path| - 1)
  }

  function SlashUpTo(path: seq<byte>, i: nat): (k: nat)
    requires i < |path| && path[0] == SLASH && SLASH !in path[i + 1..]
    ensures k <= i && path[k] == SLASH && SLASH !in path[k + 1..]
  {
    if path[i] == SLASH then i
    else
      assert path[i..] == [path[i]] + path[i + 1..];
      SlashUpTo(path, i - 1)
  }

  /** What rename takes for the new name and for its directory. */
  function Leaf(path: seq<byte>): Name
    requires path != [] && path[0] == SLASH
  {
    path[SlashAt(path) + 1..]
  }

  function Parent(path: seq<byte>): seq<byte>
    requires path != [] && path[0] == SLASH
  {
    if SlashAt(path) == 0 then [SLASH] else path[..SlashAt(path)]
  }

  lemma LastSlashUnique(path: seq<byte>, k: nat)
    requires path != [] && path[0] == SLASH && k < |path| && path[k] == SLASH && SLASH !in path[k + 1..]
    ensures k == SlashAt(path)
  {
    NoSlashBehind(path, k, SlashAt(path));
    NoSlashBehind(path, SlashAt(path), k);
  }

  lemma NoSlashBehind(path: seq<byte>, k: nat, j: nat)
    requires k < |path| && SLASH !in path[k + 1..] && j < |path| && path[j] == SLASH
    ensures j <= k
  {
    assert forall i | k < i < |path| :: path[k + 1..][i - k - 1] == path[i];
  }

  predicate EndsDotDot(path: seq<byte>) {
    path != [] && var c := Split(path[1..]); c != [] && IsDotDot(c[|c| - 1])
  }

  /** The old path leads to a node other than the root, the new one to none, and its directory exists. */
  predicate RenameAppliesTo(t: Tree, oldPath: seq<byte>, newPath: seq<byte>) {
    && Resolve(t, oldPath).Hit? && Resolve(t, oldPath).ino != ROOT
    && newPath != [] && newPath[0] == SLASH && !Resolve(t, newPath).Hit?
    && Leaf(newPath) != []
    && var q := Resolve(t, Parent(newPath)); q.Hit? && q.ino in t && t[q.ino].Dir?
  }

  /** The last component of a path, behind those of its parent. */
  lemma SplitParent(path: seq<byte>)
    requires path != [] && path[0] == SLASH && Leaf(path) != []
    ensures Parent(path) != [] && Split(path[1..]) == Split(Parent(path)[1..]) + [Leaf(path)]
  {
    var k, leaf := SlashAt(path), Leaf(path);
    if k == 0 {
      assert path[1..] == leaf;
      SplitOne(leaf);
      assert Split(Parent(path)[1..]) == [] && [] + [leaf] == [leaf];
    } else {
      assert path[1..] == path[..k][1..] + [SLASH] + leaf;
      SplitAtLastSlash(path[..k][1..], leaf);
    }
  }

  /** A path that leads nowhere, in a directory that exists: its last component is a proper name. */
  lemma NewNamePlain(t: Tree, path: seq<byte>)
    requires TreeOk(t) && path != [] && path[0] == SLASH && !Resolve(t, path).Hit?
    requires 0 < |Leaf(path)| < MAX_NAME && !IsDot(Leaf(path)) && Resolve(t, Parent(path)).Hit?
    ensures Plain(Leaf(path)) && Meaning(path) == Meaning(Parent(path)) + [Leaf(path)]
  {
    var leaf := Leaf(path);
    var comps := Split(Parent(path)[1..]);
    SplitParent(path);
    if comps == [] {
      assert comps + [leaf] == [leaf];
    } else if IsDotDot(leaf) {
      UpFromHit(t, [ROOT], comps);
    }
    NormalAppend([], comps, leaf);
  }

  /** Less than sixteen levels down, the name is then not taken. */
  lemma NewNameFree(t: Tree, path: seq<byte>)
    requires TreeOk(t) && path != [] && path[0] == SLASH && !Resolve(t, path).Hit?
    requires 0 < |Leaf(path)| < MAX_NAME && !IsDot(Leaf(path)) && Resolve(t, Parent(path)).Hit?
    ensures Child(t, Resolve(t, Parent(path)).ino, Leaf(path)).Some? ==> |Meaning(path)| == MAX_STACK
  {
    var comps := Split(Parent(path)[1..]);
    NewNamePlain(t, path);
    SplitParent(path);
    ResolveMeans(t, Parent(path));
    if Child(t, Resolve(t, Parent(path)).ino, Leaf(path)).Some? && |Meaning(path)| < MAX_STACK {
      ChildFound(t, comps, Leaf(path));
    }
  }

  /** Less than sixteen levels down, an entry of the directory that `comps` lead to is found. */
  lemma ChildFound(t: Tree, comps: Path, c: Name)
    requires comps == [] || Steps(t, [ROOT], comps).Hit?
    requires Plain(c) && |Normal([], comps)| + 1 < MAX_STACK && forall i | 0 <= i < |comps| :: comps[i] != []
    requires Child(t, if comps == [] then ROOT else Steps(t, [ROOT], comps).ino, c).Some?
    ensures Steps(t, [ROOT], comps + [c]).Hit?
  {
    if comps == [] {
      assert comps + [c] == [c];
    } else {
      AppendHit(t, [ROOT], [], comps, c);
    }
  }

  /** An entry: the directory it is in, its name and the node it leads to. */
  datatype Place = Place(dir: nat, name: Name, ino: nat)

  /** `parent_path` in `cgrtos_fs_rename`. */
  const PATH_BUFFER: nat := 256

  function OldPlace(t: Tree, oldPath: seq<byte>): Place
    requires !EndsDotDot(oldPath) && Resolve(t, oldPath).Hit?
  {
    HitWithPlace(t, oldPath);
    var r := Resolve(t, oldPath);
    Place(r.at.value.0, r.at.value.1, r.ino)
  }

  /**
   * What rename leaves to its caller: neither last name is `..`, the new one is short and not `.`,
   * a directory is not moved below itself, and the new name is not one that the path walk
   * cannot see.
   */
  predicate RenameAllowed(t: Tree, oldPath: seq<byte>, newPath: seq<byte>) {
    && !EndsDotDot(oldPath) && |newPath| < PATH_BUFFER
    && (newPath != [] && newPath[0] == SLASH ==>
          && |Leaf(newPath)| < MAX_NAME && !IsDot(Leaf(newPath))
          && !(Meaning(oldPath) <= Meaning(Parent(newPath))))
    && (RenameAppliesTo(t, oldPath, newPath) ==> Child(t, Resolve(t, Parent(newPath)).ino, Leaf(newPath)) == None)
  }

  /**
   * If rename goes ahead although the directory has the new name already, the name is sixteen
   * levels down, and the directory has it twice afterwards.
   */
  lemma UnseenNameTwice(t: Tree, oldPath: seq<byte>, newPath: seq<byte>)
    requires TreeOk(t) && !EndsDotDot(oldPath) && RenameAppliesTo(t, oldPath, newPath)
    requires |Leaf(newPath)| < MAX_NAME && !IsDot(Leaf(newPath))
    requires Child(t, Resolve(t, Parent(newPath)).ino, Leaf(newPath)).Some?
    ensures |Meaning(newPath)| == MAX_STACK
    ensures var o, q := OldPlace(t, oldPath), Resolve(t, Parent(newPath)).ino;
            && o.dir in t && t[o.dir].Dir?
            && !DirOk(Renamed(t, o.dir, o.name, q, Leaf(newPath), o.ino), q)
  {
    var o, q, y := OldPlace(t, oldPath), Resolve(t, Parent(newPath)).ino, Leaf(newPath);
    OldPlaceFits(t, oldPath);
    NewNameFree(t, newPath);
    NewNamePlain(t, newPath);
    LookupOfHit(t, Parent(newPath));
    ResolveMeans(t, oldPath);
    if o.dir == q && o.name == y {
      WalkLast(t, ROOT, Meaning(Parent(newPath)), y);
      PathUnique(t, Meaning(oldPath), Meaning(newPath));
    }
    var t1 := Unlinked(t, o.dir, o.name);
    assert DirOk(t, o.dir);
    UnlinkedChildren(t, o.dir, o.name);
    assert Child(t1, q, y) == Child(t, q, y);
    FindSound(t1[q].entries, y);
    var es := t1[q].entries;
    var i :| 0 <= i < |es| && es[i].name == y;
    var es' := Linked(t1, q, y, o.ino)[q].entries;
    assert es' == es + [Entry(o.ino, y)];
    assert es'[i].name == es'[|es|].name;
  }

  // ---- rename, seen from the tree ----

  /** The text of a path splits into the text of its directory and its last name. */
  lemma RenderParent(qq: Path, y: Name)
    requires AllPlain(qq) && Plain(y)
    ensures var s := Render(qq + [y]);
            s != [] && s[0] == SLASH && Leaf(s) == y && Parent(s) == Render(qq)
  {
    var s, k := Render(qq + [y]), |Join(qq)|;
    JoinAppend(qq, [y]);
    assert Join([y]) == [SLASH] + y + Join([y][1..]) == [SLASH] + y;
    assert s == Join(qq) + ([SLASH] + y);
    RenderMeans(qq + [y]);
    assert s[k] == SLASH && s[k + 1..] == y;
    LastSlashUnique(s, k);
    assert s[..k] == Join(qq);
    assert qq != [] ==> k > 0;
  }

  /** On paths written out, rename goes ahead iff a node other than the root is to move, the new directory is there and the new path is free. */
  lemma RenameAppliesIff(t: Tree, from: Path, qq: Path, y: Name)
    requires TreeOk(t) && AllPlain(from) && AllPlain(qq) && Plain(y) && |from| < MAX_STACK && |qq| + 1 < MAX_STACK
    ensures var d := Lookup(t, qq);
            RenameAppliesTo(t, Render(from), Render(qq + [y])) <==>
              from != [] && Lookup(t, from).Some? && d.Some? && d.value in t && t[d.value].Dir? && Lookup(t, qq + [y]) == None
  {
    RenderParent(qq, y);
    PlainHitIff(t, from);
    PlainHitIff(t, qq);
    PlainHitIff(t, qq + [y]);
    if Lookup(t, from) == Some(ROOT) { PathUnique(t, from, []); }
  }

  /** A node at `from` that can move to `y` in the directory at `qq`. */
  ghost predicate MovableAs(t: Tree, from: Path, qq: Path, y: Name) {
    && AllPlain(from) && AllPlain(qq) && Plain(y)
    && 0 < |from| < MAX_STACK && |qq| + 1 < MAX_STACK && |Render(qq + [y])| < PATH_BUFFER
    && Lookup(t, from).Some? && Lookup(t, qq).Some? && Lookup(t, qq).value in t && t[Lookup(t, qq).value].Dir?
    && Lookup(t, qq + [y]) == None && !(from <= qq)
  }

  ghost predicate Movable(t: Tree, oldPath: seq<byte>, newPath: seq<byte>) {
    exists from: Path, qq: Path, y: Name {:trigger MovableAs(t, from, qq, y)} ::
      oldPath == Render(from) && newPath == Render(qq + [y]) && MovableAs(t, from, qq, y)
  }

  lemma MovableApplies(t: Tree, oldPath: seq<byte>, newPath: seq<byte>)
    requires TreeOk(t)
    ensures Movable(t, oldPath, newPath) ==> RenameAllowed(t, oldPath, newPath) && RenameAppliesTo(t, oldPath, newPath)
  {
    if Movable(t, oldPath, newPath) {
      var from: Path, qq: Path, y: Name :| oldPath == Render(from) && newPath == Render(qq + [y]) && MovableAs(t, from, qq, y);
      MovableMeans(t, from, qq, y);
    }
  }

  /** Such a move is one that the caller may ask for, and it goes from and to where its paths say. */
  lemma MovableMeans(t: Tree, from: Path, qq: Path, y: Name)
    requires TreeOk(t) && MovableAs(t, from, qq, y)
    ensures var o, n := Render(from), Render(qq + [y]);
            && RenameAllowed(t, o, n) && RenameAppliesTo(t, o, n) && Meaning(o) == from && Meaning(n) == qq + [y]
  {
    RenameAppliesIff(t, from, qq, y);
    RenderParent(qq, y);
    RenderMeans(from);
    RenderMeans(qq);
    RenderMeans(qq + [y]);
    PlainHitIff(t, qq);
    WalkLast(t, ROOT, qq, y);
  }

  /** The entry a path leads through, when it leads to a node other than the root. */
  lemma OldPlaceFits(t: Tree, path: seq<byte>)
    requires TreeOk(t) && !EndsDotDot(path) && Resolve(t, path).Hit? && Resolve(t, path).ino != ROOT
    ensures var from, o := Meaning(path), OldPlace(t, path);
            && from != [] && o.name == from[|from| - 1] && from == from[..|from| - 1] + [o.name] && 0 < |o.name| < MAX_NAME
            && o.dir in t && t[o.dir].Dir? && Lookup(t, from[..|from| - 1]) == Some(o.dir)
            && Child(t, o.dir, o.name) == Some(o.ino) && o.ino in t
  {
    var from := Meaning(path);
    ResolveMeans(t, path);
    WalkInTree(t, from);
    HitWithPlace(t, path);
    assert from != [];
    assert from == from[..|from| - 1] + [from[|from| - 1]];
  }

  /** When its checks have passed, rename is a move of one entry. */
  lemma PlacesFit(t: Tree, oldPath: seq<byte>, newPath: seq<byte>)
    requires TreeOk(t) && RenameAllowed(t, oldPath, newPath) && RenameAppliesTo(t, oldPath, newPath)
    ensures var from, o, q, y := Meaning(oldPath), OldPlace(t, oldPath), Resolve(t, Parent(newPath)).ino, Leaf(newPath);
            var qq := Meaning(Parent(newPath));
            && from != [] && o.name == from[|from| - 1] && 0 < |o.name| < MAX_NAME && 0 < |y| < MAX_NAME
            && Meaning(newPath) == qq + [y] && CanRename(t, o.dir, o.name, from[..|from| - 1], q, y, qq, o.ino)
            && o.ino in t
  {
    OldPlaceFits(t, oldPath);
    NewNamePlain(t, newPath);
    LookupOfHit(t, Parent(newPath));
  }

  lemma LookupOfHit(t: Tree, path: seq<byte>)
    requires TreeOk(t) && Resolve(t, path).Hit?
    ensures Lookup(t, Meaning(path)) == Some(Resolve(t, path).ino)
  {
    ResolveMeans(t, path);
  }

  lemma HitWithPlace(t: Tree, path: seq<byte>)
    requires !EndsDotDot(path) && Resolve(t, path).Hit?
    ensures Resolve(t, path).at.Some?
  {
    if |path| > 1 { HitWithoutPlace(t, [ROOT], Split(path[1..])); }
  }

  /** Taking an entry out and putting it back at the end changes no reference. */
  lemma PutBackChildren(t: Tree, p: nat, x: Name, n: nat)
    requires TreeOk(t) && p in t && t[p].Dir? && Child(t, p, x) == Some(n)
    ensures forall q: nat, y: Name :: Child(Renamed(t, p, x, p, x, n), q, y) == Child(t, q, y)
  {
    assert DirOk(t, p);
    UnlinkedChildren(t, p, x);
    LinkedChildren(Unlinked(t, p, x), p, x, n);
    forall q: nat, y: Name
      ensures Child(Renamed(t, p, x, p, x, n), q, y) == Child(t, q, y)
    {
    }
  }

  lemma PutBackSame(t: Tree, p: nat, x: Name, n: nat, c: Path)
    requires TreeOk(t) && p in t && t[p].Dir? && Child(t, p, x) == Some(n)
    ensures Lookup(Renamed(t, p, x, p, x, n), c) == Lookup(t, c)
  {
    PutBackChildren(t, p, x, n);
    SameWalks(t, Renamed(t, p, x, p, x, n), ROOT, c);
  }

  lemma {:induction false} SameWalks(t: Tree, t': Tree, i: nat, c: Path)
    requires forall q: nat, y: Name :: Child(t', q, y) == Child(t, q, y)
    ensures Walk(t', i, c) == Walk(t, i, c)
    decreases |c|
  {
    if c != [] && Child(t, i, c[0]).Some? {
      SameWalks(t, t', Child(t, i, c[0]).value, c[1..]);
    }
  }

  lemma PutBackKeepsTree(t: Tree, p: nat, x: Name, n: nat)
    requires TreeOk(t) && p in t && t[p].Dir? && Child(t, p, x) == Some(n) && 0 < |x| < MAX_NAME
    ensures TreeOk(Renamed(t, p, x, p, x, n))
  {
    var t1, t2 := Unlinked(t, p, x), Renamed(t, p, x, p, x, n);
    PutBackChildren(t, p, x, n);
    assert DirOk(t, p);
    UnlinkedChildren(t, p, x);
    ChildInTree(t, p, x);
    FindSound(t[p].entries, x);
    forall r: nat
      ensures DirOk(t2, r)
    {
      assert DirOk(t, r);
      UnlinkKeepsDir(t, p, x, r);
      LinkKeepsDir(t1, p, x, n, r);
    }
    forall m | m in t2
      ensures Reachable(t2, m)
    {
      PutBackSame(t, p, x, n, PathTo(t, m));
    }
  }

  /** The inodes after the byte edits of a rename. */
  lemma RenamedStored(before: seq<Inode>, cut: seq<Inode>, after: seq<Inode>, t: Tree, p: nat, x: Name, q: nat, y: Name, n: nat)
    requires Represents(before, t) && p in t && t[p].Dir? && q in t && t[q].Dir?
    requires n < INODES && 0 < |y| < MAX_NAME && TreeOk(Renamed(t, p, x, q, y, n))
    requires AllOk(Without(t[p].entries, x)) && |Encode(Without(t[p].entries, x))| <= before[p].capacity
    requires |cut| == |after| == INODES
    requires cut == before[p := before[p].(data := Encode(Without(t[p].entries, x)))]
    requires after == cut[q := cut[q].(data := cut[q].data + EncodeEntry(Entry(n, y)), capacity := after[q].capacity)]
    requires |after[q].data| <= after[q].capacity
    ensures Represents(after, Renamed(t, p, x, q, y, n))
  {
    var t1, t2 := Unlinked(t, p, x), Renamed(t, p, x, q, y, n);
    forall i: nat | i < INODES
      ensures Stores(after, t2, i)
    {
      assert Stores(before, t, i);
      if i == q {
        EncodeAppend(t1[q].entries, [Entry(n, y)]);
        EncodeOne(Entry(n, y));
      }
    }
  }

  lemma WithoutLength(es: seq<Entry>, x: Name)
    requires AllOk(es) && Find(es, x).Some?
    ensures AllOk(Without(es, x)) && |Encode(Without(es, x))| + 3 + |x| == |Encode(es)|
  {
    var k := FirstNamed(es, x);
    FindAt(es, x, k);
    CutEntry(es, k);
  }

  lemma {:induction false} FirstNamed(es: seq<Entry>, x: Name) returns (k: nat)
    requires Find(es, x).Some?
    ensures HitAt(es, x, k)
  {
    if es[0].name == x {
      k := 0;
    } else {
      k := FirstNamed(es[1..], x);
      k := k + 1;
    }
  }

  lemma EncodeEmpty(es: seq<Entry>)
    requires AllOk(es)
    ensures Encode(es) == [] <==> es == []
  {
  }

  /** The path leads to a childless node by its name in a directory. */
  ghost predicate RemovalOk(t: Tree, r: Resolved, full: Path) {
    && r.Hit? && r.at.Some? && full != [] && r.at.value.1 == full[|full| - 1]
    && r.at.value.0 in t && t[r.at.value.0].Dir? && Childless(t, r.ino)
    && Child(t, r.at.value.0, r.at.value.1) == Some(r.ino) && Lookup(t, full[..|full| - 1]) == Some(r.at.value.0)
  }

  /** A directory has no bytes iff it has no entries. */
  lemma StoredEmpty(inos: seq<Inode>, t: Tree, n: nat)
    requires n < |inos| && Stores(inos, t, n) && n in t && DirOk(t, n)
    ensures inos[n].isDir <==> t[n].Dir?
    ensures inos[n].isDir ==> (|inos[n].data| == 0 <==> t[n] == Dir([]))
  {
    if t[n].Dir? { EncodeEmpty(t[n].entries); }
  }

  /** The inodes after a removal store the tree without the node. */
  lemma RemovedStored(before: seq<Inode>, after: seq<Inode>, t: Tree, p: nat, x: Name, n: nat)
    requires Represents(before, t) && p in t && t[p].Dir? && n != p && n < INODES
    requires TreeOk(Removed(t, p, x, n)) && AllOk(Without(t[p].entries, x))
    requires |after| == INODES && after[n] == FREE
    requires after[p] == before[p].(data := Encode(Without(t[p].entries, x)))
    requires |after[p].data| <= after[p].capacity
    requires forall i | 0 <= i < INODES && i != n && i != p :: after[i] == before[i]
    ensures Represents(after, Removed(t, p, x, n))
  {
    var t' := Removed(t, p, x, n);
    forall i: nat | i < INODES
      ensures Stores(after, t', i)
    {
      assert Stores(before, t, i);
    }
  }

  /** The inodes after a creation store the tree with the new node. */
  lemma CreatedStored(before: seq<Inode>, after: seq<Inode>, t: Tree, p: nat, x: Name, n: nat, node: Node)
    requires Represents(before, t) && p in t && t[p].Dir? && 1 <= n < INODES && n !in t && EntryOk(Entry(n, x))
    requires node == (if node.Dir? then Dir([]) else File([])) && TreeOk(Created(t, p, x, n, node))
    requires |after| == INODES && after[n] == Inode(true, node.Dir?, [], 0)
    requires after[p] == before[p].(data := before[p].data + EncodeEntry(Entry(n, x)), capacity := after[p].capacity)
    requires |after[p].data| <= after[p].capacity
    requires forall i | 0 <= i < INODES && i != n && i != p :: after[i] == before[i]
    ensures Represents(after, Created(t, p, x, n, node))
  {
    var t' := Created(t, p, x, n, node);
    forall i: nat | i < INODES
      ensures Stores(after, t', i)
    {
      assert Stores(before, t, i);
      if i == p {
        EncodeAppend(t[p].entries, [Entry(n, x)]);
        EncodeOne(Entry(n, x));
      }
    }
  }

  /** The component at `p`, none if it is too long, and where the next one starts. */
  method NextComponent(path: seq<byte>, p: nat) returns (comp: Option<Name>, next: nat)
    requires p < |path|
    ensures comp.None? ==> Split(path[p..]) != [] && |Split(path[p..])[0]| >= MAX_NAME
    ensures comp.Some? ==>
      && p < next <= |path| && |comp.value| < MAX_NAME
      && (next == |path| <==> Split(path[next..]) == [])
      && Split(path[p..]) == if comp.value == [] then Split(path[next..]) else [comp.value] + Split(path[next..])
  {
    var n := ReadComponent(path, p, false);
    FirstComponent(path, p);
    if n.None? {
      return None, p;
    }
    assert path[p..][..n.value] == path[p..p + n.value] && path[p..][n.value..] == path[p + n.value..];
    next := SkipSlashes(path, p + n.value);
    comp := Some(path[p..p + n.value]);
  }

  lemma RootOnly(t: Tree)
    requires t == map[ROOT := Dir([])]
    ensures TreeOk(t)
  {
    forall p: nat
      ensures DirOk(t, p)
    {
    }
    assert Lookup(t, []) == Some(ROOT);
  }

  /** The component at `p`, empty if there is a slash, and the components behind it. */
  lemma FirstComponent(path: seq<byte>, p: nat)
    requires p < |path|
    ensures var s := path[p..];
            var c := s[..SegLen(s)];
            if c == [] then Split(s) == Split(Skip(s[SegLen(s)..]))
            else Split(s) == [c] + Split(Skip(s[SegLen(s)..]))
  {
    var s := path[p..];
    SplitSkip(s);
    SplitSkip(s[SegLen(s)..]);
  }
}
