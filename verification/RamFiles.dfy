/**
 * kernel/fs.c: open files, the descriptors over the inode pool of RamFs.
 */
module RamFiles {
  import opened Wrappers
  import opened FsFormat
  import opened FsTree
  import opened FsPath
  import opened RamFs

  /** CGRTOS_FS_MAX_FD and CGRTOS_FS_MAX_FILE_BYTES. */
  const FDS: nat := 16
  const MAX_FILE: nat := 32768
  /** Positions have 32 bits. */
  const UINT32: nat := 0x1_0000_0000

  datatype Flags = Flags(create: bool, trunc: bool, append: bool, readOnly: bool)

  datatype Fd = Fd(used: bool, ino: nat, flags: Flags, pos: nat)

  const CLOSED := Fd(false, 0, Flags(false, false, false, false), 0)

  datatype Whence = Set | Cur | End

  // ---- contents ----

  /** At most `len` bytes from `pos` on. */
  function ReadAt(c: seq<byte>, pos: nat, len: nat): seq<byte> {
    if pos >= |c| then [] else if pos + len <= |c| then c[pos..pos + len] else c[pos..]
  }

  /** `data` over the content at `pos`.  Bytes between the old end and `pos` are whatever the buffer held there: `stale`. */
  function WriteAt(c: seq<byte>, pos: nat, data: seq<byte>, stale: seq<byte>): (r: seq<byte>)
    requires pos > |c| ==> |stale| == pos - |c|
    ensures |r| == if pos + |data| > |c| then pos + |data| else |c|
  {
    var filled := if pos > |c| then c + stale else c;
    filled[..pos] + data + (if pos + |data| < |c| then c[pos + |data|..] else [])
  }

  /** What was written is read back, and everything else is as it was. */
  lemma ReadBack(c: seq<byte>, pos: nat, data: seq<byte>, stale: seq<byte>, at: nat)
    requires pos > |c| ==> |stale| == pos - |c|
    ensures ReadAt(WriteAt(c, pos, data, stale), pos, |data|) == data
    ensures at < |c| && !(pos <= at < pos + |data|) ==> WriteAt(c, pos, data, stale)[at] == c[at]
  {
    var r := WriteAt(c, pos, data, stale);
    assert r[pos..pos + |data|] == data;
  }

  /** A read gives the bytes from `pos` on, as many as asked for or as there are. */
  lemma ReadExact(c: seq<byte>, pos: nat, len: nat)
    ensures var r := ReadAt(c, pos, len);
            && (|r| == len || (|r| < len && (pos + |r| == |c| || (r == [] && pos >= |c|))))
            && forall i | 0 <= i < |r| :: pos + i < |c| && r[i] == c[pos + i]
  {
  }

  /** Bytes that a write skips over past the old end are the stale ones. */
  lemma WriteLeavesGap(c: seq<byte>, pos: nat, data: seq<byte>, stale: seq<byte>, at: nat)
    requires |c| <= at < pos && |stale| == pos - |c|
    ensures WriteAt(c, pos, data, stale)[at] == stale[at - |c|]
  {
  }

  /** Reading in pieces is reading at once. */
  lemma ReadPieces(c: seq<byte>, pos: nat, a: nat, b: nat)
    ensures ReadAt(c, pos, a) + ReadAt(c, pos + |ReadAt(c, pos, a)|, b) == ReadAt(c, pos, a + b) || |ReadAt(c, pos, a)| < a
    ensures |ReadAt(c, pos, a)| < a ==> ReadAt(c, pos, a + b) == ReadAt(c, pos, a)
  {
  }

  /** A new content for file `n` leaves the tree as it is. */
  lemma ContentKeepsTree(t: Tree, n: nat, data: seq<byte>)
    requires TreeOk(t) && n in t && t[n].File?
    ensures var t' := t[n := File(data)];
            TreeOk(t') && forall c: Path :: Lookup(t', c) == Lookup(t, c)
  {
    var t' := t[n := File(data)];
    forall q: nat, y: Name
      ensures Child(t', q, y) == Child(t, q, y)
    {
    }
    forall c: Path
      ensures Lookup(t', c) == Lookup(t, c)
    {
      SameWalks(t, t', ROOT, c);
    }
    forall q: nat
      ensures DirOk(t', q)
    {
      assert DirOk(t, q);
    }
    forall m | m in t'
      ensures Reachable(t', m)
    {
      assert Reachable(t, m);
      assert Lookup(t', PathTo(t, m)) == Some(m);
    }
  }

  /** An empty file is under a path that led nowhere, and nothing else has changed. */
  ghost predicate FileMade(t: Tree, t': Tree, path: Path, n: nat) {
    n !in t && n in t' && t'[n] == File([]) && PathAdded(t, t', path, n) && FilesKept(t, t', n)
  }

  lemma ContentStored(before: seq<Inode>, after: seq<Inode>, t: Tree, n: nat, data: seq<byte>, capacity: nat)
    requires Represents(before, t) && n in t && n < INODES && t[n].File? && |data| <= capacity
    requires |after| == INODES && after == before[n := before[n].(data := data, capacity := capacity)]
    ensures Represents(after, t[n := File(data)])
  {
    ContentKeepsTree(t, n, data);
    var t' := t[n := File(data)];
    forall i: nat | i < INODES
      ensures Stores(after, t', i)
    {
      assert Stores(before, t, i);
    }
  }

  class Files {
    const fs: Fs
    const fds: array<Fd>

    /** Every open descriptor is of a file that exists. */
    ghost predicate Valid()
      reads this, fs, fs.inos, fds
    {
      && fs.Valid() && fds.Length == FDS
      && (forall i {:trigger fds[i]} | 0 <= i < FDS && fds[i].used :: fds[i].ino in fs.tree && fs.tree[fds[i].ino].File? && fds[i].pos < UINT32)
      && (forall n | n in fs.tree && fs.tree[n].File? :: |fs.tree[n].data| <= MAX_FILE)
    }

    constructor (fs: Fs)
      requires fs.Valid() && forall n | n in fs.tree && fs.tree[n].File? :: |fs.tree[n].data| <= MAX_FILE
      ensures Valid() && this.fs == fs && fresh(fds) && forall i | 0 <= i < FDS :: !fds[i].used
    {
      this.fs := fs;
      fds := new Fd[FDS](_ => CLOSED);
    }

    /** The content of the file behind a descriptor. */
    ghost function Content(fd: nat): seq<byte>
      requires fd < fds.Length && fds[fd].ino in fs.tree && fs.tree[fds[fd].ino].File?
      reads this, fs, fds
    {
      fs.tree[fds[fd].ino].data
    }

    /** File `n` gets a new content. */
    method SetContent(n: nat, data: seq<byte>, capacity: nat)
      requires fs.Valid() && n in fs.tree && fs.tree[n].File? && |data| <= capacity
      modifies fs, fs.inos
      ensures fs.Valid() && fs.tree == old(fs.tree)[n := File(data)]
    {
      ghost var before := fs.inos[..];
      assert Stores(before, fs.tree, n);
      ContentStored(before, before[n := before[n].(data := data, capacity := capacity)], fs.tree, n, data, capacity);
      fs.inos[n] := fs.inos[n].(data := data, capacity := capacity);
      assert fs.inos[..] == before[n := before[n].(data := data, capacity := capacity)];
      fs.tree := fs.tree[n := File(data)];
    }

    /** `cgrtos_fs_read`. */
    method Read(fd: int, len: nat) returns (r: Option<seq<byte>>)
      requires Valid()
      modifies fds
      ensures Valid()
      ensures r.Some? <==> 0 <= fd < FDS && old(fds[fd]).used
      ensures r.Some? ==> r.value == ReadAt(old(Content(fd)), old(fds[fd]).pos, len)
      ensures fds[..] == if r.Some? then old(fds[..])[fd := old(fds[fd]).(pos := old(fds[fd]).pos + |r.value|)] else old(fds[..])
    {
      if fd < 0 || fd >= FDS || !fds[fd].used {
        return None;
      }
      var f := fds[fd];
      assert Stores(fs.inos[..], fs.tree, f.ino);
      var data := fs.inos[f.ino].data;
      if f.pos >= |data| {
        assert fds[..] == fds[..][fd := f];
        return Some([]);
      }
      var n := |data| - f.pos;
      if n > len {
        n := len;
      }
      r := Some(data[f.pos..f.pos + n]);
      fds[fd] := f.(pos := f.pos + n);
    }

    /**
     * `cgrtos_fs_write`.  `memory` says whether the buffer can grow, `stale` what it holds behind
     * the end of the file.
     */
    method Write(fd: int, data: seq<byte>, memory: bool, stale: seq<byte>) returns (ok: bool)
      requires Valid() && |stale| == MAX_FILE
      requires 0 <= fd < FDS && fds[fd].used ==> fds[fd].pos + |data| < UINT32
      modifies fs, fs.inos, fds
      ensures Valid()
      ensures !ok ==> fs.tree == old(fs.tree)
      ensures !ok ==> (
        if 0 <= fd < FDS && old(fds[fd]).used && !old(fds[fd]).flags.readOnly && old(fds[fd]).flags.append
        then fds[..] == old(fds[..])[fd := old(fds[fd]).(pos := |old(Content(fd))|)] else fds[..] == old(fds[..]))
      ensures ok ==> 0 <= fd < FDS && old(fds[fd]).used && !old(fds[fd]).flags.readOnly
      ensures ok ==>
        var c := old(Content(fd));
        var p := if old(fds[fd]).flags.append then |c| else old(fds[fd]).pos;
        && p + |data| <= MAX_FILE
        && fs.tree == old(fs.tree)[old(fds[fd]).ino := File(WriteAt(c, p, data, if p > |c| then stale[|c|..p] else []))]
        && fds[..] == old(fds[..])[fd := old(fds[fd]).(pos := p + |data|)]
      ensures 0 <= fd < FDS && old(fds[fd]).used && !old(fds[fd]).flags.readOnly && memory ==>
        var p := if old(fds[fd]).flags.append then |old(Content(fd))| else old(fds[fd]).pos;
        ok <==> p + |data| <= MAX_FILE
    {
      if fd < 0 || fd >= FDS || !fds[fd].used || fds[fd].flags.readOnly {
        return false;
      }
      var f := fds[fd];
      var pos := StartOfWrite(fd);
      ok := Overwrite(f.ino, pos, data, memory, stale);
      if ok {
        fds[fd] := f.(pos := pos + |data|);
      }
    }

    /** A descriptor opened to append starts every write at the end of the file. */
    method StartOfWrite(fd: nat) returns (pos: nat)
      requires Valid() && fd < FDS && fds[fd].used
      modifies fds
      ensures Valid() && pos == if old(fds[fd]).flags.append then |old(Content(fd))| else old(fds[fd]).pos
      ensures fds[..] == old(fds[..])[fd := old(fds[fd]).(pos := pos)]
    {
      var f := fds[fd];
      assert Stores(fs.inos[..], fs.tree, f.ino);
      pos := if f.flags.append then |fs.inos[f.ino].data| else f.pos;
      fds[fd] := f.(pos := pos);
      assert fds[..] == old(fds[..])[fd := f.(pos := pos)];
    }

    /** The part of write that concerns the inode. */
    method Overwrite(n: nat, pos: nat, data: seq<byte>, memory: bool, stale: seq<byte>) returns (ok: bool)
      requires Valid() && |stale| == MAX_FILE && n in fs.tree && fs.tree[n].File?
      modifies fs, fs.inos
      ensures Valid()
      ensures ok ==> pos + |data| <= MAX_FILE
      ensures memory && pos + |data| <= MAX_FILE ==> ok
      ensures var c := old(fs.tree)[n].data;
              fs.tree == if ok then old(fs.tree)[n := File(WriteAt(c, pos, data, if pos > |c| then stale[|c|..pos] else []))] else old(fs.tree)
    {
      assert Stores(fs.inos[..], fs.tree, n);
      var x := fs.inos[n];
      var end := pos + |data|;
      if end > MAX_FILE {
        return false;
      }
      var capacity := Capacity(x.capacity, end);
      if capacity != x.capacity && !memory {
        return false;
      }
      var c := WriteAt(x.data, pos, data, if pos > |x.data| then stale[|x.data|..pos] else []);
      SetContent(n, c, if capacity < |c| then |c| else capacity);
      ok := true;
    }

    /** The capacity a buffer has when `end` bytes must fit: doubled, up to the largest file. */
    method Capacity(capacity: nat, end: nat) returns (r: nat)
      requires end <= MAX_FILE
      ensures r >= end && (end <= capacity ==> r == capacity)
    {
      if end <= capacity {
        return capacity;
      }
      r := if capacity != 0 then capacity * 2 else 64;
      while r < end
        invariant r > 0
        decreases end - r
      {
        r := r * 2;
      }
      if r > MAX_FILE {
        r := MAX_FILE;
      }
    }

    /** `cgrtos_fs_lseek`: before the start counts as the start; past the end is allowed. */
    method Lseek(fd: int, off: int, whence: Whence) returns (r: Option<int>)
      requires Valid()
      modifies fds
      ensures Valid()
      ensures r.Some? <==> 0 <= fd < FDS && old(fds[fd]).used
      ensures r.Some? ==>
        var base := match whence { case Set => 0 case Cur => old(fds[fd]).pos case End => |old(Content(fd))| };
        && r.value == (if base + off < 0 then 0 else base + off)
        && fds[..] == old(fds[..])[fd := old(fds[fd]).(pos := r.value % UINT32)]
    {
      if fd < 0 || fd >= FDS || !fds[fd].used {
        return None;
      }
      var f := fds[fd];
      assert Stores(fs.inos[..], fs.tree, f.ino);
      var pos := match whence { case Set => off case Cur => f.pos + off case End => |fs.inos[f.ino].data| + off };
      if pos < 0 {
        pos := 0;
      }
      fds[fd] := f.(pos := pos % UINT32);
      r := Some(pos);
    }

    /** `cgrtos_fs_close`. */
    method Close(fd: int) returns (ok: bool)
      requires Valid()
      modifies fds
      ensures Valid() && (ok <==> 0 <= fd < FDS && old(fds[fd]).used)
      ensures fds[..] == if ok then old(fds[..])[fd := CLOSED] else old(fds[..])
    {
      if fd < 0 || fd >= FDS || !fds[fd].used {
        return false;
      }
      fds[fd] := CLOSED;
      ok := true;
    }

    /** The first free descriptor takes file `n`. */
    method Allocate(n: nat, flags: Flags, pos: nat) returns (r: Option<nat>)
      requires Valid() && n in fs.tree && fs.tree[n].File? && pos < UINT32
      modifies fds
      ensures Valid()
      ensures r.None? ==> fds[..] == old(fds[..]) && forall i | 0 <= i < FDS :: fds[i].used
      ensures r.Some? ==>
        && r.value < FDS && !old(fds[..])[r.value].used && (forall j | 0 <= j < r.value :: old(fds[..])[j].used)
        && fds[..] == old(fds[..])[r.value := Fd(true, n, flags, pos)]
    {
      var i := 0;
      while i < FDS
        invariant 0 <= i <= FDS && fds[..] == old(fds[..])
        invariant forall j | 0 <= j < i :: fds[j].used
      {
        if !fds[i].used {
          fds[i] := Fd(true, n, flags, pos);
          return Some(i);
        }
        i := i + 1;
      }
      r := None;
    }

    /** The part of open that finds the file, or makes it. */
    method Target(path: seq<byte>, create: bool, memory: bool) returns (n: Option<nat>)
      requires Valid()
      modifies fs, fs.inos
      ensures Valid()
      ensures n.Some? ==> n.value in fs.tree && fs.tree[n.value].File?
      ensures var o := old(Resolve(fs.tree, path));
              if create && old(fs.CanCreate(path, memory)) then
                n.Some? && FileMade(old(fs.tree), fs.tree, Meaning(path), n.value)
              else fs.tree == old(fs.tree) && n == if o.Hit? && o.ino in fs.tree && fs.tree[o.ino].File? then Some(o.ino) else None
    {
      ResolveMeans(fs.tree, path);
      WalkInTree(fs.tree, Meaning(path));
      var created := false;
      if create {
        n, created := fs.ResolveOrCreate(path, false, memory);
      } else {
        var r := fs.PathResolve(path);
        n := if r.Hit? then Some(r.ino) else None;
      }
      if n.Some? {
        assert Stores(fs.inos[..], fs.tree, n.value);
        if fs.inos[n.value].isDir {
          n := None;
        }
      }
    }

    /** The path leads to a file. */
    ghost predicate FileAt(path: seq<byte>)
      requires fs.Valid()
      reads this, fs, fs.inos
    {
      var o := Resolve(fs.tree, path);
      o.Hit? && o.ino in fs.tree && fs.tree[o.ino].File?
    }

    /** For a path written out: when its file is there, and which one that is. */
    lemma FileAtIff(p: Path)
      requires Valid() && AllPlain(p) && |p| < MAX_STACK
      ensures FileAt(Render(p)) <==> Lookup(fs.tree, p).Some? && Lookup(fs.tree, p).value in fs.tree && fs.tree[Lookup(fs.tree, p).value].File?
      ensures FileAt(Render(p)) ==> Lookup(fs.tree, p) == Some(Resolve(fs.tree, Render(p)).ino)
    {
      PlainHitIff(fs.tree, p);
    }

    /** `cgrtos_fs_open`.  Creation and truncation happen even if no descriptor is free. */
    method Open(path: seq<byte>, flags: Flags, memory: bool) returns (r: Option<nat>)
      requires Valid()
      modifies fs, fs.inos, fds
      ensures Valid()
      ensures r.Some? <==>
        && (exists i :: 0 <= i < FDS && !old(fds[..])[i].used)
        && ((flags.create && old(fs.CanCreate(path, memory))) || old(FileAt(path)))
      ensures r.Some? ==> r.value < FDS && forall i | 0 <= i < r.value :: old(fds[..])[i].used
      ensures r.Some? && flags.create && old(fs.CanCreate(path, memory)) ==>
        FileMade(old(fs.tree), fs.tree, Meaning(path), fds[r.value].ino)
      ensures flags.create && old(fs.CanCreate(path, memory)) ==> exists n: nat :: FileMade(old(fs.tree), fs.tree, Meaning(path), n)
      ensures r.None? ==> fds[..] == old(fds[..])
      ensures r.Some? ==>
        && !old(fds[..])[r.value].used && fds[r.value].used && fds[r.value].flags == flags
        && fds[..] == old(fds[..])[r.value := fds[r.value]]
        && fds[r.value].pos == (if flags.append then |Content(r.value)| else 0)
        && (flags.trunc ==> Content(r.value) == [])
      ensures r.Some? && !(flags.create && old(fs.CanCreate(path, memory))) ==> fds[r.value].ino == old(Resolve(fs.tree, path)).ino
      ensures !(flags.create && old(fs.CanCreate(path, memory))) ==>
        fs.tree == if flags.trunc && old(FileAt(path)) then old(fs.tree)[old(Resolve(fs.tree, path)).ino := File([])] else old(fs.tree)
    {
      var n := Target(path, flags.create, memory);
      if n.None? {
        return None;
      }
      assert Stores(fs.inos[..], fs.tree, n.value);
      if flags.trunc {
        ghost var t := fs.tree;
        SetContent(n.value, [], fs.inos[n.value].capacity);
        assert t[n.value] == File([]) ==> fs.tree == t;
      }
      assert Stores(fs.inos[..], fs.tree, n.value);
      r := Allocate(n.value, flags, if flags.append then |fs.inos[n.value].data| else 0);
    }
  }
}
