/**
 * The packed directories of kernel/fs.c: a directory's bytes are its entries one after the
 * other, each `[ino low][ino high][name length][name]`.
 */
module FsFormat {
  import opened Wrappers

  type Name = seq<byte>

  /** CGRTOS_FS_MAX_NAME, the terminating zero included. */
  const MAX_NAME: nat := 32

  /** A directory entry. */
  datatype Entry = Entry(ino: nat, name: Name)

  /** What fits the format: a 16-bit inode number and a name of 1 to 31 bytes. */
  predicate EntryOk(e: Entry) {
    e.ino < 0x1_0000 && 0 < |e.name| < MAX_NAME
  }

  ghost predicate AllOk(es: seq<Entry>) {
    forall i | 0 <= i < |es| :: EntryOk(es[i])
  }

  /** A little-endian 16-bit number. */
  function Word(low: byte, high: byte): nat {
    var l: nat, h: nat := low, high;
    l + 256 * h
  }

  function EncodeEntry(e: Entry): (d: seq<byte>)
    requires EntryOk(e)
    ensures |d| == 3 + |e.name|
  {
    [e.ino % 256, e.ino / 256, |e.name|] + e.name
  }

  function Encode(es: seq<Entry>): seq<byte>
    requires AllOk(es)
  {
    if es == [] then [] else EncodeEntry(es[0]) + Encode(es[1..])
  }

  lemma {:induction false} EncodeAppend(a: seq<Entry>, b: seq<Entry>)
    requires AllOk(a) && AllOk(b)
    ensures AllOk(a + b) && Encode(a + b) == Encode(a) + Encode(b)
  {
    if a == [] {
      assert a + b == b;
    } else {
      EncodeAppend(a[1..], b);
      assert (a + b)[1..] == a[1..] + b && (a + b)[0] == a[0];
      assert Encode(a + b) == EncodeEntry(a[0]) + (Encode(a[1..]) + Encode(b));
    }
  }

  lemma EncodeOne(e: Entry)
    requires EntryOk(e)
    ensures AllOk([e]) && Encode([e]) == EncodeEntry(e)
  {
  }

  /** Entries are read back exactly as written: the encoding determines the entries. */
  lemma {:induction false} EncodeInjective(a: seq<Entry>, b: seq<Entry>)
    requires AllOk(a) && AllOk(b) && Encode(a) == Encode(b)
    ensures a == b
  {
    if a != [] && b != [] {
      var d := Encode(a);
      HeadFields(a);
      HeadFields(b);
      assert a[0] == b[0];
      assert Encode(a[1..]) == d[3 + |a[0].name|..] == Encode(b[1..]);
      EncodeInjective(a[1..], b[1..]);
      assert a == [a[0]] + a[1..] && b == [b[0]] + b[1..];
    }
  }

  /** The first entry's fields, read from the bytes. */
  lemma HeadFields(es: seq<Entry>)
    requires AllOk(es) && es != []
    ensures var d := Encode(es);
            && |d| >= 3 + |es[0].name|
            && Word(d[0], d[1]) == es[0].ino && d[2] == |es[0].name|
            && d[3..3 + d[2]] == es[0].name
            && d[3 + d[2]..] == Encode(es[1..])
  {
    var d, h := Encode(es), EncodeEntry(es[0]);
    assert d == h + Encode(es[1..]);
    assert d[..|h|] == h && h[3..] == es[0].name;
    assert d[3..3 + |es[0].name|] == h[3..];
  }

  /** The inode number under `name`, from the first entry that has it. */
  function Find(es: seq<Entry>, name: Name): Option<nat> {
    if es == [] then None
    else if es[0].name == name then Some(es[0].ino)
    else Find(es[1..], name)
  }

  /** The entries without the first one called `name`. */
  function Without(es: seq<Entry>, name: Name): seq<Entry> {
    if es == [] then []
    else if es[0].name == name then es[1..]
    else [es[0]] + Without(es[1..], name)
  }

  /** Byte-by-byte comparison of a stored name with a path component. */
  method SameName(d: seq<byte>, off: nat, name: Name) returns (same: bool)
    requires off + |name| <= |d|
    ensures same <==> d[off..off + |name|] == name
  {
    var k := 0;
    same := true;
    while k < |name|
      invariant 0 <= k <= |name|
      invariant forall j | 0 <= j < k :: d[off + j] == name[j]
    {
      if d[off + k] != name[k] {
        assert d[off..off + |name|][k] != name[k];
        same := false;
        return;
      }
      k := k + 1;
    }
    assert d[off..off + |name|] == name;
  }

  lemma SliceOfSlice(d: seq<byte>, off: nat, a: nat, b: nat)
    requires off <= |d| && a <= b <= |d| - off
    ensures d[off..][a..b] == d[off + a..off + b] && d[off..][b..] == d[off + b..]
  {
  }

  /** The bytes at the start of entry `k`, and where the next entry starts. */
  lemma EntryAt(d: seq<byte>, es: seq<Entry>, off: nat, k: nat)
    requires AllOk(es) && d == Encode(es) && k <= |es|
    requires off == |Encode(es[..k])| <= |d| && d[off..] == Encode(es[k..])
    ensures k == |es| <==> off + 3 > |d|
    ensures k < |es| ==>
      && d[off + 2] == |es[k].name| && Word(d[off], d[off + 1]) == es[k].ino
      && off + 3 + |es[k].name| == |Encode(es[..k + 1])| <= |d|
      && d[off + 3..off + 3 + |es[k].name|] == es[k].name
      && d[off + 3 + |es[k].name|..] == Encode(es[k + 1..])
  {
    if k < |es| {
      HeadFields(es[k..]);
      var nl := |es[k].name|;
      assert |d[off..]| >= 3 + nl;
      assert d[off..][2] == d[off + 2] && d[off..][0] == d[off] && d[off..][1] == d[off + 1];
      SliceOfSlice(d, off, 3, 3 + nl);
      assert es[k..][1..] == es[k + 1..];
      EncodePast(es, k);
    }
  }

  lemma EncodePast(es: seq<Entry>, k: nat)
    requires AllOk(es) && k < |es|
    ensures |Encode(es[..k + 1])| == |Encode(es[..k])| + 3 + |es[k].name|
  {
    assert es[..k + 1] == es[..k] + [es[k]];
    EncodeAppend(es[..k], [es[k]]);
    EncodeOne(es[k]);
  }

  /**
   * The scan shared by `path_resolve` and `dir_remove_child`: the offset of the first entry
   * called `name`, or none.  `k` is that entry's position.
   */
  method Scan(d: seq<byte>, name: Name, ghost es: seq<Entry>) returns (hit: Option<nat>, ghost k: nat)
    requires AllOk(es) && d == Encode(es)
    ensures hit.None? ==> Find(es, name) == None
    ensures hit.Some? ==> HitAt(es, name, k) && hit.value == |Encode(es[..k])| && hit.value + 3 + |name| <= |d|
    ensures hit.Some? ==> d[hit.value + 2] == |name| && Word(d[hit.value], d[hit.value + 1]) == es[k].ino
  {
    var off := 0;
    k := 0;
    while off + 3 <= |d|
      invariant 0 <= k <= |es| && 0 <= off <= |d|
      invariant off == |Encode(es[..k])| && d[off..] == Encode(es[k..])
      invariant forall i | 0 <= i < k :: es[i].name != name
      decreases |d| - off
    {
      EntryAt(d, es, off, k);
      var nl := d[off + 2];
      if off + 3 + nl > |d| {
        break;
      }
      if nl == |name| {
        var same := SameName(d, off + 3, name);
        if same {
          return Some(off), k;
        }
      }
      off := off + 3 + nl;
      k := k + 1;
    }
    EntryAt(d, es, off, k);
    FindNone(es, name);
    hit := None;
  }

  /** Entry `k` is the first one called `name`. */
  ghost predicate HitAt(es: seq<Entry>, name: Name, k: nat) {
    k < |es| && es[k].name == name && forall i | 0 <= i < k :: es[i].name != name
  }

  lemma {:induction false} FindAt(es: seq<Entry>, name: Name, k: nat)
    requires HitAt(es, name, k)
    ensures Find(es, name) == Some(es[k].ino) && Without(es, name) == es[..k] + es[k + 1..]
  {
    if k > 0 {
      FindAt(es[1..], name, k - 1);
      assert [es[0]] + (es[1..][..k - 1] + es[1..][k..]) == es[..k] + es[k + 1..];
    }
  }

  lemma {:induction false} FindNone(es: seq<Entry>, name: Name)
    requires forall i | 0 <= i < |es| :: es[i].name != name
    ensures Find(es, name) == None
  {
    if es != [] { FindNone(es[1..], name); }
  }

  /** The byte move of `dir_remove_child`: cutting one entry out leaves the encoding of the others. */
  lemma CutEntry(es: seq<Entry>, k: nat)
    requires AllOk(es) && k < |es|
    ensures var d, off, len := Encode(es), |Encode(es[..k])|, 3 + |es[k].name|;
            && off + len <= |d|
            && AllOk(es[..k] + es[k + 1..])
            && d[..off] + d[off + len..] == Encode(es[..k] + es[k + 1..])
  {
    assert es == es[..k] + ([es[k]] + es[k + 1..]);
    EncodeAppend(es[..k], [es[k]] + es[k + 1..]);
    EncodeAppend([es[k]], es[k + 1..]);
    EncodeOne(es[k]);
    EncodeAppend(es[..k], es[k + 1..]);
    var d, off := Encode(es), |Encode(es[..k])|;
    assert d == Encode(es[..k]) + (EncodeEntry(es[k]) + Encode(es[k + 1..]));
  }
}
