/**
 * Paths: how `path_resolve` of kernel/fs.c reads them, how `cli_path_normalize` of
 * cli/cli_path.c rewrites them, and why the two agree.
 */
module FsPath {
  import opened Wrappers
  import opened FsFormat
  import opened FsTree

  const SLASH: byte := 47
  const DOT: byte := 46
  const MAX_STACK: nat := 16

  // ---- reading a path ----

  /** The length of the component at the start of `s`. */
  function SegLen(s: seq<byte>): (n: nat)
    ensures n <= |s| && SLASH !in s[..n] && (n < |s| ==> s[n] == SLASH)
  {
    if s == [] || s[0] == SLASH then 0
    else
      var n := SegLen(s[1..]);
      assert s[..n + 1] == [s[0]] + s[1..][..n];
      n + 1
  }

  /** `s` without its leading slashes. */
  function Skip(s: seq<byte>): (r: seq<byte>)
    ensures |r| <= |s| && (r != [] ==> r[0] != SLASH)
  {
    if s != [] && s[0] == SLASH then Skip(s[1..]) else s
  }

  /** The components of a path, in order. */
  function Split(s: seq<byte>): (c: Path)
    ensures forall i | 0 <= i < |c| :: c[i] != [] && SLASH !in c[i]
    decreases |s|
  {
    var r := Skip(s);
    if r == [] then [] else [r[..SegLen(r)]] + Split(r[SegLen(r)..])
  }

  predicate IsDot(c: Name) { c == [DOT] }
  predicate IsDotDot(c: Name) { c == [DOT, DOT] }

  /** A component that names an entry. */
  predicate Plain(c: Name) {
    0 < |c| < MAX_NAME && SLASH !in c && !IsDot(c) && !IsDotDot(c)
  }

  // ---- resolving ----

  /**
   * What `path_resolve` finds: a node, with its directory and name unless the path ends in
   * ".."; a name missing from an existing directory; or neither.
   */
  datatype Resolved = Hit(ino: nat, at: Option<(nat, Name)>) | Missing(parent: nat, leaf: Name) | Bad

  /** The component loop of `path_resolve`, with its stack of directories. */
  function Steps(t: Tree, stack: seq<nat>, comps: Path): Resolved
    requires stack != []
    decreases |comps|
  {
    if comps == [] then Bad
    else
      var c, rest, last := comps[0], comps[1..], |comps| == 1;
      var cur := stack[|stack| - 1];
      if |c| >= MAX_NAME then Bad
      else if c == [] || IsDot(c) then Steps(t, stack, rest)
      else if IsDotDot(c) then
        var up := if |stack| > 1 then stack[..|stack| - 1] else stack;
        if last then Hit(up[|up| - 1], None) else Steps(t, up, rest)
      else if cur !in t || !t[cur].Dir? then Bad
      else
        match Find(t[cur].entries, c)
        case None => if last then Missing(cur, c) else Bad
        case Some(i) =>
          if |stack| >= MAX_STACK then Bad
          else if last then Hit(i, Some((cur, c)))
          else Steps(t, stack + [i], rest)
  }

  function Resolve(t: Tree, path: seq<byte>): Resolved {
    if path == [] || path[0] != SLASH then Bad
    else if |path| == 1 then Hit(ROOT, Some((ROOT, [])))
    else Steps(t, [ROOT], Split(path[1..]))
  }

  /** The lexical meaning of components after `names`: "." stays, ".." goes up, anything else goes down. */
  function Normal(names: Path, comps: Path): Path
    decreases |comps|
  {
    if comps == [] then names
    else if IsDot(comps[0]) then Normal(names, comps[1..])
    else if IsDotDot(comps[0]) then Normal(if names == [] then [] else names[..|names| - 1], comps[1..])
    else Normal(names + [comps[0]], comps[1..])
  }

  /** The components a path stands for. */
  function Meaning(path: seq<byte>): Path {
    if path == [] then [] else Normal([], Split(path[1..]))
  }

  /** The stack holds the nodes along `names`. */
  ghost predicate Tracks(t: Tree, stack: seq<nat>, names: Path) {
    && |stack| == |names| + 1 && stack[0] == ROOT
    && (forall k | 0 <= k < |names| :: Child(t, stack[k], names[k]) == Some(stack[k + 1]))
    && (forall k | 0 <= k < |names| :: Plain(names[k]))
  }

  lemma {:induction false} TracksLookup(t: Tree, stack: seq<nat>, names: Path)
    requires Tracks(t, stack, names)
    ensures Lookup(t, names) == Some(stack[|names|])
  {
    if names != [] {
      var k := |names| - 1;
      assert names == names[..k] + [names[k]];
      assert Tracks(t, stack[..|stack| - 1], names[..k]);
      TracksLookup(t, stack[..|stack| - 1], names[..k]);
      WalkLast(t, ROOT, names[..k], names[k]);
    }
  }

  /** What a result of the component loop says about the tree. */
  ghost predicate Means(t: Tree, r: Resolved, full: Path) {
    match r
    case Hit(i, at) =>
      && Lookup(t, full) == Some(i) && |full| < MAX_STACK
      && (forall k | 0 <= k < |full| :: Plain(full[k]))
      && (at.None? ==> i in t && t[i].Dir? && (i == ROOT || t[i].entries != []))
      && (at.Some? && full != [] ==>
            && at.value.0 in t && t[at.value.0].Dir? && Plain(at.value.1)
            && at.value.1 == full[|full| - 1]
            && Lookup(t, full[..|full| - 1]) == Some(at.value.0)
            && Child(t, at.value.0, at.value.1) == Some(i))
    case Missing(p, leaf) =>
      && full != [] && leaf == full[|full| - 1] && Plain(leaf)
      && Lookup(t, full[..|full| - 1]) == Some(p)
      && p in t && t[p].Dir? && Child(t, p, leaf) == None && Lookup(t, full) == None
    case Bad => true
  }

  /** The stack machine computes the lookup of the lexical normal form. */
  lemma {:induction false} StepsMean(t: Tree, stack: seq<nat>, names: Path, comps: Path)
    requires Tracks(t, stack, names) && |stack| <= MAX_STACK && ROOT in t && t[ROOT].Dir?
    requires forall i | 0 <= i < |comps| :: comps[i] != [] && SLASH !in comps[i]
    ensures Means(t, Steps(t, stack, comps), Normal(names, comps))
    decreases |comps|
  {
    if comps != [] {
      var c, rest := comps[0], comps[1..];
      if |c| >= MAX_NAME {
      } else if IsDot(c) {
        StepsMean(t, stack, names, rest);
      } else if IsDotDot(c) {
        var up := if |stack| > 1 then stack[..|stack| - 1] else stack;
        var shorter := if names == [] then [] else names[..|names| - 1];
        StepUp(t, stack, names);
        TracksLookup(t, up, shorter);
        StepsMean(t, up, shorter, rest);
      } else {
        StepDown(t, stack, names, c);
        if Present(t, names + [c]) && rest != [] {
          StepsMean(t, stack + [Child(t, stack[|names|], c).value], names + [c], rest);
        } else {
          LastMeans(t, stack, names, comps);
        }
      }
    }
  }

  /** The walk ends at a component that names an entry. */
  lemma LastMeans(t: Tree, stack: seq<nat>, names: Path, comps: Path)
    requires Tracks(t, stack, names) && |stack| <= MAX_STACK && comps != [] && Plain(comps[0])
    requires !Present(t, names + [comps[0]]) || |comps| == 1
    ensures Means(t, Steps(t, stack, comps), Normal(names, comps))
  {
    var full := names + [comps[0]];
    StepDown(t, stack, names, comps[0]);
    assert full[..|full| - 1] == names;
    if |comps| == 1 { assert Normal(names, comps) == Normal(full, []) == full; }
  }

  /** `path_resolve` is a lookup of what the path means. */
  lemma ResolveMeans(t: Tree, path: seq<byte>)
    requires ROOT in t && t[ROOT].Dir?
    ensures Means(t, Resolve(t, path), Meaning(path))
  {
    if path != [] && path[0] == SLASH && |path| > 1 {
      assert Tracks(t, [ROOT], []);
      StepsMean(t, [ROOT], [], Split(path[1..]));
    }
  }

  // ---- when a path is found ----

  /** A component that goes down. */
  predicate Named(c: Name) {
    !IsDot(c) && !IsDotDot(c)
  }

  /** A node no more than fifteen levels down. */
  ghost predicate Present(t: Tree, full: Path) {
    |full| < MAX_STACK && Lookup(t, full).Some?
  }

  /** Where the first `k` components lead, if the last of them names an entry, is a node within reach. */
  ghost predicate PrefixFound(t: Tree, names: Path, comps: Path, k: nat)
    requires 0 < k <= |comps|
  {
    Named(comps[k - 1]) ==> Present(t, Normal(names, comps[..k]))
  }

  /** The first `n` components can be followed one by one. */
  ghost predicate Followed(t: Tree, names: Path, comps: Path, n: nat)
    requires n <= |comps|
  {
    && (forall i | 0 <= i < |comps| :: |comps[i]| < MAX_NAME)
    && (forall k: nat {:trigger PrefixFound(t, names, comps, k)} | 0 < k <= n :: PrefixFound(t, names, comps, k))
  }

  /** The directories passed so far after component `c`. */
  function Onward(names: Path, c: Name): Path {
    if IsDot(c) then names
    else if IsDotDot(c) then (if names == [] then [] else names[..|names| - 1])
    else names + [c]
  }

  lemma FollowedTail(t: Tree, names: Path, comps: Path, n: nat)
    requires comps != [] && 0 < n <= |comps|
    ensures Followed(t, names, comps, n) <==>
      |comps[0]| < MAX_NAME && (Named(comps[0]) ==> Present(t, names + [comps[0]])) && Followed(t, Onward(names, comps[0]), comps[1..], n - 1)
  {
    var c, rest := comps[0], comps[1..];
    var names' := Onward(names, c);
    forall k: nat | 0 < k <= |rest|
      ensures PrefixFound(t, names, comps, k + 1) <==> PrefixFound(t, names', rest, k)
    {
      assert comps[..k + 1][1..] == rest[..k] && comps[..k + 1][0] == c;
    }
    assert comps[..1] == [c] && comps[..1][1..] == [];
    assert Named(c) ==> Normal(names, [c]) == Normal(names + [c], []) == names + [c];
    assert PrefixFound(t, names, comps, 1) <==> (Named(c) ==> Present(t, names + [c]));
    if Followed(t, names, comps, n) {
      assert forall i | 0 <= i < |rest| :: rest[i] == comps[i + 1];
      forall k: nat | 0 < k <= n - 1
        ensures PrefixFound(t, names', rest, k)
      {
        assert PrefixFound(t, names, comps, k + 1);
      }
    } else if |c| < MAX_NAME && (Named(c) ==> Present(t, names + [c])) && Followed(t, names', rest, n - 1) {
      assert forall i | 0 < i < |comps| :: comps[i] == rest[i - 1];
      forall k: nat | 0 < k <= n
        ensures PrefixFound(t, names, comps, k)
      {
        assert k > 1 ==> PrefixFound(t, names', rest, k - 1);
      }
    }
  }

  /** A component that names an entry, at the top of a tracked stack. */
  lemma StepDown(t: Tree, stack: seq<nat>, names: Path, c: Name)
    requires Tracks(t, stack, names) && |stack| <= MAX_STACK && Plain(c)
    ensures Lookup(t, names) == Some(stack[|names|]) && Lookup(t, names + [c]) == Child(t, stack[|names|], c)
    ensures Present(t, names + [c]) <==> |stack| < MAX_STACK && Child(t, stack[|names|], c).Some?
    ensures Child(t, stack[|names|], c).Some? ==> Tracks(t, stack + [Child(t, stack[|names|], c).value], names + [c])
  {
    TracksLookup(t, stack, names);
    WalkLast(t, ROOT, names, c);
  }

  lemma StepUp(t: Tree, stack: seq<nat>, names: Path)
    requires Tracks(t, stack, names)
    ensures Tracks(t, if |stack| > 1 then stack[..|stack| - 1] else stack, if names == [] then [] else names[..|names| - 1])
  {
  }

  /** The component loop finds a node iff it can follow every component and the last one is not ".". */
  lemma {:induction false} StepsHitIff(t: Tree, stack: seq<nat>, names: Path, comps: Path)
    requires Tracks(t, stack, names) && |stack| <= MAX_STACK
    requires forall i | 0 <= i < |comps| :: comps[i] != [] && SLASH !in comps[i]
    ensures Steps(t, stack, comps).Hit? <==>
      comps != [] && !IsDot(comps[|comps| - 1]) && Followed(t, names, comps, |comps|)
    decreases |comps|
  {
    if comps != [] {
      var c, rest := comps[0], comps[1..];
      FollowedTail(t, names, comps, |comps|);
      assert rest != [] ==> rest[|rest| - 1] == comps[|comps| - 1];
      if |c| >= MAX_NAME {
      } else if IsDot(c) {
        StepsHitIff(t, stack, names, rest);
      } else if IsDotDot(c) {
        StepUp(t, stack, names);
        if rest != [] { StepsHitIff(t, if |stack| > 1 then stack[..|stack| - 1] else stack, Onward(names, c), rest); }
      } else {
        StepDown(t, stack, names, c);
        if rest != [] && Present(t, names + [c]) {
          StepsHitIff(t, stack + [Child(t, stack[|names|], c).value], names + [c], rest);
        }
      }
    }
  }

  /** It reports a missing name iff it can follow all components but the last to a directory that has no such entry. */
  lemma {:induction false} StepsMissingIff(t: Tree, stack: seq<nat>, names: Path, comps: Path)
    requires Tracks(t, stack, names) && |stack| <= MAX_STACK
    requires forall i | 0 <= i < |comps| :: comps[i] != [] && SLASH !in comps[i]
    ensures Steps(t, stack, comps).Missing? <==>
      comps != [] && Followed(t, names, comps, |comps| - 1) && FreeName(t, names, comps)
    decreases |comps|
  {
    if comps != [] {
      var c, rest := comps[0], comps[1..];
      if rest != [] {
        FollowedTail(t, names, comps, |comps| - 1);
        FreeNameTail(t, names, comps);
      }
      if |c| >= MAX_NAME {
      } else if IsDot(c) {
        StepsMissingIff(t, stack, names, rest);
      } else if IsDotDot(c) {
        StepUp(t, stack, names);
        if rest != [] { StepsMissingIff(t, if |stack| > 1 then stack[..|stack| - 1] else stack, Onward(names, c), rest); }
      } else {
        StepDown(t, stack, names, c);
        assert rest == [] ==> comps[..|comps| - 1] == [];
        if rest != [] && Present(t, names + [c]) {
          StepsMissingIff(t, stack + [Child(t, stack[|names|], c).value], names + [c], rest);
        }
      }
    }
  }

  /** The last component names an entry that the directory reached by the others does not have. */
  ghost predicate FreeName(t: Tree, names: Path, comps: Path)
    requires comps != []
  {
    var dir := Lookup(t, Normal(names, comps[..|comps| - 1]));
    && Named(comps[|comps| - 1])
    && dir.Some? && dir.value in t && t[dir.value].Dir? && Find(t[dir.value].entries, comps[|comps| - 1]) == None
  }

  lemma FreeNameTail(t: Tree, names: Path, comps: Path)
    requires |comps| > 1
    ensures FreeName(t, names, comps) <==> FreeName(t, Onward(names, comps[0]), comps[1..])
  {
    assert comps[..|comps| - 1][1..] == comps[1..][..|comps[1..]| - 1] && comps[..|comps| - 1][0] == comps[0];
  }

  /**
   * `path_resolve` finds a node iff the path is "/", or it has components, the last is not ".",
   * none is longer than 31 bytes, and every one that names an entry leads to a node that
   * exists less than sixteen levels down.
   */
  lemma ResolveHitIff(t: Tree, path: seq<byte>)
    requires path != [] && path[0] == SLASH
    ensures var comps := Split(path[1..]);
            Resolve(t, path).Hit? <==>
              path == [SLASH] || (comps != [] && !IsDot(comps[|comps| - 1]) && Followed(t, [], comps, |comps|))
  {
    if |path| > 1 {
      assert Tracks(t, [ROOT], []);
      StepsHitIff(t, [ROOT], [], Split(path[1..]));
    } else {
      assert path == [SLASH];
    }
  }

  /** It reports a missing name, the one answer that lets a node be created, iff all but the name is there; every other path is refused. */
  lemma ResolveMissingIff(t: Tree, path: seq<byte>)
    requires path != [] && path[0] == SLASH
    ensures var comps := Split(path[1..]);
            Resolve(t, path).Missing? <==> comps != [] && Followed(t, [], comps, |comps| - 1) && FreeName(t, [], comps)
  {
    if |path| > 1 {
      assert Tracks(t, [ROOT], []);
      StepsMissingIff(t, [ROOT], [], Split(path[1..]));
    }
  }

  /** Only a path that ends in ".." is found without its directory and name. */
  lemma {:induction false} HitWithoutPlace(t: Tree, stack: seq<nat>, comps: Path)
    requires stack != []
    ensures Steps(t, stack, comps).Hit? && Steps(t, stack, comps).at.None? ==> comps != [] && IsDotDot(comps[|comps| - 1])
    decreases |comps|
  {
    if |comps| > 1 {
      var c, rest := comps[0], comps[1..];
      assert rest[|rest| - 1] == comps[|comps| - 1];
      if c == [] || IsDot(c) {
        HitWithoutPlace(t, stack, rest);
      } else if IsDotDot(c) {
        HitWithoutPlace(t, if |stack| > 1 then stack[..|stack| - 1] else stack, rest);
      } else if Child(t, stack[|stack| - 1], c).Some? {
        HitWithoutPlace(t, stack + [Child(t, stack[|stack| - 1], c).value], rest);
      }
    } else if comps != [] {
      assert comps[1..] == [] && Steps(t, stack, []) == Bad;
    }
  }

  /** If a path leads somewhere, so does the path with ".." added. */
  lemma {:induction false} UpFromHit(t: Tree, stack: seq<nat>, comps: Path)
    requires stack != [] && Steps(t, stack, comps).Hit?
    ensures Steps(t, stack, comps + [[DOT, DOT]]).Hit?
    decreases |comps|
  {
    var c, rest := comps[0], comps[1..];
    assert (comps + [[DOT, DOT]])[1..] == rest + [[DOT, DOT]];
    if |comps| > 1 {
      if c == [] || IsDot(c) {
        UpFromHit(t, stack, rest);
      } else if IsDotDot(c) {
        UpFromHit(t, if |stack| > 1 then stack[..|stack| - 1] else stack, rest);
      } else {
        UpFromHit(t, stack + [Child(t, stack[|stack| - 1], c).value], rest);
      }
    } else {
      assert rest + [[DOT, DOT]] == [[DOT, DOT]];
    }
  }

  /** If a path leads to a directory with an entry `c` that is not too deep, the path with `c` added leads to it. */
  lemma {:induction false} AppendHit(t: Tree, stack: seq<nat>, names: Path, comps: Path, c: Name)
    requires |stack| == |names| + 1 && Steps(t, stack, comps).Hit? && Plain(c)
    requires Child(t, Steps(t, stack, comps).ino, c).Some? && |Normal(names, comps)| + 1 < MAX_STACK
    requires forall i | 0 <= i < |comps| :: comps[i] != []
    ensures Steps(t, stack, comps + [c]).Hit?
    decreases |comps|
  {
    var d, rest := comps[0], comps[1..];
    assert (comps + [c])[1..] == rest + [c];
    if IsDot(d) {
      AppendHit(t, stack, names, rest, c);
    } else {
      var up := if |stack| > 1 then stack[..|stack| - 1] else stack;
      var shorter := if names == [] then [] else names[..|names| - 1];
      var stack' := if IsDotDot(d) then up else stack + [Child(t, stack[|stack| - 1], d).value];
      var names' := if IsDotDot(d) then shorter else names + [d];
      if |comps| > 1 {
        AppendHit(t, stack', names', rest, c);
      } else {
        assert rest + [c] == [c];
        assert Steps(t, stack', [c]).Hit?;
      }
    }
  }

  lemma {:induction false} NormalAppend(names: Path, comps: Path, c: Name)
    requires Plain(c)
    ensures Normal(names, comps + [c]) == Normal(names, comps) + [c]
    decreases |comps|
  {
    if comps == [] {
      assert comps + [c] == [c];
      assert Normal(names + [c], [c][1..]) == names + [c];
    } else {
      assert (comps + [c])[1..] == comps[1..] + [c];
      NormalAppend(if IsDot(comps[0]) then names
                   else if IsDotDot(comps[0]) then (if names == [] then [] else names[..|names| - 1])
                   else names + [comps[0]], comps[1..], c);
    }
  }

  /** The last component of a path is the text behind its last slash. */
  lemma {:induction false} SplitAtLastSlash(a: seq<byte>, leaf: Name)
    requires leaf != [] && SLASH !in leaf
    ensures Split(a + [SLASH] + leaf) == Split(a) + [leaf]
    decreases |a|
  {
    var s := a + [SLASH] + leaf;
    if a == [] {
      SplitSlash(s);
      assert s[1..] == leaf;
      SplitOne(leaf);
    } else if a[0] == SLASH {
      SplitSlash(s);
      SplitSlash(a);
      assert s[1..] == a[1..] + [SLASH] + leaf;
      SplitAtLastSlash(a[1..], leaf);
    } else {
      var n := SegLen(a);
      var tail := a[n..];
      assert a == a[..n] + tail;
      assert s == a[..n] + (tail + [SLASH] + leaf);
      SegLenOf(a[..n], tail + [SLASH] + leaf);
      assert Skip(s) == s && Skip(a) == a;
      assert s[n..] == tail + [SLASH] + leaf;
      SplitAtLastSlash(tail, leaf);
    }
  }

  lemma SplitOne(leaf: Name)
    requires leaf != [] && SLASH !in leaf
    ensures Split(leaf) == [leaf]
  {
    SegLenOf(leaf, []);
    assert leaf + [] == leaf && leaf[0] in leaf;
    assert leaf[..|leaf|] == leaf;
    assert Split(leaf[|leaf|..]) == [];
  }

  // ---- normalising ----

  /** A byte `cli_path_normalize` refuses. */
  predicate Control(b: byte) {
    b < 32 || b == 127
  }

  predicate Printable(c: Name) {
    forall i | 0 <= i < |c| :: !Control(c[i])
  }

  /** The component loop of `cli_path_normalize`. */
  function Squeeze(names: Path, comps: Path): Option<Path>
    decreases |comps|
  {
    if comps == [] then Some(names)
    else if !Printable(comps[0]) || |comps[0]| >= MAX_NAME then None
    else if IsDot(comps[0]) then Squeeze(names, comps[1..])
    else if IsDotDot(comps[0]) then Squeeze(if names == [] then [] else names[..|names| - 1], comps[1..])
    else if |names| >= MAX_STACK then None
    else Squeeze(names + [comps[0]], comps[1..])
  }

  /** "/a/b/c". */
  function Join(names: Path): seq<byte> {
    if names == [] then [] else [SLASH] + names[0] + Join(names[1..])
  }

  function Render(names: Path): seq<byte> {
    if names == [] then [SLASH] else Join(names)
  }

  /** `cli_path_normalize`: the text written to `out`, terminating zero left out. */
  function Normalize(path: seq<byte>, outSize: nat): Option<seq<byte>> {
    if outSize < 2 || path == [] || path[0] != SLASH then None
    else
      match Squeeze([], Split(path))
      case None => None
      case Some(names) => if |Render(names)| + 1 <= outSize then Some(Render(names)) else None
  }

  lemma {:induction false} SqueezeIsNormal(names: Path, comps: Path)
    requires forall i | 0 <= i < |names| :: Plain(names[i]) && Printable(names[i])
    requires forall i | 0 <= i < |comps| :: comps[i] != [] && SLASH !in comps[i]
    requires |names| <= MAX_STACK && Squeeze(names, comps).Some?
    ensures var r := Squeeze(names, comps).value;
            && r == Normal(names, comps) && |r| <= MAX_STACK
            && forall i | 0 <= i < |r| :: Plain(r[i]) && Printable(r[i])
    decreases |comps|
  {
    if comps != [] {
      var up := if names == [] then [] else names[..|names| - 1];
      SqueezeIsNormal(if IsDot(comps[0]) then names else if IsDotDot(comps[0]) then up else names + [comps[0]], comps[1..]);
    }
  }

  lemma SplitSlash(s: seq<byte>)
    requires s != [] && s[0] == SLASH
    ensures Split(s) == Split(s[1..])
  {
    assert Skip(s) == Skip(s[1..]);
  }

  lemma {:induction false} SegLenOf(c: Name, s: seq<byte>)
    requires SLASH !in c && (s == [] || s[0] == SLASH)
    ensures SegLen(c + s) == |c|
  {
    if c == [] {
      assert c + s == s;
    } else {
      assert (c + s)[1..] == c[1..] + s;
      SegLenOf(c[1..], s);
    }
  }

  /** Splitting a joined path gives the names back. */
  lemma {:induction false} SplitJoin(names: Path)
    requires forall i | 0 <= i < |names| :: names[i] != [] && SLASH !in names[i]
    ensures Split(Join(names)) == names
  {
    if names != [] {
      var c, tail := names[0], Join(names[1..]);
      SplitJoin(names[1..]);
      var s := Join(names);
      assert s == [SLASH] + (c + tail);
      assert s[1..] == c + tail;
      assert c[0] in c && (c + tail)[0] == c[0];
      assert Skip(s) == c + tail;
      SegLenOf(c, tail);
      assert (c + tail)[..|c|] == c && (c + tail)[|c|..] == tail;
    }
  }

  lemma RenderShape(names: Path)
    requires forall i | 0 <= i < |names| :: names[i] != [] && SLASH !in names[i]
    ensures var q := Render(names);
            && q != [] && q[0] == SLASH && Split(q) == names && Split(q[1..]) == names
            && (|q| == 1 <==> names == [])
  {
    var q := Render(names);
    if names == [] {
      assert Skip(q) == Skip([]) == [];
    } else {
      SplitJoin(names);
      assert names[0] != [];
    }
    SplitSlash(q);
  }

  /** What a successful normalisation says: the text of the lexical normal form, its components plain, and it is its own normal form. */
  lemma NormalizeShape(path: seq<byte>, outSize: nat)
    requires Normalize(path, outSize).Some?
    ensures var q := Normalize(path, outSize).value;
            && q == Render(Meaning(path)) && |q| < outSize
            && (forall i | 0 <= i < |Meaning(path)| :: Plain(Meaning(path)[i]))
            && Split(q) == Meaning(path)
            && Normalize(q, outSize) == Some(q)
  {
    SplitSlash(path);
    SqueezeIsNormal([], Split(path));
    var names := Squeeze([], Split(path)).value;
    RenderShape(names);
    SqueezePlain([], names);
    assert [] + names == names;
  }

  /** Component `k` has no control byte, is not too long, and finds room if it names an entry. */
  predicate Fits(names: Path, comps: Path, k: nat)
    requires k < |comps|
  {
    Printable(comps[k]) && |comps[k]| < MAX_NAME && (Named(comps[k]) ==> |Normal(names, comps[..k])| < MAX_STACK)
  }

  lemma {:induction false} SqueezeIff(names: Path, comps: Path)
    ensures Squeeze(names, comps).Some? <==> forall k: nat | k < |comps| :: Fits(names, comps, k)
    decreases |comps|
  {
    if comps != [] {
      var c, rest := comps[0], comps[1..];
      assert comps[..0] == [];
      assert Fits(names, comps, 0) <==> Printable(c) && |c| < MAX_NAME && (Named(c) ==> |names| < MAX_STACK);
      forall k: nat | k < |rest|
        ensures Fits(names, comps, k + 1) <==> Fits(Onward(names, c), rest, k)
      {
        assert comps[..k + 1][1..] == rest[..k] && comps[..k + 1][0] == c;
      }
      SqueezeIff(Onward(names, c), rest);
      if Fits(names, comps, 0) && forall k: nat | k < |rest| :: Fits(Onward(names, c), rest, k) {
        forall k: nat | k < |comps|
          ensures Fits(names, comps, k)
        {
          if k > 0 { assert Fits(Onward(names, c), rest, k - 1); }
        }
      }
    }
  }

  /** When there is a normal form: no control bytes, no long component, never more than sixteen levels down on the way, and the text fits. */
  lemma NormalizeIff(path: seq<byte>, outSize: nat)
    ensures Normalize(path, outSize).Some? <==>
              && outSize >= 2 && path != [] && path[0] == SLASH && |Render(Meaning(path))| < outSize
              && forall k: nat | k < |Split(path)| :: Fits([], Split(path), k)
  {
    SqueezeIff([], Split(path));
    if path != [] && path[0] == SLASH {
      SplitSlash(path);
      if Squeeze([], Split(path)).Some? { SqueezeIsNormal([], Split(path)); }
    }
  }

  lemma {:induction false} SqueezePlain(names: Path, comps: Path)
    requires forall i | 0 <= i < |comps| :: Plain(comps[i]) && Printable(comps[i])
    requires |names| + |comps| <= MAX_STACK
    ensures Squeeze(names, comps) == Some(names + comps)
    decreases |comps|
  {
    if comps == [] {
      assert names + comps == names;
    } else {
      SqueezePlain(names + [comps[0]], comps[1..]);
      assert names + [comps[0]] + comps[1..] == names + comps;
    }
  }

  /** On plain components the stack machine is a walk. */
  lemma {:induction false} PlainSteps(t: Tree, stack: seq<nat>, comps: Path)
    requires stack != [] && comps != [] && |stack| + |comps| <= MAX_STACK
    requires forall i | 0 <= i < |comps| :: Plain(comps[i])
    requires Walk(t, stack[|stack| - 1], comps).Some?
    ensures Steps(t, stack, comps).Hit? && Some(Steps(t, stack, comps).ino) == Walk(t, stack[|stack| - 1], comps)
    decreases |comps|
  {
    var cur := stack[|stack| - 1];
    var i := Child(t, cur, comps[0]).value;
    if |comps| > 1 {
      PlainSteps(t, stack + [i], comps[1..]);
    } else {
      assert comps[1..] == [];
    }
  }

  /**
   * A node sixteen levels down can be created but not found again: its path resolves to
   * nothing, so rename, which looks at the result, takes its name for free.
   */
  lemma DeepNodeUnseen(t: Tree, names: Path)
    requires |names| == MAX_STACK && Lookup(t, names).Some? && forall i | 0 <= i < |names| :: Plain(names[i])
    ensures Resolve(t, Render(names)) == Bad
  {
    RenderShape(names);
    DeepSteps(t, [ROOT], names);
  }

  lemma {:induction false} DeepSteps(t: Tree, stack: seq<nat>, comps: Path)
    requires stack != [] && comps != [] && |stack| + |comps| == MAX_STACK + 1
    requires forall i | 0 <= i < |comps| :: Plain(comps[i])
    requires Walk(t, stack[|stack| - 1], comps).Some?
    ensures Steps(t, stack, comps) == Bad
    decreases |comps|
  {
    if |comps| > 1 {
      DeepSteps(t, stack + [Child(t, stack[|stack| - 1], comps[0]).value], comps[1..]);
    }
  }

  /** If `path_resolve` finds a node and normalisation succeeds, the normalised path finds the same node. */
  lemma NormalizeKeepsLookup(t: Tree, path: seq<byte>, outSize: nat)
    requires ROOT in t && t[ROOT].Dir?
    requires Resolve(t, path).Hit? && Normalize(path, outSize).Some?
    ensures var q := Normalize(path, outSize).value;
            Resolve(t, q).Hit? && Resolve(t, q).ino == Resolve(t, path).ino
  {
    ResolveMeans(t, path);
    NormalizeShape(path, outSize);
    var names := Meaning(path);
    RenderShape(names);
    if names != [] {
      PlainSteps(t, [ROOT], names);
    }
  }

  // ---- paths written out ----

  ghost predicate AllPlain(p: Path) {
    forall i | 0 <= i < |p| :: Plain(p[i])
  }

  lemma {:induction false} NormalPlain(names: Path, comps: Path)
    requires AllPlain(comps)
    ensures Normal(names, comps) == names + comps
    decreases |comps|
  {
    if comps == [] {
      assert names + comps == names;
    } else {
      NormalPlain(names + [comps[0]], comps[1..]);
      assert names + [comps[0]] + comps[1..] == names + comps;
    }
  }

  /** The text of a path means the path. */
  lemma RenderMeans(p: Path)
    requires AllPlain(p)
    ensures Render(p) != [] && Render(p)[0] == SLASH && Split(Render(p)[1..]) == p && Meaning(Render(p)) == p
    ensures Render(p) == [SLASH] <==> p == []
  {
    RenderShape(p);
    NormalPlain([], p);
    assert [] + p == p;
  }

  lemma PrefixPresent(t: Tree, c: Path, k: nat)
    requires Lookup(t, c).Some? && k <= |c|
    ensures Lookup(t, c[..k]).Some?
  {
    assert c == c[..k] + c[k..];
    WalkAppend(t, ROOT, c[..k], c[k..]);
  }

  /** Less than sixteen levels down, the text of a path is found iff there is a node. */
  lemma PlainHitIff(t: Tree, p: Path)
    requires ROOT in t && t[ROOT].Dir? && AllPlain(p) && |p| < MAX_STACK
    ensures Resolve(t, Render(p)).Hit? <==> Lookup(t, p).Some?
    ensures Resolve(t, Render(p)).Hit? ==> Lookup(t, p) == Some(Resolve(t, Render(p)).ino)
  {
    RenderMeans(p);
    ResolveMeans(t, Render(p));
    if Lookup(t, p).Some? && p != [] { PlainSteps(t, [ROOT], p); }
  }

  /** Its last name is reported missing iff the directory is there and has no such entry. */
  lemma PlainMissingIff(t: Tree, pp: Path, leaf: Name)
    requires ROOT in t && t[ROOT].Dir? && AllPlain(pp) && Plain(leaf) && |pp| < MAX_STACK
    ensures var d := Lookup(t, pp);
            Resolve(t, Render(pp + [leaf])).Missing? <==> d.Some? && d.value in t && t[d.value].Dir? && Child(t, d.value, leaf) == None
    ensures Resolve(t, Render(pp + [leaf])).Missing? ==>
            Lookup(t, pp) == Some(Resolve(t, Render(pp + [leaf])).parent) && Resolve(t, Render(pp + [leaf])).leaf == leaf
  {
    var p := pp + [leaf];
    RenderMeans(p);
    ResolveMissingIff(t, Render(p));
    ResolveMeans(t, Render(p));
    assert p[..|p| - 1] == pp;
    NormalPlain([], pp);
    assert [] + pp == pp;
    if Lookup(t, pp).Some? {
      forall k: nat | 0 < k <= |p| - 1
        ensures PrefixFound(t, [], p, k)
      {
        assert p[..k] == pp[..k];
        NormalPlain([], pp[..k]);
        assert [] + pp[..k] == pp[..k];
        PrefixPresent(t, pp, k);
      }
      assert Followed(t, [], p, |p| - 1);
    }
  }

  // ---- the loops of the C code ----

  /**
   * The component loop both functions share: the bytes from `p` to the next slash, refused if
   * there are more than 31, or, when `strict`, if one is a control byte.
   */
  method ReadComponent(path: seq<byte>, p: nat, strict: bool) returns (n: Option<nat>)
    requires p <= |path|
    ensures n.Some? ==> n.value == SegLen(path[p..]) && n.value < MAX_NAME
    ensures n.Some? && strict ==> Printable(path[p..][..n.value])
    ensures n.None? ==> var c := path[p..][..SegLen(path[p..])]; |c| >= MAX_NAME || (strict && !Printable(c))
  {
    var k := 0;
    ghost var s := path[p..];
    while p + k < |path| && path[p + k] != SLASH
      invariant 0 <= k <= |s| && k < MAX_NAME
      invariant forall j | 0 <= j < k :: s[j] != SLASH
      invariant strict ==> forall j | 0 <= j < k :: !Control(s[j])
    {
      SegLenPast(s, k + 1);
      if strict && Control(path[p + k]) {
        assert s[..SegLen(s)][k] == path[p + k];
        return None;
      }
      if k + 1 >= MAX_NAME {
        return None;
      }
      k := k + 1;
    }
    SegLenIs(s, k);
    n := Some(k);
  }

  lemma {:induction false} SegLenPast(s: seq<byte>, k: nat)
    requires k <= |s| && forall j | 0 <= j < k :: s[j] != SLASH
    ensures SegLen(s) >= k
  {
    if k > 0 { SegLenPast(s[1..], k - 1); }
  }

  lemma SegLenIs(s: seq<byte>, k: nat)
    requires k <= |s| && (forall j | 0 <= j < k :: s[j] != SLASH) && (k < |s| ==> s[k] == SLASH)
    ensures SegLen(s) == k
  {
    SegLenPast(s, k);
    assert forall j | 0 <= j < SegLen(s) :: s[..SegLen(s)][j] == s[j] && s[j] != SLASH;
  }

  /** Past the slashes at `p`. */
  method SkipSlashes(path: seq<byte>, p: nat) returns (q: nat)
    requires p <= |path|
    ensures p <= q <= |path| && path[q..] == Skip(path[p..])
  {
    q := p;
    while q < |path| && path[q] == SLASH
      invariant p <= q <= |path| && Skip(path[q..]) == Skip(path[p..])
    {
      q := q + 1;
    }
  }

  lemma SplitSkip(s: seq<byte>)
    ensures Split(Skip(s)) == Split(s)
  {
    assert Skip(Skip(s)) == Skip(s);
  }

  lemma NextPiece(path: seq<byte>, p: nat, n: nat)
    requires p < |path| && path[p] != SLASH && n == SegLen(path[p..])
    ensures p + n <= |path| && Split(path[p..]) == [path[p..p + n]] + Split(path[p + n..])
  {
    assert Skip(path[p..]) == path[p..];
    assert path[p..][..n] == path[p..p + n] && path[p..][n..] == path[p + n..];
  }

  /** What the normaliser does with one component. */
  method TakeComponent(stack: seq<Name>, comp: Name, ghost rest: Path) returns (next: Option<seq<Name>>)
    requires Printable(comp) && |comp| < MAX_NAME
    ensures Squeeze(stack, [comp] + rest) == if next.None? then None else Squeeze(next.value, rest)
  {
    assert ([comp] + rest)[1..] == rest;
    if comp == [DOT] {
      return Some(stack);
    }
    if comp == [DOT, DOT] {
      return Some(if |stack| > 0 then stack[..|stack| - 1] else stack);
    }
    if |stack| >= MAX_STACK {
      return None;
    }
    next := Some(stack + [comp]);
  }

  /** `cli_path_normalize`. */
  method CliPathNormalize(path: seq<byte>, outSize: nat) returns (out: Option<seq<byte>>)
    ensures out == Normalize(path, outSize)
  {
    if outSize < 2 || path == [] || path[0] != SLASH {
      return None;
    }
    var stack := Components(path);
    if stack.None? {
      return None;
    }
    if stack.value == [] {
      return Some([SLASH]);
    }
    out := WriteOut(stack.value, outSize);
  }

  /** The component loop of `cli_path_normalize`. */
  method Components(path: seq<byte>) returns (r: Option<seq<Name>>)
    ensures r == Squeeze([], Split(path))
  {
    var stack: seq<Name> := [];
    var p := 0;
    while p < |path|
      invariant 0 <= p <= |path|
      invariant Squeeze([], Split(path)) == Squeeze(stack, Split(path[p..]))
      decreases |path| - p
    {
      SplitSkip(path[p..]);
      p := SkipSlashes(path, p);
      if p == |path| {
        break;
      }
      var n := ReadComponent(path, p, true);
      if n.None? {
        return None;
      }
      NextPiece(path, p, n.value);
      var next := TakeComponent(stack, path[p..p + n.value], Split(path[p + n.value..]));
      if next.None? {
        return None;
      }
      p, stack := p + n.value, next.value;
    }
    assert path[p..] == [];
    r := Some(stack);
  }

  /** The copy loop at the end of `cli_path_normalize`. */
  method WriteOut(stack: seq<Name>, outSize: nat) returns (out: Option<seq<byte>>)
    requires stack != [] && outSize >= 2
    ensures out == if |Join(stack)| + 1 <= outSize then Some(Join(stack)) else None
  {
    var buf: seq<byte> := [];
    var i := 0;
    while i < |stack|
      invariant 0 <= i <= |stack| && buf == Join(stack[..i]) && |buf| + 1 <= outSize
    {
      assert stack[..i + 1] == stack[..i] + [stack[i]];
      JoinAppend(stack[..i], [stack[i]]);
      assert Join([stack[i]]) == [SLASH] + stack[i];
      if |buf| + 1 + |stack[i]| + 1 > outSize {
        JoinAppend(stack[..i + 1], stack[i + 1..]);
        assert stack == stack[..i + 1] + stack[i + 1..];
        return None;
      }
      buf := buf + [SLASH];
      buf := buf + stack[i];
      i := i + 1;
    }
    assert stack[..i] == stack;
    out := Some(buf);
  }

  lemma {:induction false} JoinAppend(a: Path, b: Path)
    ensures Join(a + b) == Join(a) + Join(b)
  {
    if a == [] {
      assert a + b == b;
    } else {
      JoinAppend(a[1..], b);
      assert (a + b)[1..] == a[1..] + b;
    }
  }
}
