/** Taking a pathname apart: getdevice of kern/fs/vfs/vfslookup.c. */
module VfsPaths {
  import opened Bytes
  import opened SfsFormat

  const COLON: Byte := 58
  const SLASH: Byte := 47

  /** Where the lookup of a path starts. */
  datatype Start = CurrentDir | Device(name: Name) | BootFs | CurrentFs

  predicate IsMark(c: Byte) {
    c == COLON || c == SLASH
  }

  /** The length of the part of s before its first colon or slash. */
  function Head(s: Name): (n: nat)
    ensures n <= |s| && (n < |s| ==> IsMark(s[n]))
    ensures forall k :: 0 <= k < n ==> !IsMark(s[k])
  {
    if s == [] || IsMark(s[0]) then 0 else 1 + Head(s[1..])
  }

  function SkipSlashes(s: Name): Name {
    if s != [] && s[0] == SLASH then SkipSlashes(s[1..]) else s
  }

  /** dev:path, /path, :path, or anything else, relative to the current directory. */
  function Parse(s: Name): (Start, Name) {
    var n := Head(s);
    if n == |s| || (s[n] == SLASH && n > 0) then (CurrentDir, s)
    else (if n > 0 then Device(s[..n]) else if s[0] == SLASH then BootFs else CurrentFs, SkipSlashes(s[n + 1..]))
  }

  lemma {:induction false} Skipped(n: nat, path: Name)
    requires path != [] ==> path[0] != SLASH
    ensures SkipSlashes(seq(n, _ => SLASH) + path) == path
  {
    var s: Name := seq(n, _ => SLASH) + path;
    if n > 0 {
      assert s[1..] == seq(n - 1, _ => SLASH) + path;
      Skipped(n - 1, path);
    } else {
      assert s == path;
    }
  }

  /** Neither a colon nor a slash. */
  predicate Unmarked(name: Name) {
    forall k :: 0 <= k < |name| ==> !IsMark(name[k])
  }

  /** A path that starts with a device name and a colon comes apart into what was put together,
      however many slashes follow the colon. */
  lemma {:induction false} DevicePath(dev: Name, slashes: nat, path: Name)
    requires dev != [] && Unmarked(dev) && (path != [] ==> path[0] != SLASH)
    ensures Parse(dev + [COLON] + seq(slashes, _ => SLASH) + path) == (Device(dev), path)
  {
    var s: Name := dev + [COLON] + seq(slashes, _ => SLASH) + path;
    var n := Head(s);
    assert forall k :: 0 <= k < |dev| ==> s[k] == dev[k];
    assert s[|dev|] == COLON;
    assert n == |dev|;
    assert s[..|dev|] == dev;
    assert s[|dev| + 1..] == seq(slashes, _ => SLASH) + path;
    Skipped(slashes, path);
  }

  lemma HeadOf(name: Name, c: Byte, rest: Name)
    requires Unmarked(name) && IsMark(c)
    ensures Head(name + [c] + rest) == |name|
  {
    var s: Name := name + [c] + rest;
    assert forall k :: 0 <= k < |name| ==> s[k] == name[k];
    assert s[|name|] == c;
  }

  /** A name without marks is looked up as it is, in the current directory. */
  lemma PlainPath(name: Name)
    requires Unmarked(name)
    ensures Parse(name) == (CurrentDir, name)
  {
  }

  /** So is a path whose first mark is a slash, but not at its start. */
  lemma RelativePath(name: Name, rest: Name)
    requires name != [] && Unmarked(name)
    ensures Parse(name + [SLASH] + rest) == (CurrentDir, name + [SLASH] + rest)
  {
    HeadOf(name, SLASH, rest);
  }

  lemma MarkFirst(c: Byte, n: nat, path: Name)
    requires IsMark(c) && (path != [] ==> path[0] != SLASH)
    ensures var s: Name := [c] + seq(n, _ => SLASH) + path; Head(s) == 0 && SkipSlashes(s[1..]) == path
  {
    var s: Name := [c] + seq(n, _ => SLASH) + path;
    assert s[0] == c && s[1..] == seq(n, _ => SLASH) + path;
    Skipped(n, path);
  }

  /** A path that starts with slashes starts at the boot file system. */
  lemma AbsolutePath(n: nat, path: Name)
    requires path != [] ==> path[0] != SLASH
    ensures Parse([SLASH] + seq(n, _ => SLASH) + path) == (BootFs, path)
  {
    MarkFirst(SLASH, n, path);
  }

  /** A path that starts with a colon starts at the root of the current file system. */
  lemma ColonPath(n: nat, path: Name)
    requires path != [] ==> path[0] != SLASH
    ensures Parse([COLON] + seq(n, _ => SLASH) + path) == (CurrentFs, path)
  {
    MarkFirst(COLON, n, path);
  }

  lemma HeadAt(s: Name, i: nat)
    requires i < |s| && i <= Head(s)
    ensures IsMark(s[i]) <==> i == Head(s)
  {
  }

  method AfterSlashes(path: Name, from: nat) returns (s: Name)
    requires from <= |path|
    ensures s == SkipSlashes(path[from..])
  {
    var i := from;
    while i < |path| && path[i] == SLASH
      invariant from <= i <= |path|
      invariant SkipSlashes(path[i..]) == SkipSlashes(path[from..])
    {
      assert path[i..][1..] == path[i + 1..];
      i := i + 1;
    }
    s := path[i..];
  }

  /** The scanning loops of getdevice. */
  method SplitPath(path: Name) returns (start: Start, subpath: Name)
    ensures (start, subpath) == Parse(path)
  {
    var slash, colon := -1, -1;
    var i := 0;
    while i < |path|
      invariant 0 <= i <= |path| && colon == slash == -1
      invariant i <= Head(path)
    {
      HeadAt(path, i);
      if path[i] == COLON {
        colon := i;
        break;
      }
      if path[i] == SLASH {
        slash := i;
        break;
      }
      i := i + 1;
    }
    if colon < 0 && slash != 0 {
      return CurrentDir, path;
    }
    if colon > 0 {
      subpath := AfterSlashes(path, colon + 1);
      return Device(path[..colon]), subpath;
    }
    assert colon == 0 || slash == 0;
    subpath := AfterSlashes(path, 1);
    start := if path[0] == SLASH then BootFs else CurrentFs;
  }
}
