/** Path names: how the file server takes them apart and follows them from the root. */
module Paths {
  import opened Words

  type Text = seq<Byte>

  const SLASH: Byte := 47
  const MAXNAMELEN: nat := 128

  const E_NOT_FOUND: int := 11
  const E_BAD_PATH: int := 12
  const E_FILE_EXISTS: int := 13

  datatype Option<T> = None | Some(value: T)

  // What dir_lookup answers.
  datatype Lookup = Found(file: nat) | NoEntry | Broken(code: int)

  // The directory structure as walk_path sees it.
  datatype Tree = Tree(isDir: nat -> bool, lookup: (nat, Text) -> Lookup)

  // walk_path's answer: the file and its directory; or just the directory where the last
  // element could be made; or an error code.
  datatype Walk = At(parent: Option<nat>, file: nat) | Missing(dir: nat, last: Text) | Fail(code: int)

  // ---- Taking a path apart ----

  // Where the slashes at i end.
  function SkipSlash(path: Text, i: nat): (j: nat)
    requires i <= |path|
    ensures i <= j <= |path| && (j < |path| ==> path[j] != SLASH)
    decreases |path| - i
  {
    if i < |path| && path[i] == SLASH then SkipSlash(path, i + 1) else i
  }

  // Where the name at i ends.
  function NameEnd(path: Text, i: nat): (j: nat)
    requires i <= |path|
    ensures i <= j <= |path| && (j < |path| ==> path[j] == SLASH)
    decreases |path| - i
  {
    if i < |path| && path[i] != SLASH then NameEnd(path, i + 1) else i
  }

  lemma {:induction false} Skipped(path: Text, i: nat)
    requires i <= |path|
    ensures forall k :: i <= k < SkipSlash(path, i) ==> path[k] == SLASH
    decreases |path| - i
  {
    if i < |path| && path[i] == SLASH { Skipped(path, i + 1); }
  }

  lemma {:induction false} InName(path: Text, i: nat)
    requires i <= |path|
    ensures forall k :: i <= k < NameEnd(path, i) ==> path[k] != SLASH
    decreases |path| - i
  {
    if i < |path| && path[i] != SLASH { InName(path, i + 1); }
  }

  // The names from i on, where the next character is not a slash.
  function NamesFrom(path: Text, i: nat): seq<Text>
    requires i <= |path|
    decreases |path| - i
  {
    if i == |path| || path[i] == SLASH then []
    else
      var j := NameEnd(path, i);
      assert j > i;
      [path[i..j]] + NamesFrom(path, SkipSlash(path, j))
  }

  function Names(path: Text): seq<Text> { NamesFrom(path, SkipSlash(path, 0)) }

  predicate Name(s: Text) { s != [] && forall k :: 0 <= k < |s| ==> s[k] != SLASH }

  // ---- Following the names ----

  function Follow(t: Tree, file: nat, dir: Option<nat>, names: seq<Text>): Walk
    decreases |names|
  {
    if names == [] then At(dir, file)
    else if |names[0]| >= MAXNAMELEN then Fail(-E_BAD_PATH)
    else if !t.isDir(file) then Fail(-E_NOT_FOUND)
    else match t.lookup(file, names[0])
      case Found(next) => Follow(t, next, Some(file), names[1..])
      case NoEntry => if |names| == 1 then Missing(file, names[0]) else Fail(-E_NOT_FOUND)
      case Broken(code) => Fail(code)
  }

  // walk_path from the root directory
  method WalkPath(t: Tree, root: nat, path: Text) returns (w: Walk)
    ensures w == Follow(t, root, None, Names(path))
  {
    var i := SkipSlash(path, 0);
    var f, dir := root, None;
    while i < |path|
      invariant i <= |path| && (i < |path| ==> path[i] != SLASH)
      invariant Follow(t, root, None, Names(path)) == Follow(t, f, dir, NamesFrom(path, i))
      decreases |path| - i
    {
      var p := i;
      while i < |path| && path[i] != SLASH
        invariant p <= i <= |path| && NameEnd(path, p) == NameEnd(path, i)
        decreases |path| - i
      {
        i := i + 1;
      }
      assert i == NameEnd(path, p);
      var name := path[p..i];
      ghost var names := NamesFrom(path, p);
      i := SkipSlash(path, i);
      assert names == [name] + NamesFrom(path, i) && names[1..] == NamesFrom(path, i);
      if |name| >= MAXNAMELEN { return Fail(-E_BAD_PATH); }
      if !t.isDir(f) { return Fail(-E_NOT_FOUND); }
      match t.lookup(f, name) {
        case Found(next) =>
          dir := Some(f);
          f := next;
        case NoEntry =>
          assert NamesFrom(path, i) == [] <==> i == |path|;
          return if i == |path| then Missing(f, name) else Fail(-E_NOT_FOUND);
        case Broken(code) => return Fail(code);
      }
    }
    return At(dir, f);
  }

  // ---- Paths and name lists ----

  // The names are proper names whatever the path.
  lemma {:induction false} NamesAreProper(path: Text, i: nat)
    requires i <= |path|
    ensures forall n :: n in NamesFrom(path, i) ==> Name(n)
    decreases |path| - i
  {
    if i < |path| && path[i] != SLASH {
      var j := NameEnd(path, i);
      assert path[i..j][0] == path[i];
      InName(path, i);
      NamesAreProper(path, SkipSlash(path, j));
    }
  }

  // A path with these names: each after as many slashes as `gaps` says, at least one, and
  // some more slashes at the end.
  function Spell(names: seq<Text>, gaps: seq<nat>, end: nat): Text
    requires |gaps| == |names|
  {
    if names == [] then Slashes(end) else Slashes(gaps[0] + 1) + names[0] + Spell(names[1..], gaps[1..], end)
  }

  function Slashes(n: nat): (r: Text)
    ensures |r| == n && forall k :: 0 <= k < n ==> r[k] == SLASH
  {
    if n == 0 then [] else [SLASH] + Slashes(n - 1)
  }

  lemma SpellStart(names: seq<Text>, gaps: seq<nat>, end: nat)
    requires |gaps| == |names|
    ensures var s := Spell(names, gaps, end); s == [] || s[0] == SLASH
  {
    if names != [] { assert Slashes(gaps[0] + 1)[0] == SLASH; }
  }

  // What a suffix is read as does not depend on what is before it.
  lemma {:induction false} Shift(pre: Text, path: Text, i: nat)
    requires i <= |path|
    ensures SkipSlash(pre + path, |pre| + i) == |pre| + SkipSlash(path, i)
    ensures NameEnd(pre + path, |pre| + i) == |pre| + NameEnd(path, i)
    decreases |path| - i
  {
    if i < |path| {
      assert (pre + path)[|pre| + i] == path[i];
      Shift(pre, path, i + 1);
    }
  }

  lemma {:induction false} ShiftNames(pre: Text, path: Text, i: nat)
    requires i <= |path|
    ensures NamesFrom(pre + path, |pre| + i) == NamesFrom(path, i)
    decreases |path| - i
  {
    if i < |path| && path[i] != SLASH {
      var j := NameEnd(path, i);
      Shift(pre, path, i);
      Shift(pre, path, j);
      ShiftNames(pre, path, SkipSlash(path, j));
      ShiftSlice(pre, path, i, j);
      SameFirst(pre + path, |pre| + i, path, i);
    } else if i < |path| {
      assert (pre + path)[|pre| + i] == path[i];
    }
  }

  lemma ShiftSlice(pre: Text, path: Text, i: nat, j: nat)
    requires i < j <= |path|
    ensures (pre + path)[|pre| + i..|pre| + j] == path[i..j] && (pre + path)[|pre| + i] == path[i]
  {}

  // The same name followed by the same names.
  lemma SameFirst(a: Text, i: nat, b: Text, k: nat)
    requires i < |a| && k < |b| && a[i] != SLASH && b[k] != SLASH && a[i..NameEnd(a, i)] == b[k..NameEnd(b, k)]
    requires NamesFrom(a, SkipSlash(a, NameEnd(a, i))) == NamesFrom(b, SkipSlash(b, NameEnd(b, k)))
    ensures NamesFrom(a, i) == NamesFrom(b, k)
  {
    OneName(a, i);
    OneName(b, k);
  }

  lemma OneName(path: Text, i: nat)
    requires i < |path| && path[i] != SLASH
    ensures var j := NameEnd(path, i); NamesFrom(path, i) == [path[i..j]] + NamesFrom(path, SkipSlash(path, j))
  {}

  lemma {:induction false} SkipAll(n: nat, rest: Text, i: nat)
    requires i <= n && (rest == [] || rest[0] != SLASH)
    ensures SkipSlash(Slashes(n) + rest, i) == n
    decreases n - i
  {
    if i < n {
      assert (Slashes(n) + rest)[i] == SLASH;
      SkipAll(n, rest, i + 1);
    } else if rest != [] {
      assert (Slashes(n) + rest)[n] == rest[0];
    }
  }

  // Slashes before the first name make no difference.
  lemma NamesAfterSlashes(n: nat, rest: Text)
    requires rest == [] || rest[0] != SLASH
    ensures Names(Slashes(n) + rest) == NamesFrom(rest, 0)
  {
    SkipAll(n, rest, 0);
    ShiftNames(Slashes(n), rest, 0);
  }

  lemma {:induction false} EndOfName(name: Text, rest: Text, i: nat)
    requires Name(name) && i <= |name| && (rest == [] || rest[0] == SLASH)
    ensures NameEnd(name + rest, i) == |name|
    decreases |name| - i
  {
    if i < |name| {
      assert (name + rest)[i] == name[i];
      EndOfName(name, rest, i + 1);
    } else if rest != [] {
      assert (name + rest)[i] == rest[0];
    }
  }

  lemma FirstName(name: Text, tail: Text)
    requires Name(name) && (tail == [] || tail[0] == SLASH)
    ensures NamesFrom(name + tail, 0) == [name] + Names(tail)
  {
    var rest := name + tail;
    var j, k := NameEnd(rest, 0), SkipSlash(tail, 0);
    assert j == |name| by { EndOfName(name, tail, 0); }
    assert SkipSlash(rest, |name|) == |name| + k by { Shift(name, tail, 0); }
    assert NamesFrom(rest, |name| + k) == NamesFrom(tail, k) by { ShiftNames(name, tail, k); }
    FirstSplit(name, tail, k);
  }

  lemma FirstSplit(name: Text, tail: Text, k: nat)
    requires Name(name) && NameEnd(name + tail, 0) == |name| && |name| + k <= |name + tail|
    requires SkipSlash(name + tail, |name|) == |name| + k
    ensures NamesFrom(name + tail, 0) == [name] + NamesFrom(name + tail, |name| + k)
  {
    assert (name + tail)[0] == name[0];
    assert (name + tail)[0..|name|] == name;
  }

  // Reading a spelled path gives the names back, however many slashes it has.
  lemma {:induction false} NamesOfSpelling(names: seq<Text>, gaps: seq<nat>, end: nat)
    requires |gaps| == |names| && forall n :: n in names ==> Name(n)
    ensures Names(Spell(names, gaps, end)) == names
    decreases |names|
  {
    if names == [] {
      assert Slashes(end) + [] == Slashes(end);
      SkipAll(end, [], 0);
    } else {
      var name, tail := names[0], Spell(names[1..], gaps[1..], end);
      assert name in names;
      SpellStart(names[1..], gaps[1..], end);
      assert Slashes(gaps[0] + 1) + name + tail == Slashes(gaps[0] + 1) + (name + tail);
      assert (name + tail)[0] == name[0];
      NamesAfterSlashes(gaps[0] + 1, name + tail);
      FirstName(name, tail);
      NamesOfSpelling(names[1..], gaps[1..], end);
    }
  }

  // ---- Creating a file ----

  // The directory structure after file_create has put `file` into `dir` as `name`.
  function Created(t: Tree, dir: nat, name: Text, file: nat): Tree {
    t.(lookup := (d: nat, n: Text) => if d == dir && n == name then Found(file) else t.lookup(d, n))
  }

  // A name that file_create can make is then found under the same path, and every path that
  // led to a file before leads to the same file.
  lemma {:induction false} CreateThenOpen(t: Tree, from: nat, up: Option<nat>, names: seq<Text>, dir: nat, last: Text, file: nat)
    requires t.lookup(dir, last) == NoEntry
    ensures Follow(t, from, up, names) == Missing(dir, last) ==> Follow(Created(t, dir, last, file), from, up, names) == At(Some(dir), file)
    ensures Follow(t, from, up, names).At? ==> Follow(Created(t, dir, last, file), from, up, names) == Follow(t, from, up, names)
    decreases |names|
  {
    if names != [] && |names[0]| < MAXNAMELEN && t.isDir(from) && t.lookup(from, names[0]).Found? {
      CreateThenOpen(t, t.lookup(from, names[0]).file, Some(from), names[1..], dir, last, file);
    }
  }

  // A file can only be made where nothing is.
  lemma {:induction false} MissingIsAbsent(t: Tree, from: nat, up: Option<nat>, names: seq<Text>)
    ensures Follow(t, from, up, names).Missing? ==>
      var w := Follow(t, from, up, names);
      t.lookup(w.dir, w.last) == NoEntry && t.isDir(w.dir) && names != [] && w.last == names[|names| - 1] && |w.last| < MAXNAMELEN
    decreases |names|
  {
    if names != [] && |names[0]| < MAXNAMELEN && t.isDir(from) && t.lookup(from, names[0]).Found? {
      MissingIsAbsent(t, t.lookup(from, names[0]).file, Some(from), names[1..]);
    }
  }
}
