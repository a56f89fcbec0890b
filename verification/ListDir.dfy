/**
 The recursive walk `listDir` of chapter4/list/list.c.

 The current directory is process state: the walk descends by `chdir(arg)` and returns by
 `chdir("..")`.  It also stops looking at the rest of a directory as soon as one child cannot
 be opened.  `Walk` is the sequence of directories it lists; `Visits` says independently which
 directories those are.
 */
module ListDir {
  import opened Options

  type Path = seq<string>

  // What readdir returns, in its order.  A directory that can be opened can also be entered.
  datatype Dir = Dir(openable: bool, entries: seq<Entry>)
  datatype Entry = Dot | DotDot | Plain(name: string) | Sub(name: string, dir: Dir)

  // ---------- the file system ----------

  function Child(es: seq<Entry>, name: string): Option<Dir> {
    if es == [] then None
    else if es[0].Sub? && es[0].name == name then Some(es[0].dir)
    else Child(es[1..], name)
  }

  function Lookup(d: Dir, path: Path): Option<Dir>
    decreases |path|
  {
    if path == [] then Some(d)
    else
      match Child(d.entries, path[0])
      case None => None
      case Some(c) => Lookup(c, path[1..])
  }

  // "..", which at the root is the root.
  function Parent(path: Path): Path {
    if path == [] then [] else path[..|path| - 1]
  }

  // A path argument: its components, from the root or from the current directory.
  datatype Arg = Arg(absolute: bool, parts: seq<string>)

  function Into(cwd: Path, part: string): Path {
    if part == "." then cwd else if part == ".." then Parent(cwd) else cwd + [part]
  }

  function Follow(root: Dir, from: Path, parts: seq<string>): Option<Path>
    decreases |parts|
  {
    if parts == [] then Some(from)
    else
      var next := Into(from, parts[0]);
      if Lookup(root, next) == None then None else Follow(root, next, parts[1..])
  }

  // Where an argument's components start from.
  function From(cwd: Path, arg: Arg): Path {
    if arg.absolute then [] else cwd
  }

  /** The directory an argument names; None if it or one on the way does not exist, and for
      the empty argument. */
  function Resolve(root: Dir, cwd: Path, arg: Arg): Option<Path> {
    if !arg.absolute && arg.parts == [] then None else Follow(root, From(cwd, arg), arg.parts)
  }

  // A name used as an argument.
  function Name(name: string): Arg {
    Arg(false, [name])
  }

  // The subdirectory names listDir collects, in order.
  function SubNames(es: seq<Entry>): seq<string> {
    if es == [] then []
    else if es[0].Sub? then [es[0].name] + SubNames(es[1..])
    else SubNames(es[1..])
  }

  ghost predicate UniqueNames(es: seq<Entry>) {
    forall i, j :: 0 <= i < j < |es| && es[i].Sub? && es[j].Sub? ==> es[i].name != es[j].name
  }

  /** A tree the program's arrays can hold: in every directory the subdirectories have
      different ordinary names and there are at most cap of them. */
  ghost predicate Tidy(d: Dir, cap: nat) {
    && |SubNames(d.entries)| <= cap
    && UniqueNames(d.entries)
    && forall i :: 0 <= i < |d.entries| && d.entries[i].Sub? ==>
         d.entries[i].name != "." && d.entries[i].name != ".." && Tidy(d.entries[i].dir, cap)
  }

  lemma {:induction false} SubNamesAppend(es: seq<Entry>, e: Entry)
    ensures SubNames(es + [e]) == SubNames(es) + (if e.Sub? then [e.name] else [])
    ensures |SubNames(es)| <= |es|
  {
    if es == [] {
      assert es + [e] == [e] && [e][1..] == [];
    } else {
      SubNamesAppend(es[1..], e);
      assert (es + [e])[1..] == es[1..] + [e];
    }
  }

  /** Which trees are tidy: an empty directory is, and one with one more entry is exactly when it
      was without, and the entry, if a subdirectory, is a tidy one under a new ordinary name and
      there is room for it. */
  lemma TidyGrows(openable: bool, es: seq<Entry>, e: Entry, cap: nat)
    ensures Tidy(Dir(openable, []), cap)
    ensures Tidy(Dir(openable, es + [e]), cap) <==>
      && Tidy(Dir(openable, es), cap)
      && (e.Sub? ==>
            && |SubNames(es)| < cap
            && e.name != "." && e.name != ".."
            && (forall i :: 0 <= i < |es| && es[i].Sub? ==> es[i].name != e.name)
            && Tidy(e.dir, cap))
  {
    SubNamesAppend(es, e);
    var more := es + [e];
    assert more[|es|] == e;
    assert forall i :: 0 <= i < |es| ==> more[i] == es[i];
    if UniqueNames(more) {
      assert UniqueNames(es);
    }
  }

  // ---------- the walk ----------

  /** The directories listed by a call for the directory d at the given path. */
  function Walk(path: Path, d: Dir): seq<Path>
    decreases d, 1
  {
    if d.openable then [path] + WalkEntries(path, d.entries) else []
  }

  function WalkEntries(path: Path, es: seq<Entry>): seq<Path>
    decreases es, 0
  {
    if es == [] then []
    else
      match es[0]
      case Sub(name, c) => if c.openable then Walk(path + [name], c) + WalkEntries(path, es[1..]) else []
      case _ => WalkEntries(path, es[1..])
  }

  /** All directories of a tree, parents first. */
  function PreOrder(path: Path, d: Dir): seq<Path>
    decreases d, 1
  {
    [path] + PreOrderEntries(path, d.entries)
  }

  function PreOrderEntries(path: Path, es: seq<Entry>): seq<Path>
    decreases es, 0
  {
    if es == [] then []
    else
      match es[0]
      case Sub(name, c) => PreOrder(path + [name], c) + PreOrderEntries(path, es[1..])
      case _ => PreOrderEntries(path, es[1..])
  }

  ghost predicate AllOpen(d: Dir) {
    d.openable && forall i :: 0 <= i < |d.entries| && d.entries[i].Sub? ==> AllOpen(d.entries[i].dir)
  }

  lemma {:induction false} WalkIsPreOrder(path: Path, d: Dir)
    requires AllOpen(d)
    ensures Walk(path, d) == PreOrder(path, d)
    decreases d, 1
  {
    WalkEntriesIsPreOrder(path, d.entries);
  }

  lemma {:induction false} WalkEntriesIsPreOrder(path: Path, es: seq<Entry>)
    requires forall i :: 0 <= i < |es| && es[i].Sub? ==> AllOpen(es[i].dir)
    ensures WalkEntries(path, es) == PreOrderEntries(path, es)
    decreases es, 0
  {
    if es == [] {
    } else {
      WalkEntriesIsPreOrder(path, es[1..]);
      if es[0].Sub? {
        WalkIsPreOrder(path + [es[0].name], es[0].dir);
      }
    }
  }

  // ---------- which directories are listed ----------

  // No subdirectory before position i is closed.
  ghost predicate NoClosedBefore(es: seq<Entry>, i: nat)
    requires i <= |es|
  {
    forall j :: 0 <= j < i && es[j].Sub? ==> es[j].dir.openable
  }

  /** The directory at the relative path exists, it and its ancestors can be opened, and no
      earlier sibling of it or of an ancestor is closed. */
  ghost predicate Visits(d: Dir, rel: Path)
    decreases |rel|
  {
    && d.openable
    && (rel == [] ||
        exists i :: 0 <= i < |d.entries| && d.entries[i].Sub? && d.entries[i].name == rel[0]
                 && NoClosedBefore(d.entries, i) && Visits(d.entries[i].dir, rel[1..]))
  }

  ghost predicate VisitsFrom(es: seq<Entry>, rel: Path)
    requires rel != []
  {
    exists i :: 0 <= i < |es| && es[i].Sub? && es[i].name == rel[0]
             && NoClosedBefore(es, i) && Visits(es[i].dir, rel[1..])
  }

  lemma VisitsFromStep(es: seq<Entry>, rel: Path)
    requires es != [] && rel != []
    ensures VisitsFrom(es, rel) <==>
      if es[0].Sub? then
        || (es[0].name == rel[0] && Visits(es[0].dir, rel[1..]))
        || (es[0].dir.openable && VisitsFrom(es[1..], rel))
      else VisitsFrom(es[1..], rel)
  {
    var rest := es[1..];
    if i :| 0 <= i < |rest| && rest[i].Sub? && rest[i].name == rel[0]
            && NoClosedBefore(rest, i) && Visits(rest[i].dir, rel[1..]) {
      if es[0].Sub? ==> es[0].dir.openable {
        forall j | 0 <= j < i + 1 && es[j].Sub?
          ensures es[j].dir.openable
        {
          assert j > 0 ==> es[j] == rest[j - 1];
        }
        assert es[i + 1] == rest[i] && NoClosedBefore(es, i + 1);
      }
    }
    if i :| 0 <= i < |es| && es[i].Sub? && es[i].name == rel[0]
            && NoClosedBefore(es, i) && Visits(es[i].dir, rel[1..]) {
      if i > 0 {
        assert rest[i - 1] == es[i];
        forall j | 0 <= j < i - 1 && rest[j].Sub?
          ensures rest[j].dir.openable
        {
          assert rest[j] == es[j + 1];
        }
      }
    }
    if es[0].Sub? && es[0].name == rel[0] && Visits(es[0].dir, rel[1..]) {
      assert NoClosedBefore(es, 0);
    }
  }

  /** The walk lists exactly the directories that Visits describes. */
  lemma {:induction false} WalkListsExactlyVisits(path: Path, d: Dir, p: Path)
    ensures p in Walk(path, d) <==> path <= p && Visits(d, p[|path|..])
    decreases d, 1
  {
    WalkEntriesListsVisits(path, d.entries, p);
    if path <= p && p[|path|..] == [] {
      assert p == path;
    }
    assert p == path ==> p[|path|..] == [];
    if path <= p && p != path && d.openable {
      assert Visits(d, p[|path|..]) <==> VisitsFrom(d.entries, p[|path|..]);
    }
  }

  lemma {:induction false} WalkEntriesListsVisits(path: Path, es: seq<Entry>, p: Path)
    ensures p in WalkEntries(path, es) <==> path < p && VisitsFrom(es, p[|path|..])
    decreases es, 0
  {
    if es == [] {
    } else {
      var rest := es[1..];
      WalkEntriesListsVisits(path, rest, p);
      if path < p {
        VisitsFromStep(es, p[|path|..]);
      }
      if es[0].Sub? {
        var sub := path + [es[0].name];
        WalkListsExactlyVisits(sub, es[0].dir, p);
        if path < p {
          assert sub <= p <==> p[|path|] == es[0].name;
          assert sub <= p ==> p[|sub|..] == p[|path|..][1..];
        }
      }
    }
  }

  // ---------- once each ----------

  ghost predicate NoRepeats(ps: seq<Path>) {
    forall i, j :: 0 <= i < j < |ps| ==> ps[i] != ps[j]
  }

  lemma JoinNoRepeats(a: seq<Path>, b: seq<Path>)
    requires NoRepeats(a) && NoRepeats(b) && forall p :: p in a ==> p !in b
    ensures NoRepeats(a + b)
  {
    forall i, j | 0 <= i < j < |a + b|
      ensures (a + b)[i] != (a + b)[j]
    {
      if i < |a| && j >= |a| {
        assert a[i] in a && b[j - |a|] in b;
      }
    }
  }

  lemma {:induction false} ChildFound(es: seq<Entry>, name: string)
    ensures Child(es, name).Some? <==> exists i :: 0 <= i < |es| && es[i].Sub? && es[i].name == name
    ensures Child(es, name).Some? ==>
      exists i :: 0 <= i < |es| && es[i].Sub? && es[i].name == name && es[i].dir == Child(es, name).value
  {
    if es == [] {
    } else {
      ChildFound(es[1..], name);
      if es[0].Sub? && es[0].name == name {
        assert es[0].Sub?;
      } else {
        if i :| 0 <= i < |es[1..]| && es[1..][i].Sub? && es[1..][i].name == name
                && es[1..][i].dir == Child(es[1..], name).value {
          assert es[i + 1] == es[1..][i];
        }
        if i :| 0 <= i < |es| && es[i].Sub? && es[i].name == name {
          assert es[1..][i - 1] == es[i];
        }
      }
    }
  }

  // The first name does not occur again.
  lemma ChildAbsent(es: seq<Entry>)
    requires UniqueNames(es) && es != [] && es[0].Sub?
    ensures Child(es[1..], es[0].name) == None
  {
    ChildFound(es[1..], es[0].name);
  }

  lemma {:induction false} PreOrderFound(path: Path, d: Dir, p: Path)
    requires p in PreOrder(path, d)
    ensures path <= p
    decreases d, 1
  {
    if p in PreOrderEntries(path, d.entries) {
      PreOrderEntriesFound(path, d.entries, p);
    }
  }

  lemma {:induction false} PreOrderEntriesFound(path: Path, es: seq<Entry>, p: Path)
    ensures p in PreOrderEntries(path, es) ==> path < p && Child(es, p[|path|]).Some?
    decreases es, 0
  {
    if es != [] && p in PreOrderEntries(path, es) {
      PreOrderEntriesFound(path, es[1..], p);
      if es[0].Sub? && p in PreOrder(path + [es[0].name], es[0].dir) {
        PreOrderFound(path + [es[0].name], es[0].dir, p);
      }
    }
  }

  lemma {:induction false} PreOrderNoRepeats(path: Path, d: Dir, cap: nat)
    requires Tidy(d, cap)
    ensures NoRepeats(PreOrder(path, d))
    decreases d, 1
  {
    PreOrderEntriesNoRepeats(path, d.entries, cap);
    forall p | p in [path]
      ensures p !in PreOrderEntries(path, d.entries)
    {
      PreOrderEntriesFound(path, d.entries, p);
    }
    JoinNoRepeats([path], PreOrderEntries(path, d.entries));
  }

  lemma {:induction false} PreOrderEntriesNoRepeats(path: Path, es: seq<Entry>, cap: nat)
    requires UniqueNames(es) && forall i :: 0 <= i < |es| && es[i].Sub? ==> Tidy(es[i].dir, cap)
    ensures NoRepeats(PreOrderEntries(path, es))
    decreases es, 0
  {
    if es == [] {
    } else {
      var rest := es[1..];
      PreOrderEntriesNoRepeats(path, rest, cap);
      if es[0].Sub? {
        var sub := path + [es[0].name];
        PreOrderNoRepeats(sub, es[0].dir, cap);
        forall p | p in PreOrder(sub, es[0].dir)
          ensures p !in PreOrderEntries(path, rest)
        {
          PreOrderFound(sub, es[0].dir, p);
          PreOrderEntriesFound(path, rest, p);
          ChildAbsent(es);
          assert path < p ==> p[|path|] == es[0].name;
        }
        JoinNoRepeats(PreOrder(sub, es[0].dir), PreOrderEntries(path, rest));
      }
    }
  }

  /** The pre-order list of a tidy tree has every directory of it and nothing else. */
  lemma {:induction false} PreOrderHasEveryDirectory(path: Path, d: Dir, cap: nat, p: Path)
    requires Tidy(d, cap)
    ensures p in PreOrder(path, d) <==> path <= p && Lookup(d, p[|path|..]).Some?
    decreases d, 1
  {
    PreOrderEntriesHaveEvery(path, d.entries, cap, p);
    assert path <= p && p[|path|..] == [] ==> p == path;
    assert p == path ==> p[|path|..] == [];
    if path < p {
      assert p[|path|..][0] == p[|path|] && p[|path|..][1..] == p[|path| + 1..];
    }
  }

  lemma {:induction false} PreOrderEntriesHaveEvery(path: Path, es: seq<Entry>, cap: nat, p: Path)
    requires UniqueNames(es) && forall i :: 0 <= i < |es| && es[i].Sub? ==> Tidy(es[i].dir, cap)
    ensures p in PreOrderEntries(path, es) <==>
      path < p && Child(es, p[|path|]).Some? && Lookup(Child(es, p[|path|]).value, p[|path| + 1..]).Some?
    decreases es, 0
  {
    if es == [] {
    } else {
      PreOrderEntriesHaveEvery(path, es[1..], cap, p);
      if es[0].Sub? {
        var sub := path + [es[0].name];
        ChildAbsent(es);
        PreOrderHasEveryDirectory(sub, es[0].dir, cap, p);
        assert sub <= p <==> path < p && p[|path|] == es[0].name;
      }
    }
  }

  /** If everything can be opened, the walk lists every directory of the tree, each exactly
      once, in pre-order. */
  lemma {:induction false} OpenTreeListedOnce(path: Path, d: Dir, cap: nat, p: Path)
    requires Tidy(d, cap) && AllOpen(d)
    ensures Walk(path, d) == PreOrder(path, d) && NoRepeats(Walk(path, d))
    ensures p in Walk(path, d) <==> path <= p && Lookup(d, p[|path|..]).Some?
  {
    WalkIsPreOrder(path, d);
    PreOrderNoRepeats(path, d, cap);
    PreOrderHasEveryDirectory(path, d, cap, p);
  }

  // ---------- with closed directories ----------

  // a is b with some elements left out.
  predicate Subsequence<T(==)>(a: seq<T>, b: seq<T>)
    decreases |b|
  {
    a == [] || (b != [] && ((a[0] == b[0] && Subsequence(a[1..], b[1..])) || Subsequence(a, b[1..])))
  }

  lemma {:induction false} SubsequenceOfSelf<T>(a: seq<T>)
    ensures Subsequence(a, a)
    decreases |a|
  {
    if a == [] {
    } else {
      SubsequenceOfSelf(a[1..]);
    }
  }

  lemma {:induction false} SubsequenceConcat<T>(a: seq<T>, b: seq<T>, c: seq<T>, d: seq<T>)
    requires Subsequence(a, b) && Subsequence(c, d)
    ensures Subsequence(a + c, b + d)
    decreases |b|
  {
    if b == [] {
      assert a + c == c && b + d == d;
    } else {
      assert (b + d)[1..] == b[1..] + d && (b + d)[0] == b[0];
      if a != [] && a[0] == b[0] && Subsequence(a[1..], b[1..]) {
        SubsequenceConcat(a[1..], b[1..], c, d);
        assert (a + c)[1..] == a[1..] + c && (a + c)[0] == a[0];
      } else {
        SubsequenceConcat(a, b[1..], c, d);
      }
    }
  }

  lemma {:induction false} SubsequenceMembers<T>(a: seq<T>, b: seq<T>, x: T)
    requires Subsequence(a, b) && x in a
    ensures x in b
    decreases |b|
  {
    if a[0] == b[0] && Subsequence(a[1..], b[1..]) {
      if x != a[0] {
        SubsequenceMembers(a[1..], b[1..], x);
      }
    } else {
      SubsequenceMembers(a, b[1..], x);
    }
  }

  lemma {:induction false} SubsequenceNoRepeats(a: seq<Path>, b: seq<Path>)
    requires Subsequence(a, b) && NoRepeats(b)
    ensures NoRepeats(a)
    decreases |b|
  {
    if a == [] {
    } else if a[0] == b[0] && Subsequence(a[1..], b[1..]) {
      SubsequenceNoRepeats(a[1..], b[1..]);
      forall p | p in [a[0]]
        ensures p !in a[1..]
      {
        if p in a[1..] {
          SubsequenceMembers(a[1..], b[1..], p);
        }
      }
      assert a == [a[0]] + a[1..];
      JoinNoRepeats([a[0]], a[1..]);
    } else {
      SubsequenceNoRepeats(a, b[1..]);
    }
  }

  lemma {:induction false} WalkWithinPreOrder(path: Path, d: Dir)
    ensures Subsequence(Walk(path, d), PreOrder(path, d))
    decreases d, 1
  {
    if d.openable {
      WalkEntriesWithinPreOrder(path, d.entries);
      SubsequenceOfSelf([path]);
      SubsequenceConcat([path], [path], WalkEntries(path, d.entries), PreOrderEntries(path, d.entries));
    }
  }

  lemma {:induction false} WalkEntriesWithinPreOrder(path: Path, es: seq<Entry>)
    ensures Subsequence(WalkEntries(path, es), PreOrderEntries(path, es))
    decreases es, 0
  {
    if es == [] {
    } else {
      WalkEntriesWithinPreOrder(path, es[1..]);
      if es[0].Sub? {
        var sub := path + [es[0].name];
        WalkWithinPreOrder(sub, es[0].dir);
        SubsequenceConcat(Walk(sub, es[0].dir), PreOrder(sub, es[0].dir),
                          WalkEntries(path, es[1..]), PreOrderEntries(path, es[1..]));
      }
    }
  }

  /** Whatever is closed, the walk is the pre-order list with directories left out, so no
      directory is listed twice. */
  lemma WalkListsOnceInOrder(path: Path, d: Dir, cap: nat)
    requires Tidy(d, cap)
    ensures Subsequence(Walk(path, d), PreOrder(path, d)) && NoRepeats(Walk(path, d))
  {
    WalkWithinPreOrder(path, d);
    PreOrderNoRepeats(path, d, cap);
    SubsequenceNoRepeats(Walk(path, d), PreOrder(path, d));
  }

  // ---------- the current directory ----------

  lemma {:induction false} FollowLast(root: Dir, from: Path, parts: seq<string>)
    requires parts != [] && Follow(root, from, parts).Some?
    ensures var n := |parts| - 1;
      && Follow(root, from, parts[..n]).Some?
      && Follow(root, from, parts) == Some(Into(Follow(root, from, parts[..n]).value, parts[n]))
    decreases |parts|
  {
    var n := |parts| - 1;
    if n == 0 {
      assert parts[..0] == [] && parts[1..] == [];
    } else {
      FollowLast(root, Into(from, parts[0]), parts[1..]);
      assert parts[1..][..n - 1] == parts[..n][1..] && parts[1..][n - 1] == parts[n];
    }
  }

  /** A call ends in the parent of the directory it opened.  That is where it started exactly
      when, for an argument whose last component is an ordinary name, the components before
      it lead to the starting directory; for a last ".", when they lead to a directory whose
      parent it is; for a last "..", to one whose parent's parent it is; and for "/", when it
      is the root. */
  lemma RestoresIff(root: Dir, cwd: Path, arg: Arg)
    requires Resolve(root, cwd, arg).Some?
    ensures var end := Parent(Resolve(root, cwd, arg).value);
      if arg.parts == [] then
        end == cwd <==> cwd == []
      else
        var n := |arg.parts| - 1;
        var before := Follow(root, From(cwd, arg), arg.parts[..n]);
        && before.Some?
        && (end == cwd <==> match arg.parts[n]
                            case "." => Parent(before.value) == cwd
                            case ".." => Parent(Parent(before.value)) == cwd
                            case _ => before.value == cwd)
  {
    if arg.parts != [] {
      FollowLast(root, From(cwd, arg), arg.parts);
    }
  }

  // A single component leads to an existing directory or nowhere.
  lemma FollowName(root: Dir, from: Path, name: string)
    ensures Follow(root, from, [name]) ==
      if Lookup(root, Into(from, name)).Some? then Some(Into(from, name)) else None
  {
    var parts, next := [name], Into(from, name);
    assert parts[0] == name && parts[1..] == [];
    assert Follow(root, next, []) == Some(next);
  }

  /** For a single name: an ordinary one ends where it started, "." one level higher and ".."
      two, as far as the root allows, so those two restore only at the root. */
  lemma RestoresExactlyForChildren(root: Dir, cwd: Path, name: string)
    requires Lookup(root, Into(cwd, name)).Some?
    ensures Resolve(root, cwd, Name(name)) == Some(Into(cwd, name))
    ensures Parent(Into(cwd, name)) == cwd <==> (name != "." && name != "..") || cwd == []
  {
    FollowName(root, cwd, name);
    if name != "." && name != ".." {
      assert (cwd + [name])[..|cwd|] == cwd;
    }
  }

  /** An absolute argument names the same directory from everywhere, the one its components name
      from the root. */
  lemma AbsoluteFromRoot(root: Dir, cwd: Path, parts: seq<string>)
    requires parts != []
    ensures Resolve(root, cwd, Arg(true, parts)) == Resolve(root, [], Arg(false, parts))
    ensures Resolve(root, cwd, Arg(true, [])) == Some([])
  {
  }

  /** A relative argument is followed from the current directory, one component after another. */
  lemma RelativeFromCurrent(root: Dir, cwd: Path, part: string, parts: seq<string>)
    requires parts != []
    ensures Resolve(root, cwd, Arg(false, [part])) ==
      if Lookup(root, Into(cwd, part)).Some? then Some(Into(cwd, part)) else None
    ensures Resolve(root, cwd, Arg(false, [part] + parts)) ==
      if Lookup(root, Into(cwd, part)).Some? then Resolve(root, Into(cwd, part), Arg(false, parts)) else None
  {
    FollowName(root, cwd, part);
    assert ([part] + parts)[1..] == parts;
  }

  /** Leading back is neither enough nor needed: "./." leads back to where it started and ends
      above it, except at the root; "b/." does not lead back to the root and ends there. */
  lemma LastDotDecides(root: Dir, cwd: Path, b: string)
    requires Lookup(root, cwd).Some? && Lookup(root, [b]).Some? && b != "." && b != ".."
    ensures Resolve(root, cwd, Arg(false, [".", "."])) == Some(cwd)
    ensures Parent(cwd) == cwd <==> cwd == []
    ensures Resolve(root, [], Arg(false, [b, "."])) == Some([b]) && Parent([b]) == []
  {
    FollowName(root, cwd, ".");
    FollowName(root, [b], ".");
    assert [".", "."][1..] == ["."] && [b, "."][1..] == ["."];
    assert Into([], b) == [b];
  }

  lemma {:induction false} LookupAppend(d: Dir, path: Path, name: string)
    requires Lookup(d, path).Some?
    ensures Lookup(d, path + [name]) == Child(Lookup(d, path).value.entries, name)
    decreases |path|
  {
    if path == [] {
      assert (path + [name])[1..] == [];
    } else {
      LookupAppend(Child(d.entries, path[0]).value, path[1..], name);
      assert (path + [name])[1..] == path[1..] + [name];
    }
  }

  lemma UniqueChild(es: seq<Entry>, k: nat)
    requires UniqueNames(es) && k < |es| && es[k].Sub?
    ensures Child(es, es[k].name) == Some(es[k].dir)
  {
    ChildFound(es, es[k].name);
  }

  // The subdirectory at position j, reached by its name from where it lies.
  lemma NamedChild(root: Dir, cwd: Path, d: Dir, j: nat, cap: nat)
    requires Lookup(root, cwd) == Some(d) && Tidy(d, cap) && j < |d.entries| && d.entries[j].Sub?
    ensures var name := d.entries[j].name;
      && Resolve(root, cwd, Name(name)) == Some(cwd + [name])
      && Lookup(root, cwd + [name]) == Some(d.entries[j].dir)
      && Parent(cwd + [name]) == cwd
      && Tidy(d.entries[j].dir, cap)
  {
    var name := d.entries[j].name;
    LookupAppend(root, cwd, name);
    UniqueChild(d.entries, j);
    RestoresExactlyForChildren(root, cwd, name);
  }

  // ---------- the program text ----------

  // The next subdirectory at or after position k; plain entries contribute nothing.
  lemma {:induction false} NextSub(path: Path, es: seq<Entry>, k: nat) returns (j: nat)
    requires k <= |es| && SubNames(es[k..]) != []
    ensures k <= j < |es| && es[j].Sub?
    ensures SubNames(es[j..]) == SubNames(es[k..])
    ensures WalkEntries(path, es[j..]) == WalkEntries(path, es[k..])
    decreases |es| - k
  {
    assert k < |es|;
    if es[k].Sub? {
      j := k;
    } else {
      assert es[k..][1..] == es[k + 1..];
      j := NextSub(path, es, k + 1);
    }
  }

  // The next subdirectory, and what a walk from position k does there and leaves for later.
  lemma NextWalk(path: Path, es: seq<Entry>, k: nat) returns (j: nat)
    requires k <= |es| && SubNames(es[k..]) != []
    ensures j < |es| && es[j].Sub?
    ensures SubNames(es[k..])[0] == es[j].name && SubNames(es[k..])[1..] == SubNames(es[j + 1..])
    ensures WalkEntries(path, es[k..]) ==
      if es[j].dir.openable then Walk(path + [es[j].name], es[j].dir) + WalkEntries(path, es[j + 1..]) else []
  {
    j := NextSub(path, es, k);
    assert es[j..][0] == es[j] && es[j..][1..] == es[j + 1..];
  }

  lemma {:induction false} NoSubsLeft(path: Path, es: seq<Entry>)
    ensures SubNames(es) == [] ==> WalkEntries(path, es) == []
    decreases |es|
  {
    if es == [] {
    } else {
      NoSubsLeft(path, es[1..]);
    }
  }

  class Process {
    const root: Dir
    const cap: nat              // entries of the dirName array
    var cwd: Path
    var listed: seq<Path>       // the "Directory" headings, as full paths

    constructor (root: Dir, cap: nat)
      ensures this.root == root && this.cap == cap && cwd == [] && listed == []
    {
      this.root, this.cap, cwd, listed := root, cap, [], [];
    }

    // opendir(arg): the path of the directory; None where it fails.
    function Opened(arg: Arg): Option<Path>
      reads this`cwd
    {
      match Resolve(root, cwd, arg)
      case None => None
      case Some(path) =>
        match Lookup(root, path)
        case None => None
        case Some(d) => if d.openable then Some(path) else None
    }

    // Lines 36-104: one pass over readdir, keeping the subdirectory names.
    method Collect(es: seq<Entry>, dirName: array<string>) returns (count: nat)
      requires |SubNames(es)| <= dirName.Length
      modifies dirName
      ensures count == |SubNames(es)| && dirName[..count] == SubNames(es)
    {
      count := 0;
      var i := 0;
      assert es[0..] == es;
      while i < |es|
        invariant 0 <= i <= |es| && count <= |SubNames(es)|
        invariant dirName[..count] + SubNames(es[i..]) == SubNames(es)
      {
        assert es[i..][1..] == es[i + 1..];
        ghost var names := dirName[..count];
        if es[i].Sub? {
          assert |names + SubNames(es[i..])| == |SubNames(es)|;
          dirName[count] := es[i].name;
          count := count + 1;
          assert dirName[..count] == names + [es[i].name];
          assert (names + [es[i].name]) + SubNames(es[i + 1..]) == names + SubNames(es[i..]);
        }
        i := i + 1;
      }
      assert SubNames(es[i..]) == [];
    }

    /** d is the directory the argument names, if it can be opened. */
    method ListDir(arg: Arg, ghost d: Dir) returns (r: int)
      requires Opened(arg).Some? ==> Lookup(root, Opened(arg).value) == Some(d)
      requires Tidy(d, cap)
      modifies this
      ensures r == if old(Opened(arg)) == None then -1 else 0
      ensures r == -1 ==> cwd == old(cwd) && listed == old(listed)
      ensures r == 0 ==> cwd == Parent(old(Opened(arg)).value)
      ensures r == 0 ==> listed == old(listed) + Walk(old(Opened(arg)).value, d)
      decreases d, 3
    {
      var path := Opened(arg);
      if path == None {
        return -1;
      }
      cwd := path.value;
      ghost var before := listed;
      listed := listed + [cwd];
      var dirName := new string[cap](_ => "");
      var count := Collect(Lookup(root, cwd).value.entries, dirName);
      ListChildren(dirName[..count], d);
      assert listed == before + Walk(cwd, d);
      cwd := Parent(cwd);
      r := 0;
    }

    // Lines 105-111: the collected children in order, up to the first that cannot be opened.
    method ListChildren(names: seq<string>, ghost d: Dir)
      requires Lookup(root, cwd) == Some(d) && Tidy(d, cap) && names == SubNames(d.entries)
      modifies this
      ensures cwd == old(cwd)
      ensures listed == old(listed) + WalkEntries(cwd, d.entries)
      decreases d, 2
    {
      var i, go := 0, true;
      ghost var k: nat := 0;
      ghost var es := d.entries;
      assert es[0..] == es;
      while i < |names| && go
        invariant 0 <= i <= |names| && k <= |es| && cwd == old(cwd)
        invariant SubNames(es[k..]) == names[i..]
        invariant listed + (if go then WalkEntries(cwd, es[k..]) else []) == old(listed) + WalkEntries(cwd, es)
        decreases |names| - i, go
      {
        go, k := ListChild(names[i], d, k);
        if go {
          i := i + 1;
        }
      }
      if go {
        NoSubsLeft(cwd, es[k..]);
      }
    }

    // The subdirectory at position j, which is named from where it lies; `rest` is listed later.
    method ListSub(name: string, ghost d: Dir, ghost j: nat, ghost rest: seq<Path>, ghost whole: seq<Path>)
      returns (more: bool)
      requires Lookup(root, cwd) == Some(d) && Tidy(d, cap)
      requires j < |d.entries| && d.entries[j].Sub? && d.entries[j].name == name
      requires whole == if d.entries[j].dir.openable then Walk(cwd + [name], d.entries[j].dir) + rest else []
      modifies this
      ensures cwd == old(cwd)
      ensures listed + (if more then rest else []) == old(listed) + whole
      decreases d, 0
    {
      NamedChild(root, cwd, d, j, cap);
      var c := ListDir(Name(name), d.entries[j].dir);
      more := c != -1;
    }

    // Line 107: the next child; false where the loop breaks.
    method ListChild(name: string, ghost d: Dir, ghost k: nat) returns (more: bool, ghost next: nat)
      requires Lookup(root, cwd) == Some(d) && Tidy(d, cap) && k <= |d.entries|
      requires var names := SubNames(d.entries[k..]); names != [] && names[0] == name
      modifies this
      ensures cwd == old(cwd) && next <= |d.entries|
      ensures more ==> SubNames(d.entries[next..]) == SubNames(d.entries[k..])[1..]
      ensures !more ==> next == k
      ensures listed + (if more then WalkEntries(cwd, d.entries[next..]) else [])
           == old(listed) + WalkEntries(cwd, d.entries[k..])
      decreases d, 1
    {
      ghost var es := d.entries;
      ghost var j := NextWalk(cwd, es, k);
      more := ListSub(name, d, j, WalkEntries(cwd, es[j + 1..]), WalkEntries(cwd, es[k..]));
      next := if more then j + 1 else k;
    }
  }
}
