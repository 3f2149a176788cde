/**
  Maps of files without path conflicts (overleaf-editor-core: file_map.js).

  Whether a single pathname is clean (`safePathname.isCleanDebug`) is a parameter.
*/
module FileMaps {
  import opened Common

  datatype FileMapError =
    | EmptyPathname
    | BadPathname(pathname: string)
    | PathnameConflict(pathname: string)
    | FileNotFound(pathname: string)

  /** One pathname is a directory on the way to the other. */
  predicate PathPrefix(p: string, q: string) { p + "/" <= q }

  ghost predicate PrefixFree(paths: set<string>) {
    forall p, q :: p in paths && q in paths ==> !PathPrefix(p, q)
  }

  // ----- lexical order -----

  predicate LexLeq(a: string, b: string) {
    a == "" || (b != "" && (a[0] < b[0] || (a[0] == b[0] && LexLeq(a[1..], b[1..]))))
  }

  lemma {:induction false} LexTotal(a: string, b: string)
    ensures LexLeq(a, b) || LexLeq(b, a)
  {
    if a != "" && b != "" {
      LexTotal(a[1..], b[1..]);
    }
  }

  lemma {:induction false} LexTransitive(a: string, b: string, c: string)
    requires LexLeq(a, b) && LexLeq(b, c)
    ensures LexLeq(a, c)
  {
    if a != "" && a[0] == b[0] && b[0] == c[0] {
      LexTransitive(a[1..], b[1..], c[1..]);
    }
  }

  lemma {:induction false} LexAntisymmetric(a: string, b: string)
    requires LexLeq(a, b) && LexLeq(b, a)
    ensures a == b
  {
    if a != "" {
      LexAntisymmetric(a[1..], b[1..]);
    }
  }

  lemma {:induction false} PrefixIsLess(a: string, c: string)
    requires a <= c
    ensures LexLeq(a, c)
  {
    if a != "" {
      assert a[1..] <= c[1..];
      PrefixIsLess(a[1..], c[1..]);
    }
  }

  /** Everything between a string and an extension of it extends it too. */
  lemma {:induction false} Sandwich(a: string, b: string, c: string)
    requires a <= c && LexLeq(a, b) && LexLeq(b, c)
    ensures a <= b
  {
    if a != "" {
      assert a[1..] <= c[1..];
      Sandwich(a[1..], b[1..], c[1..]);
    }
  }

  // ----- sorting -----

  function InsertSorted(x: string, s: seq<string>): seq<string> {
    if s == [] then [x]
    else if LexLeq(x, s[0]) then [x] + s
    else [s[0]] + InsertSorted(x, s[1..])
  }

  /** `dirnames.sort()`. */
  function Sort(s: seq<string>): seq<string> {
    if s == [] then [] else InsertSorted(s[0], Sort(s[1..]))
  }

  ghost predicate Sorted(s: seq<string>) {
    forall i, j :: 0 <= i < j < |s| ==> LexLeq(s[i], s[j])
  }

  ghost predicate Distinct(s: seq<string>) {
    forall i, j :: 0 <= i < j < |s| ==> s[i] != s[j]
  }

  lemma {:induction false} InsertSortedElements(x: string, s: seq<string>)
    ensures multiset(InsertSorted(x, s)) == multiset{x} + multiset(s)
  {
    if s != [] && !LexLeq(x, s[0]) {
      InsertSortedElements(x, s[1..]);
      assert s == [s[0]] + s[1..];
    }
  }

  lemma {:induction false} InsertSortedSorted(x: string, s: seq<string>)
    requires Sorted(s)
    ensures Sorted(InsertSorted(x, s))
  {
    if s == [] {
    } else if LexLeq(x, s[0]) {
      forall j | 0 <= j < |s| ensures LexLeq(x, s[j]) {
        if j > 0 { LexTransitive(x, s[0], s[j]); }
      }
    } else {
      LexTotal(x, s[0]);
      InsertSortedSorted(x, s[1..]);
      InsertSortedElements(x, s[1..]);
      var rest := InsertSorted(x, s[1..]);
      forall j | 0 <= j < |rest| ensures LexLeq(s[0], rest[j]) {
        assert rest[j] in multiset(rest);
        assert rest[j] == x || rest[j] in s[1..];
        assert forall m :: 0 <= m < |s[1..]| ==> s[1..][m] == s[m + 1];
      }
    }
  }

  lemma {:induction false} SortFacts(s: seq<string>)
    ensures Sorted(Sort(s)) && multiset(Sort(s)) == multiset(s)
  {
    if s != [] {
      SortFacts(s[1..]);
      InsertSortedElements(s[0], Sort(s[1..]));
      InsertSortedSorted(s[0], Sort(s[1..]));
      assert s == [s[0]] + s[1..];
    }
  }

  lemma DistinctByCount(s: seq<string>, t: seq<string>)
    requires Distinct(s) && multiset(s) == multiset(t)
    ensures Distinct(t)
  {
    forall i, j | 0 <= i < j < |t| ensures t[i] != t[j] {
      CountOfDistinct(s, t[i]);
      assert t == t[..i] + [t[i]] + t[i + 1..];
      assert t[i + 1..][j - i - 1] == t[j];
    }
  }

  lemma {:induction false} CountOfDistinct(s: seq<string>, x: string)
    requires Distinct(s)
    ensures multiset(s)[x] <= 1
  {
    if s != [] {
      var rest := s[1..];
      assert s == [s[0]] + rest;
      assert forall m :: 0 <= m < |rest| ==> rest[m] == s[m + 1];
      CountOfDistinct(rest, x);
      if s[0] == x {
        assert x !in rest;
      }
    }
  }

  /** In a sorted list it is enough to look at neighbours. */
  lemma NeighboursSuffice(s: seq<string>)
    requires Sorted(s) && Distinct(s)
    ensures (exists i :: 0 <= i < |s| - 1 && s[i] <= s[i + 1])
       <==> (exists i, j :: 0 <= i < |s| && 0 <= j < |s| && i != j && s[i] <= s[j])
  {
    if exists i :: 0 <= i < |s| - 1 && s[i] <= s[i + 1] {
      var i :| 0 <= i < |s| - 1 && s[i] <= s[i + 1];
      var j := i + 1;
      assert i != j && s[i] <= s[j];
    }
    if exists i, j :: 0 <= i < |s| && 0 <= j < |s| && i != j && s[i] <= s[j] {
      var i, j :| 0 <= i < |s| && 0 <= j < |s| && i != j && s[i] <= s[j];
      PrefixIsLess(s[i], s[j]);
      if j < i {
        LexAntisymmetric(s[i], s[j]);
      } else {
        if i + 1 < j {
          Sandwich(s[i], s[i + 1], s[j]);
        }
        assert s[i] <= s[i + 1];
      }
    }
  }

  /** With a slash at the end, prefixes of names become prefixes of paths. */
  lemma DirectoryPrefix(p: string, q: string)
    ensures p + "/" <= q + "/" && p != q <==> PathPrefix(p, q)
  {
    var a, b := p + "/", q + "/";
    if a <= b {
      if |p| == |q| {
        assert p == a[..|p|] == b[..|p|] == q;
      } else {
        assert a == b[..|a|] == q[..|a|];
      }
    }
    if a <= q {
      assert a == q[..|a|] == b[..|a|];
    }
  }

  // ----- the check of a whole map -----

  /** `checkPathname`. */
  predicate GoodPathname(clean: string -> bool, p: string) { p != "" && clean(p) }

  function PathnameError(p: string): FileMapError {
    if p == "" then EmptyPathname else BadPathname(p)
  }

  ghost predicate FirstBad(clean: string -> bool, pathnames: seq<string>, i: int) {
    && 0 <= i < |pathnames| && !GoodPathname(clean, pathnames[i])
    && forall j :: 0 <= j < i ==> GoodPathname(clean, pathnames[j])
  }

  /**
    Looking only at neighbours of the sorted directory names finds a conflict
    exactly when some pathname is a strict path prefix of another. A pathname that
    is no good is reported first, the first one of them, as empty or as bad. The
    pathname in a conflict is always empty: `substr(0, -1)` keeps nothing.
  */
  method CheckPathnamesDoNotConflict(clean: string -> bool, pathnames: seq<string>) returns (r: Result<(), FileMapError>)
    requires Distinct(pathnames)
    ensures r.Ok? <==> (forall p :: p in pathnames ==> GoodPathname(clean, p)) && PrefixFree(set p | p in pathnames)
    ensures r.Err? && (forall p :: p in pathnames ==> GoodPathname(clean, p)) ==> r.error == PathnameConflict("")
    ensures forall i :: FirstBad(clean, pathnames, i) ==>
      r == Err(if pathnames[i] == "" then EmptyPathname else BadPathname(pathnames[i]))
  {
    for i := 0 to |pathnames|
      invariant forall j :: 0 <= j < i ==> GoodPathname(clean, pathnames[j])
    {
      if !GoodPathname(clean, pathnames[i]) {
        return Err(PathnameError(pathnames[i]));
      }
    }
    var dirnames: seq<string> := [];
    for i := 0 to |pathnames|
      invariant |dirnames| == i && forall j :: 0 <= j < i ==> dirnames[j] == pathnames[j] + "/"
    {
      dirnames := dirnames + [pathnames[i] + "/"];
    }
    ConflictInDirnames(pathnames, dirnames);
    dirnames := Sort(dirnames);
    var i := 0;
    while i < |dirnames| - 1
      invariant 0 <= i && forall j :: 0 <= j < i && j < |dirnames| - 1 ==> !(dirnames[j] <= dirnames[j + 1])
    {
      if dirnames[i] <= dirnames[i + 1] {
        return Err(PathnameConflict(""));
      }
      i := i + 1;
    }
    return Ok(());
  }

  lemma ConflictInDirnames(pathnames: seq<string>, dirnames: seq<string>)
    requires Distinct(pathnames) && |dirnames| == |pathnames|
    requires forall j :: 0 <= j < |dirnames| ==> dirnames[j] == pathnames[j] + "/"
    ensures |Sort(dirnames)| == |pathnames|
    ensures (exists i :: 0 <= i < |Sort(dirnames)| - 1 && Sort(dirnames)[i] <= Sort(dirnames)[i + 1])
       <==> !PrefixFree(set p | p in pathnames)
  {
    var s := Sort(dirnames);
    SortFacts(dirnames);
    assert |s| == |multiset(s)| == |multiset(dirnames)| == |dirnames|;
    forall i, j | 0 <= i < j < |dirnames| ensures dirnames[i] != dirnames[j] {
      assert pathnames[i] == dirnames[i][..|pathnames[i]|] && pathnames[j] == dirnames[j][..|pathnames[j]|];
    }
    DistinctByCount(dirnames, s);
    NeighboursSuffice(s);
    SortedConflict(pathnames, dirnames, s);
  }

  lemma SortedConflict(pathnames: seq<string>, dirnames: seq<string>, s: seq<string>)
    requires |dirnames| == |pathnames| && multiset(s) == multiset(dirnames) && Distinct(s)
    requires forall j :: 0 <= j < |dirnames| ==> dirnames[j] == pathnames[j] + "/"
    ensures (exists i, j :: 0 <= i < |s| && 0 <= j < |s| && i != j && s[i] <= s[j])
       <==> !PrefixFree(set p | p in pathnames)
  {
    if exists i, j :: 0 <= i < |s| && 0 <= j < |s| && i != j && s[i] <= s[j] {
      var i, j :| 0 <= i < |s| && 0 <= j < |s| && i != j && s[i] <= s[j];
      var p, q := PathnameOf(pathnames, dirnames, s, i), PathnameOf(pathnames, dirnames, s, j);
      DirectoryPrefix(p, q);
      assert p != q by { assert s[i] != s[j]; }
      assert PathPrefix(p, q);
    }
    if !PrefixFree(set p | p in pathnames) {
      var p, q :| p in pathnames && q in pathnames && PathPrefix(p, q);
      DirectoryPrefix(p, q);
      var i, j := IndexOf(pathnames, dirnames, s, p), IndexOf(pathnames, dirnames, s, q);
      assert i != j && s[i] <= s[j];
    }
  }

  ghost function PathnameOf(pathnames: seq<string>, dirnames: seq<string>, s: seq<string>, i: nat): (p: string)
    requires |dirnames| == |pathnames| && multiset(s) == multiset(dirnames) && i < |s|
    requires forall j :: 0 <= j < |dirnames| ==> dirnames[j] == pathnames[j] + "/"
    ensures p in pathnames && s[i] == p + "/"
  {
    assert s[i] in multiset(dirnames);
    var j :| 0 <= j < |dirnames| && dirnames[j] == s[i];
    pathnames[j]
  }

  ghost function IndexOf(pathnames: seq<string>, dirnames: seq<string>, s: seq<string>, p: string): (i: nat)
    requires |dirnames| == |pathnames| && multiset(s) == multiset(dirnames) && p in pathnames
    requires forall j :: 0 <= j < |dirnames| ==> dirnames[j] == pathnames[j] + "/"
    ensures i < |s| && s[i] == p + "/"
  {
    var j :| 0 <= j < |pathnames| && pathnames[j] == p;
    assert dirnames[j] in multiset(s);
    var i :| 0 <= i < |s| && s[i] == dirnames[j];
    i
  }

  // ----- adding, removing, moving -----

  /** Whether a pathname conflicts with any file but the ignored one. */
  ghost predicate WouldConflict(paths: set<string>, p: string, ignored: Option<string>) {
    exists q :: q in paths && Some(q) != ignored && (PathPrefix(p, q) || PathPrefix(q, p))
  }

  ghost function AddTo<F>(clean: string -> bool, files: map<string, F>, p: string, file: F): Result<map<string, F>, FileMapError> {
    if !GoodPathname(clean, p) then Err(PathnameError(p))
    else if WouldConflict(files.Keys, p, None) then Err(PathnameConflict(p))
    else Ok(files[p := file])
  }

  ghost function RemoveFrom<F>(clean: string -> bool, files: map<string, F>, p: string): Result<map<string, F>, FileMapError> {
    if !GoodPathname(clean, p) then Err(PathnameError(p))
    else if p !in files then Err(FileNotFound(p))
    else Ok(files - {p})
  }

  ghost function MoveIn<F>(clean: string -> bool, files: map<string, F>, p: string, q: string): Result<map<string, F>, FileMapError> {
    if p == q then Ok(files)
    else if q == "" then RemoveFrom(clean, files, p)
    else if !GoodPathname(clean, p) then Err(PathnameError(p))
    else if !GoodPathname(clean, q) then Err(PathnameError(q))
    else if WouldConflict(files.Keys, q, Some(p)) then Err(PathnameConflict(q))
    else if p !in files then Err(FileNotFound(p))
    else Ok((files - {p})[q := files[p]])
  }

  lemma AddKeepsPrefixFree<F>(clean: string -> bool, files: map<string, F>, p: string, file: F)
    requires PrefixFree(files.Keys)
    ensures var r := AddTo(clean, files, p, file); r.Ok? ==> PrefixFree(r.value.Keys)
  {
    assert !PathPrefix(p, p);
  }

  /** A move keeps the map free of conflicts, also under or over its own old path. */
  lemma MoveKeepsPrefixFree<F>(clean: string -> bool, files: map<string, F>, p: string, q: string)
    requires PrefixFree(files.Keys)
    ensures var r := MoveIn(clean, files, p, q); r.Ok? ==> PrefixFree(r.value.Keys)
  {
    assert !PathPrefix(q, q);
  }

  datatype MapStep<F> = Add(pathname: string, file: F) | Remove(pathname: string) | Move(pathname: string, newPathname: string)

  /** One call; a call that throws leaves the map as it is. */
  ghost function After<F>(clean: string -> bool, files: map<string, F>, step: MapStep<F>): map<string, F> {
    var r := match step
      case Add(p, f) => AddTo(clean, files, p, f)
      case Remove(p) => RemoveFrom(clean, files, p)
      case Move(p, q) => MoveIn(clean, files, p, q);
    if r.Ok? then r.value else files
  }

  ghost function Run<F>(clean: string -> bool, files: map<string, F>, steps: seq<MapStep<F>>): map<string, F>
    decreases |steps|
  {
    if steps == [] then files else Run(clean, After(clean, files, steps[0]), steps[1..])
  }

  /** No sequence of adds, removes and moves ever makes one pathname a directory of another. */
  lemma {:induction false} RunKeepsPrefixFree<F>(clean: string -> bool, files: map<string, F>, steps: seq<MapStep<F>>)
    requires PrefixFree(files.Keys)
    ensures PrefixFree(Run(clean, files, steps).Keys)
    decreases |steps|
  {
    if steps != [] {
      match steps[0] {
        case Add(p, f) => AddKeepsPrefixFree(clean, files, p, f);
        case Remove(p) =>
        case Move(p, q) => MoveKeepsPrefixFree(clean, files, p, q);
      }
      RunKeepsPrefixFree(clean, After(clean, files, steps[0]), steps[1..]);
    }
  }

  // ----- the object of the source -----

  class FileMap<F(0)> {
    const clean: string -> bool
    var files: map<string, F>

    ghost predicate Valid()
      reads this
    {
      PrefixFree(files.Keys)
    }

    /** A map that has passed `checkPathnamesDoNotConflict`. */
    constructor (clean: string -> bool, files: map<string, F>)
      requires PrefixFree(files.Keys)
      ensures Valid() && this.clean == clean && this.files == files
    {
      this.clean, this.files := clean, files;
    }

    /** The loop over all pathnames, with both prefix tests spelled out. */
    method WouldConflictWith(pathname: string, ignoredPathname: Option<string>) returns (r: Result<bool, FileMapError>)
      ensures !GoodPathname(clean, pathname) ==> r == Err(PathnameError(pathname))
      ensures GoodPathname(clean, pathname) ==> r == Ok(WouldConflict(files.Keys, pathname, ignoredPathname))
    {
      if !GoodPathname(clean, pathname) {
        return Err(PathnameError(pathname));
      }
      var dirname := pathname + "/";
      var left := files.Keys;
      while left != {}
        invariant left <= files.Keys
        invariant forall q :: q in files.Keys - left && Some(q) != ignoredPathname ==>
          !PathPrefix(pathname, q) && !PathPrefix(q, pathname)
      {
        var q :| q in left;
        if dirname <= q && Some(q) != ignoredPathname {
          return Ok(true);
        }
        if q <= pathname && |pathname| > |q| && pathname[|q|] == '/' && Some(q) != ignoredPathname {
          return Ok(true);
        }
        left := left - {q};
      }
      return Ok(false);
    }

    method AddFile(pathname: string, file: F) returns (r: Result<(), FileMapError>)
      requires Valid()
      modifies this
      ensures Valid()
      ensures var a := AddTo(clean, old(files), pathname, file);
        if a.Ok? then r == Ok(()) && files == a.value else r == Err(a.error) && files == old(files)
    {
      AddKeepsPrefixFree(clean, files, pathname, file);
      var conflict := WouldConflictWith(pathname, None);
      if conflict.Err? {
        return Err(conflict.error);
      }
      if conflict.value {
        return Err(PathnameConflict(pathname));
      }
      files := files - {pathname};
      files := files[pathname := file];
      assert files == old(files)[pathname := file];
      return Ok(());
    }

    method RemoveFile(pathname: string) returns (r: Result<(), FileMapError>)
      requires Valid()
      modifies this
      ensures Valid()
      ensures var a := RemoveFrom(clean, old(files), pathname);
        if a.Ok? then r == Ok(()) && files == a.value else r == Err(a.error) && files == old(files)
    {
      if !GoodPathname(clean, pathname) {
        return Err(PathnameError(pathname));
      }
      if pathname !in files {
        return Err(FileNotFound(pathname));
      }
      files := files - {pathname};
      return Ok(());
    }

    method MoveFile(pathname: string, newPathname: string) returns (r: Result<(), FileMapError>)
      requires Valid()
      modifies this
      ensures Valid()
      ensures var a := MoveIn(clean, old(files), pathname, newPathname);
        if a.Ok? then r == Ok(()) && files == a.value else r == Err(a.error) && files == old(files)
    {
      if pathname == newPathname {
        return Ok(());
      }
      if newPathname == "" {
        r := RemoveFile(pathname);
        return;
      }
      MoveKeepsPrefixFree(clean, files, pathname, newPathname);
      if !GoodPathname(clean, pathname) {
        return Err(PathnameError(pathname));
      }
      var conflict := WouldConflictWith(newPathname, Some(pathname));
      if conflict.Err? {
        return Err(conflict.error);
      }
      if conflict.value {
        return Err(PathnameConflict(newPathname));
      }
      if pathname !in files {
        return Err(FileNotFound(pathname));
      }
      var file := files[pathname];
      files := files - {pathname};
      files := (files - {newPathname})[newPathname := file];
      assert files == (old(files) - {pathname})[newPathname := file];
      return Ok(());
    }
  }

}
