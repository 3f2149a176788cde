/**
  `Operation.transform` for operations on whole projects (overleaf-editor-core:
  operation/index.js lines 155-215 and 246-460; the `applyTo` of each operation;
  which errors an application skips, change.js lines 266-294).

  The documented law is apply(apply(S, A), B') == apply(apply(S, B), A'). It fails
  for one family of pairs, two different moves of one file; here is exactly when.
  What edits do to the content of one file is a parameter that obeys the law.
*/
module ProjectOt {
  import opened Common
  import opened FileMaps
  import opened OtLists

  datatype FileValue<+C, +M> = FileValue(content: C, metadata: M)

  datatype Op<+C, +M, +E> =
    | NoOp
    | AddFile(path: string, file: FileValue<C, M>)
    | MoveFile(path: string, newPath: string)
    | EditFile(path: string, edit: E)
    | SetFileMetadata(path: string, metadata: M)

  type Project<C, M> = map<string, FileValue<C, M>>

  // How contents are edited, and which pathnames are clean.
  datatype Env<!C(!new), !E(!new)> = Env(edits: Ot<C, E>, clean: string -> bool)

  // ----- applying -----

  /** None if it throws anything that is not recoverable; a recoverable error leaves the project as it is. */
  ghost function Apply<C(!new), M, E(!new)>(env: Env<C, E>, s: Project<C, M>, op: Op<C, M, E>): Option<Project<C, M>> {
    match op
    case NoOp => Some(s)
    case AddFile(p, file) =>
      var r := AddTo(env.clean, s, p, file);
      if r.Ok? then Some(r.value) else None
    case MoveFile(p, q) =>
      var r := MoveIn(env.clean, s, p, q);
      if r.Ok? then Some(r.value) else if r.error.FileNotFound? then Some(s) else None
    case EditFile(p, e) =>
      if p !in s then Some(s)
      else if env.edits.can(s[p].content, e) then Some(s[p := s[p].(content := env.edits.apply(s[p].content, e))])
      else None
    case SetFileMetadata(p, m) => if p in s then Some(s[p := s[p].(metadata := m)]) else Some(s)
  }

  /** It throws nothing at all. */
  ghost predicate Strict<C(!new), M, E(!new)>(env: Env<C, E>, s: Project<C, M>, op: Op<C, M, E>) {
    match op
    case AddFile(p, file) => AddTo(env.clean, s, p, file).Ok?
    case MoveFile(p, q) => MoveIn(env.clean, s, p, q).Ok?
    case EditFile(p, e) => p in s && env.edits.can(s[p].content, e)
    case _ => true
  }

  ghost function Both<C(!new), M, E(!new)>(env: Env<C, E>, s: Project<C, M>, first: Op<C, M, E>, second: Op<C, M, E>): Option<Project<C, M>> {
    var t := Apply(env, s, first);
    if t.Some? then Apply(env, t.value, second) else None
  }

  // ----- transforming -----

  type Ops<C, M, E> = (Op<C, M, E>, Op<C, M, E>)

  function Swap<A, B>(p: (A, B)): (B, A) { (p.1, p.0) }

  function Transform<C(!new), M, E(!new)>(env: Env<C, E>, a: Op<C, M, E>, b: Op<C, M, E>): Ops<C, M, E> {
    match (a, b)
    case (NoOp, _) => (a, b)
    case (_, NoOp) => (a, b)
    case (AddFile(_, _), AddFile(_, _)) => if a.path == b.path then (NoOp, b) else (a, b)
    case (AddFile(_, _), MoveFile(_, _)) => AddMove(a, b)
    case (AddFile(_, _), EditFile(_, _)) => AddEdit(a, b)
    case (AddFile(_, _), SetFileMetadata(_, _)) => AddSet(a, b)
    case (MoveFile(_, _), AddFile(_, _)) => Swap(AddMove(b, a))
    case (MoveFile(_, _), MoveFile(_, _)) => MoveMove(a, b)
    case (MoveFile(_, _), EditFile(_, _)) => MoveEdit(a, b)
    case (MoveFile(_, _), SetFileMetadata(_, _)) => MoveSet(a, b)
    case (EditFile(_, _), AddFile(_, _)) => Swap(AddEdit(b, a))
    case (EditFile(_, _), MoveFile(_, _)) => Swap(MoveEdit(b, a))
    case (EditFile(_, _), EditFile(_, _)) => EditEdit(env, a, b)
    case (EditFile(_, _), SetFileMetadata(_, _)) => (a, b)
    case (SetFileMetadata(_, _), AddFile(_, _)) => Swap(AddSet(b, a))
    case (SetFileMetadata(_, _), MoveFile(_, _)) => Swap(MoveSet(b, a))
    case (SetFileMetadata(_, _), EditFile(_, _)) => (a, b)
    case (SetFileMetadata(_, _), SetFileMetadata(_, _)) => if a.path == b.path then (NoOp, b) else (a, b)
  }

  function AddMove<C, M, E>(add: Op<C, M, E>, move: Op<C, M, E>): Ops<C, M, E>
    requires add.AddFile? && move.MoveFile?
  {
    if add.path == move.path then
      if move.newPath == "" then (add, NoOp)
      else (AddFile(move.newPath, add.file), MoveFile(add.path, move.newPath))
    else if add.path == move.newPath then (AddFile(move.newPath, add.file), MoveFile(move.path, ""))
    else (add, move)
  }

  function AddEdit<C, M, E>(add: Op<C, M, E>, edit: Op<C, M, E>): Ops<C, M, E>
    requires add.AddFile? && edit.EditFile?
  {
    if add.path == edit.path then (add, NoOp) else (add, edit)
  }

  function AddSet<C, M, E>(add: Op<C, M, E>, change: Op<C, M, E>): Ops<C, M, E>
    requires add.AddFile? && change.SetFileMetadata?
  {
    if add.path == change.path then (AddFile(add.path, add.file.(metadata := change.metadata)), change) else (add, change)
  }

  function MoveMove<C, M, E>(m1: Op<C, M, E>, m2: Op<C, M, E>): Ops<C, M, E>
    requires m1.MoveFile? && m2.MoveFile?
  {
    var path1, path2, newPath1, newPath2 := m1.path, m2.path, m1.newPath, m2.newPath;
    if path1 == path2 && newPath1 == newPath2 then (NoOp, NoOp)
    else if path1 == newPath1 && path2 == newPath2 then (NoOp, NoOp)
    else if path1 == newPath1 then (NoOp, m2)
    else if path2 == newPath2 then (m1, NoOp)
    else if path1 == newPath2 && path2 == newPath1 then (MoveFile(path1, ""), MoveFile(path2, ""))
    else if path1 == path2 then (NoOp, MoveFile(newPath1, newPath2))
    else if newPath1 == newPath2 then (MoveFile(path1, ""), m2)
    else if path1 == newPath2 then (MoveFile(newPath2, newPath1), MoveFile(path2, newPath1))
    else if newPath1 == path2 then (MoveFile(path1, newPath2), MoveFile(newPath1, newPath2))
    else (m1, m2)
  }

  function MoveEdit<C, M, E>(move: Op<C, M, E>, edit: Op<C, M, E>): Ops<C, M, E>
    requires move.MoveFile? && edit.EditFile?
  {
    if move.path == edit.path then
      if move.newPath == "" then (move, NoOp) else (move, EditFile(move.newPath, edit.edit))
    else if move.newPath == edit.path then (move, NoOp)
    else (move, edit)
  }

  function MoveSet<C, M, E>(move: Op<C, M, E>, change: Op<C, M, E>): Ops<C, M, E>
    requires move.MoveFile? && change.SetFileMetadata?
  {
    if move.path == change.path then (move, SetFileMetadata(move.newPath, change.metadata))
    else if move.newPath == change.path then (move, NoOp)
    else (move, change)
  }

  function EditEdit<C(!new), M, E(!new)>(env: Env<C, E>, a: Op<C, M, E>, b: Op<C, M, E>): Ops<C, M, E>
    requires a.EditFile? && b.EditFile?
  {
    if a.path == b.path then
      var r := env.edits.transform(a.edit, b.edit);
      (EditFile(a.path, r.0), EditFile(b.path, r.1))
    else (a, b)
  }

  // ----- when the law fails -----

  /**
    Two different real moves of one file, the first of which removes it or puts it
    where another file is.
  */
  ghost predicate Diverge<C, M, E>(s: Project<C, M>, a: Op<C, M, E>, b: Op<C, M, E>) {
    && a.MoveFile? && b.MoveFile? && a.path == b.path
    && a.newPath != b.newPath && a.path != a.newPath && b.path != b.newPath
    && (a.newPath == "" || a.newPath in s)
  }

  ghost predicate Law<C(!new), M, E(!new)>(env: Env<C, E>, s: Project<C, M>, a: Op<C, M, E>, b: Op<C, M, E>) {
    var r := Transform(env, a, b);
    Both(env, s, a, r.1) == Both(env, s, b, r.0)
  }

  ghost function Outcome<C(!new), M, E(!new)>(env: Env<C, E>, s: Project<C, M>, a: Op<C, M, E>, b: Op<C, M, E>): Option<Project<C, M>> {
    Both(env, s, a, Transform(env, a, b).1)
  }

  /** The operation gives a file this pathname. */
  function Target<C, M, E>(op: Op<C, M, E>): Option<string> {
    match op
    case AddFile(p, _) => Some(p)
    case MoveFile(p, q) => if p != q && q != "" then Some(q) else None
    case _ => None
  }

  /** The other operation takes a file away from this pathname, or puts another in its place. */
  predicate Meets<C, M, E>(a: Op<C, M, E>, b: Op<C, M, E>) {
    a.MoveFile? && ((b.MoveFile? && a.path == b.path) || Target(b) == Some(a.path))
  }

  /** Neither pathname conflicts with what was there, but one is a directory of the other. */
  ghost predicate Throws<C, M, E>(a: Op<C, M, E>, b: Op<C, M, E>) {
    Target(a).Some? && Target(b).Some? && Clash(Target(a).value, Target(b).value) && !Meets(a, b) && !Meets(b, a)
  }

  // ----- conflicts between pathnames -----

  ghost predicate Clash(p: string, q: string) { PathPrefix(p, q) || PathPrefix(q, p) }

  ghost predicate ClashIn(paths: set<string>, p: string) { exists q :: q in paths && Clash(p, q) }

  lemma AddApplies<C(!new), M, E(!new)>(env: Env<C, E>, s: Project<C, M>, p: string, file: FileValue<C, M>)
    requires GoodPathname(env.clean, p)
    ensures Apply(env, s, Op.AddFile(p, file)) == if ClashIn(s.Keys, p) then None else Some(s[p := file])
  {
    assert WouldConflict(s.Keys, p, None) <==> ClashIn(s.Keys, p);
  }

  lemma MoveApplies<C(!new), M, E(!new)>(env: Env<C, E>, s: Project<C, M>, p: string, q: string)
    requires p != q && GoodPathname(env.clean, p) && GoodPathname(env.clean, q)
    ensures Apply(env, s, Op.MoveFile(p, q)) ==
      if ClashIn(s.Keys - {p}, q) then None else if p in s then Some((s - {p})[q := s[p]]) else Some(s)
  {
    var rest := s.Keys - {p};
    if ClashIn(rest, q) {
      var r :| r in rest && Clash(q, r);
      assert r in s.Keys && Some(r) != Some(p);
    }
    if WouldConflict(s.Keys, q, Some(p)) {
      var r :| r in s.Keys && Some(r) != Some(p) && (PathPrefix(q, r) || PathPrefix(r, q));
      assert r in rest && Clash(q, r);
    }
  }

  lemma RemoveApplies<C(!new), M, E(!new)>(env: Env<C, E>, s: Project<C, M>, p: string)
    requires GoodPathname(env.clean, p)
    ensures Apply(env, s, Op.MoveFile(p, "")) == Some(s - {p})
  {
    assert p !in s ==> s - {p} == s;
  }

  /** What a real move that throws nothing has found. */
  ghost predicate Fits<C(!new), M, E(!new)>(env: Env<C, E>, s: Project<C, M>, p: string, q: string) {
    && p != q && p in s && GoodPathname(env.clean, p)
    && (q != "" ==> GoodPathname(env.clean, q) && !ClashIn(s.Keys - {p}, q))
  }

  ghost function Moved<C, M>(s: Project<C, M>, p: string, q: string): Project<C, M>
    requires p in s
  {
    if q == "" then s - {p} else (s - {p})[q := s[p]]
  }

  lemma FitMoves<C(!new), M, E(!new)>(env: Env<C, E>, s: Project<C, M>, p: string, q: string)
    requires Fits(env, s, p, q)
    ensures Apply(env, s, Op.MoveFile(p, q)) == Some(Moved(s, p, q))
  {
    if q == "" { RemoveApplies<C, M, E>(env, s, p); } else { MoveApplies<C, M, E>(env, s, p, q); }
  }

  // ----- what two operations come to -----

  ghost function MoveOn<C, M>(s: Project<C, M>, p: string, q: string): Project<C, M> {
    if p == q || p !in s then s else Moved(s, p, q)
  }

  ghost function EditOn<C(!new), M, E(!new)>(env: Env<C, E>, s: Project<C, M>, p: string, e: E): Project<C, M> {
    if p in s then s[p := s[p].(content := env.edits.apply(s[p].content, e))] else s
  }

  ghost function SetOn<C, M>(s: Project<C, M>, p: string, meta: M): Project<C, M> {
    if p in s then s[p := s[p].(metadata := meta)] else s
  }

  /** An added file goes along with a move of the file it replaces, outlives its removal, and beats one moved onto it. */
  ghost function AddedAndMoved<C, M>(s: Project<C, M>, p: string, f: FileValue<C, M>, m: string, n: string): Project<C, M> {
    if p == m != n then (if n == "" then s[p := f] else (s - {p})[n := f]) else MoveOn(s, m, n)[p := f]
  }

  /**
    One file ends where the second move puts it, if that is a move at all. Files
    that swap places are both gone. A file moved to where the other one is moved
    away from goes on along with it, and onto one place the second one wins.
  */
  ghost function MovedTwice<C, M>(s: Project<C, M>, p: string, m: string, q: string, n: string): Project<C, M> {
    if p == q then MoveOn(s, p, if q == n then m else n)
    else if p == n && m == q then s - {p, q}
    else if p == n then MoveOn(MoveOn(s, q, n), p, m)
    else MoveOn(MoveOn(s, p, m), q, n)
  }

  function Rank<C, M, E>(op: Op<C, M, E>): nat {
    match op
    case AddFile(_, _) => 0
    case MoveFile(_, _) => 1
    case EditFile(_, _) => 2
    case SetFileMetadata(_, _) => 3
    case NoOp => 4
  }

  /**
    The project that two operations come to, said without transforming either: of
    two added files and two settings of metadata the second counts, an added file
    beats an edit and takes metadata on, and edits and metadata move with a file.
  */
  ghost function Merged<C(!new), M, E(!new)>(env: Env<C, E>, s: Project<C, M>, a: Op<C, M, E>, b: Op<C, M, E>): Project<C, M>
    decreases Rank(a)
  {
    if Rank(b) < Rank(a) then Merged(env, s, b, a)
    else match (a, b)
    case (AddFile(p, f), AddFile(q, g)) => s[p := f][q := g]
    case (AddFile(p, f), MoveFile(m, n)) => AddedAndMoved(s, p, f, m, n)
    case (AddFile(p, f), EditFile(q, e)) => EditOn(env, s, q, e)[p := f]
    case (AddFile(p, f), SetFileMetadata(q, meta)) => SetOn(s, q, meta)[p := if p == q then f.(metadata := meta) else f]
    case (MoveFile(p, m), MoveFile(q, n)) => MovedTwice(s, p, m, q, n)
    case (MoveFile(p, m), EditFile(q, e)) => MoveOn(EditOn(env, s, q, e), p, m)
    case (MoveFile(p, m), SetFileMetadata(q, meta)) => MoveOn(SetOn(s, q, meta), p, m)
    case (EditFile(p, e), EditFile(q, g)) =>
      if p == q then EditOn(env, EditOn(env, s, p, e), p, env.edits.transform(e, g).1)
      else EditOn(env, EditOn(env, s, p, e), q, g)
    case (EditFile(p, e), SetFileMetadata(q, meta)) => SetOn(EditOn(env, s, p, e), q, meta)
    case (SetFileMetadata(p, m1), SetFileMetadata(q, m2)) => SetOn(SetOn(s, p, m1), q, m2)
    case (AddFile(p, f), NoOp) => s[p := f]
    case (MoveFile(p, m), NoOp) => MoveOn(s, p, m)
    case (EditFile(p, e), NoOp) => EditOn(env, s, p, e)
    case (SetFileMetadata(p, meta), NoOp) => SetOn(s, p, meta)
    case _ => s
  }

  // ----- one lemma per pair of kinds -----

  lemma AddAddLaw<C(!new), M, E(!new)>(env: Env<C, E>, s: Project<C, M>, p: string, f: FileValue<C, M>, q: string, g: FileValue<C, M>)
    requires Strict(env, s, Op.AddFile(p, f)) && Strict(env, s, Op.AddFile(q, g))
    ensures Law(env, s, Op.AddFile(p, f), Op.AddFile(q, g))
    ensures Outcome(env, s, Op.AddFile(p, f), Op.AddFile(q, g)) == if Clash(p, q) then None else Some(s[p := f][q := g])
    ensures p == q ==> Outcome(env, s, Op.AddFile(p, f), Op.AddFile(q, g)) == Some(s[p := g])
  {
    AddApplies<C, M, E>(env, s, p, f);
    AddApplies<C, M, E>(env, s, q, g);
    if p != q {
      AddApplies<C, M, E>(env, s[p := f], q, g);
      AddApplies<C, M, E>(env, s[q := g], p, f);
      assert s[p := f].Keys == s.Keys + {p} && s[q := g].Keys == s.Keys + {q};
      assert s[p := f][q := g] == s[q := g][p := f];
    } else {
      AddApplies<C, M, E>(env, s[p := f], q, g);
      assert s[p := f].Keys == s.Keys + {p};
      assert s[p := f][p := g] == s[p := g];
    }
  }

  /** The add is of the very file that moves: it goes along. */
  lemma AddMoveSameLaw<C(!new), M, E(!new)>(env: Env<C, E>, s: Project<C, M>, p: string, f: FileValue<C, M>, q: string)
    requires Strict(env, s, Op.AddFile(p, f)) && Fits(env, s, p, q)
    ensures Law(env, s, Op.AddFile(p, f), Op.MoveFile(p, q))
    ensures Outcome(env, s, Op.AddFile(p, f), Op.MoveFile(p, q)) ==
      Some(if q == "" then s[p := f] else (s - {p})[q := f])
  {
    AddApplies<C, M, E>(env, s, p, f);
    FitMoves<C, M, E>(env, s, p, q);
    var added := s[p := f];
    assert added.Keys == s.Keys;
    if q == "" {
      AddApplies<C, M, E>(env, s - {p}, p, f);
      assert (s - {p})[p := f] == added;
    } else {
      FitMoves<C, M, E>(env, added, p, q);
      var moved := Moved(s, p, q);
      assert moved.Keys == s.Keys - {p} + {q};
      AddApplies<C, M, E>(env, moved, q, f);
      assert Moved(added, p, q) == moved[q := f] == (s - {p})[q := f];
    }
  }

  /** The file moves onto the added one: the added one wins. */
  lemma AddMoveOntoLaw<C(!new), M, E(!new)>(env: Env<C, E>, s: Project<C, M>, p: string, f: FileValue<C, M>, m: string)
    requires Strict(env, s, Op.AddFile(p, f)) && Fits(env, s, m, p) && p != ""
    ensures Law(env, s, Op.AddFile(p, f), Op.MoveFile(m, p))
    ensures Outcome(env, s, Op.AddFile(p, f), Op.MoveFile(m, p)) == Some((s - {m})[p := f])
  {
    AddApplies<C, M, E>(env, s, p, f);
    FitMoves<C, M, E>(env, s, m, p);
    RemoveApplies<C, M, E>(env, s[p := f], m);
    var moved := Moved(s, m, p);
    assert moved.Keys == s.Keys - {m} + {p};
    AddApplies<C, M, E>(env, moved, p, f);
    assert s[p := f] - {m} == moved[p := f] == (s - {m})[p := f];
  }

  lemma AddRemoveApartLaw<C(!new), M, E(!new)>(env: Env<C, E>, s: Project<C, M>, p: string, f: FileValue<C, M>, m: string)
    requires Strict(env, s, Op.AddFile(p, f)) && Fits(env, s, m, "") && p != m
    ensures Law(env, s, Op.AddFile(p, f), Op.MoveFile(m, ""))
    ensures Outcome(env, s, Op.AddFile(p, f), Op.MoveFile(m, "")) == Some((s - {m})[p := f])
  {
    AddApplies<C, M, E>(env, s, p, f);
    FitMoves<C, M, E>(env, s, m, "");
    var added, moved := s[p := f], Moved(s, m, "");
    assert added.Keys == s.Keys + {p} && moved.Keys == s.Keys - {m};
    AddApplies<C, M, E>(env, moved, p, f);
    RemoveApplies<C, M, E>(env, added, m);
    assert added - {m} == moved[p := f];
  }

  lemma AddRenameApartLaw<C(!new), M, E(!new)>(env: Env<C, E>, s: Project<C, M>, p: string, f: FileValue<C, M>, m: string,
                                               n: string)
    requires Strict(env, s, Op.AddFile(p, f)) && Fits(env, s, m, n) && p != m && p != n && n != ""
    ensures Law(env, s, Op.AddFile(p, f), Op.MoveFile(m, n))
    ensures Outcome(env, s, Op.AddFile(p, f), Op.MoveFile(m, n)) ==
      if Clash(p, n) then None else Some((s - {m})[n := s[m]][p := f])
  {
    AddApplies<C, M, E>(env, s, p, f);
    FitMoves<C, M, E>(env, s, m, n);
    var added, moved := s[p := f], Moved(s, m, n);
    assert added.Keys == s.Keys + {p} && moved.Keys == s.Keys - {m} + {n};
    assert added.Keys - {m} == s.Keys - {m} + {p};
    AddApplies<C, M, E>(env, moved, p, f);
    MoveApplies<C, M, E>(env, added, m, n);
    assert Moved(added, m, n) == moved[p := f];
  }

  lemma AddMoveApartLaw<C(!new), M, E(!new)>(env: Env<C, E>, s: Project<C, M>, p: string, f: FileValue<C, M>, m: string, n: string)
    requires Strict(env, s, Op.AddFile(p, f)) && Fits(env, s, m, n) && p != m && p != n
    ensures Law(env, s, Op.AddFile(p, f), Op.MoveFile(m, n))
    ensures Outcome(env, s, Op.AddFile(p, f), Op.MoveFile(m, n)) ==
      if n != "" && Clash(p, n) then None else Some(Moved(s, m, n)[p := f])
  {
    if n == "" {
      AddRemoveApartLaw<C, M, E>(env, s, p, f, m);
    } else {
      AddRenameApartLaw<C, M, E>(env, s, p, f, m, n);
    }
  }

  lemma AddMoveSelfLaw<C(!new), M, E(!new)>(env: Env<C, E>, s: Project<C, M>, p: string, f: FileValue<C, M>, m: string)
    requires Strict(env, s, Op.AddFile(p, f))
    ensures Law(env, s, Op.AddFile(p, f), Op.MoveFile(m, m))
    ensures Outcome(env, s, Op.AddFile(p, f), Op.MoveFile(m, m)) == Some(s[p := f])
  {
    AddApplies<C, M, E>(env, s, p, f);
  }

  lemma AddMoveLaw<C(!new), M, E(!new)>(env: Env<C, E>, s: Project<C, M>, p: string, f: FileValue<C, M>, m: string, n: string)
    requires Strict(env, s, Op.AddFile(p, f)) && Strict(env, s, Op.MoveFile(m, n))
    ensures Law(env, s, Op.AddFile(p, f), Op.MoveFile(m, n))
    ensures Outcome(env, s, Op.AddFile(p, f), Op.MoveFile(m, n)) ==
      if Throws(Op<C, M, E>.AddFile(p, f), Op<C, M, E>.MoveFile(m, n)) then None else Some(AddedAndMoved(s, p, f, m, n))
  {
    if m == n {
      AddMoveSelfLaw<C, M, E>(env, s, p, f, m);
    } else {
      if p == m {
        AddMoveSameLaw<C, M, E>(env, s, p, f, n);
      } else if p == n {
        AddMoveOntoLaw<C, M, E>(env, s, p, f, m);
      } else {
        AddMoveApartLaw<C, M, E>(env, s, p, f, m, n);
      }
    }
  }

  lemma AddEditLaw<C(!new), M, E(!new)>(env: Env<C, E>, s: Project<C, M>, p: string, f: FileValue<C, M>, q: string, e: E)
    requires Strict(env, s, Op.AddFile(p, f)) && Strict(env, s, Op.EditFile(q, e))
    ensures Law(env, s, Op.AddFile(p, f), Op.EditFile(q, e))
    ensures Outcome(env, s, Op.AddFile(p, f), Op.EditFile(q, e)) == Some(EditOn(env, s, q, e)[p := f])
  {
    AddApplies<C, M, E>(env, s, p, f);
    var edited := s[q := s[q].(content := env.edits.apply(s[q].content, e))];
    assert edited.Keys == s.Keys;
    AddApplies<C, M, E>(env, edited, p, f);
    if p == q {
      assert edited[p := f] == s[p := f];
    } else {
      assert edited[p := f] == s[p := f][q := edited[q]];
    }
  }

  lemma AddSetLaw<C(!new), M, E(!new)>(env: Env<C, E>, s: Project<C, M>, p: string, f: FileValue<C, M>, q: string, meta: M)
    requires Strict(env, s, Op.AddFile(p, f))
    ensures Law(env, s, Op.AddFile(p, f), Op.SetFileMetadata(q, meta))
    ensures Outcome(env, s, Op.AddFile(p, f), Op.SetFileMetadata(q, meta)) ==
      Some(SetOn(s, q, meta)[p := if p == q then f.(metadata := meta) else f])
  {
    AddApplies<C, M, E>(env, s, p, f);
    var changed := if q in s then s[q := s[q].(metadata := meta)] else s;
    assert changed.Keys == s.Keys;
    if p == q {
      AddApplies<C, M, E>(env, changed, p, f.(metadata := meta));
      assert changed[p := f.(metadata := meta)] == s[p := f][p := f.(metadata := meta)];
    } else {
      AddApplies<C, M, E>(env, changed, p, f);
      assert q in s ==> changed[p := f] == s[p := f][q := changed[q]];
    }
  }

  lemma MoveEditLaw<C(!new), M, E(!new)>(env: Env<C, E>, s: Project<C, M>, p: string, n: string, q: string, e: E)
    requires "" !in s && Strict(env, s, Op.MoveFile(p, n)) && Strict(env, s, Op.EditFile(q, e))
    ensures Law(env, s, Op.MoveFile(p, n), Op.EditFile(q, e))
    ensures Outcome(env, s, Op.MoveFile(p, n), Op.EditFile(q, e)) == Some(MoveOn(EditOn(env, s, q, e), p, n))
  {
    var edited := s[q := s[q].(content := env.edits.apply(s[q].content, e))];
    if p != n {
      FitMoves<C, M, E>(env, s, p, n);
      assert edited.Keys == s.Keys;
      FitMoves<C, M, E>(env, edited, p, n);
      var moved := Moved(s, p, n);
      if p == q {
        assert n != "" ==> Moved(edited, p, n) == moved[n := edited[q]];
        assert n == "" ==> Moved(edited, p, n) == moved;
      } else if n == q {
        assert Moved(edited, p, n) == moved;
      } else {
        assert Moved(edited, p, n) == moved[q := edited[q]];
      }
    }
  }

  lemma MoveSetLaw<C(!new), M, E(!new)>(env: Env<C, E>, s: Project<C, M>, p: string, n: string, q: string, meta: M)
    requires "" !in s && Strict(env, s, Op.MoveFile(p, n))
    ensures Law(env, s, Op.MoveFile(p, n), Op.SetFileMetadata(q, meta))
    ensures Outcome(env, s, Op.MoveFile(p, n), Op.SetFileMetadata(q, meta)) == Some(MoveOn(SetOn(s, q, meta), p, n))
  {
    var changed := if q in s then s[q := s[q].(metadata := meta)] else s;
    if p != n {
      FitMoves<C, M, E>(env, s, p, n);
      assert changed.Keys == s.Keys;
      FitMoves<C, M, E>(env, changed, p, n);
      var moved := Moved(s, p, n);
      if p == q {
        assert n != "" ==> Moved(changed, p, n) == moved[n := changed[q]];
        assert n == "" ==> Moved(changed, p, n) == moved && n !in moved;
      } else if n == q {
        assert Moved(changed, p, n) == moved;
      } else {
        assert q in s ==> Moved(changed, p, n) == moved[q := changed[q]];
        assert q !in s ==> q !in moved;
      }
    }
  }

  lemma EditEditLaw<C(!new), M, E(!new)>(env: Env<C, E>, s: Project<C, M>, p: string, e: E, q: string, g: E)
    requires Diamond(env.edits) && Strict(env, s, Op.EditFile(p, e)) && Strict(env, s, Op.EditFile(q, g))
    ensures Law(env, s, Op.EditFile(p, e), Op.EditFile(q, g))
    ensures Outcome(env, s, Op.EditFile(p, e), Op.EditFile(q, g)) ==
      Some(EditOn(env, EditOn(env, s, p, e), q, if p == q then env.edits.transform(e, g).1 else g))
  {
    var x := s[p := s[p].(content := env.edits.apply(s[p].content, e))];
    var y := s[q := s[q].(content := env.edits.apply(s[q].content, g))];
    if p == q {
      var r := env.edits.transform(e, g);
      assert DiamondAt(env.edits, s[p].content, e, g);
      var after := env.edits.apply(x[p].content, r.1);
      assert x[p := x[p].(content := after)] == y[p := y[p].(content := after)];
    } else {
      assert x[q := y[q]] == y[p := x[p]];
    }
  }

  lemma EditSetLaw<C(!new), M, E(!new)>(env: Env<C, E>, s: Project<C, M>, p: string, e: E, q: string, meta: M)
    requires Strict(env, s, Op.EditFile(p, e))
    ensures Law(env, s, Op.EditFile(p, e), Op.SetFileMetadata(q, meta))
    ensures Outcome(env, s, Op.EditFile(p, e), Op.SetFileMetadata(q, meta)) == Some(SetOn(EditOn(env, s, p, e), q, meta))
  {
    var x := s[p := s[p].(content := env.edits.apply(s[p].content, e))];
    var y := if q in s then s[q := s[q].(metadata := meta)] else s;
    if p == q {
      assert x[p := x[p].(metadata := meta)] == y[p := y[p].(content := x[p].content)];
    } else {
      assert q in s ==> x[q := y[q]] == y[p := x[p]];
    }
  }

  lemma SetSetLaw<C(!new), M, E(!new)>(env: Env<C, E>, s: Project<C, M>, p: string, m1: M, q: string, m2: M)
    ensures Law(env, s, Op.SetFileMetadata(p, m1), Op.SetFileMetadata(q, m2))
    ensures Outcome(env, s, Op.SetFileMetadata(p, m1), Op.SetFileMetadata(q, m2)) == Some(SetOn(SetOn(s, p, m1), q, m2))
  {
    var x := if p in s then s[p := s[p].(metadata := m1)] else s;
    var y := if q in s then s[q := s[q].(metadata := m2)] else s;
    if p == q {
      assert p in s ==> x[p := x[p].(metadata := m2)] == y;
    } else {
      assert p in s && q in s ==> x[q := y[q]] == y[p := x[p]];
    }
  }

  // ----- two moves -----

  /** Opposite moves: both files go. */
  lemma OppositeLaw<C(!new), M, E(!new)>(env: Env<C, E>, s: Project<C, M>, p: string, q: string)
    requires Fits(env, s, p, q) && Fits(env, s, q, p)
    ensures Law<C, M, E>(env, s, Op.MoveFile(p, q), Op.MoveFile(q, p))
    ensures Outcome<C, M, E>(env, s, Op.MoveFile(p, q), Op.MoveFile(q, p)) == Some(s - {p, q})
  {
    FitMoves<C, M, E>(env, s, p, q);
    FitMoves<C, M, E>(env, s, q, p);
    RemoveApplies<C, M, E>(env, Moved(s, p, q), q);
    RemoveApplies<C, M, E>(env, Moved(s, q, p), p);
    assert Moved(s, p, q) - {q} == Moved(s, q, p) - {p} == s - {p, q};
  }

  /** Onto the same place, or both removed: the second one wins. */
  lemma ConvergentLaw<C(!new), M, E(!new)>(env: Env<C, E>, s: Project<C, M>, p: string, q: string, n: string)
    requires Fits(env, s, p, n) && Fits(env, s, q, n) && p != q
    ensures Law<C, M, E>(env, s, Op.MoveFile(p, n), Op.MoveFile(q, n))
    ensures Outcome<C, M, E>(env, s, Op.MoveFile(p, n), Op.MoveFile(q, n)) ==
      Some(if n == "" then s - {p, q} else (s - {p, q})[n := s[q]])
  {
    FitMoves<C, M, E>(env, s, p, n);
    FitMoves<C, M, E>(env, s, q, n);
    var one, two := Moved(s, p, n), Moved(s, q, n);
    RemoveApplies<C, M, E>(env, two, p);
    assert n != "" ==> one.Keys - {q} == s.Keys - {p, q} + {n};
    FitMoves<C, M, E>(env, one, q, n);
    assert Moved(one, q, n) == two - {p} == if n == "" then s - {p, q} else (s - {p, q})[n := s[q]];
  }

  /** The second file moves to where the first one was: it follows the first. */
  lemma FollowLaw<C(!new), M, E(!new)>(env: Env<C, E>, s: Project<C, M>, foo: string, baz: string, bar: string)
    requires Fits(env, s, foo, baz) && Fits(env, s, bar, foo) && baz != bar
    ensures Law<C, M, E>(env, s, Op.MoveFile(foo, baz), Op.MoveFile(bar, foo))
    ensures Outcome<C, M, E>(env, s, Op.MoveFile(foo, baz), Op.MoveFile(bar, foo)) ==
      Some(if baz == "" then s - {foo, bar} else (s - {foo, bar})[baz := s[bar]])
  {
    FitMoves<C, M, E>(env, s, foo, baz);
    FitMoves<C, M, E>(env, s, bar, foo);
    var one, two := Moved(s, foo, baz), Moved(s, bar, foo);
    if baz == "" {
      RemoveApplies<C, M, E>(env, one, bar);
      RemoveApplies<C, M, E>(env, two, foo);
      assert one - {bar} == two - {foo} == s - {foo, bar};
    } else {
      FitMoves<C, M, E>(env, one, bar, baz);
      assert two.Keys - {foo} == s.Keys - {bar} - {foo};
      FitMoves<C, M, E>(env, two, foo, baz);
      assert Moved(one, bar, baz) == Moved(two, foo, baz) == (s - {foo, bar})[baz := s[bar]];
    }
  }

  /** The first file moves to where the second one was: it follows the second. */
  lemma LeadLaw<C(!new), M, E(!new)>(env: Env<C, E>, s: Project<C, M>, foo: string, bar: string, baz: string)
    requires Fits(env, s, foo, bar) && Fits(env, s, bar, baz) && foo != baz
    ensures Law<C, M, E>(env, s, Op.MoveFile(foo, bar), Op.MoveFile(bar, baz))
    ensures Outcome<C, M, E>(env, s, Op.MoveFile(foo, bar), Op.MoveFile(bar, baz)) ==
      Some(if baz == "" then s - {foo, bar} else (s - {foo, bar})[baz := s[foo]])
  {
    FitMoves<C, M, E>(env, s, foo, bar);
    FitMoves<C, M, E>(env, s, bar, baz);
    var one, two := Moved(s, foo, bar), Moved(s, bar, baz);
    if baz == "" {
      RemoveApplies<C, M, E>(env, one, bar);
      RemoveApplies<C, M, E>(env, two, foo);
      assert one - {bar} == two - {foo} == s - {foo, bar};
    } else {
      FitMoves<C, M, E>(env, two, foo, baz);
      assert one.Keys - {bar} == s.Keys - {foo} - {bar};
      FitMoves<C, M, E>(env, one, bar, baz);
      assert Moved(one, bar, baz) == Moved(two, foo, baz) == (s - {foo, bar})[baz := s[foo]];
    }
  }

  /** Four different places: the moves do not meet, or both orders run into the same conflict. */
  lemma NoConflictLaw<C(!new), M, E(!new)>(env: Env<C, E>, s: Project<C, M>, p: string, m: string, q: string, n: string)
    requires Fits(env, s, p, m) && Fits(env, s, q, n) && p != q && m != n && p != n && m != q
    ensures Law<C, M, E>(env, s, Op.MoveFile(p, m), Op.MoveFile(q, n))
    ensures Outcome<C, M, E>(env, s, Op.MoveFile(p, m), Op.MoveFile(q, n)) ==
      if m != "" && n != "" && Clash(m, n) then None else Some(MoveOn(MoveOn(s, p, m), q, n))
  {
    FitMoves<C, M, E>(env, s, p, m);
    FitMoves<C, M, E>(env, s, q, n);
    var one, two := Moved(s, p, m), Moved(s, q, n);
    SecondMove<C, M, E>(env, s, p, m, q, n);
    SecondMove<C, M, E>(env, s, q, n, p, m);
    MovesCommute(s, p, m, q, n);
  }

  lemma MovesCommute<C, M>(s: Project<C, M>, p: string, m: string, q: string, n: string)
    requires p in s && q in s && p != q && p != n && m != q && (m != n || m == "")
    ensures q in Moved(s, p, m) && p in Moved(s, q, n)
    ensures Moved(Moved(s, p, m), q, n) == Moved(Moved(s, q, n), p, m)
  {
    if m == "" && n != "" {
      assert (s - {p} - {q})[n := s[q]] == ((s - {q})[n := s[q]]) - {p};
    } else if m != "" && n == "" {
      assert (s - {q} - {p})[m := s[p]] == ((s - {p})[m := s[p]]) - {q};
    }
  }

  lemma SecondMove<C(!new), M, E(!new)>(env: Env<C, E>, s: Project<C, M>, p: string, m: string, q: string, n: string)
    requires Fits(env, s, p, m) && Fits(env, s, q, n) && p != q && m != n && p != n && m != q
    ensures q in Moved(s, p, m)
    ensures Apply<C, M, E>(env, Moved(s, p, m), Op.MoveFile(q, n)) ==
      if m != "" && n != "" && Clash(m, n) then None else Some(Moved(Moved(s, p, m), q, n))
  {
    var one := Moved(s, p, m);
    if n == "" {
      RemoveApplies<C, M, E>(env, one, q);
    } else {
      MoveApplies<C, M, E>(env, one, q, n);
      if m == "" {
        assert one.Keys - {q} == s.Keys - {p} - {q};
      } else {
        assert one.Keys - {q} == s.Keys - {p} - {q} + {m};
      }
    }
  }

  /** Two places for one file: the law holds exactly if the first was a free one. */
  lemma DivergentLaw<C(!new), M, E(!new)>(env: Env<C, E>, s: Project<C, M>, p: string, m: string, n: string)
    requires Fits(env, s, p, m) && Fits(env, s, p, n) && m != n
    ensures Law<C, M, E>(env, s, Op.MoveFile(p, m), Op.MoveFile(p, n)) <==> !(m == "" || m in s)
    ensures Outcome<C, M, E>(env, s, Op.MoveFile(p, m), Op.MoveFile(p, n)) ==
      if m == "" then None else if n == "" then Some(s - {p, m}) else Some((s - {p, m})[n := s[p]])
    ensures Both<C, M, E>(env, s, Op.MoveFile(p, n), Transform(env, Op.MoveFile(p, m), Op.MoveFile(p, n)).0) == Some(Moved(s, p, n))
  {
    FitMoves<C, M, E>(env, s, p, m);
    FitMoves<C, M, E>(env, s, p, n);
    var one, two := Moved(s, p, m), Moved(s, p, n);
    if m == "" {
      assert !GoodPathname(env.clean, m);
    } else {
      if n != "" {
        assert one.Keys - {m} <= s.Keys - {p};
      }
      FitMoves<C, M, E>(env, one, m, n);
      assert Moved(one, m, n) == if n == "" then s - {p, m} else (s - {p, m})[n := s[p]];
      if m in s {
        assert m in two && m !in Moved(one, m, n);
      } else {
        assert Moved(one, m, n) == two;
      }
    }
  }

  lemma MoveMoveLaw<C(!new), M, E(!new)>(env: Env<C, E>, s: Project<C, M>, p: string, m: string, q: string, n: string)
    requires Strict(env, s, Op.MoveFile(p, m)) && Strict(env, s, Op.MoveFile(q, n)) && "" !in s
    ensures Law<C, M, E>(env, s, Op.MoveFile(p, m), Op.MoveFile(q, n))
       <==> !Diverge<C, M, E>(s, Op.MoveFile(p, m), Op.MoveFile(q, n))
    ensures !Diverge<C, M, E>(s, Op.MoveFile(p, m), Op.MoveFile(q, n)) ==>
      Outcome<C, M, E>(env, s, Op.MoveFile(p, m), Op.MoveFile(q, n)) ==
        if Throws<C, M, E>(Op.MoveFile(p, m), Op.MoveFile(q, n)) then None else Some(MovedTwice(s, p, m, q, n))
  {
    if p == m || q == n || (p == q && m == n) {
    } else {
      if p == n && q == m {
        OppositeLaw<C, M, E>(env, s, p, q);
      } else if p == q {
        DivergentLaw<C, M, E>(env, s, p, m, n);
      } else if m == n {
        ConvergentLaw<C, M, E>(env, s, p, q, n);
      } else if p == n {
        FollowLaw<C, M, E>(env, s, p, m, q);
      } else if m == q {
        LeadLaw<C, M, E>(env, s, p, m, n);
      } else {
        NoConflictLaw<C, M, E>(env, s, p, m, q, n);
      }
    }
  }

  // ----- the law -----

  /**
    For any two operations that each apply to the project, transforming satisfies
    the documented law if and only if they are not diverging moves. Both sides may
    throw, but then both do: two pathnames that were both free can conflict.
  */
  lemma TransformLaw<C(!new), M, E(!new)>(env: Env<C, E>, s: Project<C, M>, a: Op<C, M, E>, b: Op<C, M, E>)
    requires Diamond(env.edits) && "" !in s && Strict(env, s, a) && Strict(env, s, b)
    ensures Law(env, s, a, b) <==> !Diverge(s, a, b)
    ensures !Diverge(s, a, b) ==> Outcome(env, s, a, b) == if Throws(a, b) then None else Some(Merged(env, s, a, b))
  {
    match (a, b)
    case (NoOp, _) =>
    case (_, NoOp) =>
    case (AddFile(p, f), AddFile(q, g)) => AddAddLaw<C, M, E>(env, s, p, f, q, g);
    case (AddFile(p, f), MoveFile(q, n)) => AddMoveLaw<C, M, E>(env, s, p, f, q, n);
    case (AddFile(p, f), EditFile(q, e)) => AddEditLaw<C, M, E>(env, s, p, f, q, e);
    case (AddFile(p, f), SetFileMetadata(q, meta)) => AddSetLaw<C, M, E>(env, s, p, f, q, meta);
    case (MoveFile(q, n), AddFile(p, f)) => AddMoveLaw<C, M, E>(env, s, p, f, q, n);
    case (MoveFile(p, m), MoveFile(q, n)) => MoveMoveLaw<C, M, E>(env, s, p, m, q, n);
    case (MoveFile(p, m), EditFile(q, e)) => MoveEditLaw<C, M, E>(env, s, p, m, q, e);
    case (MoveFile(p, m), SetFileMetadata(q, meta)) => MoveSetLaw<C, M, E>(env, s, p, m, q, meta);
    case (EditFile(q, e), AddFile(p, f)) => AddEditLaw<C, M, E>(env, s, p, f, q, e);
    case (EditFile(q, e), MoveFile(p, m)) => MoveEditLaw<C, M, E>(env, s, p, m, q, e);
    case (EditFile(p, e), EditFile(q, g)) => EditEditLaw<C, M, E>(env, s, p, e, q, g);
    case (EditFile(p, e), SetFileMetadata(q, meta)) => EditSetLaw<C, M, E>(env, s, p, e, q, meta);
    case (SetFileMetadata(q, meta), AddFile(p, f)) => AddSetLaw<C, M, E>(env, s, p, f, q, meta);
    case (SetFileMetadata(q, meta), MoveFile(p, m)) => MoveSetLaw<C, M, E>(env, s, p, m, q, meta);
    case (SetFileMetadata(q, meta), EditFile(p, e)) => EditSetLaw<C, M, E>(env, s, p, e, q, meta);
    case (SetFileMetadata(p, m1), SetFileMetadata(q, m2)) => SetSetLaw<C, M, E>(env, s, p, m1, q, m2);
  }

  /** One writer removes a file while another moves it: the remover cannot apply what it is sent. */
  lemma RemovedThenMoved<C(!new), M, E(!new)>(env: Env<C, E>, s: Project<C, M>, p: string, n: string)
    requires Fits(env, s, p, "") && Fits(env, s, p, n) && n != ""
    ensures var a, b := Op<C, M, E>.MoveFile(p, ""), Op<C, M, E>.MoveFile(p, n);
      && Outcome(env, s, a, b) == None
      && Both(env, s, b, Transform(env, a, b).0) == Some(Moved(s, p, n))
  {
    FitMoves<C, M, E>(env, s, p, "");
    FitMoves<C, M, E>(env, s, p, n);
    assert !GoodPathname(env.clean, "");
  }

  // ----- projects whose files stay where they are -----

  ghost predicate CanInPlace<C(!new), M(!new), E(!new)>(env: Env<C, E>, s: Project<C, M>, op: Op<C, M, E>) {
    !op.AddFile? && !op.MoveFile? && Strict(env, s, op)
  }

  ghost function Applied<C(!new), M(!new), E(!new)>(env: Env<C, E>, s: Project<C, M>, op: Op<C, M, E>): Project<C, M> {
    var r := Apply(env, s, op);
    if r.Some? then r.value else s
  }

  ghost function InPlaceOps<C(!new), M(!new), E(!new)>(env: Env<C, E>): Ot<Project<C, M>, Op<C, M, E>> {
    Ot(
      (s: Project<C, M>, op: Op<C, M, E>) => CanInPlace(env, s, op),
      (s: Project<C, M>, op: Op<C, M, E>) => Applied(env, s, op),
      (a: Op<C, M, E>, b: Op<C, M, E>) => Transform(env, a, b),
      (op: Op<C, M, E>) => op.NoOp?)
  }

  /** Transformed edits and metadata changes still apply. */
  lemma InPlaceStays<C(!new), M(!new), E(!new)>(env: Env<C, E>, s: Project<C, M>, a: Op<C, M, E>, b: Op<C, M, E>)
    requires Diamond(env.edits) && CanInPlace(env, s, a) && CanInPlace(env, s, b)
    ensures CanInPlace(env, Applied(env, s, a), Transform(env, a, b).1)
    ensures CanInPlace(env, Applied(env, s, b), Transform(env, a, b).0)
  {
    if a.EditFile? && b.EditFile? && a.path == b.path {
      assert DiamondAt(env.edits, s[a.path].content, a.edit, b.edit);
    }
  }

  lemma InPlaceLaw<C(!new), M(!new), E(!new)>(env: Env<C, E>, s: Project<C, M>, a: Op<C, M, E>, b: Op<C, M, E>)
    requires Diamond(env.edits) && CanInPlace(env, s, a) && CanInPlace(env, s, b)
    ensures Law(env, s, a, b)
  {
    match (a, b)
    case (EditFile(p, e), EditFile(q, g)) => EditEditLaw<C, M, E>(env, s, p, e, q, g);
    case (EditFile(p, e), SetFileMetadata(q, meta)) => EditSetLaw<C, M, E>(env, s, p, e, q, meta);
    case (SetFileMetadata(q, meta), EditFile(p, e)) => EditSetLaw<C, M, E>(env, s, p, e, q, meta);
    case (SetFileMetadata(p, m1), SetFileMetadata(q, m2)) => SetSetLaw<C, M, E>(env, s, p, m1, q, m2);
    case _ =>
  }

  /** While no file is added, moved or removed, whole projects obey the one-step diamond. */
  lemma InPlaceDiamond<C(!new), M(!new), E(!new)>(env: Env<C, E>)
    requires Diamond(env.edits)
    ensures Diamond(InPlaceOps<C, M, E>(env))
  {
    var ot := InPlaceOps<C, M, E>(env);
    forall s: Project<C, M>, a: Op<C, M, E>, b: Op<C, M, E> | ot.can(s, a) && ot.can(s, b) ensures DiamondAt(ot, s, a, b) {
      InPlaceStays(env, s, a, b);
      InPlaceLaw(env, s, a, b);
      InPlaceApplies(env, s, a, b);
    }
  }

  lemma InPlaceApplies<C(!new), M(!new), E(!new)>(env: Env<C, E>, s: Project<C, M>, a: Op<C, M, E>, b: Op<C, M, E>)
    requires CanInPlace(env, s, a) && CanInPlace(env, s, b) && Law(env, s, a, b)
    requires CanInPlace(env, Applied(env, s, a), Transform(env, a, b).1)
    requires CanInPlace(env, Applied(env, s, b), Transform(env, a, b).0)
    ensures Applied(env, Applied(env, s, a), Transform(env, a, b).1) == Applied(env, Applied(env, s, b), Transform(env, a, b).0)
  {
  }
}
