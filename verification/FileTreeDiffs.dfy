/**
  Collapsing a window of changes into one entry per file (overleaf-editor-core:
  file_tree_diff.js), and what replaying the window does (file_map.js, and
  change.js lines 279-294).

  The fold keeps one entry per pathname. The replay knows nothing of entries: it
  moves file identities around a `FileMap`. The theorem is that the fold tells
  the story of exactly the files the replay ends up with, and of those it lost.
*/
module FileTreeDiffs {
  import opened Common
  import opened FileMaps

  datatype Op<F> =
    | AddFile(path: string, file: F)
    | EditFile(path: string)
    | MoveFile(path: string, newPath: string)
    | OtherOp

  // An operation and the index of the change it belongs to.
  datatype Event<F> = Event(changeIndex: nat, op: Op<F>)

  datatype EntryValue<F> = EntryValue(
    origin: Option<string>,
    chain: seq<string>,
    edited: bool,
    firstEdited: Option<nat>,
    file: Option<F>,
    deletedAt: Option<nat>)

  datatype Tree<F> = Tree(entries: map<string, EntryValue<F>>, removed: seq<EntryValue<F>>)

  // ----- the fold -----

  function ExistingEntry<F>(p: string): EntryValue<F> {
    EntryValue(Some(p), [p], false, None, None, None)
  }

  function AddedEntry<F>(p: string, file: F): EntryValue<F> {
    EntryValue(None, [p], false, None, Some(file), None)
  }

  predicate Live<F>(t: Tree<F>, p: string) { p in t.entries && t.entries[p].deletedAt.None? }

  /** `removeLiveEntry`: the entry stays at its pathname, marked as deleted. */
  function RemoveLive<F>(t: Tree<F>, p: string, changeIndex: nat): Tree<F> {
    if Live(t, p) then
      var gone := t.entries[p].(deletedAt := Some(changeIndex));
      Tree(t.entries[p := gone], t.removed + [gone])
    else t
  }

  function Touch<F>(e: EntryValue<F>): EntryValue<F> {
    if e.edited || e.chain == [] then e else e.(edited := true, firstEdited := Some(|e.chain| - 1))
  }

  /** One operation of the double loop. */
  function Fold1<F>(seeded: bool, t: Tree<F>, changeIndex: nat, op: Op<F>): Tree<F> {
    match op
    case AddFile(p, file) =>
      if p == "" then t
      else var u := RemoveLive(t, p, changeIndex); u.(entries := u.entries[p := AddedEntry(p, file)])
    case EditFile(p) =>
      if p == "" then t
      else if p !in t.entries then t.(entries := t.entries[p := Touch(ExistingEntry(p))])
      else if t.entries[p].deletedAt.Some? then t
      else t.(entries := t.entries[p := Touch(t.entries[p])])
    case MoveFile(p, q) =>
      if p == "" then t
      else if q == "" then
        var u := if !seeded && p !in t.entries then t.(entries := t.entries[p := ExistingEntry(p)]) else t;
        RemoveLive(u, p, changeIndex)
      else if p == q then t
      else if !Live(t, p) && (seeded || p in t.entries) then t
      else
        var e := if Live(t, p) then t.entries[p] else ExistingEntry(p);
        var u := RemoveLive(t, q, changeIndex);
        u.(entries := u.entries[q := e.(chain := e.chain + [q])] - {p})
    case OtherOp => t
  }

  function FoldAll<F>(seeded: bool, t: Tree<F>, events: seq<Event<F>>): Tree<F>
    decreases |events|
  {
    if events == [] then t
    else Fold1(seeded, FoldAll(seeded, t, Front(events)), Last(events).changeIndex, Last(events).op)
  }

  lemma FoldNext<F>(seeded: bool, t: Tree<F>, done: seq<Event<F>>, e: Event<F>)
    ensures FoldAll(seeded, t, done + [e]) == Fold1(seeded, FoldAll(seeded, t, done), e.changeIndex, e.op)
  {
    assert Front(done + [e]) == done;
  }

  function Seed<F>(initial: set<string>): Tree<F> {
    Tree(map p | p in initial :: ExistingEntry(p), [])
  }

  // ----- the replay -----

  // Which file it is: one that was there before, or the one that event `index` added.
  datatype FileId = Initial(path: string) | Added(index: nat)

  type Files = map<string, FileId>

  datatype Window<F> = Window(clean: string -> bool, initial: set<string>, events: seq<Event<F>>)

  /** One operation on the file map; None if it throws something that is not recoverable. */
  ghost function Replay1<F>(clean: string -> bool, files: Files, op: Op<F>, n: nat): Option<Files> {
    match op
    case AddFile(p, _) =>
      var r := AddTo(clean, files, p, Added(n));
      if r.Ok? then Some(r.value) else None
    case EditFile(_) => Some(files)
    case MoveFile(p, q) =>
      var r := MoveIn(clean, files, p, q);
      if r.Ok? then Some(r.value) else if r.error.FileNotFound? then Some(files) else None
    case OtherOp => Some(files)
  }

  /** The file map after n operations. */
  ghost function FilesAt<F>(w: Window<F>, n: nat): Files
    requires n <= |w.events|
  {
    if n == 0 then map p | p in w.initial :: Initial(p)
    else
      var r := Replay1(w.clean, FilesAt(w, n - 1), w.events[n - 1].op, n - 1);
      if r.Some? then r.value else FilesAt(w, n - 1)
  }

  /**
    The window starts from a snapshot's pathnames, none of which is empty; its
    replay throws only recoverable errors, and every edit names a file that is there.
  */
  ghost predicate Replayable<F>(w: Window<F>) {
    && "" !in w.initial
    && forall n :: 0 <= n < |w.events| ==> StepReplays(w, n)
  }

  ghost predicate StepReplays<F>(w: Window<F>, n: nat)
    requires n < |w.events|
  {
    && Replay1(w.clean, FilesAt(w, n), w.events[n].op, n).Some?
    && (w.events[n].op.EditFile? ==> w.events[n].op.path in FilesAt(w, n))
  }

  // ----- the story of a file, read off the replay -----

  ghost function Place(files: Files, id: FileId): Option<string> {
    if exists p :: p in files && files[p] == id then var p :| p in files && files[p] == id; Some(p) else None
  }

  /** Every pathname the file has been at, in order. */
  ghost function Trail<F>(w: Window<F>, n: nat, id: FileId): seq<string>
    requires n <= |w.events|
  {
    var now := Place(FilesAt(w, n), id);
    var before := if n == 0 then [] else Trail(w, n - 1, id);
    if now.Some? && (before == [] || Last(before) != now.value) then before + [now.value] else before
  }

  /** How many pathnames the file had been at when it was first edited, less one. */
  ghost function FirstEdit<F>(w: Window<F>, n: nat, id: FileId): Option<nat>
    requires n <= |w.events|
  {
    if n == 0 then None
    else if FirstEdit(w, n - 1, id).Some? then FirstEdit(w, n - 1, id)
    else
      var op, files := w.events[n - 1].op, FilesAt(w, n - 1);
      if op.EditFile? && op.path in files && files[op.path] == id && Trail(w, n - 1, id) != []
      then Some(|Trail(w, n - 1, id)| - 1) else None
  }

  /** The files that left the tree, in the order they left it. */
  ghost function Lost<F>(w: Window<F>, n: nat): seq<FileId>
    requires n <= |w.events|
  {
    if n == 0 then [] else Lost(w, n - 1) + LostBy(FilesAt(w, n - 1), w.events[n - 1].op)
  }

  ghost function LostBy<F>(files: Files, op: Op<F>): seq<FileId> {
    match op
    case AddFile(p, _) => if p in files then [files[p]] else []
    case MoveFile(p, q) =>
      if p in files && q == "" then [files[p]]
      else if p in files && p != q && q in files then [files[q]]
      else []
    case _ => []
  }

  ghost function OriginOf(id: FileId): Option<string> {
    match id
    case Initial(p) => Some(p)
    case Added(_) => None
  }

  ghost function ContentOf<F>(w: Window<F>, id: FileId): Option<F> {
    match id
    case Initial(_) => None
    case Added(k) => if k < |w.events| && w.events[k].op.AddFile? then Some(w.events[k].op.file) else None
  }

  /** The entry tells the story of this file up to operation n. */
  ghost predicate Describes<F>(w: Window<F>, n: nat, e: EntryValue<F>, id: FileId)
    requires n <= |w.events|
  {
    && e.chain == Trail(w, n, id) && e.chain != []
    && e.origin == OriginOf(id)
    && (e.origin.Some? ==> e.chain[0] == e.origin.value)
    && e.firstEdited == FirstEdit(w, n, id) && e.edited == e.firstEdited.Some?
    && e.file == ContentOf(w, id)
  }

  // ----- the fold agrees with the replay -----

  ghost predicate Separate(files: Files) {
    forall p, q :: p in files && q in files && files[p] == files[q] ==> p == q
  }

  ghost predicate Somewhere(files: Files, id: FileId) {
    exists p :: p in files && files[p] == id
  }

  /** Ids of files added later are not in use yet. */
  ghost predicate Fresh<F>(w: Window<F>, n: nat)
    requires n <= |w.events|
  {
    && (forall p :: p in FilesAt(w, n) ==> p != "" && (FilesAt(w, n)[p].Added? ==> FilesAt(w, n)[p].index < n))
    && (forall k :: n <= k ==> Trail(w, n, Added(k)) == [] && FirstEdit(w, n, Added(k)).None?)
  }

  ghost predicate Told<F>(w: Window<F>, n: nat, t: Tree<F>, p: string)
    requires n <= |w.events| && p in FilesAt(w, n) && p in t.entries
  {
    Describes(w, n, t.entries[p], FilesAt(w, n)[p]) && Last(t.entries[p].chain) == p
  }

  /** The live entries are those of the files that are there, and tell their stories. */
  ghost predicate LiveAgree<F>(w: Window<F>, n: nat, t: Tree<F>)
    requires n <= |w.events|
  {
    forall p :: (p in FilesAt(w, n) <==> Live(t, p)) && (p in FilesAt(w, n) ==> Told(w, n, t, p))
  }

  ghost predicate Gone<F>(w: Window<F>, n: nat, e: EntryValue<F>, id: FileId)
    requires n <= |w.events|
  {
    Describes(w, n, e, id) && e.deletedAt.Some? && !Somewhere(FilesAt(w, n), id) && (id.Added? ==> id.index < n)
  }

  /** The removed entries are those of the files that left, in order, and tell their stories. */
  ghost predicate RemovedAgree<F>(w: Window<F>, n: nat, t: Tree<F>)
    requires n <= |w.events|
  {
    && |t.removed| == |Lost(w, n)|
    && (forall i :: 0 <= i < |t.removed| ==> Gone(w, n, t.removed[i], Lost(w, n)[i]))
    && (forall i, j :: 0 <= i < j < |Lost(w, n)| ==> Lost(w, n)[i] != Lost(w, n)[j])
  }

  ghost predicate Agree<F>(w: Window<F>, n: nat, t: Tree<F>)
    requires n <= |w.events|
  {
    Separate(FilesAt(w, n)) && Fresh(w, n) && LiveAgree(w, n, t) && RemovedAgree(w, n, t)
  }

  lemma PlaceAt(files: Files, p: string)
    requires Separate(files) && p in files
    ensures Place(files, files[p]) == Some(p)
  {
  }

  ghost predicate Edits<F>(files: Files, op: Op<F>, id: FileId) {
    op.EditFile? && op.path in files && files[op.path] == id
  }

  /** A file that stays where it is, or is no longer there, and is not edited keeps its story. */
  lemma StoryKeeps<F>(w: Window<F>, n: nat, e: EntryValue<F>, id: FileId)
    requires n < |w.events| && Describes(w, n, e, id)
    requires Place(FilesAt(w, n + 1), id).None? || Place(FilesAt(w, n + 1), id) == Some(Last(e.chain))
    requires !Edits(FilesAt(w, n), w.events[n].op, id)
    ensures Describes(w, n + 1, e, id)
  {
  }

  /** A file that is nowhere keeps its story, or still has none. */
  lemma NowhereKeeps<F>(w: Window<F>, n: nat, id: FileId)
    requires n < |w.events| && !Somewhere(FilesAt(w, n), id) && !Somewhere(FilesAt(w, n + 1), id)
    ensures Trail(w, n + 1, id) == Trail(w, n, id) && FirstEdit(w, n + 1, id) == FirstEdit(w, n, id)
  {
  }

  /** In one step no file turns up but the one the step adds. */
  ghost predicate Continue(files: Files, after: Files, n: nat) {
    forall p :: p in after ==> p != "" && (after[p] == Added(n) || Somewhere(files, after[p]))
  }

  ghost predicate Continues<F>(w: Window<F>, n: nat)
    requires n < |w.events|
  {
    Continue(FilesAt(w, n), FilesAt(w, n + 1), n)
  }

  lemma FreshKeeps<F>(w: Window<F>, n: nat)
    requires n < |w.events| && Fresh(w, n) && Continues(w, n)
    ensures Fresh(w, n + 1)
  {
    forall k | n + 1 <= k ensures Trail(w, n + 1, Added(k)) == [] && FirstEdit(w, n + 1, Added(k)).None? {
      NowhereKeeps(w, n, Added(k));
    }
  }

  /** What was removed before stays removed. */
  lemma GoneKeeps<F>(w: Window<F>, n: nat, e: EntryValue<F>, id: FileId)
    requires n < |w.events| && Gone(w, n, e, id) && Continues(w, n)
    ensures Gone(w, n + 1, e, id)
  {
    NowhereKeeps(w, n, id);
  }

  /** A live file that the step loses: its entry, marked as deleted, is what is removed. */
  lemma LosesLive<F>(w: Window<F>, n: nat, t: Tree<F>, p: string, changeIndex: nat)
    requires n < |w.events| && Agree(w, n, t) && p in FilesAt(w, n) && !w.events[n].op.EditFile?
    requires !Somewhere(FilesAt(w, n + 1), FilesAt(w, n)[p])
    ensures Live(t, p) && Gone(w, n + 1, t.entries[p].(deletedAt := Some(changeIndex)), FilesAt(w, n)[p])
  {
    assert Told(w, n, t, p);
    StoryKeeps(w, n, t.entries[p], FilesAt(w, n)[p]);
  }

  /** The removed list when nothing is lost. */
  lemma NoneRemoved<F>(w: Window<F>, n: nat, t: Tree<F>, u: Tree<F>)
    requires n < |w.events| && RemovedAgree(w, n, t) && Continues(w, n)
    requires u.removed == t.removed && LostBy(FilesAt(w, n), w.events[n].op) == []
    ensures RemovedAgree(w, n + 1, u)
  {
    assert Lost(w, n + 1) == Lost(w, n) + [] == Lost(w, n);
    forall i | 0 <= i < |u.removed| ensures Gone(w, n + 1, u.removed[i], Lost(w, n)[i]) {
      GoneKeeps(w, n, t.removed[i], Lost(w, n)[i]);
    }
  }

  /** The removed list when one live file is lost. */
  lemma OneRemoved<F>(w: Window<F>, n: nat, t: Tree<F>, u: Tree<F>, e: EntryValue<F>, id: FileId)
    requires n < |w.events| && RemovedAgree(w, n, t) && Continues(w, n)
    requires u.removed == t.removed + [e] && LostBy(FilesAt(w, n), w.events[n].op) == [id]
    requires Gone(w, n + 1, e, id) && Somewhere(FilesAt(w, n), id)
    ensures RemovedAgree(w, n + 1, u)
  {
    var before := Lost(w, n);
    assert Lost(w, n + 1) == before + [id];
    forall i | 0 <= i < |before| ensures Gone(w, n + 1, u.removed[i], before[i]) && before[i] != id {
      assert Gone(w, n, t.removed[i], before[i]);
      GoneKeeps(w, n, t.removed[i], before[i]);
    }
  }

  /** Nothing happened to the file at p, nor to its entry. */
  ghost predicate Untouched<F>(files: Files, after: Files, op: Op<F>, t: Tree<F>, u: Tree<F>, p: string) {
    && p in files && p in after && files[p] == after[p]
    && p in t.entries && p in u.entries && t.entries[p] == u.entries[p]
    && !Edits(files, op, files[p])
  }

  /** All live entries but the one at `changed` are untouched. */
  ghost predicate OthersUntouched<F>(files: Files, after: Files, op: Op<F>, t: Tree<F>, u: Tree<F>, changed: string) {
    && (forall p :: p in after <==> Live(u, p))
    && (forall p :: p in after && p != changed ==> Untouched(files, after, op, t, u, p))
  }

  lemma LiveStep<F>(w: Window<F>, n: nat, t: Tree<F>, u: Tree<F>, changed: string)
    requires n < |w.events| && LiveAgree(w, n, t) && Separate(FilesAt(w, n + 1))
    requires OthersUntouched(FilesAt(w, n), FilesAt(w, n + 1), w.events[n].op, t, u, changed)
    requires changed in FilesAt(w, n + 1) ==> changed in u.entries && Told(w, n + 1, u, changed)
    ensures LiveAgree(w, n + 1, u)
  {
    hide Trail, FirstEdit, Lost, FilesAt, Describes, Told;
    forall p | p in FilesAt(w, n + 1) ensures Live(u, p) && Told(w, n + 1, u, p) {
      if p != changed {
        UntouchedStays(w, n, t, u, p);
      }
    }
  }

  lemma UntouchedStays<F>(w: Window<F>, n: nat, t: Tree<F>, u: Tree<F>, p: string)
    requires n < |w.events| && LiveAgree(w, n, t) && Separate(FilesAt(w, n + 1))
    requires Untouched(FilesAt(w, n), FilesAt(w, n + 1), w.events[n].op, t, u, p)
    ensures Told(w, n + 1, u, p)
  {
    assert Told(w, n, t, p);
    PlaceAt(FilesAt(w, n + 1), p);
    StoryKeeps(w, n, t.entries[p], FilesAt(w, n)[p]);
  }

  // ----- one lemma per operation -----

  lemma AddAgrees<F>(w: Window<F>, n: nat, t: Tree<F>)
    requires n < |w.events| && Replayable(w) && Agree(w, n, t) && w.events[n].op.AddFile?
    ensures Agree(w, n + 1, Fold1(true, t, w.events[n].changeIndex, w.events[n].op))
  {
    hide Trail, FirstEdit, Describes, Told, Gone;
    var op, ci, files := w.events[n].op, w.events[n].changeIndex, FilesAt(w, n);
    var p, u := op.path, Fold1(true, t, ci, op);
    assert StepReplays(w, n);
    assert FilesAt(w, n + 1) == files[p := Added(n)];
    AddedIdIsNew(w, n, p);
    AddedStory(w, n, p);
    AddedLive(w, n, t, u, p, ci);
    FreshKeeps(w, n);
    if p in files {
      LosesLive(w, n, t, p, ci);
      OneRemoved(w, n, t, u, t.entries[p].(deletedAt := Some(ci)), files[p]);
    } else {
      assert !Live(t, p);
      NoneRemoved(w, n, t, u);
    }
  }

  lemma AddedLive<F>(w: Window<F>, n: nat, t: Tree<F>, u: Tree<F>, p: string, ci: nat)
    requires n < |w.events| && LiveAgree(w, n, t) && w.events[n].op.AddFile? && p == w.events[n].op.path != ""
    requires u == Fold1(true, t, ci, w.events[n].op)
    requires FilesAt(w, n + 1) == FilesAt(w, n)[p := Added(n)] && Separate(FilesAt(w, n + 1))
    requires Trail(w, n + 1, Added(n)) == [p] && FirstEdit(w, n + 1, Added(n)).None?
    ensures LiveAgree(w, n + 1, u)
  {
    hide Trail, FirstEdit, Lost, FilesAt;
    var files, after := FilesAt(w, n), FilesAt(w, n + 1);
    forall q ensures (q in after <==> Live(u, q)) && (q in after && q != p ==> Untouched(files, after, w.events[n].op, t, u, q)) {
      assert q in files <==> Live(t, q);
    }
    assert Told(w, n + 1, u, p);
    LiveStep(w, n, t, u, p);
  }

  lemma AddedIdIsNew<F>(w: Window<F>, n: nat, p: string)
    requires n < |w.events| && Separate(FilesAt(w, n)) && Fresh(w, n)
    requires FilesAt(w, n + 1) == FilesAt(w, n)[p := Added(n)] && p != ""
    ensures Separate(FilesAt(w, n + 1)) && Continues(w, n)
    ensures !Somewhere(FilesAt(w, n), Added(n))
    ensures p in FilesAt(w, n) ==> !Somewhere(FilesAt(w, n + 1), FilesAt(w, n)[p])
  {
    var files, after := FilesAt(w, n), FilesAt(w, n + 1);
    forall q | q in after && q != p ensures Somewhere(files, after[q]) {
      assert files[q] == after[q];
    }
  }

  lemma AddedStory<F>(w: Window<F>, n: nat, p: string)
    requires n < |w.events| && Fresh(w, n) && w.events[n].op.AddFile?
    requires Separate(FilesAt(w, n + 1)) && p in FilesAt(w, n + 1) && FilesAt(w, n + 1)[p] == Added(n)
    ensures Trail(w, n + 1, Added(n)) == [p] && FirstEdit(w, n + 1, Added(n)).None?
  {
    PlaceAt(FilesAt(w, n + 1), p);
    assert Trail(w, n + 1, Added(n)) == [] + [p];
  }

  lemma EditAgrees<F>(w: Window<F>, n: nat, t: Tree<F>)
    requires n < |w.events| && Replayable(w) && Agree(w, n, t) && w.events[n].op.EditFile?
    ensures Agree(w, n + 1, Fold1(true, t, w.events[n].changeIndex, w.events[n].op))
  {
    var op, files := w.events[n].op, FilesAt(w, n);
    var u := Fold1(true, t, w.events[n].changeIndex, op);
    assert StepReplays(w, n);
    assert op.path in files && FilesAt(w, n + 1) == files;
    EditedLive(w, n, t, u, op.path);
    SameFilesContinue(w, n);
    FreshKeeps(w, n);
    NoneRemoved(w, n, t, u);
  }

  lemma SameFilesContinue<F>(w: Window<F>, n: nat)
    requires n < |w.events| && FilesAt(w, n + 1) == FilesAt(w, n) && Fresh(w, n)
    ensures Continues(w, n)
  {
    var files := FilesAt(w, n);
    forall q | q in files ensures Somewhere(files, files[q]) { }
  }

  /** The edited file's entry is marked at the pathname the file is at. */
  lemma EditedTold<F>(w: Window<F>, n: nat, t: Tree<F>, u: Tree<F>, p: string)
    requires n < |w.events| && Separate(FilesAt(w, n)) && FilesAt(w, n + 1) == FilesAt(w, n) && p in FilesAt(w, n)
    requires w.events[n].op == EditFile(p) && Live(t, p) && Told(w, n, t, p)
    requires p in u.entries && u.entries[p] == Touch(t.entries[p])
    ensures Told(w, n + 1, u, p)
  {
    var files := FilesAt(w, n);
    PlaceAt(files, p);
    assert Trail(w, n + 1, files[p]) == Trail(w, n, files[p]);
  }

  lemma EditedLive<F>(w: Window<F>, n: nat, t: Tree<F>, u: Tree<F>, p: string)
    requires n < |w.events| && LiveAgree(w, n, t) && Separate(FilesAt(w, n)) && Fresh(w, n)
    requires FilesAt(w, n + 1) == FilesAt(w, n) && p in FilesAt(w, n)
    requires w.events[n].op == EditFile(p)
    requires u == Fold1(true, t, w.events[n].changeIndex, w.events[n].op)
    ensures LiveAgree(w, n + 1, u) && u.removed == t.removed
  {
    var files := FilesAt(w, n);
    assert Live(t, p) && Told(w, n, t, p);
    EditedTold(w, n, t, u, p);
    hide Trail, FirstEdit, Lost, FilesAt, Describes, Told;
    forall q ensures (q in files <==> Live(u, q)) && (q in files && q != p ==> Untouched(files, files, w.events[n].op, t, u, q)) {
      assert q in files <==> Live(t, q);
    }
    LiveStep(w, n, t, u, p);
  }

  /** Operations that change nothing, on either side. */
  lemma IdleAgrees<F>(w: Window<F>, n: nat, t: Tree<F>)
    requires n < |w.events| && Agree(w, n, t) && !w.events[n].op.EditFile?
    requires FilesAt(w, n + 1) == FilesAt(w, n) && LostBy(FilesAt(w, n), w.events[n].op) == []
    ensures Agree(w, n + 1, t)
  {
    SameFilesContinue(w, n);
    FreshKeeps(w, n);
    LiveStep(w, n, t, t, "");
    NoneRemoved(w, n, t, t);
  }

  lemma RemoveAgrees<F>(w: Window<F>, n: nat, t: Tree<F>)
    requires n < |w.events| && Replayable(w) && Agree(w, n, t)
    requires w.events[n].op.MoveFile? && w.events[n].op.newPath == "" && w.events[n].op.path in FilesAt(w, n)
    ensures Agree(w, n + 1, Fold1(true, t, w.events[n].changeIndex, w.events[n].op))
  {
    hide Trail, FirstEdit, Describes, Told, Gone;
    var op, ci, files := w.events[n].op, w.events[n].changeIndex, FilesAt(w, n);
    var p, u, after := op.path, Fold1(true, t, ci, op), FilesAt(w, n + 1);
    assert StepReplays(w, n);
    assert after == files - {p};
    assert Continues(w, n) by { forall q | q in after ensures Somewhere(files, after[q]) { assert files[q] == after[q]; } }
    FreshKeeps(w, n);
    LosesLive(w, n, t, p, ci);
    RemovedLive(w, n, t, u, p);
    OneRemoved(w, n, t, u, t.entries[p].(deletedAt := Some(ci)), files[p]);
  }

  lemma RemovedLive<F>(w: Window<F>, n: nat, t: Tree<F>, u: Tree<F>, p: string)
    requires n < |w.events| && LiveAgree(w, n, t) && Separate(FilesAt(w, n)) && Fresh(w, n)
    requires w.events[n].op == MoveFile(p, "") && p in FilesAt(w, n)
    requires u == Fold1(true, t, w.events[n].changeIndex, w.events[n].op)
    requires FilesAt(w, n + 1) == FilesAt(w, n) - {p}
    ensures LiveAgree(w, n + 1, u)
  {
    hide Trail, FirstEdit, Lost, FilesAt;
    var files, after := FilesAt(w, n), FilesAt(w, n + 1);
    assert Live(t, p);
    forall r ensures (r in after <==> Live(u, r)) && (r in after ==> Untouched(files, after, w.events[n].op, t, u, r)) {
      assert r in files <==> Live(t, r);
    }
    LiveStep(w, n, t, u, "");
  }

  lemma MoveAgrees<F>(w: Window<F>, n: nat, t: Tree<F>)
    requires n < |w.events| && Replayable(w) && Agree(w, n, t)
    requires w.events[n].op.MoveFile? && w.events[n].op.newPath != "" && w.events[n].op.path in FilesAt(w, n)
    requires w.events[n].op.path != w.events[n].op.newPath
    ensures Agree(w, n + 1, Fold1(true, t, w.events[n].changeIndex, w.events[n].op))
  {
    hide Trail, FirstEdit, Describes, Told, Gone, LiveAgree, RemovedAgree, Fresh, Continues, Lost;
    var op, ci, files := w.events[n].op, w.events[n].changeIndex, FilesAt(w, n);
    var p, q, u, after := op.path, op.newPath, Fold1(true, t, ci, op), FilesAt(w, n + 1);
    assert StepReplays(w, n);
    assert after == (files - {p})[q := files[p]];
    MovedFiles(w, n, p, q);
    AgreeAt(w, n, t, p);
    AgreeAt(w, n, t, q);
    MovedLive(w, n, t, u, p, q);
    FreshKeeps(w, n);
    if q in files {
      LosesLive(w, n, t, q, ci);
      OneRemoved(w, n, t, u, t.entries[q].(deletedAt := Some(ci)), files[q]);
    } else {
      NoneRemoved(w, n, t, u);
    }
  }

  lemma MovedLive<F>(w: Window<F>, n: nat, t: Tree<F>, u: Tree<F>, p: string, q: string)
    requires n < |w.events| && LiveAgree(w, n, t) && Separate(FilesAt(w, n + 1))
    requires w.events[n].op == MoveFile(p, q) && p != q && q != "" && p in FilesAt(w, n)
    requires FilesAt(w, n + 1) == (FilesAt(w, n) - {p})[q := FilesAt(w, n)[p]]
    requires MovesEntry(t, u, p, q)
    ensures LiveAgree(w, n + 1, u)
  {
    hide Trail, FirstEdit, Lost, FilesAt;
    assert Live(t, p) && Told(w, n, t, p);
    MovedStory(w, n, t.entries[p], p, q);
    assert forall r :: r in FilesAt(w, n) <==> Live(t, r);
    MovedOthers(FilesAt(w, n), FilesAt(w, n + 1), t, u, p, q);
    LiveStep(w, n, t, u, q);
  }

  lemma MovedOthers<F>(files: Files, after: Files, t: Tree<F>, u: Tree<F>, p: string, q: string)
    requires p in files && p != q && after == (files - {p})[q := files[p]]
    requires Live(t, p) && MovesEntry(t, u, p, q) && forall r :: r in files <==> Live(t, r)
    ensures OthersUntouched(files, after, MoveFile(p, q), t, u, q)
  {
    forall r ensures r in after <==> Live(u, r) {
      assert r in files <==> Live(t, r);
    }
  }

  /** The entry at p goes to q with a longer chain; whatever was at q is overwritten. */
  ghost predicate MovesEntry<F>(t: Tree<F>, u: Tree<F>, p: string, q: string)
    requires p in t.entries
  {
    && u.entries.Keys == t.entries.Keys - {p} + {q}
    && u.entries[q] == t.entries[p].(chain := t.entries[p].chain + [q])
    && forall r :: r in t.entries && r != p && r != q ==> u.entries[r] == t.entries[r]
  }

  /** The moved file's trail goes on at the new pathname. */
  lemma MovedStory<F>(w: Window<F>, n: nat, e: EntryValue<F>, p: string, q: string)
    requires n < |w.events| && Separate(FilesAt(w, n + 1)) && w.events[n].op.MoveFile?
    requires p in FilesAt(w, n) && p != q && q in FilesAt(w, n + 1) && FilesAt(w, n + 1)[q] == FilesAt(w, n)[p]
    requires Describes(w, n, e, FilesAt(w, n)[p]) && Last(e.chain) == p
    ensures Describes(w, n + 1, e.(chain := e.chain + [q]), FilesAt(w, n)[p])
  {
    PlaceAt(FilesAt(w, n + 1), q);
    assert Trail(w, n + 1, FilesAt(w, n)[p]) == Trail(w, n, FilesAt(w, n)[p]) + [q];
  }

  lemma MovedFiles<F>(w: Window<F>, n: nat, p: string, q: string)
    requires n < |w.events| && Separate(FilesAt(w, n)) && Fresh(w, n)
    requires p in FilesAt(w, n) && p != q && q != ""
    requires FilesAt(w, n + 1) == (FilesAt(w, n) - {p})[q := FilesAt(w, n)[p]]
    ensures Separate(FilesAt(w, n + 1)) && Continues(w, n)
    ensures q in FilesAt(w, n) ==> !Somewhere(FilesAt(w, n + 1), FilesAt(w, n)[q])
  {
    var files, after := FilesAt(w, n), FilesAt(w, n + 1);
    forall r | r in after ensures Somewhere(files, after[r]) {
      assert files[if r == q then p else r] == after[r];
    }
  }

  lemma StepAgrees<F>(w: Window<F>, n: nat, t: Tree<F>)
    requires n < |w.events| && Replayable(w) && Agree(w, n, t)
    ensures Agree(w, n + 1, Fold1(true, t, w.events[n].changeIndex, w.events[n].op))
  {
    var op, files := w.events[n].op, FilesAt(w, n);
    assert StepReplays(w, n);
    match op {
      case AddFile(_, _) => AddAgrees(w, n, t);
      case EditFile(_) => EditAgrees(w, n, t);
      case OtherOp => IdleAgrees(w, n, t);
      case MoveFile(p, q) =>
        if p !in files || p == q {
          assert "" !in files;
          assert !Live(t, p) || p == q;
          IdleAgrees(w, n, t);
        } else if q == "" {
          RemoveAgrees(w, n, t);
        } else {
          MoveAgrees(w, n, t);
        }
    }
  }

  /**
    The fold of any replayable window tells, for every pathname of the replayed
    file map, the story of the very file that is there; and for every file that
    left, in order, the story of that file.
  */
  lemma {:induction false} FoldAgreesWithReplay<F>(w: Window<F>, n: nat)
    requires n <= |w.events| && Replayable(w)
    ensures Agree(w, n, Folded(w, n))
  {
    hide *;
    if n == 0 {
      SeedAgrees(w);
    } else {
      FoldAgreesWithReplay(w, n - 1);
      FoldedStepAgrees(w, n - 1);
    }
  }

  lemma FoldedStepAgrees<F>(w: Window<F>, n: nat)
    requires n < |w.events| && Replayable(w) && Agree(w, n, Folded(w, n))
    ensures Agree(w, n + 1, Folded(w, n + 1))
  {
    hide *;
    FoldedNext(w, n);
    StepAgrees(w, n, Folded(w, n));
  }

  /** The fold of the first n operations. */
  function Folded<F>(w: Window<F>, n: nat): Tree<F>
    requires n <= |w.events|
  {
    FoldAll(true, Seed(w.initial), w.events[..n])
  }

  lemma FoldedNext<F>(w: Window<F>, n: nat)
    requires n < |w.events|
    ensures Folded(w, n + 1) == Fold1(true, Folded(w, n), w.events[n].changeIndex, w.events[n].op)
  {
    assert w.events[..n + 1] == w.events[..n] + [w.events[n]];
    FoldNext(true, Seed(w.initial), w.events[..n], w.events[n]);
  }

  lemma FoldedAll<F>(w: Window<F>)
    ensures Folded(w, |w.events|) == FoldAll(true, Seed(w.initial), w.events)
  {
    assert w.events[..|w.events|] == w.events;
  }

  lemma SeedAgrees<F>(w: Window<F>)
    requires Replayable(w)
    ensures Agree(w, 0, Folded(w, 0))
  {
    var files := FilesAt(w, 0);
    var t: Tree<F> := Seed(w.initial);
    assert w.events[..0] == [] && Folded(w, 0) == t;
    forall p | p in files ensures Told(w, 0, t, p) {
      SeedTold(w, t, p);
    }
    assert Lost(w, 0) == [];
    hide Told, Trail, FirstEdit, Describes;
  }

  lemma SeedTold<F>(w: Window<F>, t: Tree<F>, p: string)
    requires t == Seed(w.initial) && p in w.initial
    ensures Told(w, 0, t, p)
  {
    var files := FilesAt(w, 0);
    PlaceAt(files, p);
    assert Trail(w, 0, files[p]) == [] + [p];
  }

  /** What agreement says about one pathname. */
  lemma AgreeAt<F>(w: Window<F>, n: nat, t: Tree<F>, p: string)
    requires n <= |w.events| && Agree(w, n, t)
    ensures p in FilesAt(w, n) <==> Live(t, p)
    ensures p in FilesAt(w, n) ==> Told(w, n, t, p)
  {
    assert LiveAgree(w, n, t);
  }
}
