/**
  Nothing is lost or told twice: every file a window starts with or adds is, after
  any number of operations, either at exactly one pathname or once in the list of
  files that left (file_tree_diff.js lines 85-167).
*/
module FileTreeConservation {
  import opened Common
  import opened FileTreeDiffs

  /** The files the window has known so far: those it started from and those it added. */
  ghost function Known<F>(w: Window<F>, n: nat): set<FileId>
    requires n <= |w.events|
  {
    if n == 0 then set p | p in w.initial :: Initial(p)
    else Known(w, n - 1) + (if w.events[n - 1].op.AddFile? then {Added(n - 1)} else {})
  }

  ghost function Adds<F>(events: seq<Event<F>>): nat {
    if events == [] then 0 else Adds(Front(events)) + (if Last(events).op.AddFile? then 1 else 0)
  }

  ghost function LivePaths<F>(t: Tree<F>): set<string> {
    set p | p in t.entries && Live(t, p)
  }

  // What one operation does to the files that are there.
  ghost predicate Moves<F>(files: Files, op: Op<F>, n: nat, after: Files) {
    match op
    case AddFile(p, _) => after == files[p := Added(n)]
    case MoveFile(p, q) =>
      if p !in files || p == q then after == files
      else if q == "" then after == files - {p}
      else after == (files - {p})[q := files[p]]
    case _ => after == files
  }

  lemma StepMoves<F>(w: Window<F>, n: nat)
    requires n < |w.events| && Replayable(w)
    ensures Moves(FilesAt(w, n), w.events[n].op, n, FilesAt(w, n + 1))
  {
    assert StepReplays(w, n);
  }

  lemma StepLosesOrKeeps<F>(files: Files, op: Op<F>, n: nat, after: Files, id: FileId)
    requires Separate(files) && Moves(files, op, n, after)
    requires forall p :: p in files ==> files[p] != Added(n)
    ensures (Somewhere(after, id) || id in LostBy(files, op))
         <==> (Somewhere(files, id) || (op.AddFile? && id == Added(n)))
  {
    match op {
      case AddFile(p, _) => assert after[p] == Added(n);
      case MoveFile(p, q) => assert p in files && p != q && q != "" ==> after[q] == files[p];
      case _ =>
    }
    if Somewhere(files, id) {
      KeepsOrLoses(files, op, n, after, id);
    }
    if Somewhere(after, id) {
      var p :| p in after && after[p] == id;
      assert Stays(files, op, p) ==> p in files && files[p] == id;
    }
  }

  lemma KeepsOrLoses<F>(files: Files, op: Op<F>, n: nat, after: Files, id: FileId)
    requires Separate(files) && Moves(files, op, n, after) && Somewhere(files, id)
    ensures Somewhere(after, id) || id in LostBy(files, op)
  {
    var p :| p in files && files[p] == id;
    if Stays(files, op, p) {
      assert p in after && after[p] == id;
    } else if op.MoveFile? && p == op.path && op.newPath != "" {
      assert after[op.newPath] == id;
    } else {
      assert LostBy(files, op) == [id];
    }
  }

  ghost predicate Stays<F>(files: Files, op: Op<F>, p: string) {
    match op
    case AddFile(q, _) => p != q
    case MoveFile(q, r) => q !in files || q == r || (p != q && (p != r || r == ""))
    case _ => true
  }

  lemma FilesAreDistinct<F>(w: Window<F>, n: nat)
    requires n <= |w.events| && Replayable(w)
    ensures Separate(FilesAt(w, n)) && Fresh(w, n)
  {
    FoldAgreesWithReplay(w, n);
  }

  /** One file, before and after operation n. */
  lemma StepAccounts<F>(w: Window<F>, n: nat, id: FileId)
    requires n < |w.events| && Moves(FilesAt(w, n), w.events[n].op, n, FilesAt(w, n + 1))
    requires Separate(FilesAt(w, n)) && Fresh(w, n)
    requires id in Known(w, n) <==> Somewhere(FilesAt(w, n), id) || id in Lost(w, n)
    ensures id in Known(w, n + 1) <==> Somewhere(FilesAt(w, n + 1), id) || id in Lost(w, n + 1)
  {
    var files, op, after := FilesAt(w, n), w.events[n].op, FilesAt(w, n + 1);
    StepLosesOrKeeps(files, op, n, after, id);
    assert Lost(w, n + 1) == Lost(w, n) + LostBy(files, op);
    assert Known(w, n + 1) == Known(w, n) + (if op.AddFile? then {Added(n)} else {});
  }

  lemma StepCounts<F>(files: Files, op: Op<F>, n: nat, after: Files)
    requires Moves(files, op, n, after) && "" !in files
    ensures |after| + |LostBy(files, op)| == |files| + (if op.AddFile? then 1 else 0)
  {
    match op {
      case AddFile(p, _) => PutCounts(files, p, Added(n));
      case MoveFile(p, q) =>
        if p in files && p != q {
          RemoveCounts(files, p);
          if q != "" { PutCounts(files - {p}, q, files[p]); }
        }
      case _ =>
    }
  }

  lemma PutCounts(files: Files, p: string, id: FileId)
    ensures |files[p := id]| == |files| + (if p in files then 0 else 1)
  {
    assert files[p := id].Keys == files.Keys + {p};
  }

  lemma RemoveCounts(files: Files, p: string)
    requires p in files
    ensures |files - {p}| == |files| - 1
  {
    assert (files - {p}).Keys == files.Keys - {p};
  }

  lemma {:induction false} Counts<F>(w: Window<F>, n: nat)
    requires n <= |w.events| && Replayable(w)
    ensures |FilesAt(w, n)| + |Lost(w, n)| == |w.initial| + Adds(w.events[..n])
  {
    if n == 0 {
      assert FilesAt(w, 0).Keys == w.initial;
    } else {
      var events := w.events[..n];
      assert Front(events) == w.events[..n - 1] && Last(events) == w.events[n - 1];
      Counts(w, n - 1);
      StepMoves(w, n - 1);
      FilesAreDistinct(w, n - 1);
      StepCounts(FilesAt(w, n - 1), w.events[n - 1].op, n - 1, FilesAt(w, n));
    }
  }

  lemma {:induction false} Accounts<F>(w: Window<F>, n: nat, id: FileId)
    requires n <= |w.events| && Replayable(w)
    ensures id in Known(w, n) <==> Somewhere(FilesAt(w, n), id) || id in Lost(w, n)
  {
    if n == 0 {
      assert Lost(w, 0) == [];
      assert id in Known(w, 0) ==> FilesAt(w, 0)[id.path] == id;
    } else {
      Accounts(w, n - 1, id);
      FilesAreDistinct(w, n - 1);
      StepMoves(w, n - 1);
      StepAccounts(w, n - 1, id);
    }
  }

  /**
    Live entries and removed entries together are exactly as many as the files the
    window started from and added; and each of those files is told exactly once.
  */
  lemma EveryFileToldOnce<F>(w: Window<F>)
    requires Replayable(w)
    ensures var t := Folded(w, |w.events|); var n := |w.events|;
      && |LivePaths(t)| + |t.removed| == |w.initial| + Adds(w.events)
      && |Lost(w, n)| == |t.removed|
      && Separate(FilesAt(w, n)) && (forall i, j :: 0 <= i < j < |Lost(w, n)| ==> Lost(w, n)[i] != Lost(w, n)[j])
      && forall id :: (id in Known(w, n) <==> Somewhere(FilesAt(w, n), id) || id in Lost(w, n))
                   && !(Somewhere(FilesAt(w, n), id) && id in Lost(w, n))
  {
    var t, n := Folded(w, |w.events|), |w.events|;
    assert w.events[..n] == w.events;
    FoldAgreesWithReplay(w, n);
    Counts(w, n);
    assert LivePaths(t) == FilesAt(w, n).Keys;
    forall id ensures (id in Known(w, n) <==> Somewhere(FilesAt(w, n), id) || id in Lost(w, n))
      && !(Somewhere(FilesAt(w, n), id) && id in Lost(w, n))
    {
      Accounts(w, n, id);
      if id in Lost(w, n) {
        var i :| 0 <= i < |Lost(w, n)| && Lost(w, n)[i] == id;
        assert Gone(w, n, t.removed[i], id);
      }
    }
  }

  /** This entry was removed by operation k, from the pathname its chain ends with. */
  ghost predicate RemovedBy<F>(w: Window<F>, k: nat, e: EntryValue<F>, id: FileId) {
    && k < |w.events| && LostBy(FilesAt(w, k), w.events[k].op) == [id]
    && e.chain != [] && Last(e.chain) in FilesAt(w, k) && FilesAt(w, k)[Last(e.chain)] == id
    && e.deletedAt == Some(w.events[k].changeIndex)
  }

  ghost predicate Dated<F>(w: Window<F>, n: nat, e: EntryValue<F>, id: FileId) {
    exists k: nat :: k < n && RemovedBy(w, k, e, id)
  }

  ghost predicate RemovalsDated<F>(w: Window<F>, n: nat, t: Tree<F>)
    requires n <= |w.events|
  {
    && |t.removed| == |Lost(w, n)|
    && forall i :: 0 <= i < |t.removed| ==> Dated(w, n, t.removed[i], Lost(w, n)[i])
  }

  /** The one entry an operation adds to the removed list, and the pathname it was live at. */
  lemma StepRemoves<F>(w: Window<F>, n: nat, t: Tree<F>, u: Tree<F>)
    requires n < |w.events| && Replayable(w) && Agree(w, n, t)
    requires u == Fold1(true, t, w.events[n].changeIndex, w.events[n].op)
    ensures |Lost(w, n)| == |t.removed| <= |u.removed| && u.removed[..|t.removed|] == t.removed
    ensures LostBy(FilesAt(w, n), w.events[n].op) == [] ==> u.removed == t.removed
    ensures LostBy(FilesAt(w, n), w.events[n].op) != []
      ==> |u.removed| == |t.removed| + 1
          && RemovedBy(w, n, Last(u.removed), LostBy(FilesAt(w, n), w.events[n].op)[0])
  {
    var files, op, ci := FilesAt(w, n), w.events[n].op, w.events[n].changeIndex;
    var p := if op.MoveFile? && op.newPath != "" then op.newPath else if op.AddFile? || op.MoveFile? then op.path else "";
    assert StepReplays(w, n);
    assert "" !in files;
    assert p in files <==> Live(t, p);
    assert op.MoveFile? ==> (op.path in files <==> Live(t, op.path));
    if p in files {
      assert Told(w, n, t, p);
    }
    var gone := if Live(t, p) then [t.entries[p].(deletedAt := Some(ci))] else [];
    assert RemoveLive(t, p, ci).removed == t.removed + gone;
  }

  lemma StepDates<F>(w: Window<F>, n: nat, t: Tree<F>)
    requires n < |w.events| && Replayable(w) && Agree(w, n, t) && RemovalsDated(w, n, t)
    ensures RemovalsDated(w, n + 1, Fold1(true, t, w.events[n].changeIndex, w.events[n].op))
  {
    var u := Fold1(true, t, w.events[n].changeIndex, w.events[n].op);
    var more := LostBy(FilesAt(w, n), w.events[n].op);
    StepRemoves(w, n, t, u);
    DatesGoOn(w, n, t.removed, u.removed, Lost(w, n), more);
    assert Lost(w, n + 1) == Lost(w, n) + more;
  }

  lemma DatesGoOn<F>(w: Window<F>, n: nat, was: seq<EntryValue<F>>, removed: seq<EntryValue<F>>, before: seq<FileId>, more: seq<FileId>)
    requires |was| == |before| && |was| <= |removed| && removed[..|was|] == was
    requires forall i :: 0 <= i < |was| ==> Dated(w, n, was[i], before[i])
    requires if more == [] then removed == was else |more| == 1 && |removed| == |was| + 1 && RemovedBy(w, n, Last(removed), more[0])
    ensures |removed| == |before + more|
    ensures forall i :: 0 <= i < |removed| ==> Dated(w, n + 1, removed[i], (before + more)[i])
  {
    forall i | 0 <= i < |was| ensures Dated(w, n + 1, removed[i], (before + more)[i]) {
      assert removed[i] == removed[..|was|][i] && Dated(w, n, was[i], before[i]);
    }
  }

  /**
    Every removed entry carries the index of the very change that removed the file,
    and its chain ends with the pathname the file was removed from.
  */
  lemma {:induction false} RemovalsAreDated<F>(w: Window<F>, n: nat)
    requires n <= |w.events| && Replayable(w)
    ensures RemovalsDated(w, n, Folded(w, n))
  {
    if n == 0 {
      assert w.events[..0] == [] && Lost(w, 0) == [];
    } else {
      hide *;
      FoldAgreesWithReplay(w, n - 1);
      RemovalsAreDated(w, n - 1);
      StepDates(w, n - 1, Folded(w, n - 1));
      FoldedNext(w, n - 1);
    }
  }

  // ----- the shape of every entry, whatever the window and with or without initial pathnames -----

  /**
    The chain starts at the origin if there is one, a file has either an origin or
    the content it was added with, and the first edit is a place in the chain.
  */
  ghost predicate Shaped<F>(e: EntryValue<F>) {
    && e.chain != []
    && (e.origin.Some? ==> e.chain[0] == e.origin.value)
    && (e.origin.Some? <==> e.file.None?)
    && (e.edited <==> e.firstEdited.Some?)
    && (e.edited ==> e.firstEdited.value < |e.chain|)
  }

  /** An entry's chain ends with the pathname it is at, and one that is marked as deleted is on the removed list. */
  ghost predicate Chains<F>(t: Tree<F>) {
    && (forall p :: p in t.entries ==> ChainEnds(t, p))
    && (forall i :: 0 <= i < |t.removed| ==> Shaped(t.removed[i]) && t.removed[i].deletedAt.Some?)
  }

  ghost predicate ChainEnds<F>(t: Tree<F>, p: string)
    requires p in t.entries
  {
    && Shaped(t.entries[p]) && Last(t.entries[p].chain) == p
    && (t.entries[p].deletedAt.Some? ==> t.entries[p] in t.removed)
  }

  lemma RemoveLiveChains<F>(t: Tree<F>, p: string, changeIndex: nat)
    requires Chains(t)
    ensures Chains(RemoveLive(t, p, changeIndex))
    ensures RemoveLive(t, p, changeIndex).entries.Keys == t.entries.Keys
    ensures !Live(RemoveLive(t, p, changeIndex), p)
  {
    var u := RemoveLive(t, p, changeIndex);
    if Live(t, p) {
      assert ChainEnds(t, p);
      assert u.removed[|t.removed|] == u.entries[p];
    }
    forall q | q in u.entries ensures ChainEnds(u, q) {
      assert ChainEnds(t, q);
      assert u.removed[..|t.removed|] == t.removed;
    }
  }

  lemma PutChains<F>(t: Tree<F>, p: string, e: EntryValue<F>)
    requires Chains(t) && Shaped(e) && Last(e.chain) == p && e.deletedAt.None?
    ensures Chains(t.(entries := t.entries[p := e]))
  {
    var u := t.(entries := t.entries[p := e]);
    forall q | q in u.entries ensures ChainEnds(u, q) {
      assert q != p ==> ChainEnds(t, q);
    }
  }

  lemma StepChains<F>(seeded: bool, t: Tree<F>, changeIndex: nat, op: Op<F>)
    requires Chains(t)
    ensures Chains(Fold1(seeded, t, changeIndex, op))
  {
    match op {
      case AddFile(p, file) =>
        RemoveLiveChains(t, p, changeIndex);
        PutChains(RemoveLive(t, p, changeIndex), p, AddedEntry(p, file));
      case EditFile(p) =>
        assert p in t.entries ==> ChainEnds(t, p);
        PutChains(t, p, if Live(t, p) then Touch(t.entries[p]) else Touch(ExistingEntry(p)));
      case MoveFile(p, q) =>
        if q == "" {
          PutChains(t, p, ExistingEntry(p));
          RemoveLiveChains(if !seeded && p !in t.entries then t.(entries := t.entries[p := ExistingEntry(p)]) else t, p, changeIndex);
        } else {
          MoveChains(seeded, t, changeIndex, p, q);
        }
      case OtherOp =>
    }
  }

  lemma MoveChains<F>(seeded: bool, t: Tree<F>, changeIndex: nat, p: string, q: string)
    requires Chains(t) && q != ""
    ensures Chains(Fold1(seeded, t, changeIndex, MoveFile(p, q)))
  {
    assert Live(t, p) ==> ChainEnds(t, p);
    var e := if Live(t, p) then t.entries[p] else ExistingEntry(p);
    var longer := e.(chain := e.chain + [q]);
    RemoveLiveChains(t, q, changeIndex);
    PutChains(RemoveLive(t, q, changeIndex), q, longer);
    var u := RemoveLive(t, q, changeIndex).(entries := RemoveLive(t, q, changeIndex).entries[q := longer]);
    assert Chains(u.(entries := u.entries - {p})) by {
      forall r | r in u.entries - {p} ensures ChainEnds(u.(entries := u.entries - {p}), r) {
        assert ChainEnds(u, r);
      }
    }
  }

  /**
    For any window, with or without initial pathnames and whether or not it could
    be replayed: every chain ends at the pathname the entry is reported at, and
    starts at the origin of a file that was there before the window.
  */
  lemma {:induction false} LiveChains<F>(seeded: bool, initial: set<string>, events: seq<Event<F>>)
    ensures Chains(FoldAll(seeded, Seed(initial), events))
    decreases |events|
  {
    if events == [] {
      var t: Tree<F> := Seed(initial);
      assert Chains(t);
    } else {
      LiveChains(seeded, initial, Front(events));
      StepChains(seeded, FoldAll(seeded, Seed(initial), Front(events)), Last(events).changeIndex, Last(events).op);
    }
  }
}
