/**
  `buildFileTreeDiff` as it runs: entry objects that are changed in place and
  shared between the map of entries and the list of removed ones
  (file_tree_diff.js lines 75-205). Whatever the changes are, the objects end up
  holding exactly what the fold over entry values says.
*/
module FileTreeBuild {
  import opened Common
  import opened FileTreeDiffs
  import opened FileTreeConservation

  class Entry<F> {
    const origin: Option<string>
    var chain: seq<string>
    var edited: bool
    var firstEdited: Option<nat>
    const file: Option<F>
    var deletedAt: Option<nat>

    function Value(): EntryValue<F>
      reads this
    {
      EntryValue(origin, chain, edited, firstEdited, file, deletedAt)
    }

    method MarkEdited()
      requires deletedAt.None?
      modifies this
      ensures Value() == Touch(old(Value()))
    {
      if !edited && chain != [] {
        edited := true;
        firstEdited := Some(|chain| - 1);
      }
    }

    constructor Existing(p: string)
      ensures Value() == ExistingEntry(p)
    {
      origin, chain, edited, firstEdited, file, deletedAt := Some(p), [p], false, None, None, None;
    }

    constructor Added(p: string, f: F)
      ensures Value() == AddedEntry(p, f)
    {
      origin, chain, edited, firstEdited, file, deletedAt := None, [p], false, None, Some(f), None;
    }
  }

  /** A move, seen as an entry renamed after the target was removed. */
  lemma MoveIsRename<F>(seeded: bool, t: Tree<F>, ci: nat, p: string, q: string)
    requires p != "" && q != "" && p != q && (Live(t, p) || !(seeded || p in t.entries))
    ensures var u := if p in t.entries then t else t.(entries := t.entries[p := ExistingEntry(p)]);
      var v := RemoveLive(u, q, ci);
      Live(v, p) && Fold1(seeded, t, ci, Op.MoveFile(p, q)) == Renamed(v, p, q)
  {
    var u := if p in t.entries then t else t.(entries := t.entries[p := ExistingEntry(p)]);
    var r, v := RemoveLive(t, q, ci), RemoveLive(u, q, ci);
    var e := v.entries[p].(chain := v.entries[p].chain + [q]);
    assert v.entries[q := e] - {p} == r.entries[q := e] - {p};
  }

  function Renamed<F>(t: Tree<F>, p: string, q: string): Tree<F>
    requires p in t.entries
  {
    t.(entries := t.entries[q := t.entries[p].(chain := t.entries[p].chain + [q])] - {p})
  }

  class FileTreeDiff<F> {
    var entries: map<string, Entry<F>>
    var removed: seq<Entry<F>>
    ghost var all: set<Entry<F>>

    /** No entry is at two pathnames, and one that is still live is not among the removed. */
    ghost predicate Valid()
      reads this, all
    {
      && (forall p :: p in entries ==> entries[p] in all)
      && (forall i :: 0 <= i < |removed| ==> removed[i] in all && removed[i].deletedAt.Some?)
      && (forall p, q :: p in entries && q in entries && entries[p] == entries[q] ==> p == q)
    }

    /** The objects hold what the tree of values says. */
    ghost predicate Holds(t: Tree<F>)
      requires Valid()
      reads this, all
    {
      && entries.Keys == t.entries.Keys
      && (forall p :: p in entries ==> entries[p].Value() == t.entries[p])
      && |removed| == |t.removed|
      && (forall i :: 0 <= i < |removed| ==> removed[i].Value() == t.removed[i])
    }

    constructor (initial: Option<seq<string>>)
      ensures Valid() && fresh(all)
      ensures Holds(Seed(if initial.Some? then (set p | p in initial.value) else {}))
    {
      entries, removed, all := map[], [], {};
      new;
      if initial.Some? {
        var i := 0;
        while i < |initial.value|
          invariant 0 <= i <= |initial.value| && Valid() && fresh(all) && removed == []
          invariant entries.Keys == set p | p in initial.value[..i]
          invariant forall p :: p in entries ==> entries[p].Value() == ExistingEntry(p)
        {
          var p := initial.value[i];
          var e := new Entry.Existing(p);
          SetEntry(p, e);
          i := i + 1;
        }
        assert initial.value[..i] == initial.value;
      }
    }

    /** `entries.set` with an entry that is at no pathname yet. */
    method SetEntry(p: string, e: Entry<F>)
      requires Valid() && (forall q :: q in entries ==> entries[q] != e)
      modifies this`entries, this`all
      ensures Valid() && all == old(all) + {e}
      ensures entries == old(entries)[p := e]
    {
      entries := entries[p := e];
      all := all + {e};
    }

    method RemoveLiveEntry(p: string, changeIndex: nat, ghost t: Tree<F>)
      requires Valid() && Holds(t)
      modifies this`removed, all
      ensures Valid() && entries == old(entries) && Holds(RemoveLive(t, p, changeIndex))
      ensures forall e :: e in all && e.deletedAt.None? ==> e.Value() == old(e.Value())
    {
      if p in entries && entries[p].deletedAt.None? {
        var e := entries[p];
        e.deletedAt := Some(changeIndex);
        removed := removed + [e];
      }
    }

    method AddFile(p: string, file: F, changeIndex: nat, ghost t: Tree<F>)
      requires Valid() && Holds(t)
      modifies this, all
      ensures Valid() && fresh(all - old(all)) && Holds(Fold1(true, t, changeIndex, Op.AddFile(p, file)))
    {
      if p == "" { return; }
      RemoveLiveEntry(p, changeIndex, t);
      var e := new Entry.Added(p, file);
      SetEntry(p, e);
    }

    /** An entry for a file that must have been there before the window. */
    method CreateOnDemand(p: string, ghost t: Tree<F>) returns (ghost u: Tree<F>)
      requires Valid() && Holds(t) && p !in entries
      modifies this`entries, this`all
      ensures Valid() && fresh(all - old(all)) && p in entries && fresh(entries[p])
      ensures u == t.(entries := t.entries[p := ExistingEntry(p)]) && Holds(u)
    {
      var e := new Entry.Existing(p);
      SetEntry(p, e);
      u := t.(entries := t.entries[p := ExistingEntry(p)]);
    }

    method EditFile(p: string, ghost t: Tree<F>)
      requires Valid() && Holds(t)
      modifies this, all
      ensures Valid() && fresh(all - old(all)) && Holds(Fold1(true, t, 0, Op.EditFile(p)))
    {
      if p == "" { return; }
      ghost var u := t;
      if p !in entries {
        u := CreateOnDemand(p, t);
      } else if entries[p].deletedAt.Some? {
        return;
      }
      TouchEntry(p, u);
    }

    method TouchEntry(p: string, ghost t: Tree<F>)
      requires Valid() && Holds(t) && Live(t, p)
      modifies all
      ensures Valid() && Holds(t.(entries := t.entries[p := Touch(t.entries[p])]))
    {
      entries[p].MarkEdited();
    }

    method RemoveFile(seeded: bool, p: string, changeIndex: nat, ghost t: Tree<F>)
      requires Valid() && Holds(t)
      modifies this, all
      ensures Valid() && fresh(all - old(all)) && Holds(Fold1(seeded, t, changeIndex, Op.MoveFile(p, "")))
    {
      if p == "" { return; }
      ghost var u := t;
      if !seeded && p !in entries {
        u := CreateOnDemand(p, t);
      }
      RemoveLiveEntry(p, changeIndex, u);
    }

    method MoveFile(seeded: bool, p: string, q: string, changeIndex: nat, ghost t: Tree<F>)
      requires Valid() && Holds(t) && q != ""
      modifies this, all
      ensures Valid() && fresh(all - old(all)) && Holds(Fold1(seeded, t, changeIndex, Op.MoveFile(p, q)))
    {
      if p == "" || p == q { return; }
      var entry: Entry<F>;
      if p in entries && entries[p].deletedAt.None? {
        entry := entries[p];
      } else if seeded || p in entries {
        return;
      } else {
        entry := new Entry.Existing(p);
        SetEntry(p, entry);
      }
      ghost var u := if p in t.entries then t else t.(entries := t.entries[p := ExistingEntry(p)]);
      MoveIsRename(seeded, t, changeIndex, p, q);
      RemoveLiveEntry(q, changeIndex, u);
      Rename(entry, p, q, RemoveLive(u, q, changeIndex));
    }

    method Rename(entry: Entry<F>, p: string, q: string, ghost t: Tree<F>)
      requires Valid() && Holds(t) && Live(t, p) && entries[p] == entry && p != q
      modifies this`entries, all
      ensures Valid() && all == old(all)
      ensures Holds(Renamed(t, p, q))
    {
      entry.chain := entry.chain + [q];
      entries := entries[q := entry] - {p};
    }

    method Apply(seeded: bool, changeIndex: nat, op: Op<F>, ghost t: Tree<F>)
      requires Valid() && Holds(t)
      modifies this, all
      ensures Valid() && fresh(all - old(all)) && Holds(Fold1(seeded, t, changeIndex, op))
    {
      match op {
        case AddFile(p, file) => AddFile(p, file, changeIndex, t);
        case EditFile(p) => EditFile(p, t);
        case MoveFile(p, q) =>
          if q == "" { RemoveFile(seeded, p, changeIndex, t); } else { MoveFile(seeded, p, q, changeIndex, t); }
        case OtherOp =>
      }
    }
  }

  function EventsOf<F>(changes: seq<seq<Op<F>>>, index: nat): seq<Event<F>>
    requires index <= |changes|
  {
    if index == 0 then [] else EventsOf(changes, index - 1) + Tagged(index - 1, changes[index - 1])
  }

  function Tagged<F>(index: nat, ops: seq<Op<F>>): (r: seq<Event<F>>)
    ensures |r| == |ops| && forall i :: 0 <= i < |ops| ==> r[i] == Event(index, ops[i])
  {
    if ops == [] then [] else Tagged(index, Front(ops)) + [Event(index, Last(ops))]
  }

  lemma TaggedStep<F>(before: seq<Event<F>>, index: nat, ops: seq<Op<F>>, j: nat)
    requires j < |ops|
    ensures before + Tagged(index, ops[..j + 1]) == before + Tagged(index, ops[..j]) + [Event(index, ops[j])]
  {
    var more := ops[..j + 1];
    assert Front(more) == ops[..j] && Last(more) == ops[j];
    assert Tagged(index, more) == Tagged(index, ops[..j]) + [Event(index, ops[j])];
  }

  lemma EventsNext<F>(changes: seq<seq<Op<F>>>, i: nat)
    requires i < |changes|
    ensures EventsOf(changes, i + 1) == EventsOf(changes, i) + Tagged(i, changes[i])
  {
  }

  method BuildFileTreeDiff<F>(changes: seq<seq<Op<F>>>, initial: Option<seq<string>>) returns (d: FileTreeDiff<F>)
    ensures fresh(d) && d.Valid()
    ensures var paths := if initial.Some? then (set p | p in initial.value) else {};
      d.Holds(FoldAll(initial.Some?, Seed(paths), EventsOf(changes, |changes|)))
  {
    d := new FileTreeDiff(initial);
    ghost var start: Tree<F> := Seed(if initial.Some? then (set p | p in initial.value) else {});
    assert FoldAll(initial.Some?, start, EventsOf(changes, 0)) == start;
    hide FoldAll, Fold1, EventsOf, Tagged, Seed;
    var i := 0;
    while i < |changes|
      invariant 0 <= i <= |changes| && fresh(d) && fresh(d.all) && d.Valid()
      invariant d.Holds(FoldAll(initial.Some?, start, EventsOf(changes, i)))
    {
      hide *;
      EventsNext(changes, i);
      ApplyChange(d, initial.Some?, i, changes[i], start, EventsOf(changes, i));
      i := i + 1;
    }
  }

  method ApplyChange<F>(d: FileTreeDiff<F>, seeded: bool, index: nat, ops: seq<Op<F>>, ghost start: Tree<F>, ghost before: seq<Event<F>>)
    requires d.Valid() && d.Holds(FoldAll(seeded, start, before))
    modifies d, d.all
    ensures d.Valid() && fresh(d.all - old(d.all))
    ensures d.Holds(FoldAll(seeded, start, before + Tagged(index, ops)))
  {
    hide FoldAll, Fold1;
    var j := 0;
    assert before + Tagged(index, ops[..0]) == before;
    while j < |ops|
      invariant 0 <= j <= |ops| && d.Valid() && fresh(d.all - old(d.all))
      invariant d.Holds(FoldAll(seeded, start, before + Tagged(index, ops[..j])))
    {
      ghost var done := before + Tagged(index, ops[..j]);
      TaggedStep(before, index, ops, j);
      FoldNext(seeded, start, done, Event(index, ops[j]));
      d.Apply(seeded, index, ops[j], FoldAll(seeded, start, done));
      j := j + 1;
    }
    assert ops[..j] == ops;
  }

  /** What the built objects say about a replayable window: the story of the very files the replay ends up with. */
  lemma BuiltDiffTellsReplay<F>(d: FileTreeDiff<F>, w: Window<F>, p: string)
    requires d.Valid() && Replayable(w) && d.Holds(FoldAll(true, Seed(w.initial), w.events))
    ensures p in FilesAt(w, |w.events|) <==> p in d.entries && d.entries[p].deletedAt.None?
    ensures p in FilesAt(w, |w.events|) ==> Describes(w, |w.events|, d.entries[p].Value(), FilesAt(w, |w.events|)[p])
    ensures |d.removed| == |Lost(w, |w.events|)|
    ensures forall i :: 0 <= i < |d.removed| ==> Gone(w, |w.events|, d.removed[i].Value(), Lost(w, |w.events|)[i])
  {
    var t := FoldAll(true, Seed(w.initial), w.events);
    FoldedAll(w);
    FoldAgreesWithReplay(w, |w.events|);
    AgreeAt(w, |w.events|, t, p);
    assert forall i :: 0 <= i < |t.removed| ==> Gone(w, |w.events|, t.removed[i], Lost(w, |w.events|)[i]);
  }

  /** The same of the objects: what the documentation of the entries promises. */
  lemma BuiltChains<F>(d: FileTreeDiff<F>, seeded: bool, initial: set<string>, events: seq<Event<F>>, p: string)
    requires d.Valid() && d.Holds(FoldAll(seeded, Seed(initial), events))
    ensures p in d.entries ==>
      && d.entries[p].chain != [] && Last(d.entries[p].chain) == p
      && (d.entries[p].origin.Some? ==> d.entries[p].chain[0] == d.entries[p].origin.value)
      && (d.entries[p].origin.Some? <==> d.entries[p].file.None?)
    ensures forall i :: 0 <= i < |d.removed| ==> Shaped(d.removed[i].Value())
  {
    var t := FoldAll(seeded, Seed(initial), events);
    LiveChains(seeded, initial, events);
    if p in d.entries {
      assert d.entries[p].Value() == t.entries[p] && ChainEnds(t, p);
    }
    forall i | 0 <= i < |d.removed| ensures Shaped(d.removed[i].Value()) {
      assert d.removed[i].Value() == t.removed[i];
    }
  }
}
