/**
  Transforming edits of one file: text operations and the operations on its
  comments (overleaf-editor-core: edit_operation_transformer.js lines 18-128, the
  `apply` of each edit operation, comment_list.js, text_operation.js lines 292-346).

  A file is a document whose characters carry the ids of the comments that cover
  them, and for each comment whether it is resolved. A comment's list of ranges is
  its marks: the list is canonical, so the marks determine it.
*/
module EditOt {
  import opened Common
  import opened TextModel
  import opened TextOperations
  import opened TextTransform
  import TextMerge
  import opened OtLists
  import opened Ranges
  import Comments

  datatype FileState = FileState(doc: Doc, comments: map<string, bool>)

  datatype Edit =
    | EditText(ops: seq<ScanOp>)
    | AddComment(id: string, marks: seq<bool>, resolved: bool)
    | DeleteComment(id: string)
    | SetCommentState(id: string, resolved: bool)
    | EditNoOp

  // ----- marks in a document -----

  /** Only the comments the file has leave marks. */
  function Masked(doc: Doc, ids: set<string>): Doc {
    seq(|doc|, i requires 0 <= i < |doc| => doc[i].(comments := doc[i].comments * ids))
  }

  function WithMarks(doc: Doc, id: string, marks: seq<bool>): Doc
    requires |marks| == |doc|
  {
    seq(|doc|, i requires 0 <= i < |doc| =>
      doc[i].(comments := if marks[i] then doc[i].comments + {id} else doc[i].comments - {id}))
  }

  function Unmarked(doc: Doc, id: string): Doc {
    seq(|doc|, i requires 0 <= i < |doc| => doc[i].(comments := doc[i].comments - {id}))
  }

  /** A document that shows these marks and nothing else. */
  function Bare(marks: seq<bool>, id: string): Doc {
    seq(|marks|, i requires 0 <= i < |marks| => DocChar(' ', None, if marks[i] then {id} else {}))
  }

  function MarksOf(doc: Doc, id: string): seq<bool> {
    seq(|doc|, i requires 0 <= i < |doc| => id in doc[i].comments)
  }

  /** The marks after a text operation. */
  function MovedMarks(ops: seq<ScanOp>, marks: seq<bool>, id: string): seq<bool>
    requires Base(Atoms(ops)) == |marks|
  {
    MarksOf(ApplyOps(ops, Bare(marks, id)), id)
  }

  // ----- applying -----

  ghost predicate Known(s: FileState) { Masked(s.doc, s.comments.Keys) == s.doc }

  ghost predicate CanEdit(s: FileState, e: Edit) {
    && Known(s)
    && match e
       case EditText(ops) => Proper(ops) && DistinctIds(ops) && Base(Atoms(ops)) == |s.doc|
       case AddComment(_, marks, _) => |marks| == |s.doc|
       case _ => true
  }

  ghost function ApplyEdit(s: FileState, e: Edit): FileState {
    if !CanEdit(s, e) then s
    else match e
      case EditText(ops) => FileState(Masked(ApplyOps(ops, s.doc), s.comments.Keys), s.comments)
      case AddComment(id, marks, resolved) => FileState(WithMarks(s.doc, id, marks), s.comments[id := resolved])
      case DeleteComment(id) => FileState(Unmarked(s.doc, id), s.comments - {id})
      case SetCommentState(id, resolved) => if id in s.comments then s.(comments := s.comments[id := resolved]) else s
      case EditNoOp => s
  }

  // ----- transforming -----

  function TextAdd(text: Edit, add: Edit): (Edit, Edit)
    requires text.EditText? && add.AddComment?
  {
    if Base(Atoms(text.ops)) == |add.marks| then (text, add.(marks := MovedMarks(text.ops, add.marks, add.id)))
    else (text, add)
  }

  function AddDelete(add: Edit, delete: Edit): (Edit, Edit)
    requires add.AddComment? && delete.DeleteComment?
  {
    if add.id == delete.id then (EditNoOp, delete) else (add, delete)
  }

  function AddSet(add: Edit, change: Edit): (Edit, Edit)
    requires add.AddComment? && change.SetCommentState?
  {
    if add.id == change.id then (AddComment(add.id, add.marks, change.resolved), change) else (add, change)
  }

  function DeleteSet(delete: Edit, change: Edit): (Edit, Edit)
    requires delete.DeleteComment? && change.SetCommentState?
  {
    if delete.id == change.id then (delete, EditNoOp) else (delete, change)
  }

  function SetSet(a: Edit, b: Edit): (Edit, Edit)
    requires a.SetCommentState? && b.SetCommentState?
  {
    if a.id != b.id then (a, b)
    else if a.resolved == b.resolved then (EditNoOp, EditNoOp)
    else
      var shouldResolve := a.resolved && b.resolved;
      if a.resolved == shouldResolve then (a, EditNoOp) else (EditNoOp, b)
  }

  function Swap(p: (Edit, Edit)): (Edit, Edit) { (p.1, p.0) }

  function TransformEdits(a: Edit, b: Edit): (Edit, Edit) {
    match (a, b)
    case (EditNoOp, _) => (a, b)
    case (_, EditNoOp) => (a, b)
    case (EditText(x), EditText(y)) =>
      if Proper(x) && Proper(y) && Base(Atoms(x)) == Base(Atoms(y))
      then (EditText(TransformOps(x, y).0), EditText(TransformOps(x, y).1)) else (a, b)
    case (EditText(_), AddComment(_, _, _)) => TextAdd(a, b)
    case (AddComment(_, _, _), EditText(_)) => Swap(TextAdd(b, a))
    case (AddComment(i, _, _), AddComment(j, _, _)) => if i == j then (EditNoOp, b) else (a, b)
    case (AddComment(_, _, _), DeleteComment(_)) => AddDelete(a, b)
    case (DeleteComment(_), AddComment(_, _, _)) => Swap(AddDelete(b, a))
    case (AddComment(_, _, _), SetCommentState(_, _)) => AddSet(a, b)
    case (SetCommentState(_, _), AddComment(_, _, _)) => Swap(AddSet(b, a))
    case (DeleteComment(i), DeleteComment(j)) => if i == j then (EditNoOp, EditNoOp) else (a, b)
    case (DeleteComment(_), SetCommentState(_, _)) => DeleteSet(a, b)
    case (SetCommentState(_, _), DeleteComment(_)) => Swap(DeleteSet(b, a))
    case (SetCommentState(_, _), SetCommentState(_, _)) => SetSet(a, b)
    case _ => (a, b)
  }

  ghost function FileEdits(): Ot<FileState, Edit> {
    Ot(
      (s: FileState, e: Edit) => CanEdit(s, e),
      (s: FileState, e: Edit) => ApplyEdit(s, e),
      (a: Edit, b: Edit) => TransformEdits(a, b),
      (e: Edit) => e.EditNoOp?)
  }

  // ----- marks through text operations -----

  /** Two documents that differ in nothing but comment marks. */
  ghost predicate Alike(d: Doc, e: Doc) {
    |d| == |e| && forall i :: 0 <= i < |d| ==> d[i].(comments := {}) == e[i].(comments := {})
  }

  /** Which marks an output character carries: its own, or those of the character it was. */
  function OutMarks(o: Out, doc: Doc): set<string> {
    match o
    case New(ch) => ch.comments
    case Copy(i, _) => if i < |doc| then doc[i].comments else {}
  }

  lemma ResultMarks(ops: seq<ScanOp>, doc: Doc)
    requires Base(Atoms(ops)) == |doc|
    ensures var r, out := ApplyOps(ops, doc), Render(Atoms(ops), 0);
      |r| == |out| && forall j :: 0 <= j < |r| ==> r[j].comments == OutMarks(out[j], doc)
  {
    ApplyIsRender(Atoms(ops), doc, 0);
    var r, out := ApplyOps(ops, doc), Render(Atoms(ops), 0);
    forall j | 0 <= j < |r| ensures r[j].comments == OutMarks(out[j], doc) {
      assert r[j] == Realize(out[j], doc, 0);
    }
  }

  lemma ResultAlike(ops: seq<ScanOp>, d: Doc, e: Doc)
    requires Base(Atoms(ops)) == |d| && Alike(d, e)
    ensures Alike(ApplyOps(ops, d), ApplyOps(ops, e))
  {
    ApplyIsRender(Atoms(ops), d, 0);
    ApplyIsRender(Atoms(ops), e, 0);
    var r, q, out := ApplyOps(ops, d), ApplyOps(ops, e), Render(Atoms(ops), 0);
    forall j | 0 <= j < |r| ensures r[j].(comments := {}) == q[j].(comments := {}) {
      assert r[j] == Realize(out[j], d, 0) && q[j] == Realize(out[j], e, 0);
    }
  }

  lemma SameDocs(d: Doc, e: Doc)
    requires Alike(d, e) && forall i :: 0 <= i < |d| ==> d[i].comments == e[i].comments
    ensures d == e
  {
    forall i | 0 <= i < |d| ensures d[i] == e[i] {
      assert d[i] == d[i].(comments := {}).(comments := d[i].comments);
      assert e[i] == e[i].(comments := {}).(comments := e[i].comments);
    }
  }

  /** Masking first makes no difference. */
  lemma MaskThrough(ops: seq<ScanOp>, doc: Doc, ids: set<string>)
    requires Base(Atoms(ops)) == |doc|
    ensures Masked(ApplyOps(ops, Masked(doc, ids)), ids) == Masked(ApplyOps(ops, doc), ids)
  {
    var less := Masked(doc, ids);
    ResultAlike(ops, less, doc);
    ResultMarks(ops, less);
    ResultMarks(ops, doc);
    var r, q := ApplyOps(ops, less), ApplyOps(ops, doc);
    SameDocs(Masked(r, ids), Masked(q, ids));
  }

  /** Marking a comment and then typing is typing and then marking what the comment has become. */
  lemma MarkThrough(ops: seq<ScanOp>, doc: Doc, id: string, marks: seq<bool>, ids: set<string>)
    requires Base(Atoms(ops)) == |doc| == |marks|
    ensures |MovedMarks(ops, marks, id)| == |ApplyOps(ops, doc)|
    ensures WithMarks(Masked(ApplyOps(ops, doc), ids), id, MovedMarks(ops, marks, id))
         == Masked(ApplyOps(ops, WithMarks(doc, id, marks)), ids + {id})
  {
    var marked, moved := WithMarks(doc, id, marks), MovedMarks(ops, marks, id);
    ResultAlike(ops, marked, doc);
    ResultMarks(ops, doc);
    ResultMarks(ops, marked);
    ResultMarks(ops, Bare(marks, id));
    var r, q := ApplyOps(ops, doc), ApplyOps(ops, marked);
    SameDocs(WithMarks(Masked(r, ids), id, moved), Masked(q, ids + {id}));
  }

  lemma UnmarkThrough(ops: seq<ScanOp>, doc: Doc, id: string, ids: set<string>)
    requires Base(Atoms(ops)) == |doc|
    ensures Unmarked(Masked(ApplyOps(ops, doc), ids), id) == Masked(ApplyOps(ops, Unmarked(doc, id)), ids - {id})
  {
    var less := Unmarked(doc, id);
    ResultAlike(ops, less, doc);
    ResultMarks(ops, less);
    ResultMarks(ops, doc);
    var r, q := ApplyOps(ops, doc), ApplyOps(ops, less);
    SameDocs(Unmarked(Masked(r, ids), id), Masked(q, ids - {id}));
  }

  // ----- the law, pair by pair -----

  ghost predicate Law(s: FileState, a: Edit, b: Edit) {
    var r := TransformEdits(a, b);
    && CanEdit(ApplyEdit(s, a), r.1) && CanEdit(ApplyEdit(s, b), r.0)
    && ApplyEdit(ApplyEdit(s, a), r.1) == ApplyEdit(ApplyEdit(s, b), r.0)
  }

  /** What every edit leaves behind: marks of existing comments only. */
  lemma EditKeepsKnown(s: FileState, e: Edit)
    requires CanEdit(s, e)
    ensures Known(ApplyEdit(s, e))
  {
    var t := ApplyEdit(s, e);
    var masked := Masked(t.doc, t.comments.Keys);
    forall i | 0 <= i < |s.doc| ensures s.doc[i].comments <= s.comments.Keys {
      assert Masked(s.doc, s.comments.Keys)[i] == s.doc[i];
    }
    forall i | 0 <= i < |t.doc| ensures masked[i].comments == t.doc[i].comments { }
    SameDocs(masked, t.doc);
  }

  lemma TextTextLaw(s: FileState, x: seq<ScanOp>, y: seq<ScanOp>)
    requires CanEdit(s, EditText(x)) && CanEdit(s, EditText(y))
    ensures Law(s, EditText(x), EditText(y))
  {
    var ids, r := s.comments.Keys, TransformOps(x, y);
    TransformDiamond(x, y, s.doc);
    EditKeepsKnown(s, EditText(x));
    EditKeepsKnown(s, EditText(y));
    MaskThrough(r.1, ApplyOps(x, s.doc), ids);
    MaskThrough(r.0, ApplyOps(y, s.doc), ids);
  }

  lemma TextAddLaw(s: FileState, x: seq<ScanOp>, id: string, marks: seq<bool>, resolved: bool)
    requires CanEdit(s, EditText(x)) && CanEdit(s, AddComment(id, marks, resolved))
    ensures Law(s, EditText(x), AddComment(id, marks, resolved))
  {
    var ids := s.comments.Keys;
    EditKeepsKnown(s, EditText(x));
    EditKeepsKnown(s, AddComment(id, marks, resolved));
    MarkThrough(x, s.doc, id, marks, ids);
    assert s.comments[id := resolved].Keys == ids + {id};
  }

  lemma TextDeleteLaw(s: FileState, x: seq<ScanOp>, id: string)
    requires CanEdit(s, EditText(x))
    ensures Law(s, EditText(x), DeleteComment(id))
  {
    EditKeepsKnown(s, EditText(x));
    EditKeepsKnown(s, DeleteComment(id));
    UnmarkThrough(x, s.doc, id, s.comments.Keys);
    assert (s.comments - {id}).Keys == s.comments.Keys - {id};
  }

  lemma TextSetLaw(s: FileState, x: seq<ScanOp>, id: string, resolved: bool)
    requires CanEdit(s, EditText(x))
    ensures Law(s, EditText(x), SetCommentState(id, resolved))
  {
    EditKeepsKnown(s, EditText(x));
    EditKeepsKnown(s, SetCommentState(id, resolved));
    assert id in s.comments ==> s.comments[id := resolved].Keys == s.comments.Keys;
  }

  lemma AddAddLaw(s: FileState, i: string, x: seq<bool>, p: bool, j: string, y: seq<bool>, q: bool)
    requires CanEdit(s, AddComment(i, x, p)) && CanEdit(s, AddComment(j, y, q))
    ensures Law(s, AddComment(i, x, p), AddComment(j, y, q))
  {
    EditKeepsKnown(s, AddComment(i, x, p));
    EditKeepsKnown(s, AddComment(j, y, q));
    var one, two := WithMarks(s.doc, i, x), WithMarks(s.doc, j, y);
    if i == j {
      SameDocs(WithMarks(one, j, y), two);
      assert s.comments[i := p][j := q] == s.comments[j := q];
    } else {
      SameDocs(WithMarks(one, j, y), WithMarks(two, i, x));
      assert s.comments[i := p][j := q] == s.comments[j := q][i := p];
    }
  }

  lemma AddDeleteLaw(s: FileState, i: string, x: seq<bool>, p: bool, j: string)
    requires CanEdit(s, AddComment(i, x, p))
    ensures Law(s, AddComment(i, x, p), DeleteComment(j))
  {
    EditKeepsKnown(s, AddComment(i, x, p));
    EditKeepsKnown(s, DeleteComment(j));
    var one, two := WithMarks(s.doc, i, x), Unmarked(s.doc, j);
    if i == j {
      SameDocs(Unmarked(one, j), two);
      assert s.comments[i := p] - {j} == s.comments - {j};
    } else {
      SameDocs(Unmarked(one, j), WithMarks(two, i, x));
      assert s.comments[i := p] - {j} == (s.comments - {j})[i := p];
    }
  }

  lemma AddSetLaw(s: FileState, i: string, x: seq<bool>, p: bool, j: string, q: bool)
    requires CanEdit(s, AddComment(i, x, p))
    ensures Law(s, AddComment(i, x, p), SetCommentState(j, q))
  {
    EditKeepsKnown(s, AddComment(i, x, p));
    EditKeepsKnown(s, SetCommentState(j, q));
    if i == j {
      assert s.comments[i := p][j := q] == s.comments[i := q] == s.comments[j := q][i := q];
    } else if j in s.comments {
      assert s.comments[i := p][j := q] == s.comments[j := q][i := p];
    }
  }

  lemma DeleteDeleteLaw(s: FileState, i: string, j: string)
    requires Known(s)
    ensures Law(s, DeleteComment(i), DeleteComment(j))
  {
    EditKeepsKnown(s, DeleteComment(i));
    EditKeepsKnown(s, DeleteComment(j));
    if i != j {
      SameDocs(Unmarked(Unmarked(s.doc, i), j), Unmarked(Unmarked(s.doc, j), i));
      assert s.comments - {i} - {j} == s.comments - {j} - {i};
    }
  }

  lemma DeleteSetLaw(s: FileState, i: string, j: string, q: bool)
    requires Known(s)
    ensures Law(s, DeleteComment(i), SetCommentState(j, q))
  {
    EditKeepsKnown(s, DeleteComment(i));
    EditKeepsKnown(s, SetCommentState(j, q));
    if j in s.comments {
      if i == j {
        assert s.comments[j := q] - {i} == s.comments - {i};
      } else {
        assert s.comments[j := q] - {i} == (s.comments - {i})[j := q];
      }
    }
  }

  lemma SetSetLaw(s: FileState, i: string, p: bool, j: string, q: bool)
    requires Known(s)
    ensures Law(s, SetCommentState(i, p), SetCommentState(j, q))
  {
    EditKeepsKnown(s, SetCommentState(i, p));
    EditKeepsKnown(s, SetCommentState(j, q));
    if i in s.comments && j in s.comments {
      if i == j {
        assert s.comments[i := p][j := q] == s.comments[j := q];
        assert s.comments[j := q][i := p] == s.comments[i := p];
      } else {
        assert s.comments[i := p][j := q] == s.comments[j := q][i := p];
      }
    }
  }

  lemma EditLaw(s: FileState, a: Edit, b: Edit)
    requires CanEdit(s, a) && CanEdit(s, b)
    ensures Law(s, a, b)
  {
    EditKeepsKnown(s, a);
    EditKeepsKnown(s, b);
    match (a, b)
    case (EditNoOp, _) =>
    case (_, EditNoOp) =>
    case (EditText(x), EditText(y)) => TextTextLaw(s, x, y);
    case (EditText(x), AddComment(i, m, p)) => TextAddLaw(s, x, i, m, p);
    case (AddComment(i, m, p), EditText(x)) => TextAddLaw(s, x, i, m, p);
    case (EditText(x), DeleteComment(i)) => TextDeleteLaw(s, x, i);
    case (DeleteComment(i), EditText(x)) => TextDeleteLaw(s, x, i);
    case (EditText(x), SetCommentState(i, p)) => TextSetLaw(s, x, i, p);
    case (SetCommentState(i, p), EditText(x)) => TextSetLaw(s, x, i, p);
    case (AddComment(i, x, p), AddComment(j, y, q)) => AddAddLaw(s, i, x, p, j, y, q);
    case (AddComment(i, x, p), DeleteComment(j)) => AddDeleteLaw(s, i, x, p, j);
    case (DeleteComment(j), AddComment(i, x, p)) => AddDeleteLaw(s, i, x, p, j);
    case (AddComment(i, x, p), SetCommentState(j, q)) => AddSetLaw(s, i, x, p, j, q);
    case (SetCommentState(j, q), AddComment(i, x, p)) => AddSetLaw(s, i, x, p, j, q);
    case (DeleteComment(i), DeleteComment(j)) => DeleteDeleteLaw(s, i, j);
    case (DeleteComment(i), SetCommentState(j, q)) => DeleteSetLaw(s, i, j, q);
    case (SetCommentState(j, q), DeleteComment(i)) => DeleteSetLaw(s, i, j, q);
    case (SetCommentState(i, p), SetCommentState(j, q)) => SetSetLaw(s, i, p, j, q);
  }

  /** Text, tracking, comment marks and comment states: every pair of edits satisfies the diamond. */
  lemma EditDiamond()
    ensures Diamond(FileEdits())
  {
    var ot := FileEdits();
    forall s: FileState, a: Edit, b: Edit | ot.can(s, a) && ot.can(s, b) ensures DiamondAt(ot, s, a, b) {
      EditLaw(s, a, b);
    }
  }

  // ----- which file two edits come to -----

  ghost function Outcome(s: FileState, a: Edit, b: Edit): FileState {
    ApplyEdit(ApplyEdit(s, a), TransformEdits(a, b).1)
  }

  predicate Adds(e: Edit, id: string) { e.AddComment? && e.id == id }

  predicate Deletes(e: Edit, id: string) { e.DeleteComment? && e.id == id }

  predicate Sets(e: Edit, id: string) { e.SetCommentState? && e.id == id }

  /** Whether the file has the comment, and whether it is resolved. */
  function StateOf(s: FileState, id: string): Option<bool> {
    if id in s.comments then Some(s.comments[id]) else None
  }

  /**
    A comment that either edit deletes is gone. Of two edits that add it the second
    counts, but a state set by the other edit wins over the one it is added with.
    Of two states, resolved needs both.
  */
  ghost function MergedState(s: FileState, a: Edit, b: Edit, id: string): Option<bool> {
    if Deletes(a, id) || Deletes(b, id) then None
    else if Adds(b, id) then Some(if Sets(a, id) then a.resolved else b.resolved)
    else if Adds(a, id) then Some(if Sets(b, id) then b.resolved else a.resolved)
    else if id !in s.comments then None
    else if Sets(a, id) then Some(a.resolved && (Sets(b, id) ==> b.resolved))
    else if Sets(b, id) then Some(b.resolved)
    else Some(s.comments[id])
  }

  /** The text of both, with the tracking it has and the marks of the comments that were there. */
  ghost function MergedText(s: FileState, a: Edit, b: Edit): Doc
    requires CanEdit(s, a) && CanEdit(s, b)
  {
    match (a, b)
    case (EditText(x), EditText(y)) => TextMerge.Merged(x, y, s.doc)
    case (EditText(x), _) => ApplyOps(x, s.doc)
    case (_, EditText(y)) => ApplyOps(y, s.doc)
    case _ => s.doc
  }

  /** An added comment has its own marks, carried through what the other edit types; of two the second counts. */
  ghost function MergedMarks(s: FileState, a: Edit, b: Edit, id: string): seq<bool>
    requires CanEdit(s, a) && CanEdit(s, b)
  {
    if Adds(b, id) then (if a.EditText? then MovedMarks(a.ops, b.marks, id) else b.marks)
    else if Adds(a, id) then (if b.EditText? then MovedMarks(b.ops, a.marks, id) else a.marks)
    else MarksOf(MergedText(s, a, b), id)
  }

  /** The file has the merged text, the comment has the merged state, and if it is there, the merged marks. */
  ghost predicate IsMerged(t: FileState, s: FileState, a: Edit, b: Edit, id: string)
    requires CanEdit(s, a) && CanEdit(s, b)
  {
    && Alike(t.doc, MergedText(s, a, b))
    && StateOf(t, id) == MergedState(s, a, b, id)
    && (StateOf(t, id).Some? ==> MarksOf(t.doc, id) == MergedMarks(s, a, b, id))
  }

  lemma TextTextMerges(s: FileState, x: seq<ScanOp>, y: seq<ScanOp>, id: string)
    requires CanEdit(s, EditText(x)) && CanEdit(s, EditText(y))
    ensures IsMerged(Outcome(s, EditText(x), EditText(y)), s, EditText(x), EditText(y), id)
  {
    var ids, r := s.comments.Keys, TransformOps(x, y);
    TextTextLaw(s, x, y);
    TextMerge.TransformMerges(x, y, s.doc);
    MaskThrough(r.1, ApplyOps(x, s.doc), ids);
  }

  lemma TextFirstMerges(s: FileState, x: seq<ScanOp>, b: Edit, id: string)
    requires CanEdit(s, EditText(x)) && CanEdit(s, b) && !b.EditText?
    ensures IsMerged(Outcome(s, EditText(x), b), s, EditText(x), b, id)
  {
    EditLaw(s, EditText(x), b);
  }

  lemma TextSecondMerges(s: FileState, a: Edit, y: seq<ScanOp>, id: string)
    requires CanEdit(s, a) && CanEdit(s, EditText(y)) && !a.EditText?
    ensures IsMerged(Outcome(s, a, EditText(y)), s, a, EditText(y), id)
  {
    EditLaw(s, a, EditText(y));
    TextFirstMerges(s, y, a, id);
  }

  lemma CommentsMerge(s: FileState, a: Edit, b: Edit, id: string)
    requires CanEdit(s, a) && CanEdit(s, b) && !a.EditText? && !b.EditText?
    ensures IsMerged(Outcome(s, a, b), s, a, b, id)
  {
    EditLaw(s, a, b);
    var t, c := ApplyEdit(s, a), TransformEdits(a, b).1;
    assert Outcome(s, a, b) == ApplyEdit(t, c) && MergedText(s, a, b) == s.doc;
    hide ApplyEdit, CanEdit, MovedMarks, MarksOf, Outcome, MergedText;
    OnComment(s, a, id);
    OnComment(t, c, id);
    AlikeTrans(ApplyEdit(t, c).doc, t.doc, s.doc);
  }

  lemma AlikeTrans(d: Doc, e: Doc, f: Doc)
    requires Alike(d, e) && Alike(e, f)
    ensures Alike(d, f)
  {
  }

  /** What an edit of comments does to one comment. */
  lemma OnComment(s: FileState, e: Edit, id: string)
    requires CanEdit(s, e) && !e.EditText?
    ensures var t := ApplyEdit(s, e);
      && Alike(t.doc, s.doc)
      && StateOf(t, id) == (if Adds(e, id) then Some(e.resolved)
                            else if Deletes(e, id) then None
                            else if Sets(e, id) && id in s.comments then Some(e.resolved)
                            else StateOf(s, id))
      && (!Deletes(e, id) ==> MarksOf(t.doc, id) == if Adds(e, id) then e.marks else MarksOf(s.doc, id))
  {
  }

  /**
    What two edits come to, said without transforming either: the merged text, and
    for every comment its merged state and marks; no other comment leaves a mark.
  */
  lemma EditsMerge(s: FileState, a: Edit, b: Edit)
    requires CanEdit(s, a) && CanEdit(s, b)
    ensures Known(Outcome(s, a, b)) && forall id :: IsMerged(Outcome(s, a, b), s, a, b, id)
  {
    EditLaw(s, a, b);
    EditKeepsKnown(ApplyEdit(s, a), TransformEdits(a, b).1);
    forall id ensures IsMerged(Outcome(s, a, b), s, a, b, id) {
      match (a, b)
      case (EditText(x), EditText(y)) => TextTextMerges(s, x, y, id);
      case (EditText(x), _) => TextFirstMerges(s, x, b, id);
      case (_, EditText(y)) => TextSecondMerges(s, a, y, id);
      case _ => CommentsMerge(s, a, b, id);
    }
  }

  // ----- the ranges behind the marks -----

  ghost predicate Shows(ranges: seq<Range>, marks: seq<bool>) {
    forall i {:trigger Comments.Marked(ranges, i)} :: Comments.Marked(ranges, i) <==> 0 <= i < |marks| && marks[i]
  }

  /** The transform of an added comment: its ranges are moved as those of any comment are. */
  method MoveAddedComment(id: string, ranges: seq<Range>, resolved: bool, ops: seq<ScanOp>, ghost marks: seq<bool>)
    returns (r: Result<Comments.Comment, Comments.CommentError>)
    requires Comments.Clean(ranges) && Base(Atoms(ops)) == |marks|
    requires Shows(ranges, marks)
    ensures r.Ok? && r.value.id == id && r.value.resolved == resolved && Comments.Canonical(r.value.ranges)
    ensures Shows(r.value.ranges, MovedMarks(ops, marks, id))
  {
    var original := Comments.NewComment(id, ranges, resolved);
    ghost var bare := Bare(marks, id);
    assert Comments.ShowsComment(original.value.ranges, bare, id);
    r := Comments.ApplyTextOperation(original.value, ops, id, bare);
  }
}
