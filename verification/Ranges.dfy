/**
  Ranges over a text (overleaf-editor-core: range.js). A precondition here is
  the condition under which the source does not throw.
*/
module Ranges {
  import opened Common

  datatype Range = Range(pos: nat, length: nat) {
    function Start(): nat { pos }

    function End(): nat { pos + length }

    predicate Covers(i: int) { pos <= i < pos + length }

    predicate IsEmpty() { length == 0 }

    predicate StartsAfter(other: Range) { Start() >= other.End() }

    predicate StartIsAfter(cursor: int) { Start() > cursor }

    predicate Contains(other: Range) { Start() <= other.Start() && End() >= other.End() }

    predicate ContainsCursor(cursor: int) { Start() <= cursor <= End() }

    predicate Overlaps(other: Range) { Start() < other.End() && End() > other.Start() }

    predicate Touches(other: Range) { End() == other.Start() || Start() == other.End() }

    predicate CanMerge(other: Range) { Overlaps(other) || Touches(other) }

    function Merge(other: Range): Range
      requires CanMerge(other)
    {
      var newPos := Min(pos, other.pos);
      Range(newPos, Max(End(), other.End()) - newPos)
    }

    function MoveBy(n: int): Range
      requires 0 <= pos + n
    {
      Range(pos + n, length)
    }

    function ExtendBy(n: nat): Range { Range(pos, length + n) }

    function ShrinkBy(n: nat): Range
      requires n <= length
    {
      Range(pos, length - n)
    }

    function InsertAt(cursor: nat, n: nat): (Range, Range, Range)
      requires ContainsCursor(cursor)
    {
      var upTo := Range(pos, cursor - pos);
      (upTo, Range(cursor, n), Range(cursor + n, length - upTo.length))
    }

    function SplitAt(cursor: nat): (Range, Range)
      requires ContainsCursor(cursor)
    {
      var upTo := Range(pos, cursor - pos);
      (upTo, Range(cursor, length - upTo.length))
    }

    function Subtract(other: Range): Range {
      if Contains(other) then ShrinkBy(other.length)
      else if other.Contains(this) then Range(pos, 0)
      else if other.Overlaps(this) then
        if other.Start() < Start() then Range(other.pos, length - (other.End() - Start()))
        else Range(pos, length - (End() - other.Start()))
      else this
    }
  }
}
