/** The flattened view over a nest of ranges and its cursor, with erasure and insertion at the cursor. */
module RangeNest {
  import opened Sequences

  /** The elements of the nest in order. */
  function Flatten<T>(nest: seq<seq<T>>): seq<T> {
    if nest == [] then [] else Flatten(Init(nest)) + Last(nest)
  }

  /** Number of elements before range r. */
  function Offset<T>(nest: seq<seq<T>>, r: nat): nat
    requires r <= |nest|
  {
    |Flatten(nest[..r])|
  }

  lemma OffsetStep<T>(nest: seq<seq<T>>, r: nat)
    requires r < |nest|
    ensures Offset(nest, r + 1) == Offset(nest, r) + |nest[r]|
  {
    assert Init(nest[..r + 1]) == nest[..r];
  }

  lemma ConcatAssoc<T>(a: seq<T>, b: seq<T>, c: seq<T>)
    ensures (a + b) + c == a + (b + c)
  {
  }

  lemma {:induction false} FlattenSplit<T>(nest: seq<seq<T>>, r: nat)
    requires r <= |nest|
    ensures Flatten(nest) == Flatten(nest[..r]) + Flatten(nest[r..])
    decreases |nest|
  {
    if r == |nest| {
      assert nest[..r] == nest && nest[r..] == [];
    } else {
      FlattenSplit(Init(nest), r);
      var b := nest[r..];
      assert Init(nest)[..r] == nest[..r] && Init(nest)[r..] == Init(b) && Last(b) == Last(nest);
      ConcatAssoc(Flatten(nest[..r]), Flatten(Init(b)), Last(b));
    }
  }

  /** The flattened nest around range r. */
  lemma FlattenAround<T>(nest: seq<seq<T>>, r: nat)
    requires r < |nest|
    ensures Flatten(nest) == Flatten(nest[..r]) + nest[r] + Flatten(nest[r + 1..])
  {
    FlattenSplit(nest, r + 1);
    assert Init(nest[..r + 1]) == nest[..r];
  }

  lemma OffsetWhole<T>(nest: seq<seq<T>>)
    ensures Offset(nest, |nest|) == |Flatten(nest)|
  {
    assert nest[..|nest|] == nest;
  }

  lemma {:induction false} OffsetBound<T>(nest: seq<seq<T>>, r: nat)
    requires r <= |nest|
    ensures Offset(nest, r) <= |Flatten(nest)|
  {
    FlattenSplit(nest, r);
  }

  /** Position e of range r is element k of the flattened nest. */
  ghost predicate IsPosition<T>(nest: seq<seq<T>>, r: nat, e: nat, k: nat) {
    r < |nest| && e < |nest[r]| && k == Offset(nest, r) + e
  }

  lemma ElementAt<T>(nest: seq<seq<T>>, r: nat, e: nat, k: nat)
    requires IsPosition(nest, r, e, k)
    ensures k < |Flatten(nest)| && Flatten(nest)[k] == nest[r][e]
  {
    FlattenAround(nest, r);
  }

  /** Erasing at a position erases that element of the flattened nest. */
  lemma FlattenErase<T>(nest: seq<seq<T>>, r: nat, e: nat, k: nat)
    requires IsPosition(nest, r, e, k)
    ensures k < |Flatten(nest)|
    ensures Flatten(nest[r := Erase(nest[r], e)]) == Erase(Flatten(nest), k)
  {
    var after := nest[r := Erase(nest[r], e)];
    FlattenAround(nest, r);
    FlattenAround(after, r);
    assert after[..r] == nest[..r] && after[r + 1..] == nest[r + 1..];
  }

  /** Ranges before r are not affected by what happens to r. */
  lemma OffsetUpdate<T>(nest: seq<seq<T>>, r: nat, range: seq<T>, q: nat)
    requires r < |nest| && q <= r
    ensures Offset(nest[r := range], q) == Offset(nest, q)
  {
    assert nest[r := range][..q] == nest[..q];
  }

  /** A position of the view, advanced in place. It points past the last range at the end. */
  class Cursor<T> {
    var rangeIter: nat
    var elemIter: nat
    var ordinal: nat

    /** The cursor is element ordinal of the flattened nest, or at its end. */
    ghost predicate PointsInto(nest: seq<seq<T>>)
      reads this
    {
      if rangeIter < |nest| then IsPosition(nest, rangeIter, elemIter, ordinal)
      else rangeIter == |nest| && ordinal == |Flatten(nest)|
    }

    /** The first element. */
    constructor Begin(nest: seq<seq<T>>)
      ensures PointsInto(nest) && ordinal == 0
      ensures rangeIter == |nest| <==> Flatten(nest) == []
    {
      rangeIter, elemIter, ordinal := 0, 0, 0;
      new;
      while rangeIter < |nest| && nest[rangeIter] == []
        invariant elemIter == 0 && ordinal == 0 && rangeIter <= |nest|
        invariant Offset(nest, rangeIter) == 0
      {
        OffsetStep(nest, rangeIter);
        rangeIter := rangeIter + 1;
      }
      OffsetWhole(nest);
      if rangeIter < |nest| { ElementAt(nest, rangeIter, 0, 0); }
    }

    constructor CopyOf(other: Cursor<T>)
      ensures rangeIter == other.rangeIter && elemIter == other.elemIter && ordinal == other.ordinal
    {
      rangeIter, elemIter, ordinal := other.rangeIter, other.elemIter, other.ordinal;
    }

    /** The next element, skipping empty ranges. */
    method Next(nest: seq<seq<T>>)
      requires PointsInto(nest) && rangeIter < |nest|
      modifies this
      ensures PointsInto(nest) && ordinal == old(ordinal) + 1
      ensures rangeIter >= old(rangeIter)
      ensures rangeIter == |nest| <==> ordinal == |Flatten(nest)|
    {
      ElementAt(nest, rangeIter, elemIter, ordinal);
      ordinal := ordinal + 1;
      elemIter := elemIter + 1;
      if elemIter == |nest[rangeIter]| {
        OffsetStep(nest, rangeIter);
        rangeIter := rangeIter + 1;
        while rangeIter < |nest| && nest[rangeIter] == []
          invariant old(rangeIter) <= rangeIter <= |nest| && ordinal == old(ordinal) + 1
          invariant Offset(nest, rangeIter) == ordinal
        {
          OffsetStep(nest, rangeIter);
          rangeIter := rangeIter + 1;
        }
        if rangeIter < |nest| { elemIter := 0; }
      }
      OffsetWhole(nest);
      if rangeIter < |nest| { ElementAt(nest, rangeIter, elemIter, ordinal); }
    }

    /** The nest without the element at the cursor. */
    method EraseAt(nest: seq<seq<T>>) returns (after: seq<seq<T>>)
      requires PointsInto(nest) && rangeIter < |nest|
      ensures after == nest[rangeIter := Erase(nest[rangeIter], elemIter)]
      ensures ordinal < |Flatten(nest)| && Flatten(after) == Erase(Flatten(nest), ordinal)
    {
      FlattenErase(nest, rangeIter, elemIter, ordinal);
      after := nest[rangeIter := nest[rangeIter][..elemIter] + nest[rangeIter][elemIter + 1..]];
    }

    /** The nest with x placed before the position of the cursor. */
    method InsertAt(nest: seq<seq<T>>, x: T) returns (after: seq<seq<T>>)
      requires rangeIter < |nest| && elemIter <= |nest[rangeIter]|
      ensures after == nest[rangeIter := Insert(nest[rangeIter], elemIter, x)]
    {
      after := nest[rangeIter := nest[rangeIter][..elemIter] + [x] + nest[rangeIter][elemIter..]];
    }
  }

  /** Inserting what was erased restores the nest. */
  lemma InsertRestores<T>(nest: seq<seq<T>>, r: nat, e: nat)
    requires r < |nest| && e < |nest[r]|
    ensures var erased := nest[r := Erase(nest[r], e)];
            erased[r := Insert(erased[r], e, nest[r][e])] == nest
  {
    assert Insert(Erase(nest[r], e), e, nest[r][e]) == nest[r];
  }
}
