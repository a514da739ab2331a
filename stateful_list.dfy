/** The selectable list behind both panels of the reader (`util::StatefulList`): an ordered
    sequence of items plus an optional selected row, with cyclic movement. */
module StatefulLists {
  import opened Wrappers

  datatype StatefulList<T> = StatefulList(items: seq<T>, selected: Option<nat>) {

    /** The selected row, when there is one, is a row of the list. */
    predicate Valid() {
      selected.Some? ==> selected.value < |items|
    }

    /** The selected item, if a row is selected and it exists. */
    function SelectedItem(): (r: Option<T>)
      ensures r.Some? <==> selected.Some? && selected.value < |items|
      ensures r.Some? ==> r.value == items[selected.value]
    {
      if selected.Some? && selected.value < |items| then Some(items[selected.value]) else None
    }

    /** `next`: one row down, wrapping from the last row to the first; the first row when nothing
        is selected yet; nothing at all on an empty list. */
    function Next(): (r: StatefulList<T>)
      ensures r.items == items
      ensures items == [] ==> r == this
      ensures items != [] ==> r.Valid() && r.selected.Some?
      ensures items != [] && selected.None? ==> r.selected == Some(0)
      ensures items != [] && Valid() && selected.Some? ==>
        r.selected == Some((selected.value + 1) % |items|)
    {
      if items == [] then this
      else match selected
        case None => this.(selected := Some(0))
        case Some(i) => this.(selected := Some(if i >= |items| - 1 then 0 else i + 1))
    }

    /** `previous`: one row up, wrapping from the first row to the last; the first row when
        nothing is selected yet; nothing at all on an empty list. */
    function Previous(): (r: StatefulList<T>)
      ensures r.items == items
      ensures items == [] ==> r == this
      ensures items != [] && Valid() ==> r.Valid() && r.selected.Some?
      ensures items != [] && selected.None? ==> r.selected == Some(0)
      ensures items != [] && Valid() && selected.Some? ==>
        r.selected == Some((selected.value + |items| - 1) % |items|)
    {
      if items == [] then this
      else match selected
        case None => this.(selected := Some(0))
        case Some(i) => this.(selected := Some(if i == 0 then |items| - 1 else i - 1))
    }
  }

  /** `previous` undoes `next` and `next` undoes `previous` on a list with a selected row. */
  lemma NextPreviousRoundTrip<T>(l: StatefulList<T>)
    requires l.Valid() && l.items != [] && l.selected.Some?
    ensures l.Next().Previous() == l
    ensures l.Previous().Next() == l
  {
  }

  /** `next` applied `k` times. */
  function Advance<T>(l: StatefulList<T>, k: nat): (r: StatefulList<T>)
    decreases k
    ensures r.items == l.items
  {
    if k == 0 then l else Advance(l.Next(), k - 1)
  }

  /** Moving down `a + b` times is moving down `a` times and then `b` times. */
  lemma {:induction false} AdvanceAdd<T>(l: StatefulList<T>, a: nat, b: nat)
    ensures Advance(l, a + b) == Advance(Advance(l, a), b)
    decreases a
  {
    if a > 0 {
      AdvanceAdd(l.Next(), a - 1, b);
    }
  }

  /** Short of the last row, moving down `k` times from row `i` lands on row `i + k`. */
  lemma {:induction false} AdvanceWithin<T>(l: StatefulList<T>, k: nat)
    requires l.Valid() && l.selected.Some? && l.selected.value + k < |l.items|
    ensures Advance(l, k) == l.(selected := Some(l.selected.value + k))
    decreases k
  {
    if k > 0 {
      AdvanceWithin(l.Next(), k - 1);
    }
  }

  /** A full round of `|items|` moves down returns to the row it started from: the movement is
      cyclic. */
  lemma FullCycle<T>(l: StatefulList<T>)
    requires l.Valid() && l.items != [] && l.selected.Some?
    ensures Advance(l, |l.items|) == l
  {
    var n, i := |l.items|, l.selected.value;
    var last := l.(selected := Some(n - 1));
    var first := l.(selected := Some(0));
    AdvanceAdd(l, n - 1 - i, i + 1);
    AdvanceWithin(l, n - 1 - i);
    assert Advance(l, n) == Advance(last, i + 1);
    AdvanceAdd(last, 1, i);
    assert Advance(last, 1) == last.Next() == first;
    AdvanceWithin(first, i);
    assert first.(selected := Some(i)) == l;
  }
}
