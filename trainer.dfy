/** The quiz controller of the trainer component: the positions in play for the
    selected notes, the random draw, and the three state transitions (filter change,
    answer, and the feedback timer firing). */
module Trainer {
  import opened Wrappers
  import opened Sequences
  import opened Fretboard
  import Notes

  /** `positions.filter(pos => notes.includes(pos.note))`. */
  function FilterByNotes(positions: seq<Position>, notes: seq<string>): (r: seq<Position>)
    ensures forall p :: p in r <==> p in positions && p.note in notes
    ensures |r| <= |positions|
  {
    if positions == [] then []
    else
      (if positions[0].note in notes then [positions[0]] else [])
      + FilterByNotes(positions[1..], notes)
  }

  /** The filter keeps the surviving positions in their original order. */
  lemma {:induction false} FilterIsSubsequence(positions: seq<Position>, notes: seq<string>)
    ensures IsSubsequence(FilterByNotes(positions, notes), positions)
    decreases |positions|
  {
    if positions != [] {
      var rest := FilterByNotes(positions[1..], notes);
      FilterIsSubsequence(positions[1..], notes);
      if positions[0].note in notes {
        assert FilterByNotes(positions, notes) == [positions[0]] + rest;
        assert ([positions[0]] + rest)[1..] == rest;
      } else {
        assert FilterByNotes(positions, notes) == rest;
        if rest != [] {
          assert IsSubsequence(rest, positions[1..]);
        }
      }
    }
  }

  /** A subsequence of an ordered sequence is ordered. */
  lemma {:induction false} SubsequenceOrdered(a: seq<Position>, b: seq<Position>)
    requires IsSubsequence(a, b) && Ordered(b)
    ensures Ordered(a)
    decreases |b|
  {
    if a != [] {
      if a[0] == b[0] && IsSubsequence(a[1..], b[1..]) {
        SubsequenceOrdered(a[1..], b[1..]);
        forall j | 1 <= j < |a|
          ensures Before(a[0], a[j])
        {
          SubsequenceMembers(a[1..], b[1..], a[j]);
          var k :| 0 <= k < |b[1..]| && b[1..][k] == a[j];
          assert b[k + 1] == a[j];
        }
      } else {
        SubsequenceOrdered(a, b[1..]);
      }
    }
  }

  /** The positions in play: an order-preserving selection of the table whose notes
      are all selected. */
  lemma FilteredTable(notes: seq<string>)
    ensures IsSubsequence(FilterByNotes(NaturalPositions(), notes), NaturalPositions())
    ensures Ordered(FilterByNotes(NaturalPositions(), notes))
    ensures forall p :: p in FilterByNotes(NaturalPositions(), notes) ==> p.note in notes
  {
    FilterIsSubsequence(NaturalPositions(), notes);
    NaturalPositionsOrdered();
    SubsequenceOrdered(FilterByNotes(NaturalPositions(), notes), NaturalPositions());
  }

  /** A selection holding at least one natural note leaves something to draw from. */
  lemma FilterNonEmpty(notes: seq<string>, n: string)
    requires n in notes && n in Notes.Naturals
    ensures FilterByNotes(NaturalPositions(), notes) != []
  {
    EveryNaturalOccurs(n);
    var p :| p in NaturalPositions() && p.note == n;
    assert p in FilterByNotes(NaturalPositions(), notes);
  }

  /** `getRandomInt(lo, hi)`: `Math.floor(Math.random() * (hi - lo + 1)) + lo`, with the
      random factor left as a nondeterministic choice. For `hi == lo - 1` (an empty
      range) the product is 0 and the result is `lo`. */
  method RandomInt(lo: int, hi: int) returns (r: int)
    requires lo <= hi + 1
    ensures lo <= hi ==> lo <= r <= hi
    ensures hi < lo ==> r == lo
  {
    if lo <= hi {
      r :| lo <= r <= hi;
    } else {
      r := lo;
    }
  }

  /** `pool[getRandomInt(0, pool.length - 1)]`: some element of the pool, or
      `undefined` when the pool is empty (index 0 of an empty array). */
  method DrawPosition(pool: seq<Position>) returns (c: Option<Position>)
    ensures pool != [] ==> c.Some? && c.value in pool
    ensures pool == [] ==> c == None
  {
    var idx := RandomInt(0, |pool| - 1);
    c := ElementAt(pool, idx);
  }

  /** The trainer component's state. `pendingPool` stands for the feedback timer:
      when one is scheduled it holds the filtered table that the timer's callback
      closed over. */
  class Quiz {
    var selectedNotes: seq<string>
    var current: Option<Position>
    var result: Option<bool>
    var isDisabled: bool
    var pendingPool: Option<seq<Position>>

    /** Input is locked exactly while a timer is pending; feedback is shown only while
        locked; every position shown or waiting to be drawn comes from the table. */
    ghost predicate Valid()
      reads this
    {
      && (isDisabled <==> pendingPool.Some?)
      && (result.Some? ==> isDisabled)
      && (current.Some? ==> current.value in NaturalPositions())
      && (pendingPool.Some? ==> forall p :: p in pendingPool.value ==> p in NaturalPositions())
    }

    /** `filteredPositions` of the current render: the table entries whose note is selected. */
    function FilteredPositions(): (r: seq<Position>)
      reads this
      ensures forall p :: p in r <==> p in NaturalPositions() && p.note in selectedNotes
    {
      FilterByNotes(NaturalPositions(), selectedNotes)
    }

    /** The initial state: Sol and La selected, nothing shown, input unlocked. */
    constructor ()
      ensures Valid()
      ensures selectedNotes == ["Sol", "La"] && current == None && result == None
      ensures !isDisabled && pendingPool == None
    {
      selectedNotes := ["Sol", "La"];
      current := None;
      result := None;
      isDisabled := false;
      pendingPool := None;
    }

    /** `handleNotesChange`: adopt the new selection, draw a position from the table
        filtered by it and clear the feedback. The lock and a pending timer stay. */
    method HandleNotesChange(notes: seq<string>)
      requires Valid()
      modifies this
      ensures Valid()
      ensures selectedNotes == notes && result == None
      ensures isDisabled == old(isDisabled) && pendingPool == old(pendingPool)
      ensures FilteredPositions() != [] ==> current.Some? && current.value in FilteredPositions()
      ensures FilteredPositions() == [] ==> current == None
    {
      selectedNotes := notes;
      var newFilteredPositions := FilterByNotes(NaturalPositions(), notes);
      current := DrawPosition(newFilteredPositions);
      result := None;
    }

    /** `handleSelect`: ignored while locked or when nothing is shown; otherwise record
        whether the answer is right, lock input and schedule the timer, which keeps
        the filtered table of this moment. */
    method HandleSelect(note: string)
      requires Valid()
      modifies this
      ensures Valid()
      ensures old(isDisabled) || old(current) == None ==> unchanged(this)
      ensures !old(isDisabled) && old(current).Some? ==>
        && result == Some(note == old(current).value.note)
        && isDisabled
        && pendingPool == Some(old(FilteredPositions()))
        && current == old(current) && selectedNotes == old(selectedNotes)
    {
      if isDisabled || current == None {
        return;
      }
      result := Some(note == current.value.note);
      isDisabled := true;
      pendingPool := Some(FilteredPositions());
    }

    /** The timer callback: draw from the pool captured when the answer was given, clear
        the feedback and unlock input. */
    method TimerFires()
      requires Valid() && pendingPool.Some?
      modifies this
      ensures Valid()
      ensures result == None && !isDisabled && pendingPool == None
      ensures selectedNotes == old(selectedNotes)
      ensures old(pendingPool.value) != [] ==> current.Some? && current.value in old(pendingPool.value)
      ensures old(pendingPool.value) == [] ==> current == None
    {
      current := DrawPosition(pendingPool.value);
      result := None;
      isDisabled := false;
      pendingPool := None;
    }
  }

  /** A timer still pending when the filter changes draws from the old filter. Answer
      while `before` is selected (it holds a natural note `n`, so a position is shown),
      switch to a disjoint selection `after`, and once the timer fires the position
      shown has a note of `before`, outside the selection now in force. */
  method StaleTimerDraw(before: seq<string>, after: seq<string>, n: string, answer: string)
    returns (shown: Position, selection: seq<string>)
    requires n in before && n in Notes.Naturals
    requires forall x :: x in before ==> x !in after
    ensures selection == after
    ensures shown.note in before && shown.note !in selection
  {
    var quiz := new Quiz();
    FilterNonEmpty(before, n);
    quiz.HandleNotesChange(before);
    quiz.HandleSelect(answer);
    quiz.HandleNotesChange(after);
    quiz.TimerFires();
    shown := quiz.current.value;
    selection := quiz.selectedNotes;
  }
}
