/** The note filter panel: which natural notes are in play (never fewer than two
    through a click), persisted under one key of the browser's key-value store and
    reported to the trainer on every change. */
module NoteFilter {
  import opened Sequences
  import Notes

  /** The store key holding the saved selection. */
  const StorageKey: string := "selectedNotes"

  /** The selection before anything is restored, and the fallback for a short saved list. */
  const DefaultSelection: seq<string> := ["Sol", "La"]

  /** A click never takes the selection below this many notes. */
  const MinSelected := 2

  /** `selected.filter(n => n !== note)`: every copy of `note` goes, and every other entry
      stays with its multiplicity (`WithoutCounts`) and in its order (`WithoutIsSubsequence`). */
  function Without(selected: seq<string>, note: string): (r: seq<string>)
    ensures forall x :: x in r <==> x in selected && x != note
    ensures |r| <= |selected|
    ensures note in selected ==> |r| < |selected|
  {
    if selected == [] then []
    else (if selected[0] != note then [selected[0]] else []) + Without(selected[1..], note)
  }

  /** The selection after clicking the button of `note`: a selected note is removed
      while more than two are selected and kept otherwise; an unselected note is
      appended. */
  function Toggle(selected: seq<string>, note: string): (r: seq<string>)
    ensures forall x :: x != note ==> (x in r <==> x in selected)
    ensures note in r <==> note !in selected || |selected| <= MinSelected
  {
    if note in selected then
      if |selected| > MinSelected then Without(selected, note) else selected
    else selected + [note]
  }

  /** The click that leaves the selection as it is (same array, so nothing re-renders):
      exactly the clicks whose toggle changes nothing. */
  predicate IsFloorNoOp(selected: seq<string>, note: string): (b: bool)
    ensures b <==> Toggle(selected, note) == selected
  {
    note in selected && |selected| <= MinSelected
  }

  /** Filtering drops every copy of `note` and keeps every other entry with its
      multiplicity. */
  lemma {:induction false} WithoutCounts(s: seq<string>, note: string)
    ensures multiset(Without(s, note)) == multiset(s)[note := 0]
    decreases |s|
  {
    if s != [] {
      WithoutCounts(s[1..], note);
      assert s == [s[0]] + s[1..];
    }
  }

  /** Filtering keeps the surviving entries in their original order. */
  lemma {:induction false} WithoutIsSubsequence(s: seq<string>, note: string)
    ensures IsSubsequence(Without(s, note), s)
    decreases |s|
  {
    if s != [] {
      var rest := Without(s[1..], note);
      WithoutIsSubsequence(s[1..], note);
      if s[0] != note {
        assert Without(s, note) == [s[0]] + rest;
        assert ([s[0]] + rest)[1..] == rest;
      } else {
        assert Without(s, note) == rest;
        if rest != [] {
          assert IsSubsequence(rest, s[1..]);
        }
      }
    }
  }

  lemma {:induction false} WithoutAbsent(s: seq<string>, note: string)
    requires note !in s
    ensures Without(s, note) == s
  {
    if s != [] {
      WithoutAbsent(s[1..], note);
    }
  }

  /** Dropping the only occurrence of `note`, at index `i`, keeps the others in order. */
  lemma {:induction false} WithoutAt(s: seq<string>, note: string, i: int)
    requires NoDuplicates(s) && 0 <= i < |s| && s[i] == note
    ensures Without(s, note) == s[..i] + s[i + 1..]
  {
    if i == 0 {
      assert note !in s[1..];
      WithoutAbsent(s[1..], note);
    } else {
      WithoutAt(s[1..], note, i - 1);
      assert s[1..][..i - 1] == s[1..i] && s[1..][i..] == s[i + 1..];
      assert [s[0]] + s[1..i] == s[..i];
    }
  }

  /** Clicking a selected note while more than two are selected removes exactly that
      note and keeps the others in their order. */
  lemma ToggleRemoves(s: seq<string>, note: string, i: int)
    requires NoDuplicates(s) && |s| > MinSelected
    requires 0 <= i < |s| && s[i] == note
    ensures Toggle(s, note) == s[..i] + s[i + 1..]
  {
    WithoutAt(s, note, i);
  }

  /** Clicking a selected note while more than two are selected, repeats or not, drops
      every copy of it and keeps the rest, with their repeats, in their order. */
  lemma ToggleFilters(s: seq<string>, note: string)
    requires note in s && |s| > MinSelected
    ensures IsSubsequence(Toggle(s, note), s)
    ensures multiset(Toggle(s, note)) == multiset(s)[note := 0]
  {
    WithoutIsSubsequence(s, note);
    WithoutCounts(s, note);
  }

  /** Clicking a selected note while at most two are selected changes nothing. */
  lemma ToggleAtFloor(s: seq<string>, note: string)
    requires note in s && |s| <= MinSelected
    ensures Toggle(s, note) == s
  {
  }

  /** Clicking an unselected note appends it and changes nothing else. */
  lemma ToggleAppends(s: seq<string>, note: string)
    requires note !in s
    ensures Toggle(s, note) == s + [note]
  {
  }

  /** A selection of at least two distinct notes keeps at least two after any click. */
  lemma ToggleKeepsFloor(s: seq<string>, note: string)
    requires NoDuplicates(s) && |s| >= MinSelected
    ensures |Toggle(s, note)| >= MinSelected
  {
    if note in s && |s| > MinSelected {
      var i :| 0 <= i < |s| && s[i] == note;
      ToggleRemoves(s, note, i);
    }
  }

  /** The floor needs distinct entries: restore adopts a saved list verbatim, and a saved
      list with a repeated note, such as `[a, a, b]`, drops to one note on a single click. */
  lemma ToggleFloorNeedsDistinct(a: string, b: string)
    requires a != b
    ensures Toggle([a, a, b], a) == [b]
  {
    assert [b][1..] == [] && [a, b][1..] == [b] && [a, a, b][1..] == [a, b];
    assert Without([b], a) == [b] + Without([], a) == [b];
    assert Without([a, b], a) == Without([b], a);
    assert Without([a, a, b], a) == Without([a, b], a);
  }

  /** Clicks keep a selection made of distinct natural notes that way. */
  lemma ToggleKeepsWellFormed(s: seq<string>, note: string)
    requires NoDuplicates(s) && Notes.AllNatural(s) && note in Notes.Naturals
    ensures NoDuplicates(Toggle(s, note)) && Notes.AllNatural(Toggle(s, note))
  {
    if note in s && |s| > MinSelected {
      var i :| 0 <= i < |s| && s[i] == note;
      ToggleRemoves(s, note, i);
      RemoveAtNoDuplicates(s, i);
    }
  }

  /** The mount-time restore: a saved list of at least two entries is adopted as it
      is, a shorter one gives the default, and without a saved entry `current` stays. */
  function Restored(store: map<string, seq<string>>, current: seq<string>): (r: seq<string>)
    ensures r == current || r == DefaultSelection || (StorageKey in store && r == store[StorageKey])
    ensures StorageKey in store ==> |r| >= MinSelected
    ensures |current| >= MinSelected ==> |r| >= MinSelected
  {
    if StorageKey in store then
      if |store[StorageKey]| >= MinSelected then store[StorageKey] else DefaultSelection
    else current
  }

  lemma RestoreCases(store: map<string, seq<string>>, current: seq<string>)
    ensures StorageKey !in store ==> Restored(store, current) == current
    ensures StorageKey in store && |store[StorageKey]| >= MinSelected ==>
      Restored(store, current) == store[StorageKey]
    ensures StorageKey in store && |store[StorageKey]| < MinSelected ==>
      Restored(store, current) == ["Sol", "La"]
    ensures |current| >= MinSelected ==> |Restored(store, current)| >= MinSelected
  {
  }

  /** What a click writes is what the next restore reads back, whenever the selection
      clicked on held at least two distinct notes. */
  lemma SavedSelectionRestores(store: map<string, seq<string>>, s: seq<string>, note: string, current: seq<string>)
    requires NoDuplicates(s) && |s| >= MinSelected
    ensures Restored(store[StorageKey := Toggle(s, note)], current) == Toggle(s, note)
  {
    ToggleKeepsFloor(s, note);
  }

  /** The filter component's state: its selection, the key-value store, and the
      selections reported through `onSelect`, oldest first. */
  class Filter {
    var selectedNotes: seq<string>
    var store: map<string, seq<string>>
    var reported: seq<seq<string>>

    /** The trainer has been told the current selection last. */
    ghost predicate Valid()
      reads this
    {
      |reported| > 0 && reported[|reported| - 1] == selectedNotes
    }

    /** Mounting: the first render reports the default selection, then the restore
        effect adopts the saved entry (if any), which re-renders and reports again. */
    constructor Mount(saved: map<string, seq<string>>)
      ensures Valid()
      ensures store == saved
      ensures selectedNotes == Restored(saved, DefaultSelection)
      ensures reported == [DefaultSelection] + (if StorageKey in saved then [selectedNotes] else [])
    {
      store := saved;
      selectedNotes := DefaultSelection;
      reported := [DefaultSelection];
      if StorageKey in saved {
        selectedNotes := Restored(saved, DefaultSelection);
        reported := reported + [selectedNotes];
      }
    }

    /** A click on the button of `note`: toggle it, write the new selection to the
        store, and report it unless the click was the no-op at the floor. */
    method Click(note: string)
      requires Valid() && note in Notes.Naturals
      modifies this
      ensures Valid()
      ensures selectedNotes == Toggle(old(selectedNotes), note)
      ensures store == old(store)[StorageKey := selectedNotes]
      ensures reported ==
        if IsFloorNoOp(old(selectedNotes), note) then old(reported) else old(reported) + [selectedNotes]
      ensures NoDuplicates(old(selectedNotes)) && |old(selectedNotes)| >= MinSelected ==>
        Restored(store, DefaultSelection) == selectedNotes
    {
      var newSelected := Toggle(selectedNotes, note);
      if !IsFloorNoOp(selectedNotes, note) {
        reported := reported + [newSelected];
      }
      if NoDuplicates(selectedNotes) && |selectedNotes| >= MinSelected {
        SavedSelectionRestores(store, selectedNotes, note, DefaultSelection);
      }
      selectedNotes := newSelected;
      store := store[StorageKey := newSelected];
    }
  }
}
