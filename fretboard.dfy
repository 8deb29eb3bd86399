/** The table of fretboard positions that sound a natural note: strings 1 to 6 in
    standard tuning, frets 0 to 12, built once when the trainer module loads. */
module Fretboard {
  import opened Wrappers
  import Notes

  /** Open-string notes of standard tuning (E B G D A E); entry k is string k + 1,
      string 1 being the highest. */
  const StringNotes: seq<string> := ["Mi", "Si", "Sol", "Re", "La", "Mi"]

  /** The twelve-tone chromatic alphabet, sharps included. */
  const AllNotes: seq<string> :=
    ["Do", "Do#", "Re", "Re#", "Mi", "Fa", "Fa#", "Sol", "Sol#", "La", "La#", "Si"]

  const StringCount := 6
  const LastFret := 12

  /** One quiz position: a string (1..6), a fret (0 is the open string) and the note it sounds. */
  datatype Position = Position(stringNumber: int, fret: int, note: string)

  /** JavaScript's `findIndex(n => n === x)`: scans from the front and returns the
      first index holding `x`, or -1 when there is none. */
  method FindIndex<T(==)>(s: seq<T>, x: T) returns (r: int)
    ensures -1 <= r < |s|
    ensures r == -1 <==> x !in s
    ensures r >= 0 ==> s[r] == x && forall j :: 0 <= j < r ==> s[j] != x
  {
    var i := 0;
    while i < |s|
      invariant 0 <= i <= |s|
      invariant forall j :: 0 <= j < i ==> s[j] != x
    {
      if s[i] == x {
        return i;
      }
      i := i + 1;
    }
    return -1;
  }

  /** JavaScript's `%`: the remainder truncated toward zero, so it takes the sign of `a`. */
  function JsRem(a: int, n: int): (r: int)
    requires n > 0
    ensures -n < r < n
    ensures a >= 0 ==> r >= 0
    ensures a < 0 ==> r <= 0
    ensures a >= 0 ==> r == a % n
  {
    if a >= 0 then a % n else -((-a) % n)
  }

  /** JavaScript's `s[i]`: `undefined` (None) outside the array. */
  function ElementAt<T>(s: seq<T>, i: int): (r: Option<T>)
    ensures r.Some? <==> 0 <= i < |s|
    ensures r.Some? ==> r.value == s[i]
  {
    if 0 <= i < |s| then Some(s[i]) else None
  }

  /** Chromatic index of each open string (Mi = 4, Si = 11, Sol = 7, Re = 2, La = 9);
      entry k belongs to string k + 1. `OpenIndexFound` shows these are what the
      builder's `findIndex` returns. */
  const OpenIndices: seq<int> := [4, 11, 7, 2, 9, 4]

  function OpenIndex(str: int): (r: int)
    requires 1 <= str <= StringCount
    ensures 0 <= r < 12
  {
    OpenIndices[str - 1]
  }

  /** The note `fret` semitones above the chromatic index `openIdx`, as the builder
      loop computes it: add, take the JavaScript remainder by 12 and index the
      alphabet (None when that index falls outside it). */
  function NoteFrom(openIdx: int, fret: int): (r: Option<string>)
    ensures openIdx + fret >= 0 ==> r == Some(AllNotes[(openIdx + fret) % 12])
  {
    ElementAt(AllNotes, JsRem(openIdx + fret, 12))
  }

  /** The note at string `str`, fret `fret`: for a fret from 0 up, the alphabet entry
      (open index + fret) mod 12, and the open note itself at every twelfth fret. */
  function NoteAt(str: int, fret: int): (r: Option<string>)
    requires 1 <= str <= StringCount
    ensures fret >= 0 ==> r == Some(AllNotes[(OpenIndex(str) + fret) % 12])
    ensures fret >= 0 && fret % 12 == 0 ==> r == Some(StringNotes[str - 1])
  {
    OctaveWraps(OpenIndex(str), fret);
    OpenIndexIsFirst(str);
    NoteFrom(OpenIndex(str), fret)
  }

  /** Twelve semitones, or any multiple of them, bring an index back to itself. */
  lemma OctaveWraps(openIdx: int, fret: int)
    ensures 0 <= openIdx < 12 && fret >= 0 && fret % 12 == 0 ==> (openIdx + fret) % 12 == openIdx
  {
    if 0 <= openIdx < 12 && fret >= 0 && fret % 12 == 0 {
      assert openIdx + fret == openIdx + (fret / 12) * 12;
    }
  }

  /** `NOTES.includes(note)` for the note computed from `openIdx` and `fret`. */
  predicate IsNatural(note: Option<string>)
  {
    note.Some? && note.value in Notes.Naturals
  }

  /** What one inner loop step appends, for string `str` whose open note has index `openIdx`. */
  function Step(str: int, openIdx: int, fret: int): seq<Position>
  {
    var note := NoteFrom(openIdx, fret);
    if IsNatural(note) then [Position(str, fret, note.value)] else []
  }

  /** What the inner loop appends for frets 0 .. k - 1 of string `str`. */
  function RowUpTo(str: int, openIdx: int, k: nat): seq<Position>
  {
    if k == 0 then [] else RowUpTo(str, openIdx, k - 1) + Step(str, openIdx, k - 1)
  }

  /** What the outer loop has built after strings 1 .. n. */
  function TableUpTo(n: nat): seq<Position>
    requires n <= StringCount
  {
    if n == 0 then [] else TableUpTo(n - 1) + RowUpTo(n, OpenIndex(n), LastFret + 1)
  }

  /** The finished table, `naturalPositions`. */
  function NaturalPositions(): seq<Position>
  {
    TableUpTo(StringCount)
  }

  /** The first two steps of the builder's loop body: the open note of string `str`
      and its index in the chromatic alphabet. */
  method LookUpOpenIndex(str: int) returns (openIdx: int)
    requires 1 <= str <= StringCount
    ensures openIdx == OpenIndex(str)
  {
    var openNote := StringNotes[str - 1];
    openIdx := FindIndex(AllNotes, openNote);
    OpenIndexFound(str, openIdx);
  }

  /** The next two steps of the loop body: the chromatic index `fret` semitones up,
      wrapped by JavaScript's remainder, and the alphabet entry there. */
  method ComputeNote(openIdx: int, fret: int) returns (note: Option<string>)
    ensures note == NoteFrom(openIdx, fret)
    ensures openIdx + fret >= 0 ==> note == Some(AllNotes[(openIdx + fret) % 12])
    ensures openIdx + fret < 0 ==> (note.Some? <==> (openIdx + fret) % 12 == 0)
  {
    var noteIdx := JsRem(openIdx + fret, 12);
    note := ElementAt(AllNotes, noteIdx);
  }

  /** One pass of the inner loop body, for string `str` and fret `fret`: compute the
      note and push the position when the note is natural. */
  method VisitFret(table: seq<Position>, str: int, fret: int) returns (next: seq<Position>)
    requires 1 <= str <= StringCount
    ensures next == table + Step(str, OpenIndex(str), fret)
  {
    var openIdx := LookUpOpenIndex(str);
    var note := ComputeNote(openIdx, fret);
    next := table;
    if IsNatural(note) {
      next := next + [Position(str, fret, note.value)];
    }
  }

  /** Appending the step at `fret` to a table ending in the row up to `fret` gives the
      table ending in the row up to `fret + 1`. */
  lemma RowGrows(start: seq<Position>, str: int, openIdx: int, fret: nat)
    ensures (start + RowUpTo(str, openIdx, fret)) + Step(str, openIdx, fret)
      == start + RowUpTo(str, openIdx, fret + 1)
  {
    var row := RowUpTo(str, openIdx, fret);
    assert (start + row) + Step(str, openIdx, fret) == start + (row + Step(str, openIdx, fret));
  }

  /** The inner loop of the builder: frets 0..12 of string `str`, appending each
      position whose note is natural. */
  method AppendStringPositions(start: seq<Position>, str: int) returns (table: seq<Position>)
    requires 1 <= str <= StringCount
    ensures table == start + RowUpTo(str, OpenIndex(str), LastFret + 1)
  {
    table := start;
    for fret := 0 to LastFret + 1
      invariant table == start + RowUpTo(str, OpenIndex(str), fret)
    {
      RowGrows(start, str, OpenIndex(str), fret);
      table := VisitFret(table, str, fret);
    }
  }

  /** The outer loop's step: the table after string `str` extends the one before it by
      that string's row. */
  lemma TableGrows(str: int)
    requires 1 <= str <= StringCount
    ensures TableUpTo(str) == TableUpTo(str - 1) + RowUpTo(str, OpenIndex(str), LastFret + 1)
  {
  }

  /** The nested loops of the module initialiser that fill `naturalPositions`. */
  method BuildNaturalPositions() returns (table: seq<Position>)
    ensures table == NaturalPositions()
  {
    table := [];
    for str := 1 to StringCount + 1
      invariant table == TableUpTo(str - 1)
    {
      TableGrows(str);
      table := AppendStringPositions(table, str);
    }
  }

  // ---------------------------------------------------------------------------
  // Properties of the table

  /** The note `p.fret` semitones above index `openIdx` is natural and is `p.note`. */
  ghost predicate SoundsNatural(openIdx: int, p: Position)
  {
    IsNatural(NoteFrom(openIdx, p.fret)) && p.note == NoteFrom(openIdx, p.fret).value
  }

  /** `p` is a position the loops visit whose computed note is natural and is `p.note`. */
  ghost predicate Admissible(p: Position)
  {
    1 <= p.stringNumber <= StringCount && 0 <= p.fret <= LastFret
    && SoundsNatural(OpenIndex(p.stringNumber), p)
  }

  /** `p` comes strictly before `q` in string-major, fret-ascending order. */
  ghost predicate Before(p: Position, q: Position)
  {
    p.stringNumber < q.stringNumber || (p.stringNumber == q.stringNumber && p.fret < q.fret)
  }

  ghost predicate Ordered(s: seq<Position>)
  {
    forall i, j :: 0 <= i < j < |s| ==> Before(s[i], s[j])
  }

  /** On the chromatic alphabet, the natural notes are exactly the names without a sharp. */
  lemma NaturalIsSharpFree(i: int)
    requires 0 <= i < |AllNotes|
    ensures IsNatural(Some(AllNotes[i])) <==> '#' !in AllNotes[i]
  {
  }

  /** `OpenIndices` holds, for each string, the FIRST index of its open note in the
      chromatic alphabet. */
  lemma OpenIndexIsFirst(str: int)
    requires 1 <= str <= StringCount
    ensures AllNotes[OpenIndex(str)] == StringNotes[str - 1]
    ensures forall j :: 0 <= j < OpenIndex(str) ==> AllNotes[j] != StringNotes[str - 1]
  {
  }

  /** Whatever `findIndex` returns for an open note is that string's `OpenIndex`. */
  lemma OpenIndexFound(str: int, r: int)
    requires 1 <= str <= StringCount
    requires -1 <= r < |AllNotes|
    requires r == -1 <==> StringNotes[str - 1] !in AllNotes
    requires r >= 0 ==>
      AllNotes[r] == StringNotes[str - 1] && forall j :: 0 <= j < r ==> AllNotes[j] != StringNotes[str - 1]
    ensures r == OpenIndex(str)
  {
    OpenIndexIsFirst(str);
  }

  lemma {:induction false} RowMembers(str: int, openIdx: int, k: nat, p: Position)
    ensures p in RowUpTo(str, openIdx, k) <==>
      p.stringNumber == str && 0 <= p.fret < k && SoundsNatural(openIdx, p)
  {
    if k > 0 {
      RowMembers(str, openIdx, k - 1, p);
    }
  }

  /** Membership in the table after string `n` from membership in the table before it
      and in the row of string `n`. */
  lemma TableStep(prev: seq<Position>, row: seq<Position>, n: int, p: Position)
    requires 1 <= n <= StringCount
    requires p in prev <==> Admissible(p) && p.stringNumber <= n - 1
    requires p in row <==>
      p.stringNumber == n && 0 <= p.fret < LastFret + 1 && SoundsNatural(OpenIndex(n), p)
    ensures p in prev + row <==> Admissible(p) && p.stringNumber <= n
  {
    if p.stringNumber == n {
      assert p in row <==> Admissible(p);
    } else {
      assert p !in row;
    }
  }

  lemma {:induction false} TableMembers(n: nat, p: Position)
    requires n <= StringCount
    ensures p in TableUpTo(n) <==> Admissible(p) && p.stringNumber <= n
  {
    if n > 0 {
      var row := RowUpTo(n, OpenIndex(n), LastFret + 1);
      assert TableUpTo(n) == TableUpTo(n - 1) + row;
      TableMembers(n - 1, p);
      RowMembers(n, OpenIndex(n), LastFret + 1, p);
      TableStep(TableUpTo(n - 1), row, n, p);
    }
  }

  /** The table holds exactly the natural positions on strings 1..6, frets 0..12,
      each with the note computed from the tuning, and nothing else. */
  lemma NaturalPositionsMembers(p: Position)
    ensures p in NaturalPositions() <==> Admissible(p)
  {
    TableMembers(StringCount, p);
  }

  lemma SoundsNaturalAt(p: Position)
    requires 1 <= p.stringNumber <= StringCount
    ensures SoundsNatural(OpenIndex(p.stringNumber), p) <==>
      NoteAt(p.stringNumber, p.fret) == Some(p.note) && p.note in Notes.Naturals
  {
  }

  /** The same, with the note stated through `NoteAt`. */
  lemma NaturalPositionsExactly(p: Position)
    ensures p in NaturalPositions() <==>
      1 <= p.stringNumber <= StringCount && 0 <= p.fret <= LastFret
      && NoteAt(p.stringNumber, p.fret) == Some(p.note) && p.note in Notes.Naturals
  {
    NaturalPositionsMembers(p);
    if 1 <= p.stringNumber <= StringCount {
      SoundsNaturalAt(p);
    }
  }

  lemma OrderedConcat(a: seq<Position>, b: seq<Position>)
    requires Ordered(a) && Ordered(b)
    requires forall i, j :: 0 <= i < |a| && 0 <= j < |b| ==> Before(a[i], b[j])
    ensures Ordered(a + b)
  {
  }

  /** Entries of the row of string `str` lie on that string, below fret `k`. */
  lemma RowPlace(str: int, openIdx: int, k: nat, p: Position)
    requires p in RowUpTo(str, openIdx, k)
    ensures p.stringNumber == str && p.fret < k
  {
    RowMembers(str, openIdx, k, p);
  }

  /** Entries of the table after string `n` lie on strings up to `n`. */
  lemma TablePlace(n: nat, p: Position)
    requires n <= StringCount && p in TableUpTo(n)
    ensures p.stringNumber <= n
  {
    TableMembers(n, p);
  }

  lemma {:induction false} RowOrdered(str: int, openIdx: int, k: nat)
    ensures Ordered(RowUpTo(str, openIdx, k))
  {
    if k > 0 {
      RowOrdered(str, openIdx, k - 1);
      var row := RowUpTo(str, openIdx, k - 1);
      forall i | 0 <= i < |row|
        ensures row[i].stringNumber == str && row[i].fret < k - 1
      {
        RowPlace(str, openIdx, k - 1, row[i]);
      }
      OrderedConcat(row, Step(str, openIdx, k - 1));
    }
  }

  lemma {:induction false} TableOrdered(n: nat)
    requires n <= StringCount
    ensures Ordered(TableUpTo(n))
  {
    if n > 0 {
      TableOrdered(n - 1);
      RowOrdered(n, OpenIndex(n), LastFret + 1);
      var front, row := TableUpTo(n - 1), RowUpTo(n, OpenIndex(n), LastFret + 1);
      forall i | 0 <= i < |front|
        ensures front[i].stringNumber < n
      {
        TablePlace(n - 1, front[i]);
      }
      forall j | 0 <= j < |row|
        ensures row[j].stringNumber == n
      {
        RowPlace(n, OpenIndex(n), LastFret + 1, row[j]);
      }
      OrderedConcat(front, row);
    }
  }

  /** Entries occur string by string, and by ascending fret within a string. */
  lemma NaturalPositionsOrdered()
    ensures Ordered(NaturalPositions())
  {
    TableOrdered(StringCount);
  }

  /** Worked example: string 6 is Mi (index 4) and (4 + 3) mod 12 = 7 is Sol. */
  lemma SixthStringThirdFretIsSol()
    ensures Position(6, 3, "Sol") in NaturalPositions()
  {
    assert OpenIndex(6) == 4;
    assert NoteFrom(4, 3) == Some("Sol");
    NaturalPositionsMembers(Position(6, 3, "Sol"));
  }

  /** A natural note sounded on string 5 (tuned to La, index 9) is in the table. */
  lemma OnFifthString(fret: int, n: string)
    requires 0 <= fret <= LastFret && n in Notes.Naturals && NoteFrom(9, fret) == Some(n)
    ensures Position(5, fret, n) in NaturalPositions()
  {
    assert OpenIndex(5) == 9;
    assert Admissible(Position(5, fret, n));
    NaturalPositionsMembers(Position(5, fret, n));
  }

  /** Each natural note sounds somewhere on the table (on string 5), so a selection
      holding a natural note never filters the table to nothing. */
  lemma EveryNaturalOccurs(n: string)
    requires n in Notes.Naturals
    ensures exists p :: p in NaturalPositions() && p.note == n
  {
    var fret :=
      if n == "Do" then 3 else if n == "Re" then 5 else if n == "Mi" then 7
      else if n == "Fa" then 8 else if n == "Sol" then 10 else if n == "La" then 0 else 2;
    assert NoteFrom(9, fret) == Some(n);
    OnFifthString(fret, n);
  }
}
