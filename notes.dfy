/** The seven natural notes, in solfège names. Both the trainer and the note filter
    declare this list; here it is defined once and imported by both. */
module Notes {
  const Naturals: seq<string> := ["Do", "Re", "Mi", "Fa", "Sol", "La", "Si"]

  /** Every entry of `s` is one of the seven naturals. */
  ghost predicate AllNatural(s: seq<string>)
  {
    forall x :: x in s ==> x in Naturals
  }
}
