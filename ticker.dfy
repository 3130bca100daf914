/** The scrolling news ticker (src/components/Ticker.tsx): the text it scrolls, built
    from the items and a separator, and the flag that pauses it. */
module Ticker {
  import opened Text

  /** The default separator, a middle dot. */
  const DefaultSeparator: string := "\U{00B7}"

  /** The non-empty items joined by two spaces, the separator and two spaces. */
  function Joined(items: seq<string>, sep: string): string {
    Join(NonEmpty(items), "  " + sep + "  ")
  }

  /** `display`: two copies of the joined items, separated by " sep " and followed by sep. */
  function Display(items: seq<string>, sep: string): string {
    var joined := Joined(items, sep);
    joined + " " + sep + " " + joined + sep
  }

  /** The scrolled text holds the joined items twice, the second copy right after
      " sep ", and ends with the separator. */
  lemma DisplayTwoCopies(items: seq<string>, sep: string)
    ensures var j := Joined(items, sep);
      && |Display(items, sep)| == 2 * |j| + 2 * |sep| + 2
      && Display(items, sep)[..|j|] == j
      && Display(items, sep)[|j|..|j| + |sep| + 2] == " " + sep + " "
      && Display(items, sep)[|j| + |sep| + 2..2 * |j| + |sep| + 2] == j
      && EndsWith(Display(items, sep), sep)
  {
    var j := Joined(items, sep);
    var d := Display(items, sep);
    assert d == j + (" " + sep + " ") + j + sep;
    assert d[|d| - |sep|..] == sep;
  }

  /** Empty items never show: they leave no doubled separator behind. */
  lemma DisplayIgnoresEmptyItems(items: seq<string>, sep: string)
    ensures Display(items, sep) == Display(NonEmpty(items), sep)
    ensures NonEmpty(items) == [] ==> Display(items, sep) == " " + sep + " " + sep
  {
    NonEmptyIdempotent(items);
  }

  /** Two items and an empty one between them, with the default separator. */
  lemma DisplayExample()
    ensures Display(["a", "", "b"], DefaultSeparator) == "a  \U{00B7}  b \U{00B7} a  \U{00B7}  b\U{00B7}"
  {
    assert ["a", "", "b"][1..] == ["", "b"];
    assert ["", "b"][1..] == ["b"];
    assert NonEmpty(["a", "", "b"]) == ["a", "b"];
  }

  /** The scrolling track: whether it is paused by the pointer or focus, and the
      duration of one loop (0 until it has been measured, and under reduced motion). */
  class Track {
    var paused: bool
    var duration: real

    constructor ()
      ensures !paused && duration == 0.0
      ensures DataPaused()
    {
      paused := false;
      duration := 0.0;
    }

    /** `data-paused`: stopped while paused or while there is no duration. */
    predicate DataPaused()
      reads this
    {
      paused || duration == 0.0
    }

    /** The measuring effect stores the loop duration it computed. */
    method SetDuration(d: real)
      modifies this`duration
      ensures duration == d && paused == old(paused)
      ensures DataPaused() <==> paused || d == 0.0
    {
      duration := d;
    }

    /** `onMouseEnter` */
    method MouseEnter()
      modifies this`paused
      ensures paused && duration == old(duration)
      ensures DataPaused()
    {
      paused := true;
    }

    /** `onFocus` */
    method Focus()
      modifies this`paused
      ensures paused && duration == old(duration)
      ensures DataPaused()
    {
      paused := true;
    }

    /** `onMouseLeave`: the track runs again unless it has no duration. */
    method MouseLeave()
      modifies this`paused
      ensures !paused && duration == old(duration)
      ensures DataPaused() <==> duration == 0.0
    {
      paused := false;
    }

    /** `onBlur` */
    method Blur()
      modifies this`paused
      ensures !paused && duration == old(duration)
      ensures DataPaused() <==> duration == 0.0
    {
      paused := false;
    }
  }
}
