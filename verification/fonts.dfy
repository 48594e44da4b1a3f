/** The cycling title font: a timer advances an index into a fixed table of
    styles every two seconds. The timer itself is outside the model; each
    tick is one call of `NextFontIndex`. */
module Fonts {

  datatype FontStyle = FontStyle(fontFamily: string, color: string)

  /** The table of title styles, in the order they are shown. */
  const FontStyles: seq<FontStyle> := [
    FontStyle("'Courier New', Courier, monospace", "#f1e05a"),
    FontStyle("'Roboto', sans-serif", "#3572A5"),
    FontStyle("'Georgia', serif", "#b07219"),
    FontStyle("'Arial Black', Gadget, sans-serif", "#2b7489"),
    FontStyle("'Comic Sans MS', cursive, sans-serif", "#701516"),
    FontStyle("'Fira Code', monospace", "#ff79c6"),
    FontStyle("'Lobster', cursive", "#e83e8c"),
    FontStyle("'Playfair Display', serif", "#6f42c1"),
    FontStyle("'Bebas Neue', sans-serif", "#00bcd4"),
    FontStyle("'Anton', sans-serif", "#4caf50"),
    FontStyle("'Raleway', sans-serif", "#03a9f4"),
    FontStyle("'Merriweather', serif", "#ff5722"),
    FontStyle("'Oswald', sans-serif", "#795548"),
    FontStyle("'Space Mono', monospace", "#9c27b0"),
    FontStyle("'Pacifico', cursive", "#ff9800"),
    FontStyle("'Orbitron', sans-serif", "#009688"),
    FontStyle("'Caveat', cursive", "#8bc34a"),
    FontStyle("'DM Serif Display', serif", "#607d8b"),
    FontStyle("'Amatic SC', cursive", "#f06292"),
    FontStyle("'Cinzel', serif", "#ffb300"),
    FontStyle("'Titillium Web', sans-serif", "#5c6bc0"),
    FontStyle("'Zilla Slab', serif", "#26c6da"),
    FontStyle("'Inconsolata', monospace", "#00acc1"),
    FontStyle("'Alegreya', serif", "#ff7043"),
    FontStyle("'Quicksand', sans-serif", "#cddc39")
  ]

  /** `(prev + 1) % FONT_STYLES.length`: the next style, wrapping from the
      last back to the first. */
  function NextFontIndex(prev: nat): (r: nat)
    ensures r < |FontStyles|
    ensures prev + 1 < |FontStyles| ==> r == prev + 1
    ensures prev + 1 == |FontStyles| ==> r == 0
  {
    (prev + 1) % |FontStyles|
  }

  /** The font index after `ticks` timer ticks, starting from 0. */
  function FontIndexAfter(ticks: nat): (r: nat)
    ensures r < |FontStyles|
  {
    if ticks == 0 then 0 else NextFontIndex(FontIndexAfter(ticks - 1))
  }

  /** After `ticks` ticks the title shows style number `ticks` modulo the
      table length. */
  lemma {:induction false} FontIndexCycles(ticks: nat)
    ensures FontIndexAfter(ticks) == ticks % |FontStyles|
  {
    if ticks > 0 {
      FontIndexCycles(ticks - 1);
    }
  }

  /** Every full round of the table brings the title back to the same style. */
  lemma {:induction false} FontIndexPeriodic(ticks: nat)
    ensures FontIndexAfter(ticks + |FontStyles|) == FontIndexAfter(ticks)
  {
    if ticks == 0 {
      FontIndexCycles(|FontStyles|);
    } else {
      FontIndexPeriodic(ticks - 1);
      assert ticks + |FontStyles| - 1 == (ticks - 1) + |FontStyles|;
    }
  }

  /** The title style while the entry animation is not done, which is always
      the case since the flag is never set. */
  function TitleStyle(fontIndex: nat): (s: FontStyle)
    requires fontIndex < |FontStyles|
    ensures s in FontStyles
  {
    FontStyles[fontIndex]
  }
}
