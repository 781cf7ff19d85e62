/** The ANSI escape sequences of the terminal output (colors.go) and the helpers that wrap
    text in a style and the reset sequence. */
module Colors {

  const Red := "\U{1B}[31m"
  const Green := "\U{1B}[32m"
  const Yellow := "\U{1B}[33m"
  const Blue := "\U{1B}[34m"
  const Purple := "\U{1B}[35m"
  const Cyan := "\U{1B}[36m"
  const White := "\U{1B}[37m"

  const Bold := "\U{1B}[1m"
  const Underline := "\U{1B}[4m"
  const Reset := "\U{1B}[0m"

  const BoldRed := Bold + Red
  const BoldGreen := Bold + Green
  const BoldBlue := Bold + Blue
  const BoldCyan := Bold + Cyan
  const BoldYellow := Bold + Yellow
  const BoldPurple := Bold + Purple

  /** `StyleText`: the style, then the text, then the reset sequence. */
  function StyleText(text: string, style: string): (r: string)
    ensures |r| == |style| + |text| + |Reset|
    ensures r[..|style|] == style
    ensures r[|style|..|style| + |text|] == text
    ensures r[|r| - |Reset|..] == Reset
  {
    style + text + Reset
  }

  function BoldText(text: string): string {
    StyleText(text, Bold)
  }

  function ColorText(text: string, color: string): string {
    StyleText(text, color)
  }

  function BoldColorText(text: string, color: string): string {
    StyleText(text, Bold + color)
  }

  /** The text inside a styled result: what lies between the style and the reset. */
  function Unstyle(styled: string, style: string): (text: string)
    requires |styled| >= |style| + |Reset|
    ensures |text| == |styled| - |style| - |Reset|
  {
    styled[|style|..|styled| - |Reset|]
  }

  /** Styling loses nothing: the text comes back from between the style and the reset. */
  lemma UnstyleStyleText(text: string, style: string)
    ensures Unstyle(StyleText(text, style), style) == text
  {
  }

  /** The three shorthands are StyleText with the bold style, the colour, and bold
      followed by the colour; each result ends in the reset sequence and holds the text
      right after the style. */
  lemma ShorthandsAreStyleText(text: string, color: string)
    ensures BoldText(text) == Bold + text + Reset
    ensures ColorText(text, color) == StyleText(text, color)
    ensures BoldColorText(text, color) == Bold + color + text + Reset
    ensures Unstyle(BoldColorText(text, color), Bold + color) == text
    ensures BoldColorText(text, color)[|BoldColorText(text, color)| - |Reset|..] == Reset
  {
    UnstyleStyleText(text, Bold + color);
  }

  /** A combined constant styles text exactly as bold followed by its colour does. */
  lemma CombinedStylesAreBoldColor(text: string)
    ensures StyleText(text, BoldRed) == BoldColorText(text, Red)
    ensures StyleText(text, BoldGreen) == BoldColorText(text, Green)
    ensures StyleText(text, BoldBlue) == BoldColorText(text, Blue)
    ensures StyleText(text, BoldCyan) == BoldColorText(text, Cyan)
    ensures StyleText(text, BoldYellow) == BoldColorText(text, Yellow)
    ensures StyleText(text, BoldPurple) == BoldColorText(text, Purple)
  {
  }
}
