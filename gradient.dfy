/** The text helpers of the gradient renderer (ui/gradient.go): cutting text into lines
    at '\n', gluing lines back together, and recognising the box-drawing characters of a
    border. The colour interpolation itself is not part of this model. */
module Gradient {
  import opened Text

  /** The ten box-drawing characters a border is drawn with: the rounded corners
      ╭ ╮ ╯ ╰, the lines ─ │ and the square corners ┌ ┐ └ ┘. */
  const BorderCharacters: set<char> :=
    {'\U{256D}', '\U{256E}', '\U{256F}', '\U{2570}',
     '\U{2500}', '\U{2502}',
     '\U{250C}', '\U{2510}', '\U{2514}', '\U{2518}'}

  /** `isBorderCharacter`: the text is one of the border characters on its own. */
  function IsBorderCharacter(glyph: string): (b: bool)
    ensures b <==> |glyph| == 1 && glyph[0] in BorderCharacters
  {
    glyph == "\U{256D}" || glyph == "\U{256E}" || glyph == "\U{256F}" || glyph == "\U{2570}" ||
    glyph == "\U{2500}" || glyph == "\U{2502}" ||
    glyph == "\U{250C}" || glyph == "\U{2510}" || glyph == "\U{2514}" || glyph == "\U{2518}"
  }

  /** The border characters are ten distinct characters of the Unicode box-drawing block
      (U+2500 to U+257F), so no plain text character is taken for a border. */
  lemma BorderCharactersAreBoxDrawing()
    ensures |BorderCharacters| == 10
    ensures forall c :: c in BorderCharacters ==> '\U{2500}' <= c <= '\U{257F}'
  {
  }

  /** What `splitLines` returns: nothing for empty text, otherwise the pieces between
      '\n' characters. */
  function Lines(text: string): seq<string> {
    if text == "" then [] else Split(text, '\n')
  }

  /** `splitLines`: one pass over the characters, closing the current line at every
      '\n' and once more at the end. */
  method SplitLines(text: string) returns (lines: seq<string>)
    ensures lines == Lines(text)
    ensures forall i :: 0 <= i < |lines| ==> '\n' !in lines[i]
  {
    if text == "" {
      return [];
    }
    lines := [];
    var current := "";
    for i := 0 to |text|
      invariant lines + [current] == Split(text[..i], '\n')
    {
      assert text[..i + 1][..i] == text[..i];
      if text[i] == '\n' {
        lines := lines + [current];
        current := "";
      } else {
        current := current + [text[i]];
      }
    }
    assert text[..|text|] == text;
    lines := lines + [current];
  }

  /** `joinLines`: the lines with a '\n' before every line but the first. */
  method JoinLines(lines: seq<string>) returns (result: string)
    ensures result == Join(lines, '\n')
  {
    result := "";
    for i := 0 to |lines|
      invariant result == Join(lines[..i], '\n')
    {
      assert lines[..i + 1][..i] == lines[..i];
      if i > 0 {
        result := result + "\n";
      }
      result := result + lines[i];
    }
    assert lines[..|lines|] == lines;
  }

  /** Joining the lines of any text gives the text back. */
  lemma JoinLinesOfText(text: string)
    ensures Join(Lines(text), '\n') == text
  {
    if text != "" {
      JoinSplit(text, '\n');
    }
  }

  /** Non-empty text has one line more than it has '\n' characters; empty text has none. */
  lemma LineCount(text: string)
    ensures text == "" ==> |Lines(text)| == 0
    ensures text != "" ==> |Lines(text)| == multiset(text)['\n'] + 1
  {
    if text != "" {
      SplitCount(text, '\n');
    }
  }

  /** Joining puts exactly one '\n' between neighbouring lines and none at the ends: the
      joined text holds one '\n' fewer than there are lines, and splitting it gives the
      lines back, except for the single empty line, whose text "" has no lines. */
  lemma SplitJoinedLines(lines: seq<string>)
    requires |lines| >= 1 && lines != [""]
    requires forall i :: 0 <= i < |lines| ==> '\n' !in lines[i]
    ensures Lines(Join(lines, '\n')) == lines
    ensures multiset(Join(lines, '\n'))['\n'] == |lines| - 1
  {
    SplitJoin(lines, '\n');
    SplitCount(Join(lines, '\n'), '\n');
  }
}
