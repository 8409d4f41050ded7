/**
  The typing view's rendering rule: one coloured span per snippet character
  and a blinking caret while the input is shorter than the snippet.
*/
module TypingArea {

  /** `'#888'` for characters not yet typed, `'green'` and `'red'` for typed ones. */
  datatype Colour = Grey | Green | Red

  datatype Span = Span(ch: char, colour: Colour)

  /** The colour of the snippet character at idx. */
  function CharColour(snippet: string, userInput: string, idx: nat): Colour
    requires idx < |snippet|
  {
    if idx < |userInput| then (if userInput[idx] == snippet[idx] then Green else Red) else Grey
  }

  /** `codeSnippet.split('').map(...)`: a span per character, in order. */
  function Render(snippet: string, userInput: string): (spans: seq<Span>)
    ensures |spans| == |snippet|
  {
    seq(|snippet|, i requires 0 <= i < |snippet| => Span(snippet[i], CharColour(snippet, userInput, i)))
  }

  /** The characters the spans show. */
  function Shown(spans: seq<Span>): (text: string)
    ensures |text| == |spans|
  {
    seq(|spans|, i requires 0 <= i < |spans| => spans[i].ch)
  }

  /** The caret span follows the characters while input is missing. */
  predicate ShowsCaret(snippet: string, userInput: string) {
    |userInput| < |snippet|
  }

  /** The spans spell the snippet. */
  lemma RenderShowsSnippet(snippet: string, userInput: string)
    ensures Shown(Render(snippet, userInput)) == snippet
  {
  }

  /** Each span's colour: grey at or past the input's length, otherwise green
      exactly when the typed character matches. */
  lemma {:induction false} RenderColours(snippet: string, userInput: string, i: nat)
    requires i < |snippet|
    ensures var c := Render(snippet, userInput)[i].colour;
      && (c == Grey <==> i >= |userInput|)
      && (c == Green <==> i < |userInput| && userInput[i] == snippet[i])
      && (c == Red <==> i < |userInput| && userInput[i] != snippet[i])
  {
  }

  /** Every span is green exactly when the input starts with the whole snippet. */
  lemma {:induction false} AllGreenIff(snippet: string, userInput: string)
    ensures (forall i :: 0 <= i < |snippet| ==> Render(snippet, userInput)[i].colour == Green)
        <==> |snippet| <= |userInput| && userInput[..|snippet|] == snippet
  {
    var spans := Render(snippet, userInput);
    if forall i :: 0 <= i < |snippet| ==> spans[i].colour == Green {
      if |snippet| > 0 {
        RenderColours(snippet, userInput, |snippet| - 1);
      }
      forall i | 0 <= i < |snippet| ensures userInput[i] == snippet[i] {
        RenderColours(snippet, userInput, i);
      }
    }
    if |snippet| <= |userInput| && userInput[..|snippet|] == snippet {
      forall i | 0 <= i < |snippet| ensures spans[i].colour == Green {
        assert userInput[i] == userInput[..|snippet|][i];
      }
    }
  }

  /** The caret shows exactly when some character is still grey. */
  lemma {:induction false} CaretIffGrey(snippet: string, userInput: string)
    ensures ShowsCaret(snippet, userInput)
        <==> exists i :: 0 <= i < |snippet| && Render(snippet, userInput)[i].colour == Grey
  {
    if ShowsCaret(snippet, userInput) {
      RenderColours(snippet, userInput, |snippet| - 1);
    }
  }
}
