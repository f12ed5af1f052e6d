/** The cover drawn for a book that has no image
    (client/src/utils/generateCover.js): the title's initial in large type, the
    title wrapped greedily to 80% of the card's width, and the author. The
    model keeps the text that is drawn and where it is drawn; colours, fonts
    and the JPEG encoding are the canvas's business. */
module GenerateCover {
  import opened Text

  const CoverWidth: real := 160.0
  const CoverHeight: real := 240.0
  /** `width * 0.8`. */
  const MaxLineWidth: real := 128.0
  /** `height * 0.65`, the baseline of the first title line. */
  const FirstLineY: real := 156.0
  const LineHeight: real := 14.0
  const DefaultTitle: string := "Untitled"

  /** One `fillText` call: the text and its anchor. */
  datatype TextDraw = TextDraw(text: string, x: real, y: real)

  /** A title line as the loop builds it, every word followed by a space, and
      its baseline; the drawn text is the line trimmed. */
  datatype Line = Line(raw: string, y: real)

  /** The width the canvas reports for a string in the title font. */
  type Measure = string -> real

  /** The lines the wrap loop still draws once it has reached word `i` with
      `line` pending at baseline `y`. */
  function WrapFrom(words: seq<string>, measure: Measure, i: nat, line: string, y: real): (ls: seq<Line>)
    requires i <= |words|
    ensures |ls| >= 1
    decreases |words| - i
  {
    if i == |words| then [Line(line, y)]
    else
      var test := line + words[i] + " ";
      if measure(test) > MaxLineWidth && i > 0 then
        [Line(line, y)] + WrapFrom(words, measure, i + 1, words[i] + " ", y + LineHeight)
      else
        WrapFrom(words, measure, i + 1, test, y)
  }

  /** All title lines, starting with an empty line at the first baseline. */
  function WrapTitle(words: seq<string>, measure: Measure): seq<Line> {
    WrapFrom(words, measure, 0, "", FirstLineY)
  }

  /** The lines' raw text, one after another. */
  function RawText(ls: seq<Line>): string {
    if ls == [] then "" else ls[0].raw + RawText(ls[1..])
  }

  /** The words from `i` on, each followed by a space. */
  function Spaced(words: seq<string>, i: nat): string
    requires i <= |words|
    decreases |words| - i
  {
    if i == |words| then "" else words[i] + " " + Spaced(words, i + 1)
  }

  /** Every word lands in exactly one line, in order: the lines put back
      together are the words, each followed by its space. */
  lemma WrapKeepsWords(words: seq<string>, measure: Measure)
    ensures RawText(WrapTitle(words, measure)) == Spaced(words, 0)
  {
    WrapFromKeepsWords(words, measure, 0, "", FirstLineY);
  }

  lemma {:induction false} WrapFromKeepsWords(words: seq<string>, measure: Measure, i: nat, line: string, y: real)
    requires i <= |words|
    ensures RawText(WrapFrom(words, measure, i, line, y)) == line + Spaced(words, i)
    decreases |words| - i
  {
    if i == |words| {
      assert RawText([Line(line, y)]) == line + RawText([]);
    } else {
      var test := line + words[i] + " ";
      if measure(test) > MaxLineWidth && i > 0 {
        var rest := WrapFrom(words, measure, i + 1, words[i] + " ", y + LineHeight);
        WrapFromKeepsWords(words, measure, i + 1, words[i] + " ", y + LineHeight);
        assert ([Line(line, y)] + rest)[1..] == rest;
      } else {
        WrapFromKeepsWords(words, measure, i + 1, test, y);
      }
    }
  }

  /** Line `k` sits `14 * k` below the first baseline. */
  lemma WrapBaselines(words: seq<string>, measure: Measure)
    ensures forall k :: 0 <= k < |WrapTitle(words, measure)| ==>
      WrapTitle(words, measure)[k].y == FirstLineY + LineHeight * k as real
  {
    WrapFromBaselines(words, measure, 0, "", FirstLineY);
  }

  lemma {:induction false} WrapFromBaselines(words: seq<string>, measure: Measure, i: nat, line: string, y: real)
    requires i <= |words|
    ensures forall k :: 0 <= k < |WrapFrom(words, measure, i, line, y)| ==>
      WrapFrom(words, measure, i, line, y)[k].y == y + LineHeight * k as real
    decreases |words| - i
  {
    if i < |words| {
      var test := line + words[i] + " ";
      if measure(test) > MaxLineWidth && i > 0 {
        WrapFromBaselines(words, measure, i + 1, words[i] + " ", y + LineHeight);
        var rest := WrapFrom(words, measure, i + 1, words[i] + " ", y + LineHeight);
        var ls := [Line(line, y)] + rest;
        forall k | 1 <= k < |ls|
          ensures ls[k].y == y + LineHeight * k as real
        {
          assert ls[k] == rest[k - 1];
        }
      } else {
        WrapFromBaselines(words, measure, i + 1, test, y);
      }
    }
  }

  /** A line holding exactly one word and its trailing space. */
  predicate OneWord(raw: string) {
    |raw| >= 1 && raw[|raw| - 1] == ' ' && ' ' !in raw[..|raw| - 1]
  }

  /** A line either fits the width or holds a single word that does not fit
      on its own. */
  predicate Fits(measure: Measure, raw: string) {
    OneWord(raw) || measure(raw) <= MaxLineWidth
  }

  /** The wrap never puts two words on a line that is too wide. */
  lemma WrapLinesFit(words: seq<string>, measure: Measure)
    requires |words| >= 1 && forall j :: 0 <= j < |words| ==> ' ' !in words[j]
    ensures forall k :: 0 <= k < |WrapTitle(words, measure)| ==> Fits(measure, WrapTitle(words, measure)[k].raw)
  {
    WrapFromLinesFit(words, measure, 0, "", FirstLineY);
  }

  lemma {:induction false} WrapFromLinesFit(words: seq<string>, measure: Measure, i: nat, line: string, y: real)
    requires i <= |words| && |words| >= 1 && forall j :: 0 <= j < |words| ==> ' ' !in words[j]
    requires i == 0 ==> line == []
    requires i > 0 ==> Fits(measure, line)
    ensures forall k :: 0 <= k < |WrapFrom(words, measure, i, line, y)| ==>
      Fits(measure, WrapFrom(words, measure, i, line, y)[k].raw)
    decreases |words| - i
  {
    if i < |words| {
      var test := line + words[i] + " ";
      if measure(test) > MaxLineWidth && i > 0 {
        var next := words[i] + " ";
        assert next[..|next| - 1] == words[i];
        WrapFromLinesFit(words, measure, i + 1, next, y + LineHeight);
        var rest := WrapFrom(words, measure, i + 1, next, y + LineHeight);
        var ls := [Line(line, y)] + rest;
        forall k | 1 <= k < |ls|
          ensures Fits(measure, ls[k].raw)
        {
          assert ls[k] == rest[k - 1];
        }
      } else {
        if i == 0 {
          assert test[..|test| - 1] == words[0];
        }
        WrapFromLinesFit(words, measure, i + 1, test, y);
      }
    }
  }

  /** The first line the loop draws from a state begins with the pending line. */
  lemma {:induction false} WrapFromStartsWithPending(words: seq<string>, measure: Measure, i: nat, line: string, y: real)
    requires i <= |words|
    ensures StartsWith(WrapFrom(words, measure, i, line, y)[0].raw, line)
    decreases |words| - i
  {
    if i < |words| {
      var test := line + words[i] + " ";
      if !(measure(test) > MaxLineWidth && i > 0) {
        WrapFromStartsWithPending(words, measure, i + 1, test, y);
        assert test[..|line|] == line;
      }
    }
  }

  /** The text of a line up to its first space. */
  function FirstWord(raw: string): string {
    if ' ' in raw then raw[..IndexOfChar(raw, ' ')] else raw
  }

  lemma FirstWordOf(raw: string, w: string)
    requires ' ' !in w && StartsWith(raw, w + " ")
    ensures FirstWord(raw) == w
  {
    assert raw[|w|] == ' ';
    var i := IndexOfChar(raw, ' ');
    assert raw[..|w|] == w;
  }

  /** Line `cur` was closed because the first word of `next` did not fit on it. */
  predicate ClosedWhenFull(measure: Measure, cur: string, next: string) {
    measure(cur + FirstWord(next) + " ") > MaxLineWidth
  }

  /** Every line but the last was closed because the next line's first word
      did not fit on it. */
  predicate Greedy(measure: Measure, ls: seq<Line>) {
    forall k :: 0 <= k < |ls| - 1 ==> ClosedWhenFull(measure, ls[k].raw, ls[k + 1].raw)
  }

  /** The wrap is greedy: a line is closed only when the first word of the
      next line, with its space, would have made it too wide. */
  lemma WrapIsGreedy(words: seq<string>, measure: Measure)
    requires forall j :: 0 <= j < |words| ==> ' ' !in words[j]
    ensures Greedy(measure, WrapTitle(words, measure))
  {
    WrapFromIsGreedy(words, measure, 0, "", FirstLineY);
  }

  lemma {:induction false} WrapFromIsGreedy(words: seq<string>, measure: Measure, i: nat, line: string, y: real)
    requires i <= |words| && forall j :: 0 <= j < |words| ==> ' ' !in words[j]
    ensures Greedy(measure, WrapFrom(words, measure, i, line, y))
    decreases |words| - i
  {
    if i < |words| {
      var test := line + words[i] + " ";
      if measure(test) > MaxLineWidth && i > 0 {
        var next := words[i] + " ";
        WrapFromIsGreedy(words, measure, i + 1, next, y + LineHeight);
        WrapFromStartsWithPending(words, measure, i + 1, next, y + LineHeight);
        var rest := WrapFrom(words, measure, i + 1, next, y + LineHeight);
        FirstWordOf(rest[0].raw, words[i]);
        var ls := [Line(line, y)] + rest;
        assert WrapFrom(words, measure, i, line, y) == ls;
        forall k | 0 <= k < |ls| - 1
          ensures ClosedWhenFull(measure, ls[k].raw, ls[k + 1].raw)
        {
          if k == 0 {
            assert ls[1] == rest[0] && ls[0].raw == line;
            assert FirstWord(ls[1].raw) == words[i];
            assert ls[0].raw + FirstWord(ls[1].raw) + " " == test;
          } else {
            assert ls[k] == rest[k - 1] && ls[k + 1] == rest[k];
          }
        }
      } else {
        WrapFromIsGreedy(words, measure, i + 1, test, y);
        assert WrapFrom(words, measure, i, line, y) == WrapFrom(words, measure, i + 1, test, y);
      }
    }
  }

  /** The title that is drawn: an empty or missing title becomes "Untitled". */
  function CoverTitle(title: string): (t: string)
    ensures t != []
    ensures title != [] ==> t == title
  {
    if title == [] then DefaultTitle else title
  }

  /** A title line is drawn trimmed and centred at its baseline. */
  function DrawLine(l: Line): TextDraw {
    TextDraw(Trim(l.raw), CoverWidth / 2.0, l.y)
  }

  function DrawLines(ls: seq<Line>): (ds: seq<TextDraw>)
    ensures |ds| == |ls|
    ensures forall k :: 0 <= k < |ls| ==> ds[k] == DrawLine(ls[k])
  {
    if ls == [] then [] else [DrawLine(ls[0])] + DrawLines(ls[1..])
  }

  /** Everything `generateBookCover` writes on the card, in order: the
      upper-cased initial of the title, each wrapped title line trimmed and
      centred, and the author when there is one. */
  function CoverTexts(title: string, author: string, measure: Measure): seq<TextDraw> {
    var t := CoverTitle(title);
    [TextDraw(ToUpper([t[0]]), CoverWidth / 2.0, CoverHeight / 2.0 - 20.0)]
    + DrawLines(WrapTitle(SplitOn(t, ' '), measure))
    + (if author != [] then [TextDraw(author, CoverWidth / 2.0, CoverHeight - 20.0)] else [])
  }

  /** One turn of the wrap loop keeps `done + WrapFrom(...)` equal to the
      whole wrap. */
  lemma WrapStep(words: seq<string>, measure: Measure, done: seq<Line>, i: nat, line: string, y: real, brk: bool)
    requires i < |words|
    requires brk == (measure(line + words[i] + " ") > MaxLineWidth && i > 0)
    ensures brk ==>
      done + WrapFrom(words, measure, i, line, y)
      == (done + [Line(line, y)]) + WrapFrom(words, measure, i + 1, words[i] + " ", y + LineHeight)
    ensures !brk ==>
      done + WrapFrom(words, measure, i, line, y)
      == done + WrapFrom(words, measure, i + 1, line + words[i] + " ", y)
  {
  }

  /** The wrap loop of `generateBookCover` as the source writes it: each
      finished line is collected with its baseline, and the pending line is
      added once the words run out. */
  method WrapLines(words: seq<string>, measure: Measure) returns (lines: seq<Line>)
    ensures lines == WrapTitle(words, measure)
  {
    var line := "";
    var y := CoverHeight * 0.65;
    var maxWidth := CoverWidth * 0.8;
    assert y == FirstLineY && maxWidth == MaxLineWidth;
    lines := [];
    var i := 0;
    while i < |words|
      invariant 0 <= i <= |words|
      invariant lines + WrapFrom(words, measure, i, line, y) == WrapTitle(words, measure)
    {
      var testLine := line + words[i] + " ";
      WrapStep(words, measure, lines, i, line, y, measure(testLine) > maxWidth && i > 0);
      if measure(testLine) > maxWidth && i > 0 {
        lines := lines + [Line(line, y)];
        line := words[i] + " ";
        y := y + LineHeight;
      } else {
        line := testLine;
      }
      i := i + 1;
    }
    lines := lines + [Line(line, y)];
  }

  /** `generateBookCover`: the initial, the wrapped title lines in the order
      the loop finished them, and the author. */
  method GenerateBookCover(title: string, author: string, measure: Measure) returns (draws: seq<TextDraw>)
    ensures draws == CoverTexts(title, author, measure)
  {
    var t := if title == [] then DefaultTitle else title;
    var initial := ToUpper([t[0]]);
    var lines := WrapLines(SplitOn(t, ' '), measure);
    draws := [TextDraw(initial, CoverWidth / 2.0, CoverHeight / 2.0 - 20.0)] + DrawLines(lines);
    if author != [] {
      draws := draws + [TextDraw(author, CoverWidth / 2.0, CoverHeight - 20.0)];
    }
  }
}
