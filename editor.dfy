/** The editor control (a Scintilla text control) as the completion engine sees it: the
    document text, the lexer's style classification of every position, the caret, the
    selection and whether an autocompletion list is showing. Positions are offsets into
    the text; the lines are separated by '\n'. */
module Editor {
  import opened Text

  /** The four style questions the engine asks about a lexer style. */
  datatype Style = Style(isString: bool, isComment: bool, isCharacter: bool, isPreprocessor: bool)

  const PlainStyle := Style(false, false, false, false)

  datatype EditorState = EditorState(
    filename: string,
    text: string,
    styles: seq<Style>,
    caret: int,
    selStart: int,
    selEnd: int,
    autoCompActive: bool)

  /** `GetCharAt`: 0 outside the document. */
  function CharAt(text: string, pos: int): (c: char)
    ensures 0 <= pos < |text| ==> c == text[pos]
    ensures !(0 <= pos < |text|) ==> c == '\0'
  {
    if 0 <= pos < |text| then text[pos] else '\0'
  }

  /** `GetStyleAt`: the default style outside the styled range. */
  function StyleAt(ed: EditorState, pos: int): Style {
    if 0 <= pos < |ed.styles| then ed.styles[pos] else PlainStyle
  }

  /** A position moved into the document. */
  function Clamp(text: string, pos: int): (p: nat)
    ensures p <= |text|
    ensures 0 <= pos <= |text| ==> p == pos
  {
    if pos < 0 then 0 else if pos > |text| then |text| else pos
  }

  /** The position that starts the line holding `p`. */
  function LineStartFrom(text: string, p: nat): (r: nat)
    requires p <= |text|
    ensures r <= p
    ensures r == 0 || text[r - 1] == '\n'
    ensures forall k :: r <= k < p ==> text[k] != '\n'
  {
    if p == 0 || text[p - 1] == '\n' then p else LineStartFrom(text, p - 1)
  }

  /** `PositionFromLine(LineFromPosition(pos))`. */
  function LineStart(text: string, pos: int): (r: nat)
    ensures r <= Clamp(text, pos)
  {
    LineStartFrom(text, Clamp(text, pos))
  }

  /** The number of line breaks before `p`. */
  function LineBreaksBefore(text: string, p: nat): nat
    requires p <= |text|
  {
    if p == 0 then 0
    else LineBreaksBefore(text, p - 1) + (if text[p - 1] == '\n' then 1 else 0)
  }

  /** There are never more line breaks before a position than characters. */
  lemma {:induction false} LineBreaksBounded(text: string, p: nat)
    requires p <= |text|
    ensures LineBreaksBefore(text, p) <= p
  {
    if p > 0 {
      LineBreaksBounded(text, p - 1);
    }
  }

  /** `LineFromPosition`: the 0-based line number of `pos`. */
  function LineFromPosition(text: string, pos: int): nat {
    LineBreaksBefore(text, Clamp(text, pos))
  }

  /** `PositionFromLine(line + 1)` for the line holding `p`: just past its line break,
      or the end of the document on the last line. */
  function NextLineStart(text: string, p: nat): (r: nat)
    requires p <= |text|
    ensures p <= r <= |text|
    ensures r == |text| || (r > 0 && text[r - 1] == '\n')
    ensures forall k :: p <= k < r - 1 ==> text[k] != '\n'
    decreases |text| - p
  {
    if p == |text| then p
    else if text[p] == '\n' then p + 1
    else NextLineStart(text, p + 1)
  }

  /** `GetLine` for the line that starts at `ls`: its text with its line break. */
  function LineText(text: string, ls: nat): string
    requires ls <= |text|
  {
    text[ls..NextLineStart(text, ls)]
  }

  /** `GetLineIndentPosition`: the first position of the line that is not a blank or a tab. */
  function IndentPosition(text: string, p: nat): (r: nat)
    requires p <= |text|
    ensures p <= r <= |text|
    decreases |text| - p
  {
    if p < |text| && (text[p] == ' ' || text[p] == '\t') then IndentPosition(text, p + 1) else p
  }

  /** The indentation is a run of blanks and tabs, ended by the first other character or by
      the end of the text. */
  lemma {:induction false} IndentPositionSkipsBlanks(text: string, p: nat)
    requires p <= |text|
    ensures var r := IndentPosition(text, p);
      (forall k :: p <= k < r ==> text[k] == ' ' || text[k] == '\t')
      && (r == |text| || (text[r] != ' ' && text[r] != '\t'))
    decreases |text| - p
  {
    if p < |text| && (text[p] == ' ' || text[p] == '\t') {
      IndentPositionSkipsBlanks(text, p + 1);
    }
  }

  /** Scintilla's default word characters: ASCII letters and digits, '_' and every
      character from 0x80 on. */
  predicate IsWordChar(c: char) {
    ('a' <= c <= 'z') || ('A' <= c <= 'Z') || ('0' <= c <= '9') || c == '_' || c as int >= 0x80
  }

  function WordStartFrom(text: string, p: nat): (r: nat)
    requires p <= |text|
    ensures r <= p
    ensures r == 0 || !IsWordChar(text[r - 1])
    ensures forall k :: r <= k < p ==> IsWordChar(text[k])
  {
    if p > 0 && IsWordChar(text[p - 1]) then WordStartFrom(text, p - 1) else p
  }

  /** `WordStartPosition(pos, true)`. */
  function WordStartPosition(text: string, pos: int): (r: nat)
    ensures r <= Clamp(text, pos)
  {
    WordStartFrom(text, Clamp(text, pos))
  }

  function WordEndFrom(text: string, p: nat): (r: nat)
    requires p <= |text|
    ensures p <= r <= |text|
    ensures r == |text| || !IsWordChar(text[r])
    ensures forall k :: p <= k < r ==> IsWordChar(text[k])
    decreases |text| - p
  {
    if p < |text| && IsWordChar(text[p]) then WordEndFrom(text, p + 1) else p
  }

  /** `WordEndPosition(pos, true)`. */
  function WordEndPosition(text: string, pos: int): (r: nat)
    ensures Clamp(text, pos) <= r <= |text|
  {
    WordEndFrom(text, Clamp(text, pos))
  }

  /** `GetTextRange(a, b)`: the text between the two positions, in either order, cut to
      the document. */
  function TextRange(text: string, a: int, b: int): (r: string)
    ensures |r| <= |text|
  {
    var lo := Clamp(text, if a <= b then a else b);
    var hi := Clamp(text, if a <= b then b else a);
    text[lo..hi]
  }

  /** `SetTargetStart(a); SetTargetEnd(b); ReplaceTarget(ins)`. */
  function ReplaceRange(text: string, a: int, b: int, ins: string): (r: string)
    ensures 0 <= a <= b <= |text| ==> r == text[..a] + ins + text[b..]
  {
    var lo := Clamp(text, if a <= b then a else b);
    var hi := Clamp(text, if a <= b then b else a);
    text[..lo] + ins + text[hi..]
  }

  /** `SetSelectionVoid(anchor, caretPos)`, Scintilla's `SCI_SETSEL`: the caret goes to
      `caretPos`, or to the end of the document when it is negative; a negative anchor
      means no selection, so the anchor joins the caret; otherwise the selection spans the
      two positions, both moved into the document. */
  function SetSelection(ed: EditorState, anchor: int, caretPos: int): (r: EditorState)
    ensures r.text == ed.text && r.styles == ed.styles && r.filename == ed.filename
    ensures r.autoCompActive == ed.autoCompActive
    ensures 0 <= r.selStart <= r.selEnd <= |ed.text|
    ensures caretPos < 0 ==> r.caret == |ed.text|
    ensures 0 <= caretPos ==> r.caret == Clamp(ed.text, caretPos)
    ensures anchor < 0 ==> r.selStart == r.caret && r.selEnd == r.caret
    ensures 0 <= anchor && Clamp(ed.text, anchor) <= r.caret ==>
              r.selStart == Clamp(ed.text, anchor) && r.selEnd == r.caret
    ensures 0 <= anchor && r.caret < Clamp(ed.text, anchor) ==>
              r.selStart == r.caret && r.selEnd == Clamp(ed.text, anchor)
  {
    var c := if caretPos < 0 then |ed.text| else Clamp(ed.text, caretPos);
    var a := if anchor < 0 then c else Clamp(ed.text, anchor);
    ed.(caret := c, selStart := if a <= c then a else c, selEnd := if a <= c then c else a)
  }

  /** Case-insensitive equality of two equally long strings. */
  predicate SameIgnoringCase(a: string, b: string) {
    Lower(a) == Lower(b)
  }

  /** Does `pattern` match the text at `p`, ignoring case, ending no later than `hi`? */
  predicate MatchAt(text: string, p: nat, hi: nat, pattern: string) {
    p + |pattern| <= hi <= |text| && SameIgnoringCase(text[p..p + |pattern|], pattern)
  }

  function FindTextFrom(text: string, p: nat, hi: nat, pattern: string): (r: int)
    requires hi <= |text|
    ensures r == -1 || (p <= r && MatchAt(text, r, hi, pattern))
    ensures r == -1 ==> forall k :: p <= k <= hi ==> !MatchAt(text, k, hi, pattern)
    ensures r != -1 ==> forall k :: p <= k < r ==> !MatchAt(text, k, hi, pattern)
    decreases hi - p
  {
    if p + |pattern| > hi then -1
    else if MatchAt(text, p, hi, pattern) then p
    else FindTextFrom(text, p + 1, hi, pattern)
  }

  /** `FindText(minPos, maxPos, pattern)` with no search flags: the first position from
      `minPos` on where `pattern` occurs, ignoring case, inside `[minPos, maxPos)`, or
      wxNOT_FOUND (-1). An empty pattern is found at `minPos`. */
  function FindText(text: string, minPos: int, maxPos: int, pattern: string): (r: int)
    ensures r == -1 || (Clamp(text, minPos) <= r && MatchAt(text, r, Clamp(text, maxPos), pattern))
    ensures r == -1 <==> forall k :: Clamp(text, minPos) <= k && k + |pattern| <= Clamp(text, maxPos) ==>
                                       !MatchAt(text, k, Clamp(text, maxPos), pattern)
    ensures r != -1 ==> forall k :: Clamp(text, minPos) <= k < r ==> !MatchAt(text, k, Clamp(text, maxPos), pattern)
  {
    var lo := Clamp(text, minPos);
    var hi := Clamp(text, maxPos);
    if pattern == [] then (if lo <= hi then lo else -1) else FindTextFrom(text, lo, hi, pattern)
  }
}
