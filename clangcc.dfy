/** `ClangCodeCompletion`: the completion request engine. It asks the translation-unit
    service for completions at the caret with a bounded wait, remembers a timed-out request
    so that the results delivered later can be served at the same caret position, filters
    and ranks the candidates, inserts an accepted candidate with its argument suffix, and
    keeps the queue of argument placeholders that the tab key cycles through.

    The services the engine calls are parameters: `lookup` is what the plugin answers for
    the active editor's file (`None` when no editor is active), `service` answers a
    completion request, `suffixService` gives an accepted candidate's insert suffix and its
    placeholder spans, and `keywords` is the unit's keyword list. */
module ClangCC {
  import opened Wrappers
  import opened Text
  import opened Editor
  import opened ClangPluginApi
  import opened CompletionFilter

  /* ------------------------------------------------------ the completion service */

  /** A call of `GetCodeCompletionAt`: the unit, the file, the 1-based position and the
      timeout in milliseconds. */
  datatype CompletionRequest = CompletionRequest(
    unitId: ClTranslUnitId,
    filename: string,
    location: ClTokenPosition,
    timeout: nat)

  /** `wxCOND_TIMEOUT`, or the results delivered in time. */
  datatype CompletionReply = TimedOut | Completed(results: seq<ClToken>)

  const AutoTimeout: nat := 20
  const ManualTimeout: nat := 100

  /** The queue is emptied before new placeholders are added once it holds more than this. */
  const TabJumpCap: nat := 10

  /** The value of `/tooltip_mode` that restricts call tips to a key binding. */
  const TooltipKeyboundOnly: int := 3

  /** What `GetCurrentTranslationUnitId` answers, and what the field holds after it: the
      field once known, otherwise the plugin's answer for the active editor's file, or
      wxNOT_FOUND with no editor. */
  function UnitAfterLookup(current: ClTranslUnitId, lookup: Option<ClTranslUnitId>): ClTranslUnitId {
    if current != NotFound then current
    else match lookup
      case None => NotFound
      case Some(u) => u
  }

  /* --------------------------------------------------- GetAutocompList's guards */

  /** The caret's line is an `#include` directive and the token ends past the word
      `include`: the request belongs to the include-file completion, which offers nothing. */
  predicate IsIncludeDirective(ed: EditorState, tknEnd: int) {
    var indentPos := IndentPosition(ed.text, LineStart(ed.text, ed.caret));
    var endPos := WordEndPosition(ed.text, indentPos + 1);
    CharAt(ed.text, indentPos) == '#'
    && TextRange(ed.text, WordStartPosition(ed.text, indentPos + 1), endPos) == "include"
    && tknEnd > endPos
  }

  /** What an include directive is on its own terms: the caret's line, past the blanks and
      tabs that open it, holds '#' directly followed by the word `include` (the character
      after it, if any, is no word character), and the token ends past that word. */
  lemma IncludeDirectiveMeans(ed: EditorState, tknEnd: int)
    ensures var ls := LineStart(ed.text, ed.caret);
      var ip := IndentPosition(ed.text, ls);
      (forall k :: ls <= k < ip ==> ed.text[k] == ' ' || ed.text[k] == '\t')
      && (IsIncludeDirective(ed, tknEnd) <==>
            ip + 8 <= |ed.text| && ed.text[ip] == '#' && ed.text[ip + 1..ip + 8] == "include"
            && (ip + 8 == |ed.text| || !IsWordChar(ed.text[ip + 8]))
            && tknEnd > ip + 8)
  {
    var ls := LineStart(ed.text, ed.caret);
    IndentPositionSkipsBlanks(ed.text, ls);
    IncludeAt(ed.text, IndentPosition(ed.text, ls), tknEnd);
  }

  /** The include test read at one position: '#' there, directly followed by the word
      `include`, with the token ending past it. */
  lemma IncludeAt(text: string, ip: nat, tknEnd: int)
    requires ip <= |text|
    ensures var endPos := WordEndPosition(text, ip + 1);
      (CharAt(text, ip) == '#' && TextRange(text, WordStartPosition(text, ip + 1), endPos) == "include"
       && tknEnd > endPos)
      <==> ip + 8 <= |text| && text[ip] == '#' && text[ip + 1..ip + 8] == "include"
           && (ip + 8 == |text| || !IsWordChar(text[ip + 8]))
           && tknEnd > ip + 8
  {
    if ip < |text| && text[ip] == '#' {
      IncludeIsAWord();
      WordIs(text, ip + 1, "include");
    }
  }

  lemma IncludeIsAWord()
    ensures forall i :: 0 <= i < |"include"| ==> IsWordChar("include"[i])
  {
  }

  /** After a non-word character, the word read at `p` is `w` exactly when the text holds
      `w` there and no word character follows it. */
  lemma WordIs(text: string, p: nat, w: string)
    requires 1 <= p <= |text| && !IsWordChar(text[p - 1])
    requires forall i :: 0 <= i < |w| ==> IsWordChar(w[i])
    ensures TextRange(text, WordStartPosition(text, p), WordEndPosition(text, p)) == w
            <==> p + |w| <= |text| && text[p..p + |w|] == w && (p + |w| == |text| || !IsWordChar(text[p + |w|]))
  {
    assert WordStartPosition(text, p) == p;
    var e := WordEndPosition(text, p);
    assert TextRange(text, p, e) == text[p..e];
    if p + |w| <= |text| && text[p..p + |w|] == w && (p + |w| == |text| || !IsWordChar(text[p + |w|])) {
      forall k | p <= k < p + |w|
        ensures IsWordChar(text[k])
      {
        assert text[k] == text[p..p + |w|][k - p];
      }
      assert e == p + |w|;
    }
    if text[p..e] == w {
      assert |w| == e - p;
    }
  }

  /** An automatic launch that makes no sense: after a single ':', after a '>' that does not
      end "->", or after one of `<"/` outside a preprocessor line. */
  predicate AutoLaunchIllogical(ed: EditorState, tknEnd: int) {
    var curChar := CharAt(ed.text, tknEnd - 1);
    (curChar == ':' && CharAt(ed.text, tknEnd - 2) != ':')
    || (curChar == '>' && CharAt(ed.text, tknEnd - 2) != '-')
    || ((curChar == '<' || curChar == '"' || curChar == '/') && !StyleAt(ed, tknEnd).isPreprocessor)
  }

  /** The token ends inside a string, a comment or a character literal. */
  predicate InLiteral(ed: EditorState, tknEnd: int) {
    var style := StyleAt(ed, tknEnd);
    style.isString || style.isComment || style.isCharacter
  }

  /** The request is answered with no candidates and no state but the unit id changes. */
  predicate Rejected(isAuto: bool, ed: EditorState, tknEnd: int, unitId: ClTranslUnitId) {
    IsIncludeDirective(ed, tknEnd) || unitId == NotFound
    || (isAuto && AutoLaunchIllogical(ed, tknEnd)) || InLiteral(ed, tknEnd)
  }

  /** The cached results are served instead of asking the service: the local copy of the
      counter, zeroed when the caret has moved from the recorded position, is not zero, and
      the cache holds something. */
  predicate ReusesCache(outstanding: int, outstandingPos: int, caret: int, cache: seq<ClToken>) {
    var local := if outstanding > 0 && outstandingPos != caret then 0 else outstanding;
    local != 0 && cache != []
  }

  /** With a counter that is never negative, the cache is served exactly when a request
      timed out at this very caret position and results have arrived since. */
  lemma ReusesCacheExactly(outstanding: int, outstandingPos: int, caret: int, cache: seq<ClToken>)
    requires 0 <= outstanding
    ensures ReusesCache(outstanding, outstandingPos, caret, cache)
            <==> outstanding > 0 && outstandingPos == caret && cache != []
  {
  }

  /** The lowered text of the token typed so far. */
  function RequestPrefix(ed: EditorState, tknStart: int, tknEnd: int): string {
    Lower(TextRange(ed.text, tknStart, tknEnd))
  }

  /** The column of the request: the token's column less the blanks the back-off skips. */
  function RequestColumn(ed: EditorState, tknStart: int): int {
    var lnStart := LineStart(ed.text, tknStart);
    BackedOffColumn(ed.text, lnStart, tknStart - lnStart)
  }

  /** The request issued for a token starting at `tknStart`. */
  function RequestFor(isAuto: bool, ed: EditorState, unitId: ClTranslUnitId, tknStart: int): CompletionRequest {
    var line := LineFromPosition(ed.text, tknStart);
    CompletionRequest(unitId, ed.filename,
                      NewClTokenPosition(ToU32(line + 1), ToU32(RequestColumn(ed, tknStart) + 1)),
                      if isAuto then AutoTimeout else ManualTimeout)
  }

  /** The request carries a 1-based line and column, the column never past the token's own,
      and the short timeout exactly for automatic launches. */
  lemma RequestLocation(isAuto: bool, ed: EditorState, unitId: ClTranslUnitId, tknStart: int)
    requires 0 <= tknStart <= |ed.text| < 0xFFFF_FFFF
    ensures var r := RequestFor(isAuto, ed, unitId, tknStart);
      r.unitId == unitId && r.filename == ed.filename
      && r.location.line as int == LineBreaksBefore(ed.text, tknStart) + 1
      && 1 <= r.location.column as int <= tknStart - LineStart(ed.text, tknStart) + 1
      && (r.timeout == AutoTimeout <==> isAuto)
  {
    LineBreaksBounded(ed.text, tknStart);
  }

  /** The token's line starts with '#' once its leading blanks are dropped. */
  predicate OnPreprocessorLine(ed: EditorState, tknStart: int) {
    StartsWith(StripLeading(LineText(ed.text, LineStart(ed.text, tknStart))), "#")
  }

  /** The candidate list made from raw results: filtered by the prefix and the constructor
      rule, then cut, refined and compressed. */
  ghost predicate CandidatesFrom(results: seq<ClToken>, ed: EditorState, tknStart: int, tknEnd: int,
                                 keywords: seq<string>, tokens: seq<CCToken>) {
    var prefix := RequestPrefix(ed, tknStart, tknEnd);
    Postprocessed(Filtered(results, prefix, !FollowsTerminator(ed.text, tknStart)), prefix,
                  OnPreprocessorLine(ed, tknStart), keywords, tokens)
  }

  /* ------------------------------------------------------- DoAutocomplete's plan */

  /** Where an accepted candidate goes: the range it replaces, the text, the caret target
      and the placeholder spans still in force. */
  datatype InsertPlan = InsertPlan(startPos: int, endPos: int, text: string, moveToPos: int,
                                   offsets: seq<(int, int)>)

  function Min(a: int, b: int): int {
    if a <= b then a else b
  }

  /** The caret sits on the tail of the candidate's name: an in-place rename. */
  predicate RenamesInPlace(ed: EditorState, name: string) {
    EndsWith(ActualName(name), TextRange(ed.text, ed.caret, WordEndPosition(ed.text, ed.caret)))
  }

  /** The insert decision of `DoAutocomplete`. The replaced range starts at the word start
      or the selection, whichever is first. On an in-place rename it runs to the word end
      and the suffix is left out when the next character already starts it (the spans are
      dropped too, unless the text already holds the whole two-character suffix); otherwise
      it runs to the caret and the suffix is appended. */
  function PlanInsert(ed: EditorState, name: string, suffix: string, offsets: seq<(int, int)>): InsertPlan {
    var tknText := ActualName(name);
    var pos := ed.caret;
    var startPos := InsertStart(ed);
    var moveToPos := startPos + |tknText|;
    var endPos := WordEndPosition(ed.text, pos);
    if RenamesInPlace(ed, name) then
      if suffix == [] then InsertPlan(startPos, endPos, tknText, moveToPos, offsets)
      else if CharAt(ed.text, endPos) == suffix[0] then
        InsertPlan(startPos, endPos, tknText, moveToPos,
                   if |suffix| != 2 || CharAt(ed.text, endPos + 1) != suffix[1] then [] else offsets)
      else
        InsertPlan(startPos, endPos, tknText + suffix, if |suffix| == 2 then moveToPos + 2 else moveToPos, offsets)
    else InsertPlan(startPos, pos, tknText + suffix, moveToPos, offsets)
  }

  /** The replaced range starts at the word start or the selection, whichever is first. */
  function InsertStart(ed: EditorState): int {
    Min(WordStartPosition(ed.text, ed.caret), Min(ed.selStart, ed.selEnd))
  }

  /** The document after the plan: the range replaced, unless it already reads so. */
  function AcceptedDocument(text: string, plan: InsertPlan): string {
    if TextRange(text, plan.startPos, plan.endPos) != plan.text
    then ReplaceRange(text, plan.startPos, plan.endPos, plan.text)
    else text
  }

  /** The editor after the plan: the range replaced (the text is left alone when it
      already reads so), the list closed, and the first span or the caret target selected. */
  function Accepted(ed: EditorState, plan: InsertPlan): EditorState {
    var ed1 := ed.(text := AcceptedDocument(ed.text, plan), autoCompActive := false);
    if plan.offsets != [] then
      SetSelection(ed1, plan.moveToPos + plan.offsets[0].0, plan.moveToPos + plan.offsets[0].1)
    else SetSelection(ed1, plan.moveToPos, plan.moveToPos)
  }

  /** A call tip is requested for a candidate that is not a keyword, whose first span is
      non-empty or is the single offset 1, unless call tips are key-bound only. */
  predicate ShowsCallTip(category: int, offsets: seq<(int, int)>, tooltipMode: int) {
    offsets != [] && category != Value(LangKeyword)
    && (offsets[0].0 != offsets[0].1 || offsets[0].0 == 1)
    && tooltipMode != TooltipKeyboundOnly
  }

  /** On a document with the caret and the selection inside it, the replaced range runs
      from the word start (or the selection) to the caret or past it; the inserted text is
      the name up to its first ':', with the suffix appended or left out as the rename rule
      says; and the caret target lies inside the inserted text. */
  lemma PlanInsertShape(ed: EditorState, name: string, suffix: string, offsets: seq<(int, int)>)
    requires 0 <= ed.caret <= |ed.text| && 0 <= ed.selStart <= |ed.text| && 0 <= ed.selEnd <= |ed.text|
    ensures var plan := PlanInsert(ed, name, suffix, offsets);
      0 <= plan.startPos <= ed.caret <= plan.endPos <= |ed.text|
      && (!RenamesInPlace(ed, name) ==> plan.endPos == ed.caret && plan.text == ActualName(name) + suffix)
      && (RenamesInPlace(ed, name) && suffix != [] && CharAt(ed.text, plan.endPos) == suffix[0] ==>
            plan.text == ActualName(name))
      && (RenamesInPlace(ed, name) && !(suffix != [] && CharAt(ed.text, plan.endPos) == suffix[0]) ==>
            plan.text == ActualName(name) + suffix)
      && (plan.offsets == offsets || plan.offsets == [])
      && plan.startPos + |ActualName(name)| <= plan.moveToPos <= plan.startPos + |plan.text|
  {
  }

  /** The document after acceptance holds the planned text in place of the planned range,
      and nothing else changes, whether or not the source had to replace anything. */
  lemma AcceptedText(ed: EditorState, plan: InsertPlan)
    requires 0 <= plan.startPos <= plan.endPos <= |ed.text|
    ensures AcceptedDocument(ed.text, plan) == ed.text[..plan.startPos] + plan.text + ed.text[plan.endPos..]
    ensures Accepted(ed, plan).text == AcceptedDocument(ed.text, plan)
    ensures !Accepted(ed, plan).autoCompActive
  {
    if TextRange(ed.text, plan.startPos, plan.endPos) == plan.text {
      assert ed.text == ed.text[..plan.startPos] + ed.text[plan.startPos..plan.endPos] + ed.text[plan.endPos..];
    }
  }

  /** Without an in-place rename, the plan replaces the word start up to the caret by the
      name and the whole suffix, with the caret target between the two. */
  lemma AppendingPlan(ed: EditorState, name: string, suffix: string, offsets: seq<(int, int)>)
    requires !RenamesInPlace(ed, name)
    ensures PlanInsert(ed, name, suffix, offsets)
            == InsertPlan(InsertStart(ed), ed.caret, ActualName(name) + suffix, InsertStart(ed) + |ActualName(name)|, offsets)
  {
  }

  lemma SliceAfter(x: string, y: string, i: nat, j: nat)
    requires i <= j <= |y|
    ensures (x + y)[|x| + i..|x| + j] == y[i..j]
  {
  }

  /** Replacing `[start, caret)` by a name and a suffix leaves the old text before, the
      name and the suffix, and the old text after. */
  lemma AppendedDocument(text: string, start: int, caret: int, tkn: string, suffix: string,
                         moveToPos: int, offsets: seq<(int, int)>)
    requires 0 <= start <= caret <= |text|
    ensures AcceptedDocument(text, InsertPlan(start, caret, tkn + suffix, moveToPos, offsets))
            == (text[..start] + tkn) + (suffix + text[caret..])
  {
    var plan := InsertPlan(start, caret, tkn + suffix, moveToPos, offsets);
    if TextRange(text, start, caret) == plan.text {
      assert text == text[..start] + text[start..caret] + text[caret..];
    }
  }

  /** On an in-place rename whose next character does not start the suffix, the plan
      replaces the word up to its end by the name and the whole suffix; a suffix of any
      length but two leaves the caret target between the two. */
  lemma AppendingRenamePlan(ed: EditorState, name: string, suffix: string, offsets: seq<(int, int)>)
    requires RenamesInPlace(ed, name)
    requires suffix != [] && CharAt(ed.text, WordEndPosition(ed.text, ed.caret)) != suffix[0] && |suffix| != 2
    ensures PlanInsert(ed, name, suffix, offsets)
            == InsertPlan(InsertStart(ed), WordEndPosition(ed.text, ed.caret), ActualName(name) + suffix,
                          InsertStart(ed) + |ActualName(name)|, offsets)
  {
  }

  /** Replacing `[start, endPos)` by a name and a suffix, with the caret target after the
      name, selects exactly the first span of the suffix. */
  lemma AppendedSpanSelected(ed: EditorState, start: int, endPos: int, tkn: string, suffix: string,
                             offsets: seq<(int, int)>)
    requires 0 <= start <= endPos <= |ed.text|
    requires offsets != [] && 0 <= offsets[0].0 <= offsets[0].1 <= |suffix|
    ensures var plan := InsertPlan(start, endPos, tkn + suffix, start + |tkn|, offsets);
      var after := Accepted(ed, plan);
      after.selStart == plan.moveToPos + offsets[0].0 && after.selEnd == plan.moveToPos + offsets[0].1
      && 0 <= after.selStart && after.selEnd <= |after.text|
      && after.text[after.selStart..after.selEnd] == suffix[offsets[0].0..offsets[0].1]
  {
    var plan := InsertPlan(start, endPos, tkn + suffix, start + |tkn|, offsets);
    AppendedDocument(ed.text, start, endPos, tkn, suffix, start + |tkn|, offsets);
    var head := ed.text[..start] + tkn;
    var tail := suffix + ed.text[endPos..];
    assert Accepted(ed, plan).text == head + tail;
    var a, b := offsets[0].0, offsets[0].1;
    AcceptedSelection(ed, plan);
    SliceAfter(head, tail, a, b);
    assert tail[a..b] == suffix[a..b];
  }

  /** When the suffix is appended, the first placeholder span selected after acceptance
      covers exactly that span of the suffix. The suffix is appended when there is no
      in-place rename, and on a rename when the character after the word does not start
      the suffix; a two-character suffix moves the caret target past itself instead. */
  lemma FirstPlaceholderSelected(ed: EditorState, name: string, suffix: string, offsets: seq<(int, int)>)
    requires 0 <= ed.caret <= |ed.text| && 0 <= ed.selStart <= |ed.text| && 0 <= ed.selEnd <= |ed.text|
    requires !RenamesInPlace(ed, name)
             || (suffix != [] && CharAt(ed.text, WordEndPosition(ed.text, ed.caret)) != suffix[0] && |suffix| != 2)
    requires offsets != [] && 0 <= offsets[0].0 <= offsets[0].1 <= |suffix|
    ensures var plan := PlanInsert(ed, name, suffix, offsets); var after := Accepted(ed, plan);
      after.selStart == plan.moveToPos + offsets[0].0 && after.selEnd == plan.moveToPos + offsets[0].1
      && 0 <= after.selStart && after.selEnd <= |after.text|
      && after.text[after.selStart..after.selEnd] == suffix[offsets[0].0..offsets[0].1]
  {
    if RenamesInPlace(ed, name) {
      RenameSelectsFirstSpan(ed, name, suffix, offsets);
    } else {
      AppendSelectsFirstSpan(ed, name, suffix, offsets);
    }
  }

  /** The first placeholder span is selected when no rename takes place. */
  lemma AppendSelectsFirstSpan(ed: EditorState, name: string, suffix: string, offsets: seq<(int, int)>)
    requires 0 <= ed.caret <= |ed.text| && 0 <= ed.selStart <= |ed.text| && 0 <= ed.selEnd <= |ed.text|
    requires !RenamesInPlace(ed, name)
    requires offsets != [] && 0 <= offsets[0].0 <= offsets[0].1 <= |suffix|
    ensures var plan := PlanInsert(ed, name, suffix, offsets); var after := Accepted(ed, plan);
      after.selStart == plan.moveToPos + offsets[0].0 && after.selEnd == plan.moveToPos + offsets[0].1
      && 0 <= after.selStart && after.selEnd <= |after.text|
      && after.text[after.selStart..after.selEnd] == suffix[offsets[0].0..offsets[0].1]
  {
    AppendingPlan(ed, name, suffix, offsets);
    AppendedSpanSelected(ed, InsertStart(ed), ed.caret, ActualName(name), suffix, offsets);
  }

  /** The first placeholder span is selected on a rename that appends the suffix. */
  lemma RenameSelectsFirstSpan(ed: EditorState, name: string, suffix: string, offsets: seq<(int, int)>)
    requires 0 <= ed.caret <= |ed.text| && 0 <= ed.selStart <= |ed.text| && 0 <= ed.selEnd <= |ed.text|
    requires RenamesInPlace(ed, name)
    requires suffix != [] && CharAt(ed.text, WordEndPosition(ed.text, ed.caret)) != suffix[0] && |suffix| != 2
    requires offsets != [] && 0 <= offsets[0].0 <= offsets[0].1 <= |suffix|
    ensures var plan := PlanInsert(ed, name, suffix, offsets); var after := Accepted(ed, plan);
      after.selStart == plan.moveToPos + offsets[0].0 && after.selEnd == plan.moveToPos + offsets[0].1
      && 0 <= after.selStart && after.selEnd <= |after.text|
      && after.text[after.selStart..after.selEnd] == suffix[offsets[0].0..offsets[0].1]
  {
    AppendingRenamePlan(ed, name, suffix, offsets);
    AppendedSpanSelected(ed, InsertStart(ed), WordEndPosition(ed.text, ed.caret), ActualName(name), suffix, offsets);
  }

  /** The selection acceptance makes, when the first span lies inside the new text. */
  lemma AcceptedSelection(ed: EditorState, plan: InsertPlan)
    requires plan.offsets != []
    requires 0 <= plan.moveToPos + plan.offsets[0].0 <= plan.moveToPos + plan.offsets[0].1
             <= |Accepted(ed, plan).text|
    ensures Accepted(ed, plan).selStart == plan.moveToPos + plan.offsets[0].0
    ensures Accepted(ed, plan).selEnd == plan.moveToPos + plan.offsets[0].1
  {
  }

  /* ------------------------------------------------------ the tab-jump queue */

  /** The placeholder strings of the spans with distinct ends, in span order. */
  function Spans(suffix: string, offsets: seq<(int, int)>): seq<string> {
    if offsets == [] then []
    else
      var last := offsets[|offsets| - 1];
      Spans(suffix, offsets[..|offsets| - 1])
        + (if last.0 != last.1 then [SubString(suffix, last.0, last.1)] else [])
  }

  /** The first entry moved to the back. */
  function RotateFront(q: seq<string>): seq<string> {
    if q == [] then [] else q[1..] + [q[0]]
  }

  /** The queue after accepting a candidate: emptied when it held more than ten, the new
      placeholders appended, and the front moved to the back when there are spans (the
      first span is selected already). */
  function QueueAfterAccept(q: seq<string>, suffix: string, offsets: seq<(int, int)>): seq<string> {
    var grown := (if |q| > TabJumpCap then [] else q) + Spans(suffix, offsets);
    if offsets != [] then RotateFront(grown) else grown
  }

  /** Every placeholder comes from a span with distinct ends, and there are no more of them
      than spans; a span with distinct ends always yields one. */
  lemma {:induction false} SpansComeFromSpans(suffix: string, offsets: seq<(int, int)>)
    ensures |Spans(suffix, offsets)| <= |offsets|
    ensures forall x :: x in Spans(suffix, offsets) ==>
              exists k :: 0 <= k < |offsets| && offsets[k].0 != offsets[k].1 && x == SubString(suffix, offsets[k].0, offsets[k].1)
    ensures (forall k :: 0 <= k < |offsets| ==> offsets[k].0 != offsets[k].1) ==> |Spans(suffix, offsets)| == |offsets|
  {
    if offsets != [] {
      var init := offsets[..|offsets| - 1];
      SpansComeFromSpans(suffix, init);
      forall x | x in Spans(suffix, init)
        ensures exists k :: 0 <= k < |offsets| && offsets[k].0 != offsets[k].1 && x == SubString(suffix, offsets[k].0, offsets[k].1)
      {
        var k :| 0 <= k < |init| && init[k].0 != init[k].1 && x == SubString(suffix, init[k].0, init[k].1);
        assert offsets[k] == init[k];
      }
    }
  }

  /** Rotation keeps the entries and puts the front one last. */
  lemma RotateFrontPermutes(q: seq<string>)
    ensures multiset(RotateFront(q)) == multiset(q)
    ensures q != [] ==> RotateFront(q)[|q| - 1] == q[0]
  {
    if q != [] {
      assert q == [q[0]] + q[1..];
    }
  }

  /** Acceptance keeps the old entries (unless there were more than ten) and adds exactly the
      new placeholders; so the queue holds at most ten entries plus those of one suffix. */
  lemma QueueAfterAcceptContents(q: seq<string>, suffix: string, offsets: seq<(int, int)>)
    ensures multiset(QueueAfterAccept(q, suffix, offsets))
            == multiset(if |q| > TabJumpCap then [] else q) + multiset(Spans(suffix, offsets))
    ensures |QueueAfterAccept(q, suffix, offsets)| <= (if |q| > TabJumpCap then 0 else |q|) + |offsets|
  {
    var grown := (if |q| > TabJumpCap then [] else q) + Spans(suffix, offsets);
    RotateFrontPermutes(grown);
    SpansComeFromSpans(suffix, offsets);
    assert |RotateFront(grown)| == |grown|;
  }

  /** Accepting into an empty queue a suffix with spans (0,3) and (5,8) queues both
      placeholders, the one for (0,3) last, since it is the one selected. */
  lemma QueueAfterTwoSpans(suffix: string)
    ensures QueueAfterAccept([], suffix, [(0, 3), (5, 8)]) == [SubString(suffix, 5, 8), SubString(suffix, 0, 3)]
  {
    var offs: seq<(int, int)> := [(0, 3), (5, 8)];
    var one: seq<(int, int)> := [(0, 3)];
    assert offs[..1] == one;
    assert one[..0] == [];
    assert Spans(suffix, one) == [SubString(suffix, 0, 3)];
    assert Spans(suffix, offs) == [SubString(suffix, 0, 3), SubString(suffix, 5, 8)];
  }

  /** The text `OnKeyDown` selects for a placeholder is one shorter than the queued string,
      the same length as the span `DoAutocomplete` selected for it. */
  lemma PlaceholderSelectionLength(suffix: string, first: int, second: int)
    requires 0 <= first < second < |suffix|
    ensures |SubString(suffix, first, second)| - 1 == second - first
  {
  }

  /** The position of the first queue entry from `i` on that occurs in `[lo, hi)`, or the
      queue's length. */
  function FirstFoundFrom(text: string, lo: int, hi: int, q: seq<string>, i: nat): (r: nat)
    requires i <= |q|
    ensures i <= r <= |q|
    ensures r < |q| ==> FindText(text, lo, hi, q[r]) != -1
    ensures forall j :: i <= j < r ==> FindText(text, lo, hi, q[j]) == -1
    decreases |q| - i
  {
    if i == |q| then i
    else if FindText(text, lo, hi, q[i]) != -1 then i
    else FirstFoundFrom(text, lo, hi, q, i + 1)
  }

  /** The entry at `i` moved to the back. */
  function MoveToBack(q: seq<string>, i: nat): seq<string>
    requires i < |q|
  {
    q[..i] + q[i + 1..] + [q[i]]
  }

  /** Cycling keeps the entries, puts the used one last and the others in their order. */
  lemma MoveToBackPermutes(q: seq<string>, i: nat)
    requires i < |q|
    ensures |MoveToBack(q, i)| == |q|
    ensures multiset(MoveToBack(q, i)) == multiset(q)
    ensures MoveToBack(q, i)[|q| - 1] == q[i]
    ensures MoveToBack(q, i)[..|q| - 1] == q[..i] + q[i + 1..]
  {
    assert q == q[..i] + [q[i]] + q[i + 1..];
  }

  /** The filter loops and the stages after them, on the raw results. */
  method CandidatesOf(results: seq<ClToken>, prefix: string, includeCtors: bool, isPP: bool,
                      keywords: seq<string>)
    returns (tokens: seq<CCToken>)
    ensures Postprocessed(Filtered(results, prefix, includeCtors), prefix, isPP, keywords, tokens)
  {
    var filtered := FilterByPrefix(results, prefix, includeCtors);
    tokens := Postprocess(filtered, prefix, isPP, keywords);
  }

  /** The name truncated at its first ':', as `DoAutocomplete` computes it. */
  method TruncatedAtColon(name: string) returns (tknText: string)
    ensures tknText == ActualName(name)
  {
    tknText := name;
    var idx := Find(tknText, [':']);
    if idx != NotFound {
      tknText := tknText[..idx];
    }
  }

  /** The insert decision of `DoAutocomplete`, step by step as the source takes it. */
  method PlanAcceptance(ed: EditorState, name: string, suffix: string, offsets: seq<(int, int)>)
    returns (plan: InsertPlan)
    ensures plan == PlanInsert(ed, name, suffix, offsets)
  {
    var tknText := TruncatedAtColon(name);
    var offsetsList := offsets;
    var text := ed.text;
    var pos := ed.caret;
    var startPos := Min(WordStartPosition(text, pos), Min(ed.selStart, ed.selEnd));
    assert startPos == InsertStart(ed);
    var moveToPos := startPos + |tknText|;
    var endPos := WordEndPosition(text, pos);
    if EndsWith(tknText, TextRange(text, pos, endPos)) {
      if suffix != [] {
        if CharAt(text, endPos) == suffix[0] {
          if |suffix| != 2 || CharAt(text, endPos + 1) != suffix[1] {
            offsetsList := [];
          }
        } else {
          tknText := tknText + suffix;
          if |suffix| == 2 {
            moveToPos := moveToPos + 2;
          }
        }
      }
    } else {
      endPos := pos;
      tknText := tknText + suffix;
    }
    plan := InsertPlan(startPos, endPos, tknText, moveToPos, offsetsList);
  }

  /** The editor side of `DoAutocomplete`: close the list, replace the target when its text
      differs, select the first span or place the caret. */
  method ApplyPlan(ed: EditorState, plan: InsertPlan) returns (after: EditorState)
    ensures after == Accepted(ed, plan)
  {
    after := ed.(autoCompActive := false);
    if TextRange(ed.text, plan.startPos, plan.endPos) != plan.text {
      after := after.(text := ReplaceRange(ed.text, plan.startPos, plan.endPos, plan.text));
    }
    assert after.text == AcceptedDocument(ed.text, plan);
    if |plan.offsets| > 0 {
      after := SetSelection(after, plan.moveToPos + plan.offsets[0].0, plan.moveToPos + plan.offsets[0].1);
    } else {
      after := SetSelection(after, plan.moveToPos, plan.moveToPos);
    }
  }

  /** The `#include` test at the top of `GetAutocompList`. */
  method CompletesInclude(ed: EditorState, tknEnd: int) returns (b: bool)
    ensures b == IsIncludeDirective(ed, tknEnd)
  {
    var text := ed.text;
    var lineIndentPos := IndentPosition(text, LineStart(text, ed.caret));
    var lineFirstChar := CharAt(text, lineIndentPos);
    b := false;
    if lineFirstChar == '#' {
      var startPos := WordStartPosition(text, lineIndentPos + 1);
      var endPos := WordEndPosition(text, lineIndentPos + 1);
      var str := TextRange(text, startPos, endPos);
      if str == "include" && tknEnd > endPos {
        b := true;
      }
    }
  }

  /** The filter of illogical automatic launches. */
  method IllogicalAutoLaunch(ed: EditorState, tknEnd: int) returns (b: bool)
    ensures b == AutoLaunchIllogical(ed, tknEnd)
  {
    var text := ed.text;
    var style := StyleAt(ed, tknEnd);
    var curChar := CharAt(text, tknEnd - 1);
    FindCharIsFirst("<\"/", curChar);
    b := (curChar == ':' && CharAt(text, tknEnd - 2) != ':')
         || (curChar == '>' && CharAt(text, tknEnd - 2) != '-')
         || (Find("<\"/", [curChar]) != NotFound && !style.isPreprocessor);
  }

  /* ------------------------------------------------------------------ the engine */

  /** What a unit notification leaves of the timeout state and the cache: for the current
      unit the outstanding counter, the request position and the cached results are reset;
      for another unit all three are kept. */
  predicate ResetOutcome(forCurrentUnit: bool,
                         oldOutstanding: int, oldPos: int, oldResults: seq<ClToken>,
                         outstanding: int, pos: int, results: seq<ClToken>) {
    if forCurrentUnit then outstanding == 0 && pos == 0 && results == []
    else outstanding == oldOutstanding && pos == oldPos && results == oldResults
  }

  class ClangCodeCompletion {
    var translUnitId: ClTranslUnitId
    var ccOutstanding: int
    var ccOutstandingPos: int
    var ccOutstandingResults: seq<ClToken>
    var tabJumpArguments: seq<string>

    /** The timeout counter is 0 or 1: it is zeroed before every request and raised once on
        a timeout, and the handlers only zero or lower it while it is positive. */
    ghost predicate Valid()
      reads this
    {
      0 <= ccOutstanding <= 1
    }

    constructor ()
      ensures Valid()
      ensures translUnitId == NotFound && ccOutstanding == 0 && ccOutstandingPos == -1
      ensures ccOutstandingResults == [] && tabJumpArguments == []
    {
      translUnitId := NotFound;
      ccOutstanding := 0;
      ccOutstandingPos := -1;
      ccOutstandingResults := [];
      tabJumpArguments := [];
    }

    /** `GetCurrentTranslationUnitId`: asks the plugin only while the unit is unknown and an
        editor is active, and keeps its answer. */
    method GetCurrentTranslationUnitId(lookup: Option<ClTranslUnitId>) returns (id: ClTranslUnitId)
      modifies this
      ensures id == translUnitId == UnitAfterLookup(old(translUnitId), lookup)
      ensures ccOutstanding == old(ccOutstanding) && ccOutstandingPos == old(ccOutstandingPos)
      ensures ccOutstandingResults == old(ccOutstandingResults) && tabJumpArguments == old(tabJumpArguments)
    {
      if translUnitId == NotFound {
        if lookup.None? {
          return NotFound;
        }
        translUnitId := lookup.value;
      }
      return translUnitId;
    }

    /** `GetAutocompList`: the candidates for the token `[tknStart, tknEnd)`, and the
        service request it issued, if any. */
    method GetAutocompList(isAuto: bool, ed: EditorState, tknStart: int, tknEnd: int,
                           lookup: Option<ClTranslUnitId>, service: CompletionRequest -> CompletionReply,
                           keywords: seq<string>)
      returns (tokens: seq<CCToken>, request: Option<CompletionRequest>)
      requires Valid()
      modifies this
      ensures Valid()
      ensures tabJumpArguments == old(tabJumpArguments)
      ensures translUnitId == (if IsIncludeDirective(ed, tknEnd) then old(translUnitId)
                               else UnitAfterLookup(old(translUnitId), lookup))
      ensures Rejected(isAuto, ed, tknEnd, translUnitId) ==>
                tokens == [] && request == None
                && ccOutstanding == old(ccOutstanding) && ccOutstandingPos == old(ccOutstandingPos)
                && ccOutstandingResults == old(ccOutstandingResults)
      ensures !Rejected(isAuto, ed, tknEnd, translUnitId)
              && ReusesCache(old(ccOutstanding), old(ccOutstandingPos), ed.caret, old(ccOutstandingResults)) ==>
                request == None && ccOutstanding == 0
                && ccOutstandingPos == old(ccOutstandingPos) && ccOutstandingResults == old(ccOutstandingResults)
                && CandidatesFrom(old(ccOutstandingResults), ed, tknStart, tknEnd, keywords, tokens)
      ensures !Rejected(isAuto, ed, tknEnd, translUnitId)
              && !ReusesCache(old(ccOutstanding), old(ccOutstandingPos), ed.caret, old(ccOutstandingResults)) ==>
                request == Some(RequestFor(isAuto, ed, translUnitId, tknStart))
                && match service(request.value)
                   case TimedOut =>
                     tokens == [] && ccOutstanding == 1 && ccOutstandingPos == ed.caret && ccOutstandingResults == []
                   case Completed(results) =>
                     ccOutstanding == 0 && ccOutstandingPos == old(ccOutstandingPos)
                     && ccOutstandingResults == old(ccOutstandingResults)
                     && CandidatesFrom(results, ed, tknStart, tknEnd, keywords, tokens)
    {
      tokens, request := [], None;
      var text := ed.text;
      var style := StyleAt(ed, tknEnd);
      var includes := CompletesInclude(ed, tknEnd);
      if includes {
        return;
      }

      var unitId := GetCurrentTranslationUnitId(lookup);
      if unitId == NotFound {
        return;
      }
      // The source compares the answer with the field once more; they are always equal.
      assert unitId == translUnitId;

      if isAuto {
        var illogical := IllogicalAutoLaunch(ed, tknEnd);
        if illogical {
          return;
        }
      }

      if style.isString || style.isComment || style.isCharacter {
        return;
      }

      tokens, request := RequestOrReuse(isAuto, ed, tknStart, tknEnd, unitId, service, keywords);
    }

    /** The request `GetAutocompList` builds from the token's line and backed-off column. */
    static method IssuedRequest(isAuto: bool, ed: EditorState, unitId: ClTranslUnitId, tknStart: int,
                                line: int, column: int)
      returns (request: CompletionRequest)
      requires line == LineFromPosition(ed.text, tknStart) && column == RequestColumn(ed, tknStart)
      ensures request == RequestFor(isAuto, ed, unitId, tknStart)
    {
      var loc := NewClTokenPosition(ToU32(line + 1), ToU32(column + 1));
      var timeout := AutoTimeout;
      if !isAuto {
        timeout := ManualTimeout;
      }
      request := CompletionRequest(unitId, ed.filename, loc, timeout);
    }

    /** The part of `GetAutocompList` past its guards: serve the cache, or ask the service
        and remember a timeout. */
    method RequestOrReuse(isAuto: bool, ed: EditorState, tknStart: int, tknEnd: int, unitId: ClTranslUnitId,
                          service: CompletionRequest -> CompletionReply, keywords: seq<string>)
      returns (tokens: seq<CCToken>, request: Option<CompletionRequest>)
      requires Valid() && unitId == translUnitId
      modifies this
      ensures Valid()
      ensures translUnitId == old(translUnitId) && tabJumpArguments == old(tabJumpArguments)
      ensures ReusesCache(old(ccOutstanding), old(ccOutstandingPos), ed.caret, old(ccOutstandingResults)) ==>
                request == None && ccOutstanding == 0
                && ccOutstandingPos == old(ccOutstandingPos) && ccOutstandingResults == old(ccOutstandingResults)
                && CandidatesFrom(old(ccOutstandingResults), ed, tknStart, tknEnd, keywords, tokens)
      ensures !ReusesCache(old(ccOutstanding), old(ccOutstandingPos), ed.caret, old(ccOutstandingResults)) ==>
                request == Some(RequestFor(isAuto, ed, unitId, tknStart))
                && match service(request.value)
                   case TimedOut =>
                     tokens == [] && ccOutstanding == 1 && ccOutstandingPos == ed.caret && ccOutstandingResults == []
                   case Completed(results) =>
                     ccOutstanding == 0 && ccOutstandingPos == old(ccOutstandingPos)
                     && ccOutstandingResults == old(ccOutstandingResults)
                     && CandidatesFrom(results, ed, tknStart, tknEnd, keywords, tokens)
    {
      tokens, request := [], None;
      var text := ed.text;
      var outstanding := ccOutstanding;
      if outstanding > 0 && ccOutstandingPos != ed.caret {
        outstanding := 0;
      }
      ccOutstanding := 0;

      var line := LineFromPosition(text, tknStart);
      var lnStart := LineStart(text, tknStart);
      var column := BackOffColumn(text, lnStart, tknStart - lnStart);
      var prefix := Lower(TextRange(text, tknStart, tknEnd));
      var includeCtors := ScanIncludeCtors(text, tknStart);

      var tknResults: seq<ClToken>;
      if outstanding == 0 || |ccOutstandingResults| == 0 {
        var req := IssuedRequest(isAuto, ed, unitId, tknStart, line, column);
        request := Some(req);
        var reply := service(request.value);
        if reply.TimedOut? {
          ccOutstanding := ccOutstanding + 1;
          ccOutstandingPos := ed.caret;
          ccOutstandingResults := [];
          return;
        }
        tknResults := reply.results;
      } else {
        tknResults := ccOutstandingResults;
      }
      var isPP := StartsWith(StripLeading(LineText(text, lnStart)), "#");
      assert prefix == RequestPrefix(ed, tknStart, tknEnd) && isPP == OnPreprocessorLine(ed, tknStart);
      tokens := CandidatesOf(tknResults, prefix, includeCtors, isPP, keywords);
    }

    /** The placeholder part of `DoAutocomplete`: the cap, the appended spans and the
        rotation. */
    method AcceptPlaceholders(suffix: string, offsets: seq<(int, int)>)
      modifies this
      ensures tabJumpArguments == QueueAfterAccept(old(tabJumpArguments), suffix, offsets)
      ensures translUnitId == old(translUnitId) && ccOutstanding == old(ccOutstanding)
      ensures ccOutstandingPos == old(ccOutstandingPos) && ccOutstandingResults == old(ccOutstandingResults)
    {
      if |tabJumpArguments| > TabJumpCap {
        tabJumpArguments := [];
      }
      ghost var kept := tabJumpArguments;
      for k := 0 to |offsets|
        invariant tabJumpArguments == kept + Spans(suffix, offsets[..k])
        invariant translUnitId == old(translUnitId) && ccOutstanding == old(ccOutstanding)
        invariant ccOutstandingPos == old(ccOutstandingPos) && ccOutstandingResults == old(ccOutstandingResults)
      {
        assert offsets[..k + 1][..k] == offsets[..k];
        if offsets[k].0 != offsets[k].1 {
          tabJumpArguments := tabJumpArguments + [SubString(suffix, offsets[k].0, offsets[k].1)];
        }
      }
      assert offsets[..|offsets|] == offsets;
      if |offsets| > 0 {
        if |tabJumpArguments| > 0 {
          var first := tabJumpArguments[0];
          tabJumpArguments := tabJumpArguments[1..] + [first];
        }
      }
    }

    /** `DoAutocomplete`: inserts the accepted candidate, updates the placeholder queue and
        says whether a call tip is requested. */
    method DoAutocomplete(token: CCToken, ed: EditorState, lookup: Option<ClTranslUnitId>,
                          suffixService: (ClTranslUnitId, int) -> (string, seq<(int, int)>),
                          tooltipMode: int)
      returns (after: EditorState, showCallTip: bool, done: bool)
      modifies this
      ensures translUnitId == UnitAfterLookup(old(translUnitId), lookup)
      ensures var suffix := suffixService(translUnitId, token.id).0;
        var plan := PlanInsert(ed, token.name, suffix, suffixService(translUnitId, token.id).1);
        after == Accepted(ed, plan)
        && tabJumpArguments == QueueAfterAccept(old(tabJumpArguments), suffix, plan.offsets)
        && showCallTip == ShowsCallTip(token.category, plan.offsets, tooltipMode)
      ensures ccOutstanding == old(ccOutstanding) && ccOutstandingPos == old(ccOutstandingPos)
      ensures ccOutstandingResults == old(ccOutstandingResults)
      ensures done
    {
      var unitId := GetCurrentTranslationUnitId(lookup);
      var reply := suffixService(unitId, token.id);
      var suffix := reply.0;
      var plan := PlanAcceptance(ed, token.name, suffix, reply.1);
      after := ApplyPlan(ed, plan);
      var offsetsList := plan.offsets;
      AcceptPlaceholders(suffix, offsetsList);
      showCallTip := false;
      if |offsetsList| > 0 {
        if token.category != Value(LangKeyword)
           && (offsetsList[0].0 != offsetsList[0].1 || offsetsList[0].0 == 1)
        {
          if tooltipMode != TooltipKeyboundOnly {
            showCallTip := true;
          }
        }
      }
      done := true;
    }

    /** The search loop of `OnKeyDown`: the first queued placeholder found between `pos`
        and `maxPos`, with the position where it was found. */
    static method FirstPlaceholderOnLine(text: string, pos: int, maxPos: int, q: seq<string>)
      returns (i: nat, argPos: int)
      ensures i == FirstFoundFrom(text, pos, maxPos, q, 0)
      ensures i < |q| ==> argPos == FindText(text, pos, maxPos, q[i])
    {
      i, argPos := 0, -1;
      while i < |q|
        invariant i <= |q|
        invariant FirstFoundFrom(text, pos, maxPos, q, 0) == FirstFoundFrom(text, pos, maxPos, q, i)
      {
        argPos := FindText(text, pos, maxPos, q[i]);
        if argPos != -1 {
          return;
        }
        i := i + 1;
      }
    }

    /** `OnKeyDown`: on the tab key, with an editor active and no completion list showing,
        selects the first queued placeholder found on the caret's line and moves it to the
        back of the queue; any other key, or no match, is passed on unchanged. */
    method OnKeyDown(isTab: bool, active: Option<EditorState>)
      returns (after: Option<EditorState>, skipped: bool)
      modifies this
      ensures translUnitId == old(translUnitId) && ccOutstanding == old(ccOutstanding)
      ensures ccOutstandingPos == old(ccOutstandingPos) && ccOutstandingResults == old(ccOutstandingResults)
      ensures !(isTab && active.Some? && !active.value.autoCompActive) ==>
                after == active && skipped && tabJumpArguments == old(tabJumpArguments)
      ensures isTab && active.Some? && !active.value.autoCompActive ==>
                var ed := active.value;
                var lo := LineStart(ed.text, ed.caret);
                var hi := NextLineStart(ed.text, lo);
                var i := FirstFoundFrom(ed.text, lo, hi, old(tabJumpArguments), 0);
                (i == |old(tabJumpArguments)| ==>
                   after == active && skipped && tabJumpArguments == old(tabJumpArguments))
                && (i < |old(tabJumpArguments)| ==>
                   var argPos := FindText(ed.text, lo, hi, old(tabJumpArguments)[i]);
                   !skipped && tabJumpArguments == MoveToBack(old(tabJumpArguments), i)
                   && after == Some(SetSelection(ed, argPos, argPos + |old(tabJumpArguments)[i]| - 1)))
    {
      after, skipped := active, true;
      if isTab && active.Some? {
        var ed := active.value;
        if !ed.autoCompActive {
          var pos := LineStart(ed.text, ed.caret);
          var maxPos := NextLineStart(ed.text, pos);
          var i, argPos := FirstPlaceholderOnLine(ed.text, pos, maxPos, tabJumpArguments);
          if i < |tabJumpArguments| {
            after := Some(SetSelection(ed, argPos, argPos + |tabJumpArguments[i]| - 1));
            var value := tabJumpArguments[i];
            tabJumpArguments := tabJumpArguments[..i] + tabJumpArguments[i + 1..] + [value];
            skipped := false;
          }
        }
      }
    }

    /** The body shared by `OnTranslationUnitCreated` and `OnReparseFinished`: for the
        current unit the timeout state and the cache are reset, for another unit nothing
        changes. */
    method ResetForCurrentUnit(event: ClangEvent, lookup: Option<ClTranslUnitId>)
      requires Valid()
      modifies this
      ensures Valid()
      ensures translUnitId == UnitAfterLookup(old(translUnitId), lookup)
      ensures tabJumpArguments == old(tabJumpArguments)
      ensures ResetOutcome(event.GetTranslationUnitId() == translUnitId,
                           old(ccOutstanding), old(ccOutstandingPos), old(ccOutstandingResults),
                           ccOutstanding, ccOutstandingPos, ccOutstandingResults)
    {
      var current := GetCurrentTranslationUnitId(lookup);
      if event.GetTranslationUnitId() != current {
        return;
      }
      ccOutstanding := 0;
      ccOutstandingPos := 0;
      ccOutstandingResults := [];
    }

    /** `OnTranslationUnitCreated`. */
    method OnTranslationUnitCreated(event: ClangEvent, lookup: Option<ClTranslUnitId>)
      requires Valid()
      modifies this
      ensures Valid()
      ensures translUnitId == UnitAfterLookup(old(translUnitId), lookup)
      ensures tabJumpArguments == old(tabJumpArguments)
      ensures ResetOutcome(event.GetTranslationUnitId() == translUnitId,
                           old(ccOutstanding), old(ccOutstandingPos), old(ccOutstandingResults),
                           ccOutstanding, ccOutstandingPos, ccOutstandingResults)
    {
      ResetForCurrentUnit(event, lookup);
    }

    /** `OnReparseFinished`. */
    method OnReparseFinished(event: ClangEvent, lookup: Option<ClTranslUnitId>)
      requires Valid()
      modifies this
      ensures Valid()
      ensures translUnitId == UnitAfterLookup(old(translUnitId), lookup)
      ensures tabJumpArguments == old(tabJumpArguments)
      ensures ResetOutcome(event.GetTranslationUnitId() == translUnitId,
                           old(ccOutstanding), old(ccOutstandingPos), old(ccOutstandingResults),
                           ccOutstanding, ccOutstandingPos, ccOutstandingResults)
    {
      ResetForCurrentUnit(event, lookup);
    }

    /** `OnCodeCompleteFinished`: results for the current unit, arriving while a timed-out
        request is outstanding and the caret has not moved, are stored; when there are
        some, a new completion is requested (the counter stays, so that request is served
        from the cache); otherwise the counter is lowered. Returns whether the new
        completion was requested. */
    method OnCodeCompleteFinished(event: ClangEvent, active: Option<EditorState>)
      returns (requestsCompletion: bool)
      requires Valid()
      modifies this
      ensures Valid()
      ensures translUnitId == old(translUnitId) && tabJumpArguments == old(tabJumpArguments)
      ensures ccOutstandingPos == old(ccOutstandingPos)
      ensures event.GetTranslationUnitId() != old(translUnitId) || old(ccOutstanding) <= 0 ==>
                !requestsCompletion && ccOutstanding == old(ccOutstanding)
                && ccOutstandingResults == old(ccOutstandingResults)
      ensures event.GetTranslationUnitId() == old(translUnitId) && old(ccOutstanding) > 0 ==>
                var atPos := active.Some? && active.value.caret == old(ccOutstandingPos);
                ccOutstandingResults == (if atPos then event.GetCodeCompletionResults() else old(ccOutstandingResults))
                && (requestsCompletion <==> atPos && event.GetCodeCompletionResults() != [])
                && ccOutstanding == (if requestsCompletion then old(ccOutstanding) else old(ccOutstanding) - 1)
    {
      requestsCompletion := false;
      if event.GetTranslationUnitId() != translUnitId {
        return;
      }
      if ccOutstanding > 0 {
        if active.Some? {
          if active.value.caret == ccOutstandingPos {
            ccOutstandingResults := event.GetCodeCompletionResults();
            if |ccOutstandingResults| > 0 {
              requestsCompletion := true;
              return;
            }
          }
        }
        ccOutstanding := ccOutstanding - 1;
      }
    }
  }

  /** Stored results are served: once `OnCodeCompleteFinished` has stored results and asked
      for a new completion, that request, made at the same caret, reuses them; after a
      timeout with nothing delivered, a request at the same caret asks the service again,
      because the timeout emptied the cache. */
  lemma CacheServesDeliveredResults(caret: int, results: seq<ClToken>)
    ensures results != [] ==> ReusesCache(1, caret, caret, results)
    ensures !ReusesCache(1, caret, caret, [])
    ensures forall other :: other != caret ==> !ReusesCache(1, caret, other, results)
  {
  }
}
