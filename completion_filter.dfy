/** The stages of `ClangCodeCompletion::GetAutocompList` that turn the raw results of the
    translation-unit service into the candidate list: the column back-off, the
    constructor rule, the three prefix tiers, the volume cut, the category refinement and
    the weight compression. Each stage is a method written as the source's loop, proved
    against a specification function, with lemmas saying what that function means. */
module CompletionFilter {
  import opened Text
  import opened Editor
  import opened ClangPluginApi

  /* ---------------------------------------------------------------- GetActualName */

  /** `GetActualName`: the part of a name before its first ':'. */
  function ActualName(name: string): (r: string)
    ensures StartsWith(name, r)
    ensures ':' !in r
    ensures r == name <==> ':' !in name
    ensures r != name ==> name[|r|] == ':'
  {
    FindCharIsFirst(name, ':');
    var idx := Find(name, [':']);
    if idx == NotFound then name else name[..idx]
  }

  /* ------------------------------------------------------------- column back-off */

  /** Where the back-off loop over the token's column stops: at column 0, after a
      non-blank, or after a single blank that follows a non-blank. */
  predicate ColumnStops(text: string, lnStart: int, c: int) {
    c <= 0
    || !IsSpace(CharAt(text, lnStart + c - 1))
    || (c != 1 && !IsSpace(CharAt(text, lnStart + c - 2)))
  }

  /** The column the back-off loop ends on: the largest column not above `c` at which it
      stops. */
  function BackedOffColumn(text: string, lnStart: int, c: int): (r: int)
    ensures r <= c
    ensures c > 0 ==> r >= 0
    ensures c <= 0 ==> r == c
    ensures ColumnStops(text, lnStart, r)
    ensures forall k :: r < k <= c ==> !ColumnStops(text, lnStart, k)
    decreases if c > 0 then c else 0
  {
    if ColumnStops(text, lnStart, c) then c else BackedOffColumn(text, lnStart, c - 1)
  }

  /** The loop of clangcc.cpp that moves the requested column back over blanks. */
  method BackOffColumn(text: string, lnStart: int, column0: int) returns (column: int)
    ensures column == BackedOffColumn(text, lnStart, column0)
  {
    column := column0;
    while column > 0
      invariant BackedOffColumn(text, lnStart, column) == BackedOffColumn(text, lnStart, column0)
      decreases column
    {
      if !IsSpace(CharAt(text, lnStart + column - 1))
         || (column != 1 && !IsSpace(CharAt(text, lnStart + column - 2)))
      {
        break;
      }
      column := column - 1;
    }
  }

  /* ----------------------------------------------------------- constructor rule */

  /** The nearest non-blank character before the token start, looking no further back than
      position 1, is ';' or '}'. */
  predicate FollowsTerminator(text: string, tknStart: int) {
    exists i :: 1 <= i < tknStart && !IsSpace(CharAt(text, i))
      && (CharAt(text, i) == ';' || CharAt(text, i) == '}')
      && forall j :: i < j < tknStart ==> IsSpace(CharAt(text, j))
  }

  /** The backwards scan that decides `includeCtors`. */
  method ScanIncludeCtors(text: string, tknStart: int) returns (includeCtors: bool)
    ensures includeCtors <==> !FollowsTerminator(text, tknStart)
  {
    includeCtors := true;
    var i := tknStart - 1;
    while i > 0
      invariant i <= tknStart - 1
      invariant forall j :: i < j < tknStart ==> IsSpace(CharAt(text, j))
      decreases i
    {
      var chr := CharAt(text, i);
      if !IsSpace(chr) {
        if chr == ';' || chr == '}' {
          includeCtors := false;
        }
        return;
      }
      i := i - 1;
    }
  }

  /* ---------------------------------------------------------------- prefix tiers */

  /** The prefix rule, chosen by the length of the lowered prefix alone: longer than 3,
      the lowered name contains it; empty, the name does not start with "operator";
      otherwise the lowered name starts with it. */
  predicate PrefixMatches(name: string, prefix: string) {
    if |prefix| > 3 then Contains(Lower(name), prefix)
    else if prefix == [] then !StartsWith(name, "operator")
    else StartsWith(Lower(name), prefix)
  }

  /** A raw token passes the filter: it matches the prefix and is not a public constructor
      when constructors are excluded. */
  predicate Keep(t: ClToken, prefix: string, includeCtors: bool) {
    PrefixMatches(t.name, prefix) && (includeCtors || t.category != Value(CtorPublic))
  }

  /** The candidate a raw token becomes: its name is both the display and insert name. */
  function Candidate(t: ClToken): CCToken {
    NewCCToken(t.id, t.name, t.name, t.weight, t.category)
  }

  /** The candidates of the tokens that pass, in the order of `results`. */
  function Filtered(results: seq<ClToken>, prefix: string, includeCtors: bool): seq<CCToken> {
    if results == [] then []
    else
      var last := results[|results| - 1];
      Filtered(results[..|results| - 1], prefix, includeCtors)
        + (if Keep(last, prefix, includeCtors) then [Candidate(last)] else [])
  }

  /** The positions in `results` of the tokens that pass. */
  function KeptIndices(results: seq<ClToken>, prefix: string, includeCtors: bool): seq<nat> {
    if results == [] then []
    else
      KeptIndices(results[..|results| - 1], prefix, includeCtors)
        + (if Keep(results[|results| - 1], prefix, includeCtors) then [|results| - 1] else [])
  }

  /** The three filter loops, one per prefix tier. */
  method FilterByPrefix(tknResults: seq<ClToken>, prefix: string, includeCtors: bool)
    returns (tokens: seq<CCToken>)
    ensures tokens == Filtered(tknResults, prefix, includeCtors)
  {
    tokens := [];
    if |prefix| > 3 {
      for i := 0 to |tknResults|
        invariant tokens == Filtered(tknResults[..i], prefix, includeCtors)
      {
        var t := tknResults[i];
        assert tknResults[..i + 1][..i] == tknResults[..i];
        if Contains(Lower(t.name), prefix) && (includeCtors || t.category != Value(CtorPublic)) {
          tokens := tokens + [NewCCToken(t.id, t.name, t.name, t.weight, t.category)];
        }
      }
    } else if prefix == [] {
      for i := 0 to |tknResults|
        invariant tokens == Filtered(tknResults[..i], prefix, includeCtors)
      {
        var t := tknResults[i];
        assert tknResults[..i + 1][..i] == tknResults[..i];
        if !StartsWith(t.name, "operator") && (includeCtors || t.category != Value(CtorPublic)) {
          tokens := tokens + [NewCCToken(t.id, t.name, t.name, t.weight, t.category)];
        }
      }
    } else {
      for i := 0 to |tknResults|
        invariant tokens == Filtered(tknResults[..i], prefix, includeCtors)
      {
        var t := tknResults[i];
        assert tknResults[..i + 1][..i] == tknResults[..i];
        if StartsWith(Lower(t.name), prefix) && (includeCtors || t.category != Value(CtorPublic)) {
          tokens := tokens + [NewCCToken(t.id, t.name, t.name, t.weight, t.category)];
        }
      }
    }
    assert tknResults[..|tknResults|] == tknResults;
  }

  /** The k-th candidate is the candidate of the token at the k-th kept position. */
  lemma {:induction false} FilteredFollowsKeptIndices(results: seq<ClToken>, prefix: string, includeCtors: bool)
    ensures var out := Filtered(results, prefix, includeCtors);
      var idx := KeptIndices(results, prefix, includeCtors);
      |out| == |idx|
      && forall k :: 0 <= k < |idx| ==> idx[k] < |results| && out[k] == Candidate(results[idx[k]])
  {
    if results != [] {
      var init := results[..|results| - 1];
      FilteredFollowsKeptIndices(init, prefix, includeCtors);
      var idx0 := KeptIndices(init, prefix, includeCtors);
      forall k | 0 <= k < |idx0|
        ensures results[idx0[k]] == init[idx0[k]]
      {
      }
    }
  }

  /** The kept positions increase, and a position is kept exactly when its token passes. */
  lemma {:induction false} KeptIndicesAreThePassing(results: seq<ClToken>, prefix: string, includeCtors: bool)
    ensures var idx := KeptIndices(results, prefix, includeCtors);
      (forall k :: 0 <= k < |idx| ==> idx[k] < |results|)
      && (forall k, l :: 0 <= k < l < |idx| ==> idx[k] < idx[l])
      && (forall i :: 0 <= i < |results| ==> (i in idx <==> Keep(results[i], prefix, includeCtors)))
  {
    if results != [] {
      var init := results[..|results| - 1];
      KeptIndicesAreThePassing(init, prefix, includeCtors);
      var idx0 := KeptIndices(init, prefix, includeCtors);
      var idx := KeptIndices(results, prefix, includeCtors);
      assert forall i :: i in idx <==> i in idx0 || (i == |results| - 1 && Keep(results[|results| - 1], prefix, includeCtors));
      forall i | 0 <= i < |results| - 1
        ensures results[i] == init[i]
      {
      }
    }
  }

  /** The filter output is an order-preserving selection: the k-th candidate comes from the
      k-th kept position, the positions increase, and a position is kept exactly when its
      token passes `Keep`. */
  lemma FilteredIsOrderedSelection(results: seq<ClToken>, prefix: string, includeCtors: bool)
    ensures var out := Filtered(results, prefix, includeCtors);
      var idx := KeptIndices(results, prefix, includeCtors);
      |out| == |idx|
      && (forall k :: 0 <= k < |idx| ==> idx[k] < |results| && out[k] == Candidate(results[idx[k]]))
      && (forall k, l :: 0 <= k < l < |idx| ==> idx[k] < idx[l])
      && (forall i :: 0 <= i < |results| ==> (i in idx <==> Keep(results[i], prefix, includeCtors)))
  {
    FilteredFollowsKeptIndices(results, prefix, includeCtors);
    KeptIndicesAreThePassing(results, prefix, includeCtors);
  }

  /** No public constructor survives when constructors are excluded, and every candidate
      matches the prefix. */
  lemma FilteredCandidatesPass(results: seq<ClToken>, prefix: string, includeCtors: bool, k: nat)
    requires k < |Filtered(results, prefix, includeCtors)|
    ensures var c := Filtered(results, prefix, includeCtors)[k];
      PrefixMatches(c.name, prefix) && c.name == c.displayName
      && (!includeCtors ==> c.category != Value(CtorPublic))
      && exists i :: 0 <= i < |results| && c == Candidate(results[i])
  {
    FilteredIsOrderedSelection(results, prefix, includeCtors);
    var idx := KeptIndices(results, prefix, includeCtors);
    assert idx[k] in idx;
  }

  /* ------------------------------------------------------------------ volume cut */

  const VolumeThreshold: nat := 1500
  const VolumeKept: nat := 1000

  predicate WeightSorted(s: seq<CCToken>) {
    forall i, j :: 0 <= i < j < |s| ==> s[i].weight <= s[j].weight
  }

  /** `kept` is what `std::partial_sort` to `k` followed by the erase leaves: `k` of the
      candidates, in ascending weight, none weighing more than any candidate dropped. */
  predicate TopByWeight(all: seq<CCToken>, kept: seq<CCToken>, k: nat) {
    |kept| == k && WeightSorted(kept) && multiset(kept) <= multiset(all)
    && forall a, b :: a in multiset(kept) && b in multiset(all) - multiset(kept) ==> a.weight <= b.weight
  }

  /** The volume rule: with an empty prefix and more than 1500 candidates, the 1000 best by
      weight; otherwise all of them. */
  predicate VolumeCut(filtered: seq<CCToken>, prefix: string, out: seq<CCToken>) {
    if prefix == [] && |filtered| > VolumeThreshold then TopByWeight(filtered, out, VolumeKept)
    else out == filtered
  }

  /** The position of a lightest candidate. */
  method LightestIndex(s: seq<CCToken>) returns (m: nat)
    requires s != []
    ensures m < |s|
    ensures forall q :: 0 <= q < |s| ==> s[m].weight <= s[q].weight
  {
    m := 0;
    for j := 1 to |s|
      invariant m < |s|
      invariant forall q :: 0 <= q < j ==> s[m].weight <= s[q].weight
    {
      if s[j].weight < s[m].weight {
        m := j;
      }
    }
  }

  /** Moving a lightest remaining candidate to the end of the kept ones keeps the kept
      ones sorted, all of them no heavier than any remaining, and the candidates the same. */
  lemma SelectLightest(kept: seq<CCToken>, dropped: seq<CCToken>, m: nat)
    requires m < |dropped|
    requires WeightSorted(kept)
    requires forall a, b :: a in kept && b in dropped ==> a.weight <= b.weight
    requires forall q :: 0 <= q < |dropped| ==> dropped[m].weight <= dropped[q].weight
    ensures var kept', rest := kept + [dropped[m]], dropped[..m] + dropped[m + 1..];
      WeightSorted(kept')
      && (forall a, b :: a in kept' && b in rest ==> a.weight <= b.weight)
      && multiset(kept') + multiset(rest) == multiset(kept) + multiset(dropped)
  {
    var x, rest := dropped[m], dropped[..m] + dropped[m + 1..];
    assert dropped == dropped[..m] + [x] + dropped[m + 1..];
    assert x in dropped;
    forall b | b in rest
      ensures x.weight <= b.weight && b in dropped
    {
      var q :| 0 <= q < |rest| && rest[q] == b;
      if q < m { assert b == dropped[q]; } else { assert b == dropped[q + 1]; }
    }
  }

  /** A split of the candidates into `kept` and `dropped`, kept sorted and none heavier than
      a dropped one, is what partial_sort leaves. */
  lemma SplitIsTop(tokens: seq<CCToken>, kept: seq<CCToken>, dropped: seq<CCToken>, k: nat)
    requires |kept| == k && WeightSorted(kept)
    requires multiset(kept) + multiset(dropped) == multiset(tokens)
    requires forall a, b :: a in kept && b in dropped ==> a.weight <= b.weight
    ensures TopByWeight(tokens, kept, k)
  {
    assert multiset(tokens) - multiset(kept) == multiset(dropped);
  }

  /** `std::partial_sort(begin, begin + k, end)` then `erase(begin + k, end)`, written as a
      selection of the lightest remaining candidate `k` times. */
  method PartialSortCut(tokens: seq<CCToken>, k: nat) returns (kept: seq<CCToken>, dropped: seq<CCToken>)
    requires k <= |tokens|
    ensures TopByWeight(tokens, kept, k)
    ensures multiset(kept) + multiset(dropped) == multiset(tokens)
    ensures forall a, b :: a in kept && b in dropped ==> a.weight <= b.weight
  {
    kept, dropped := [], tokens;
    while |kept| < k
      invariant |kept| <= k && |kept| + |dropped| == |tokens|
      invariant multiset(kept) + multiset(dropped) == multiset(tokens)
      invariant WeightSorted(kept)
      invariant forall a, b :: a in kept && b in dropped ==> a.weight <= b.weight
      decreases k - |kept|
    {
      var m := LightestIndex(dropped);
      SelectLightest(kept, dropped, m);
      kept, dropped := kept + [dropped[m]], dropped[..m] + dropped[m + 1..];
    }
    SplitIsTop(tokens, kept, dropped, k);
  }

  /* ------------------------------------------------------------------- refinement */

  /** The category a candidate ends up with: `tcNone` becomes `tcMacroDef` on a
      preprocessor line, `tcLangKeyword` when binary_search finds its actual name among
      the keywords, and stays otherwise; every other category is left alone. */
  function RefinedCategory(t: CCToken, isPP: bool, keywords: seq<string>): int {
    if t.category == Value(CategoryNone) then
      if isPP then Value(MacroDef)
      else if BinarySearch(keywords, ActualName(t.name)) then Value(LangKeyword)
      else t.category
    else t.category
  }

  function Refined(tokens: seq<CCToken>, isPP: bool, keywords: seq<string>): seq<CCToken> {
    seq(|tokens|, i requires 0 <= i < |tokens| => tokens[i].(category := RefinedCategory(tokens[i], isPP, keywords)))
  }

  /** Refinement rewrites only categories, and only `tcNone` ones; with a sorted keyword
      list the keyword test is membership of the actual name. */
  lemma RefinedChangesOnlyUnknownCategories(tokens: seq<CCToken>, isPP: bool, keywords: seq<string>, i: nat)
    requires i < |tokens|
    ensures |Refined(tokens, isPP, keywords)| == |tokens|
    ensures var r := Refined(tokens, isPP, keywords)[i]; var t := tokens[i];
      r.id == t.id && r.name == t.name && r.displayName == t.displayName && r.weight == t.weight
      && (t.category != Value(CategoryNone) ==> r.category == t.category)
      && (t.category == Value(CategoryNone) && isPP ==> r.category == Value(MacroDef))
      && (t.category == Value(CategoryNone) && !isPP && Sorted(keywords) ==>
            (ActualName(t.name) in keywords ==> r.category == Value(LangKeyword))
            && (ActualName(t.name) !in keywords ==> r.category == Value(CategoryNone)))
  {
    if Sorted(keywords) {
      BinarySearchIsMembership(keywords, ActualName(tokens[i].name));
    }
  }

  /* ---------------------------------------------------------- distinct weights */

  predicate StrictlyIncreasing(ws: seq<int>) {
    forall i, j :: 0 <= i < j < |ws| ==> ws[i] < ws[j]
  }

  /** `std::set<int>::insert` on the set's ordered contents. */
  function InsertSorted(ws: seq<int>, w: int): (r: seq<int>)
    requires StrictlyIncreasing(ws)
    ensures StrictlyIncreasing(r)
    ensures forall x :: x in r <==> x in ws || x == w
  {
    if ws == [] then [w]
    else if w < ws[0] then [w] + ws
    else if w == ws[0] then ws
    else
      var rest := InsertSorted(ws[1..], w);
      assert forall x :: x in rest ==> ws[0] < x;
      ConsIncreasing(ws[0], rest);
      [ws[0]] + rest
  }

  /** A value below every element, put in front of an increasing sequence, keeps it
      increasing. */
  lemma ConsIncreasing(h: int, rest: seq<int>)
    requires StrictlyIncreasing(rest) && forall x :: x in rest ==> h < x
    ensures StrictlyIncreasing([h] + rest)
  {
    var r := [h] + rest;
    forall i, j | 0 <= i < j < |r|
      ensures r[i] < r[j]
    {
      assert r[j] == rest[j - 1] && rest[j - 1] in rest;
      if i > 0 { assert r[i] == rest[i - 1]; }
    }
  }

  /** The `usedWeights` set, in ascending order. */
  function UsedWeights(tokens: seq<CCToken>): (ws: seq<int>)
    ensures StrictlyIncreasing(ws)
    ensures forall x :: x in ws <==> exists i :: 0 <= i < |tokens| && tokens[i].weight == x
  {
    if tokens == [] then []
    else
      var init := tokens[..|tokens| - 1];
      var ws0 := UsedWeights(init);
      assert forall i :: 0 <= i < |init| ==> init[i] == tokens[i];
      InsertSorted(ws0, tokens[|tokens| - 1].weight)
  }

  /** The refinement loop, which also collects the used weights. */
  method RefineAndCollectWeights(tokens: seq<CCToken>, isPP: bool, keywords: seq<string>)
    returns (refined: seq<CCToken>, usedWeights: seq<int>)
    ensures refined == Refined(tokens, isPP, keywords)
    ensures usedWeights == UsedWeights(tokens)
  {
    refined, usedWeights := tokens, [];
    for k := 0 to |tokens|
      invariant |refined| == |tokens|
      invariant forall i :: 0 <= i < k ==> refined[i] == tokens[i].(category := RefinedCategory(tokens[i], isPP, keywords))
      invariant forall i :: k <= i < |tokens| ==> refined[i] == tokens[i]
      invariant usedWeights == UsedWeights(tokens[..k])
    {
      var t := refined[k];
      assert tokens[..k + 1][..k] == tokens[..k];
      usedWeights := InsertSorted(usedWeights, t.weight);
      if t.category == Value(CategoryNone) {
        if isPP {
          refined := refined[k := t.(category := Value(MacroDef))];
        } else if BinarySearch(keywords, ActualName(t.name)) {
          refined := refined[k := t.(category := Value(LangKeyword))];
        }
      }
    }
    assert tokens[..|tokens|] == tokens;
  }

  /* ---------------------------------------------------------- weight compression */

  /** Runs of 3 once there are more than 7 distinct weights, of 2 otherwise. */
  function CompressionFactor(n: nat): nat {
    if n > 7 then 3 else 2
  }

  /** The position the i-th smallest weight is compressed to among n distinct weights. */
  function CompressedIndex(i: nat, n: nat): nat {
    if i < 2 then i else (i - 2) / CompressionFactor(n) + 2
  }

  function IndexOf(ws: seq<int>, w: int): (i: nat)
    requires w in ws
    ensures i < |ws| && ws[i] == w
  {
    if ws[0] == w then 0 else IndexOf(ws[1..], w) + 1
  }

  /** The weight `weightCompr[w]` holds: unchanged with at most 3 distinct weights, else the
      weight at the compressed position (0 for a weight not in the set, what
      `std::map::operator[]` yields). */
  function CompressWeight(ws: seq<int>, w: int): int {
    if |ws| <= 3 then w
    else if w !in ws then 0
    else ws[CompressedIndex(IndexOf(ws, w), |ws|)]
  }

  function Compressed(tokens: seq<CCToken>, ws: seq<int>): seq<CCToken> {
    seq(|tokens|, i requires 0 <= i < |tokens| => tokens[i].(weight := CompressWeight(ws, tokens[i].weight)))
  }

  lemma IndexOfIncreasing(ws: seq<int>, j: nat)
    requires StrictlyIncreasing(ws) && j < |ws|
    ensures IndexOf(ws, ws[j]) == j
  {
  }

  /** Compressed positions never move up, stay in range, and keep their order. */
  lemma CompressedIndexMonotone(i: nat, j: nat, n: nat)
    requires i <= j < n
    ensures CompressedIndex(i, n) <= i
    ensures CompressedIndex(i, n) <= CompressedIndex(j, n)
  {
    var f := CompressionFactor(n);
    if 2 <= i {
      assert (i - 2) / f <= i - 2;
      assert (i - 2) / f <= (j - 2) / f;
    }
  }

  /** With at most 3 distinct weights compression is the identity; with more, the two
      smallest map to themselves and the i-th to the ((i - 2) / f + 2)-th. */
  lemma CompressWeightShape(ws: seq<int>, w: int)
    requires StrictlyIncreasing(ws) && w in ws
    ensures |ws| <= 3 ==> CompressWeight(ws, w) == w
    ensures |ws| > 3 && (w == ws[0] || w == ws[1]) ==> CompressWeight(ws, w) == w
    ensures |ws| > 3 && IndexOf(ws, w) >= 2 ==>
              CompressWeight(ws, w) == ws[(IndexOf(ws, w) - 2) / CompressionFactor(|ws|) + 2]
  {
    if |ws| > 3 {
      if w == ws[0] { IndexOfIncreasing(ws, 0); }
      if w == ws[1] { IndexOfIncreasing(ws, 1); }
    }
  }

  /** Compression yields a weight of the set, never a larger one. */
  lemma CompressWeightLowers(ws: seq<int>, w: int)
    requires StrictlyIncreasing(ws) && w in ws
    ensures CompressWeight(ws, w) in ws && CompressWeight(ws, w) <= w
  {
    var i, n := IndexOf(ws, w), |ws|;
    if n > 3 {
      CompressedIndexMonotone(i, i, n);
      var c := CompressedIndex(i, n);
      assert CompressWeight(ws, w) == ws[c];
      assert c < i ==> ws[c] < ws[i];
    }
  }

  /** Compression keeps the order of weights. */
  lemma CompressWeightMonotone(ws: seq<int>, w: int, v: int)
    requires StrictlyIncreasing(ws) && w in ws && v in ws && w <= v
    ensures CompressWeight(ws, w) <= CompressWeight(ws, v)
  {
    var i, j, n := IndexOf(ws, w), IndexOf(ws, v), |ws|;
    if n > 3 {
      assert i <= j;
      CompressedIndexMonotone(i, j, n);
      var ci, cj := CompressedIndex(i, n), CompressedIndex(j, n);
      assert ci < cj ==> ws[ci] < ws[cj];
    }
  }

  /** The compression map: identity with at most 3 distinct weights; with more, the two
      smallest map to themselves and the i-th to the ((i - 2) / f + 2)-th; it never raises a
      weight, yields a weight of the set, and is monotone. */
  lemma CompressWeightProperties(ws: seq<int>, w: int, v: int)
    requires StrictlyIncreasing(ws) && w in ws && v in ws
    ensures |ws| <= 3 ==> CompressWeight(ws, w) == w
    ensures |ws| > 3 && (w == ws[0] || w == ws[1]) ==> CompressWeight(ws, w) == w
    ensures |ws| > 3 && IndexOf(ws, w) >= 2 ==>
              CompressWeight(ws, w) == ws[(IndexOf(ws, w) - 2) / CompressionFactor(|ws|) + 2]
    ensures CompressWeight(ws, w) in ws && CompressWeight(ws, w) <= w
    ensures w <= v ==> CompressWeight(ws, w) <= CompressWeight(ws, v)
  {
    CompressWeightShape(ws, w);
    CompressWeightLowers(ws, w);
    if w <= v {
      CompressWeightMonotone(ws, w, v);
    }
  }

  /** `weightCompr` holds the compressed weight of each of the `i` smallest weights, and
      no key but weights of the set. */
  predicate MapsSmallest(ws: seq<int>, weightCompr: map<int, int>, i: nat)
    requires i <= |ws|
  {
    (forall j :: 0 <= j < i ==> ws[j] in weightCompr && weightCompr[ws[j]] == ws[CompressedIndex(j, |ws|)])
    && forall w :: w in weightCompr ==> w in ws
  }

  /** One step of the compression loop extends the map by the next weight. */
  lemma MapsSmallestStep(ws: seq<int>, weightCompr: map<int, int>, i: nat)
    requires StrictlyIncreasing(ws) && 2 <= i < |ws|
    requires MapsSmallest(ws, weightCompr, i)
    requires CompressedIndex(i, |ws|) < |ws|
    ensures MapsSmallest(ws, weightCompr[ws[i] := ws[CompressedIndex(i, |ws|)]], i + 1)
  {
    var n := |ws|;
    var m := weightCompr[ws[i] := ws[CompressedIndex(i, n)]];
    forall j | 0 <= j < i
      ensures ws[j] in m && m[ws[j]] == ws[CompressedIndex(j, n)]
    {
      assert ws[j] < ws[i];
    }
  }

  /** The first compression loop: `weightCompr` maps the i-th smallest weight to the
      weight at its compressed position. */
  method BuildCompressionMap(usedWeights: seq<int>) returns (weightCompr: map<int, int>)
    requires StrictlyIncreasing(usedWeights) && |usedWeights| > 3
    ensures MapsSmallest(usedWeights, weightCompr, |usedWeights|)
  {
    var n := |usedWeights|;
    weightCompr := map[usedWeights[0] := usedWeights[0], usedWeights[1] := usedWeights[1]];
    var factor := if n > 7 then 3 else 2;
    assert usedWeights[0] < usedWeights[1];
    for i := 2 to n
      invariant MapsSmallest(usedWeights, weightCompr, i)
    {
      CompressedIndexMonotone(i, i, n);
      MapsSmallestStep(usedWeights, weightCompr, i);
      assert (i - 2) / factor + 2 == CompressedIndex(i, n);
      weightCompr := weightCompr[usedWeights[i] := usedWeights[(i - 2) / factor + 2]];
    }
  }

  /** The compression: with more than three distinct weights, builds `weightCompr` and
      rewrites every candidate's weight through it. */
  method CompressWeights(tokens: seq<CCToken>, usedWeights: seq<int>) returns (out: seq<CCToken>)
    requires StrictlyIncreasing(usedWeights)
    ensures out == Compressed(tokens, usedWeights)
  {
    out := tokens;
    if |usedWeights| > 3 {
      var weightCompr := BuildCompressionMap(usedWeights);
      for k := 0 to |out|
        invariant |out| == |tokens|
        invariant forall i :: 0 <= i < k ==> out[i] == tokens[i].(weight := CompressWeight(usedWeights, tokens[i].weight))
        invariant forall i :: k <= i < |tokens| ==> out[i] == tokens[i]
      {
        var w := out[k].weight;
        var c := 0;
        if w in weightCompr {
          c := weightCompr[w];
          IndexOfIncreasing(usedWeights, IndexOf(usedWeights, w));
        }
        out := out[k := out[k].(weight := c)];
      }
    }
  }

  /** On the candidates whose weights were collected, compression changes only weights,
      never raises one, keeps the weight order, and is the identity with at most three
      distinct weights. */
  lemma CompressedCandidates(tokens: seq<CCToken>, i: nat, j: nat)
    requires i < |tokens| && j < |tokens|
    ensures var ws := UsedWeights(tokens); var out := Compressed(tokens, ws);
      |out| == |tokens|
      && out[i] == tokens[i].(weight := out[i].weight)
      && out[i].weight <= tokens[i].weight
      && out[i].weight in ws
      && (tokens[i].weight <= tokens[j].weight ==> out[i].weight <= out[j].weight)
      && (|ws| <= 3 ==> out[i] == tokens[i])
  {
    var ws := UsedWeights(tokens);
    assert tokens[i].weight in ws && tokens[j].weight in ws;
    CompressWeightProperties(ws, tokens[i].weight, tokens[j].weight);
  }

  /* ------------------------------------------------------------ the whole stage */

  /** What the candidate list is once the service's results have been filtered: some volume
      cut of them, refined, then weight-compressed over the weights left. */
  ghost predicate Postprocessed(filtered: seq<CCToken>, prefix: string, isPP: bool,
                                keywords: seq<string>, out: seq<CCToken>) {
    exists cut :: VolumeCut(filtered, prefix, cut)
      && out == Compressed(Refined(cut, isPP, keywords), UsedWeights(cut))
  }

  /** The stages after the prefix filter, in the source's order: the volume cut, then the
      refinement loop that also collects the used weights, then the compression. */
  method Postprocess(filtered: seq<CCToken>, prefix: string, isPP: bool, keywords: seq<string>)
    returns (out: seq<CCToken>)
    ensures Postprocessed(filtered, prefix, isPP, keywords, out)
    ensures |out| == if prefix == [] && |filtered| > VolumeThreshold then VolumeKept else |filtered|
  {
    if filtered == [] {
      out := [];
      assert VolumeCut(filtered, prefix, []);
      assert out == Compressed(Refined([], isPP, keywords), UsedWeights([]));
      return;
    }
    var cut := filtered;
    if prefix == [] && |filtered| > VolumeThreshold {
      var dropped;
      cut, dropped := PartialSortCut(filtered, VolumeKept);
    }
    assert VolumeCut(filtered, prefix, cut);
    var refined, usedWeights := RefineAndCollectWeights(cut, isPP, keywords);
    out := CompressWeights(refined, usedWeights);
  }
}
