/** The character and string operations of wxString and of the C++ standard library that
    the completion engine relies on: classification, lower-casing, prefix and substring
    search, lexicographic order and `std::binary_search` over a keyword list. */
module Text {

  /** `wxIsspace` in the C locale: space, tab, line feed, vertical tab, form feed and
      carriage return. */
  predicate IsSpace(c: char) {
    c == ' ' || c == '\t' || c == '\n' || c == '\r' || c as int == 0x0B || c as int == 0x0C
  }

  /** Lower-casing of one character (ASCII letters only). */
  function ToLower(c: char): (r: char)
    ensures 'A' <= c <= 'Z' ==> r as int == c as int + 32
    ensures !('A' <= c <= 'Z') ==> r == c
  {
    if 'A' <= c <= 'Z' then (c as int + 32) as char else c
  }

  /** `wxString::Lower`. */
  function Lower(s: string): (r: string)
    ensures |r| == |s|
    ensures forall i :: 0 <= i < |s| ==> r[i] == ToLower(s[i])
  {
    seq(|s|, i requires 0 <= i < |s| => ToLower(s[i]))
  }

  /** `wxString::StartsWith`. */
  predicate StartsWith(s: string, p: string) {
    |p| <= |s| && s[..|p|] == p
  }

  /** `wxString::EndsWith`. */
  predicate EndsWith(s: string, p: string) {
    |p| <= |s| && s[|s| - |p|..] == p
  }

  /** `wxString::Strip(wxString::leading)`: drops the leading white space. */
  function StripLeading(s: string): (r: string)
    ensures |r| <= |s| && r == s[|s| - |r|..]
    ensures r == [] || !IsSpace(r[0])
    ensures forall i :: 0 <= i < |s| - |r| ==> IsSpace(s[i])
  {
    if s != [] && IsSpace(s[0]) then StripLeading(s[1..]) else s
  }

  /** The first index at or after `i` at which `p` occurs in `s`, or -1. */
  function FindFrom(s: string, p: string, i: nat): (r: int)
    requires i <= |s|
    ensures r == -1 || (i <= r && r + |p| <= |s| && StartsWith(s[r..], p))
    ensures r == -1 ==> forall k :: i <= k <= |s| ==> !StartsWith(s[k..], p)
    ensures r != -1 ==> forall k :: i <= k < r ==> !StartsWith(s[k..], p)
    decreases |s| - i
  {
    if StartsWith(s[i..], p) then i
    else if i == |s| then -1
    else FindFrom(s, p, i + 1)
  }

  /** `wxString::Find`: the first index at which `p` occurs in `s`, or wxNOT_FOUND (-1). */
  function Find(s: string, p: string): (r: int)
    ensures r == -1 <==> forall k :: 0 <= k <= |s| ==> !StartsWith(s[k..], p)
    ensures r != -1 ==> 0 <= r && r + |p| <= |s| && StartsWith(s[r..], p)
    ensures r != -1 ==> forall k :: 0 <= k < r ==> !StartsWith(s[k..], p)
  {
    FindFrom(s, p, 0)
  }

  /** Finding a single character: wxNOT_FOUND exactly when it does not occur, else the
      position of its first occurrence. */
  lemma FindCharIsFirst(s: string, c: char)
    ensures Find(s, [c]) == -1 <==> c !in s
    ensures Find(s, [c]) != -1 ==> Find(s, [c]) < |s| && s[Find(s, [c])] == c && c !in s[..Find(s, [c])]
  {
    forall k | 0 <= k < |s|
      ensures StartsWith(s[k..], [c]) <==> s[k] == c
    {
      assert s[k..][..1] == [s[k]];
    }
    assert !StartsWith(s[|s|..], [c]);
  }

  /** `wxString::SubString(first, last)`, that is `Mid(first, last - first + 1)`: the
      characters from `first` to `last`, both included, cut to the string. When `last`
      lies more than one before `first`, the unsigned count wraps around and `Mid` takes
      the rest of the string from `first`. */
  function SubString(s: string, first: int, last: int): (r: string)
    ensures |r| <= |s|
    ensures 0 <= first <= last < |s| ==> r == s[first..last + 1] && |r| == last - first + 1
    ensures 0 <= first <= |s| && last + 1 == first ==> r == []
    ensures 0 <= first <= |s| && last + 1 < first ==> r == s[first..]
    ensures first > |s| ==> r == []
  {
    if 0 <= first <= |s| && last + 1 < first then s[first..]
    else
      var lo := if first < 0 then 0 else if first > |s| then |s| else first;
      var hi := if last + 1 < lo then lo else if last + 1 > |s| then |s| else last + 1;
      s[lo..hi]
  }

  /** `s.Find(p) != wxNOT_FOUND`. */
  predicate Contains(s: string, p: string) {
    Find(s, p) != -1
  }

  /** `wxString::operator<`: lexicographic order on character codes. */
  predicate StrLess(a: string, b: string) {
    if a == [] then b != []
    else if b == [] then false
    else if a[0] != b[0] then a[0] < b[0]
    else StrLess(a[1..], b[1..])
  }

  lemma {:induction false} StrLessIrreflexive(a: string)
    ensures !StrLess(a, a)
  {
    if a != [] {
      StrLessIrreflexive(a[1..]);
    }
  }

  lemma {:induction false} StrLessTransitive(a: string, b: string, c: string)
    requires StrLess(a, b) && StrLess(b, c)
    ensures StrLess(a, c)
  {
    if a != [] && b != [] && c != [] && a[0] == b[0] && b[0] == c[0] {
      StrLessTransitive(a[1..], b[1..], c[1..]);
    }
  }

  lemma {:induction false} StrLessTotal(a: string, b: string)
    requires a != b
    ensures StrLess(a, b) || StrLess(b, a)
  {
    if a != [] && b != [] && a[0] == b[0] {
      assert a == [a[0]] + a[1..] && b == [b[0]] + b[1..];
      StrLessTotal(a[1..], b[1..]);
    }
  }

  /** From `a <= b < c` to `a < c`. */
  lemma StrLeqLess(a: string, b: string, c: string)
    requires !StrLess(b, a) && StrLess(b, c)
    ensures StrLess(a, c)
  {
    if a != b {
      StrLessTotal(a, b);
      StrLessTransitive(a, b, c);
    }
  }

  /** A keyword list in the order `std::binary_search` expects. */
  predicate Sorted(keys: seq<string>) {
    forall i, j :: 0 <= i < j < |keys| ==> !StrLess(keys[j], keys[i])
  }

  /** `std::lower_bound` on `keys[first..first + count]`, step for step. */
  function LowerBound(keys: seq<string>, first: nat, count: nat, x: string): (r: nat)
    requires first + count <= |keys|
    ensures first <= r <= first + count
    decreases count
  {
    if count == 0 then first
    else
      var step := count / 2;
      if StrLess(keys[first + step], x) then LowerBound(keys, first + step + 1, count - step - 1, x)
      else LowerBound(keys, first, step, x)
  }

  /** `std::binary_search(keys.begin(), keys.end(), x)`. */
  predicate BinarySearch(keys: seq<string>, x: string) {
    var i := LowerBound(keys, 0, |keys|, x);
    i != |keys| && !StrLess(x, keys[i])
  }

  /** In a sorted list, every key up to one below `x` is below `x`. */
  lemma BelowPivot(keys: seq<string>, first: nat, mid: nat, x: string)
    requires Sorted(keys) && first <= mid < |keys| && StrLess(keys[mid], x)
    ensures forall j :: first <= j <= mid ==> StrLess(keys[j], x)
  {
    forall j | first <= j < mid
      ensures StrLess(keys[j], x)
    {
      StrLeqLess(keys[j], keys[mid], x);
    }
  }

  /** In a sorted list, no key from one not below `x` on is below `x`. */
  lemma AbovePivot(keys: seq<string>, mid: nat, end: nat, x: string)
    requires Sorted(keys) && mid < end <= |keys| && !StrLess(keys[mid], x)
    ensures forall j :: mid <= j < end ==> !StrLess(keys[j], x)
  {
    forall j | mid <= j < end
      ensures !StrLess(keys[j], x)
    {
      if StrLess(keys[j], x) { StrLeqLess(keys[mid], keys[j], x); }
    }
  }

  /** On a sorted range, lower_bound splits it into the keys below `x` and the rest. */
  lemma {:induction false} LowerBoundSplits(keys: seq<string>, first: nat, count: nat, x: string)
    requires Sorted(keys) && first + count <= |keys|
    ensures var r := LowerBound(keys, first, count, x);
      (forall j :: first <= j < r ==> StrLess(keys[j], x)) &&
      (forall j :: r <= j < first + count ==> !StrLess(keys[j], x))
    decreases count
  {
    if count > 0 {
      var step := count / 2;
      var mid := first + step;
      if StrLess(keys[mid], x) {
        LowerBoundSplits(keys, mid + 1, count - step - 1, x);
        BelowPivot(keys, first, mid, x);
      } else {
        LowerBoundSplits(keys, first, step, x);
        AbovePivot(keys, mid, first + count, x);
      }
    }
  }

  /** On a sorted list, binary_search is membership; on an unsorted one the model keeps
      whatever the algorithm answers. */
  lemma BinarySearchIsMembership(keys: seq<string>, x: string)
    requires Sorted(keys)
    ensures BinarySearch(keys, x) <==> x in keys
  {
    var r := LowerBound(keys, 0, |keys|, x);
    LowerBoundSplits(keys, 0, |keys|, x);
    if BinarySearch(keys, x) {
      if keys[r] != x {
        StrLessTotal(keys[r], x);
      }
    }
    if x in keys {
      var j :| 0 <= j < |keys| && keys[j] == x;
      StrLessIrreflexive(x);
      assert r <= j;
    }
  }
}
