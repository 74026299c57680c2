/**
 * String operations with the meaning of the JavaScript built-ins the extractors
 * call: `trim`, `includes`, `indexOf`, `startsWith`, `split`, `join`,
 * `replace` with a string pattern, and the regex classes `\s` and `\d`.
 */
module Text {
  import opened Options

  /** White space as `String.prototype.trim` and the regex class `\s` see it
      (the WhiteSpace and LineTerminator code points of ECMA-262). */
  predicate IsSpace(c: char) {
    c == '\t' || c == '\n' || c == '\U{B}' || c == '\U{C}' || c == '\r' || c == ' '
    || c == '\U{A0}' || c == '\U{1680}' || ('\U{2000}' <= c <= '\U{200A}')
    || c == '\U{2028}' || c == '\U{2029}' || c == '\U{202F}' || c == '\U{205F}'
    || c == '\U{3000}' || c == '\U{FEFF}'
  }

  /** The regex class `\d`: ASCII digits only. */
  predicate IsDigit(c: char) {
    '0' <= c <= '9'
  }

  /** The regex class `[a-zA-Z0-9]`. */
  predicate IsAsciiAlnum(c: char) {
    IsDigit(c) || 'a' <= c <= 'z' || 'A' <= c <= 'Z'
  }

  /** Every character is white space (vacuously so for ""). */
  predicate AllSpace(s: string) {
    forall i :: 0 <= i < |s| ==> IsSpace(s[i])
  }

  predicate IsTrimmed(s: string) {
    |s| == 0 || (!IsSpace(s[0]) && !IsSpace(s[|s| - 1]))
  }

  function TrimStart(s: string): (r: string)
    ensures |r| <= |s| && r == s[|s| - |r|..]
    ensures |r| == 0 || !IsSpace(r[0])
    ensures AllSpace(s[..|s| - |r|])
    decreases |s|
  {
    if |s| > 0 && IsSpace(s[0]) then TrimStart(s[1..]) else s
  }

  function TrimEnd(s: string): (r: string)
    ensures |r| <= |s| && r == s[..|r|]
    ensures |r| == 0 || !IsSpace(r[|r| - 1])
    ensures AllSpace(s[|r|..])
    decreases |s|
  {
    if |s| > 0 && IsSpace(s[|s| - 1]) then TrimEnd(s[..|s| - 1]) else s
  }

  /** `String.prototype.trim`: drops the white space at both ends and nothing else. */
  function Trim(s: string): (r: string)
    ensures IsTrimmed(r)
    ensures |r| <= |s|
    ensures r == [] <==> AllSpace(s)
    ensures IsTrimmed(s) ==> r == s
  {
    TrimEnd(TrimStart(s))
  }

  /** Trimming loses only white space: a character that is not white space is still
      there, at the returned position. */
  lemma TrimWindow(s: string, i: nat) returns (k: nat)
    requires i < |s| && !IsSpace(s[i])
    ensures k < |Trim(s)| && Trim(s)[k] == s[i]
  {
    var a := TrimStart(s);
    k := TrimStartWindow(s, i);
    TrimEndWindow(a, k);
  }

  lemma TrimStartWindow(s: string, i: nat) returns (k: nat)
    requires i < |s| && !IsSpace(s[i])
    ensures k < |TrimStart(s)| && TrimStart(s)[k] == s[i]
  {
    k := i - (|s| - |TrimStart(s)|);
  }

  lemma TrimEndWindow(a: string, k: nat)
    requires k < |a| && !IsSpace(a[k])
    ensures k < |TrimEnd(a)| && TrimEnd(a)[k] == a[k]
  {
  }

  /** Each text trimmed, as a `map` over the selected elements does. */
  function TrimAll(texts: seq<string>): (r: seq<string>)
    ensures |r| == |texts|
    ensures forall i :: 0 <= i < |r| ==> r[i] == Trim(texts[i])
  {
    seq(|texts|, i requires 0 <= i < |texts| => Trim(texts[i]))
  }

  predicate StartsWith(s: string, p: string) {
    |p| <= |s| && s[..|p|] == p
  }

  /** `p` occurs in `s` at position `i`. */
  predicate OccursAt(s: string, p: string, i: nat) {
    i + |p| <= |s| && s[i..i + |p|] == p
  }

  /** `s.indexOf(p)`: the leftmost position where `p` occurs, if any. */
  function IndexOf(s: string, p: string): (r: Option<nat>)
    ensures r.Some? ==> OccursAt(s, p, r.value)
    ensures r.Some? ==> forall j: nat :: j < r.value ==> !OccursAt(s, p, j)
    ensures r.None? ==> forall j: nat :: !OccursAt(s, p, j)
    decreases |s|
  {
    if |s| < |p| then None
    else if s[..|p|] == p then Some(0)
    else
      ShiftOccurs(s, p);
      match IndexOf(s[1..], p)
      case None => None
      case Some(i) => Some(i + 1)
  }

  lemma ShiftOccurs(s: string, p: string)
    requires |s| > 0
    ensures forall j: nat :: j > 0 ==> (OccursAt(s, p, j) <==> OccursAt(s[1..], p, j - 1))
  {
    forall j: nat | j > 0
      ensures OccursAt(s, p, j) <==> OccursAt(s[1..], p, j - 1)
    {
      if j + |p| <= |s| {
        assert s[1..][j - 1..j - 1 + |p|] == s[j..j + |p|];
      }
    }
  }

  /** `s.includes(p)`. */
  predicate Contains(s: string, p: string) {
    IndexOf(s, p).Some?
  }

  lemma ContainsChar(s: string, c: char)
    ensures Contains(s, [c]) <==> c in s
  {
    if Contains(s, [c]) {
      var i := IndexOf(s, [c]).value;
      assert s[i] == s[i..i + 1][0];
    } else if c in s {
      var i :| 0 <= i < |s| && s[i] == c;
      assert OccursAt(s, [c], i);
    }
  }

  /** Nothing before the first occurrence of `p` contains `p`. */
  lemma NoneBeforeFirst(s: string, p: string, i: nat)
    requires |p| > 0 && IndexOf(s, p) == Some(i)
    ensures !Contains(s[..i], p)
  {
    if Contains(s[..i], p) {
      var j := IndexOf(s[..i], p).value;
      assert s[..i][j..j + |p|] == s[j..j + |p|];
      assert OccursAt(s, p, j);
    }
  }

  /** `s.split(sep)` for a non-empty string separator: the pieces between
      the non-overlapping occurrences of `sep`, scanned from the left. */
  function Split(s: string, sep: string): (parts: seq<string>)
    requires |sep| > 0
    ensures |parts| >= 1
    ensures |parts| > 1 <==> Contains(s, sep)
    decreases |s|
  {
    match IndexOf(s, sep)
    case None => [s]
    case Some(i) => [s[..i]] + Split(s[i + |sep|..], sep)
  }

  /** No piece of a split contains the separator, and the first piece is the text
      before the first occurrence. */
  lemma {:induction false} SplitPieces(s: string, sep: string)
    requires |sep| > 0
    ensures forall i :: 0 <= i < |Split(s, sep)| ==> !Contains(Split(s, sep)[i], sep)
    ensures Contains(s, sep) ==> Split(s, sep)[0] == s[..IndexOf(s, sep).value]
    decreases |s|
  {
    match IndexOf(s, sep)
    case None =>
    case Some(i) =>
      var parts, tail := Split(s, sep), Split(s[i + |sep|..], sep);
      assert parts == [s[..i]] + tail;
      NoneBeforeFirst(s, sep, i);
      SplitPieces(s[i + |sep|..], sep);
      forall k | 0 <= k < |parts|
        ensures !Contains(parts[k], sep)
      {
        if k > 0 {
          assert parts[k] == tail[k - 1];
        }
      }
  }

  /** The second piece of a split is the text between the first occurrence of the
      separator and the next one, or the end. */
  lemma SplitSecond(s: string, sep: string)
    requires |sep| > 0 && Contains(s, sep)
    ensures var rest := s[IndexOf(s, sep).value + |sep|..];
      Split(s, sep)[1] == if Contains(rest, sep) then rest[..IndexOf(rest, sep).value] else rest
  {
    var rest := s[IndexOf(s, sep).value + |sep|..];
    assert Split(s, sep)[1] == Split(rest, sep)[0];
    SplitPieces(rest, sep);
  }

  /** `parts.join(sep)`. */
  function Join(parts: seq<string>, sep: string): string
    decreases |parts|
  {
    if |parts| == 0 then ""
    else if |parts| == 1 then parts[0]
    else parts[0] + sep + Join(parts[1..], sep)
  }

  /** `s.replace(p, rep)` with a string pattern: only the first occurrence is replaced. */
  function ReplaceFirst(s: string, p: string, rep: string): (r: string)
    ensures !Contains(s, p) ==> r == s
    ensures Contains(s, p) ==>
      var i := IndexOf(s, p).value;
      && |r| == |s| - |p| + |rep|
      && r[..i] == s[..i]
      && r[i..i + |rep|] == rep
      && r[i + |rep|..] == s[i + |p|..]
  {
    match IndexOf(s, p)
    case None => s
    case Some(i) => s[..i] + rep + s[i + |p|..]
  }

  /** `s.replace(/p/g, rep)` for a literal pattern. */
  function ReplaceAll(s: string, p: string, rep: string): string
    requires |p| > 0
  {
    Join(Split(s, p), rep)
  }

  /** The end of the longest run of characters satisfying `ok` that starts at `from`
      (a greedy regex repetition). */
  function SpanEnd(s: string, from: nat, ok: char -> bool): (k: nat)
    requires from <= |s|
    ensures from <= k <= |s|
    ensures forall i :: from <= i < k ==> ok(s[i])
    ensures k == |s| || !ok(s[k])
    decreases |s| - from
  {
    if from < |s| && ok(s[from]) then SpanEnd(s, from + 1, ok) else from
  }

  /** A span that stops where the predicate first fails is the one `SpanEnd` finds. */
  lemma SpanEndUnique(s: string, from: nat, ok: char -> bool, end: nat)
    requires from <= end <= |s|
    requires forall i :: from <= i < end ==> ok(s[i])
    requires end == |s| || !ok(s[end])
    ensures SpanEnd(s, from, ok) == end
  {
  }

  /** The elements of `s` that `keep` accepts, in their original order
      (`s.replace(/[^...]/g, "")` for a character class). */
  function Filter<T>(s: seq<T>, keep: T -> bool): (r: seq<T>)
    ensures |r| <= |s|
    ensures forall i :: 0 <= i < |r| ==> keep(r[i])
    ensures forall i :: 0 <= i < |r| ==> r[i] in s
    ensures forall i :: 0 <= i < |s| && keep(s[i]) ==> s[i] in r
    decreases |s|
  {
    if |s| == 0 then []
    else if keep(s[0]) then [s[0]] + Filter(s[1..], keep)
    else Filter(s[1..], keep)
  }

  /** Filtering keeps order: the filter of a concatenation is the concatenation of
      the filters. */
  lemma {:induction false} FilterAppend<T>(a: seq<T>, b: seq<T>, keep: T -> bool)
    ensures Filter(a + b, keep) == Filter(a, keep) + Filter(b, keep)
    decreases |a|
  {
    if |a| > 0 {
      assert (a + b)[1..] == a[1..] + b;
      FilterAppend(a[1..], b, keep);
    } else {
      assert a + b == b;
    }
  }

  /** Nothing is kept from a sequence none of whose elements is accepted. */
  lemma FilterNone<T>(s: seq<T>, keep: T -> bool)
    requires forall i :: 0 <= i < |s| ==> !keep(s[i])
    ensures Filter(s, keep) == []
  {
  }

  /** Filtering keeps every accepted element as often as it occurs, and nothing else. */
  lemma {:induction false} FilterCount<T>(s: seq<T>, keep: T -> bool, x: T)
    ensures multiset(Filter(s, keep))[x] == if keep(x) then multiset(s)[x] else 0
    decreases |s|
  {
    if |s| > 0 {
      FilterCount(s[1..], keep, x);
      assert s == [s[0]] + s[1..];
    }
  }

  /** Cutting a sequence anywhere cuts its filter there. */
  lemma FilterSplits<T>(s: seq<T>, keep: T -> bool)
    ensures forall k :: 0 <= k <= |s| ==> Filter(s, keep) == Filter(s[..k], keep) + Filter(s[k..], keep)
  {
    forall k | 0 <= k <= |s|
      ensures Filter(s, keep) == Filter(s[..k], keep) + Filter(s[k..], keep)
    {
      assert s == s[..k] + s[k..];
      FilterAppend(s[..k], s[k..], keep);
    }
  }

  lemma FilterCounts<T>(s: seq<T>, keep: T -> bool)
    ensures forall x :: multiset(Filter(s, keep))[x] == if keep(x) then multiset(s)[x] else 0
  {
    forall x
      ensures multiset(Filter(s, keep))[x] == if keep(x) then multiset(s)[x] else 0
    {
      FilterCount(s, keep, x);
    }
  }

  /** A filter that drops white space does not see the trimming. */
  lemma FilterOfTrim(s: string, keep: char -> bool)
    requires forall c :: IsSpace(c) ==> !keep(c)
    ensures Filter(Trim(s), keep) == Filter(s, keep)
  {
    FilterOfTrimStart(s, keep);
    FilterOfTrimEnd(TrimStart(s), keep);
  }

  lemma FilterOfTrimStart(s: string, keep: char -> bool)
    requires forall c :: IsSpace(c) ==> !keep(c)
    ensures Filter(TrimStart(s), keep) == Filter(s, keep)
  {
    var a := TrimStart(s);
    var lead := s[..|s| - |a|];
    FilterNone(lead, keep);
    assert s == lead + a;
    FilterAppend(lead, a, keep);
  }

  lemma FilterOfTrimEnd(a: string, keep: char -> bool)
    requires forall c :: IsSpace(c) ==> !keep(c)
    ensures Filter(TrimEnd(a), keep) == Filter(a, keep)
  {
    var t := TrimEnd(a);
    var trail := a[|t|..];
    FilterNone(trail, keep);
    assert a == t + trail;
    FilterAppend(t, trail, keep);
  }
}
