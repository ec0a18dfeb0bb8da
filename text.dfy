/**
 * The pieces of ECMAScript string behaviour the repository relies on: the `\s` character
 * class (which is also what `String.prototype.trim` strips), `\d`, `trim`, `split` on a
 * one-character separator, `includes`, `indexOf`, `replace` with a string pattern, number
 * formatting in template strings and `parseInt(_, 10)` on a run of digits.
 */
module Text {
  import opened Wrappers

  /** ECMAScript WhiteSpace or LineTerminator: what `\s` matches and `trim` removes. */
  predicate IsSpace(c: char) {
    c == '\t' || c == '\n' || c == '\U{000B}' || c == '\U{000C}' || c == '\r' || c == ' '
    || c == '\U{00A0}' || c == '\U{1680}' || ('\U{2000}' <= c <= '\U{200A}')
    || c == '\U{2028}' || c == '\U{2029}' || c == '\U{202F}' || c == '\U{205F}'
    || c == '\U{3000}' || c == '\U{FEFF}'
  }

  /** The characters a regular-expression `.` does not match (no `s` flag). */
  predicate IsLineTerminator(c: char) {
    c == '\n' || c == '\r' || c == '\U{2028}' || c == '\U{2029}'
  }

  predicate IsDigit(c: char) {
    '0' <= c <= '9'
  }

  predicate AllDigits(s: string) {
    forall i :: 0 <= i < |s| ==> IsDigit(s[i])
  }

  /** Length of the longest whitespace prefix. */
  function LeadingSpaces(s: string): (n: nat)
    ensures n <= |s|
    ensures forall i :: 0 <= i < n ==> IsSpace(s[i])
    ensures n == |s| || !IsSpace(s[n])
  {
    if s == [] || !IsSpace(s[0]) then 0 else 1 + LeadingSpaces(s[1..])
  }

  /** Length of the longest whitespace suffix. */
  function TrailingSpaces(s: string): (n: nat)
    ensures n <= |s|
    ensures forall i :: |s| - n <= i < |s| ==> IsSpace(s[i])
    ensures n == |s| || !IsSpace(s[|s| - 1 - n])
  {
    if s == [] || !IsSpace(s[|s| - 1]) then 0 else 1 + TrailingSpaces(s[..|s| - 1])
  }

  /** Length of the longest run of decimal digits at the start of `s` (a greedy `\d*`). */
  function LeadingDigits(s: string): (n: nat)
    ensures n <= |s|
    ensures AllDigits(s[..n])
    ensures n == |s| || !IsDigit(s[n])
  {
    if s == [] || !IsDigit(s[0]) then 0 else 1 + LeadingDigits(s[1..])
  }

  /** `String.prototype.trim` (see `TrimSpec`). */
  function Trim(s: string): string {
    var i := LeadingSpaces(s);
    s[i..|s| - TrailingSpaces(s[i..])]
  }

  /**
   * Trimming removes whitespace only, from the two ends, and what is left neither starts
   * nor ends with whitespace.
   */
  lemma TrimSpec(s: string)
    ensures exists i, j :: (0 <= i <= j <= |s| && Trim(s) == s[i..j]
      && (forall k :: 0 <= k < i ==> IsSpace(s[k]))
      && (forall k :: j <= k < |s| ==> IsSpace(s[k])))
    ensures Trim(s) != [] ==> !IsSpace(Trim(s)[0]) && !IsSpace(Trim(s)[|Trim(s)| - 1])
  {
    var i := LeadingSpaces(s);
    var rest := s[i..];
    var t := TrailingSpaces(rest);
    var j := |s| - t;
    var r := s[i..j];
    assert Trim(s) == r;
    forall k | j <= k < |s| ensures IsSpace(s[k]) {
      assert s[k] == rest[k - i];
    }
    if r != [] {
      assert r[0] == s[i];
      assert r[|r| - 1] == rest[|rest| - 1 - t];
    }
  }

  lemma TrimIdentity(s: string)
    requires s != [] ==> !IsSpace(s[0]) && !IsSpace(s[|s| - 1])
    ensures Trim(s) == s
  {
  }

  predicate AllSpaces(ws: string) {
    forall i :: 0 <= i < |ws| ==> IsSpace(ws[i])
  }

  lemma {:induction false} LeadingSpacesOfConcat(a: string, b: string)
    requires AllSpaces(a)
    requires b == [] || !IsSpace(b[0])
    ensures LeadingSpaces(a + b) == |a|
  {
    if a != [] {
      assert (a + b)[1..] == a[1..] + b;
      LeadingSpacesOfConcat(a[1..], b);
    }
  }

  lemma {:induction false} TrailingSpacesOfConcat(a: string, b: string)
    requires AllSpaces(b)
    requires a == [] || !IsSpace(a[|a| - 1])
    ensures TrailingSpaces(a + b) == |b|
  {
    if b != [] {
      assert (a + b)[..|a + b| - 1] == a + b[..|b| - 1];
      TrailingSpacesOfConcat(a, b[..|b| - 1]);
    }
  }

  /** Trimming strips exactly the whitespace around a text that has none at its two ends. */
  lemma TrimOfPadded(a: string, m: string, b: string)
    requires AllSpaces(a) && AllSpaces(b)
    requires m != [] && !IsSpace(m[0]) && !IsSpace(m[|m| - 1])
    ensures Trim(a + m + b) == m
  {
    var s := a + m + b;
    assert s == a + (m + b);
    LeadingSpacesOfConcat(a, m + b);
    assert s[|a|..] == m + b;
    TrailingSpacesOfConcat(m, b);
    assert s[|a|..|s| - |b|] == m;
  }

  /** Trimming a string leaves nothing exactly when the string is all whitespace. */
  lemma {:induction false} TrimEmptyIff(s: string)
    ensures Trim(s) == [] <==> forall k :: 0 <= k < |s| ==> IsSpace(s[k])
  {
    TrimSpec(s);
    if Trim(s) == [] {
      var i, j :| 0 <= i <= j <= |s| && Trim(s) == s[i..j]
        && (forall k :: 0 <= k < i ==> IsSpace(s[k]))
        && (forall k :: j <= k < |s| ==> IsSpace(s[k]));
      assert i == j;
    } else {
      var r := Trim(s);
      var i, j :| 0 <= i <= j <= |s| && r == s[i..j];
      assert s[i] == r[0];
    }
  }

  /** Index of the first occurrence of `c`, or `|s|` when there is none. */
  function IndexOf(s: string, c: char): (i: nat)
    ensures i <= |s|
    ensures forall k :: 0 <= k < i ==> s[k] != c
    ensures i < |s| ==> s[i] == c
  {
    if s == [] then 0 else if s[0] == c then 0 else 1 + IndexOf(s[1..], c)
  }

  function Join(parts: seq<string>, sep: char): string
  {
    if parts == [] then []
    else if |parts| == 1 then parts[0]
    else parts[0] + [sep] + Join(parts[1..], sep)
  }

  /**
   * `s.split(sep)` for a one-character separator: the pieces between separators, never
   * empty as a list (`"".split(",")` is `[""]`), none containing the separator, and
   * joining them back gives `s`.
   */
  function Split(s: string, sep: char): (parts: seq<string>)
    ensures |parts| >= 1
    ensures forall k :: 0 <= k < |parts| ==> sep !in parts[k]
    ensures Join(parts, sep) == s
    decreases |s|
  {
    var i := IndexOf(s, sep);
    if i == |s| then [s]
    else
      var rest := Split(s[i + 1..], sep);
      assert s == s[..i] + [sep] + s[i + 1..];
      [s[..i]] + rest
  }

  /** Splitting pieces that hold no separator, once joined, gives the pieces back. */
  lemma {:induction false} SplitJoin(parts: seq<string>, sep: char)
    requires |parts| >= 1 && forall k :: 0 <= k < |parts| ==> sep !in parts[k]
    ensures Split(Join(parts, sep), sep) == parts
    decreases |parts|
  {
    var s := Join(parts, sep);
    if |parts| == 1 {
      assert IndexOf(s, sep) == |s|;
    } else {
      var head := parts[0];
      assert s == head + [sep] + Join(parts[1..], sep);
      assert s[|head|] == sep;
      assert IndexOf(s, sep) == |head|;
      assert s[|head| + 1..] == Join(parts[1..], sep);
      assert s[..|head|] == head;
      SplitJoin(parts[1..], sep);
      assert parts == [head] + parts[1..];
    }
  }

  /** The first piece of `s.split(sep)`: everything before the first separator. */
  lemma SplitHead(s: string, sep: char)
    ensures Split(s, sep)[0] == s[..IndexOf(s, sep)]
  {
  }

  predicate StartsWith(s: string, t: string) {
    |t| <= |s| && s[..|t|] == t
  }

  /** `s.includes(t)`. */
  predicate Includes(s: string, t: string)
    decreases |s|
  {
    StartsWith(s, t) || (s != [] && Includes(s[1..], t))
  }

  /** `t` occurs in `s` starting at position `i`. */
  predicate OccursAt(s: string, t: string, i: int) {
    0 <= i <= |s| - |t| && s[i..i + |t|] == t
  }

  /** `includes` holds exactly when `t` occurs somewhere in `s`. */
  lemma {:induction false} IncludesIff(s: string, t: string)
    ensures Includes(s, t) <==> exists i :: OccursAt(s, t, i)
  {
    if StartsWith(s, t) {
      assert OccursAt(s, t, 0);
    } else if s == [] {
      assert forall i :: OccursAt(s, t, i) ==> i == 0;
    } else {
      IncludesIff(s[1..], t);
      if Includes(s[1..], t) {
        var i :| OccursAt(s[1..], t, i);
        assert s[i + 1..i + 1 + |t|] == s[1..][i..i + |t|];
        assert OccursAt(s, t, i + 1);
      }
      if i :| OccursAt(s, t, i) {
        assert i != 0;
        assert s[1..][i - 1..i - 1 + |t|] == s[i..i + |t|];
        assert OccursAt(s[1..], t, i - 1);
      }
    }
  }

  /** `s.indexOf(t)` for a string `t`: the first position where `t` occurs. */
  function IndexOfSub(s: string, t: string): (r: Option<nat>)
    ensures r.Some? ==> r.value + |t| <= |s|
    decreases |s|
  {
    if StartsWith(s, t) then Some(0)
    else if s == [] then None
    else match IndexOfSub(s[1..], t)
      case None => None
      case Some(i) => Some(i + 1)
  }

  /** The position found is an occurrence and no earlier position is one; none is found only when `t` does not occur. */
  lemma {:induction false} IndexOfSubSpec(s: string, t: string)
    ensures IndexOfSub(s, t).Some? ==>
      var i := IndexOfSub(s, t).value;
      s[i..i + |t|] == t && forall k :: 0 <= k < i ==> !StartsWith(s[k..], t)
    ensures IndexOfSub(s, t).None? ==> forall k :: 0 <= k <= |s| ==> !StartsWith(s[k..], t)
    decreases |s|
  {
    if !StartsWith(s, t) && s != [] {
      IndexOfSubSpec(s[1..], t);
      assert forall k :: 1 <= k <= |s| ==> s[k..] == s[1..][k - 1..];
      if IndexOfSub(s[1..], t).Some? {
        var i := IndexOfSub(s[1..], t).value;
        assert s[i + 1..i + 1 + |t|] == s[1..][i..i + |t|];
      }
    }
  }

  /** An occurrence with none before it is the one `indexOf` finds. */
  lemma IndexOfSubAt(s: string, t: string, i: nat)
    requires i <= |s| && StartsWith(s[i..], t)
    requires forall k :: 0 <= k < i ==> !StartsWith(s[k..], t)
    ensures IndexOfSub(s, t) == Some(i)
  {
    IndexOfSubSpec(s, t);
    var r := IndexOfSub(s, t);
    if r.Some? {
      var j := r.value;
      assert s[j..][..|t|] == s[j..j + |t|];
    }
  }

  /**
   * `s.replace(pat, rep)` with a string pattern: only the first occurrence is replaced, and
   * `rep` is inserted literally (it never holds a `$` pattern where this model uses it).
   */
  function ReplaceFirst(s: string, pat: string, rep: string): string
  {
    match IndexOfSub(s, pat)
    case None => s
    case Some(i) => s[..i] + rep + s[i + |pat|..]
  }

  /** The occurrence at `i`, with none before it, is the one replaced; the text around it is kept. */
  lemma ReplaceFirstAt(s: string, pat: string, rep: string, i: nat)
    requires OccursAt(s, pat, i)
    requires forall k :: 0 <= k < i ==> !OccursAt(s, pat, k)
    ensures ReplaceFirst(s, pat, rep) == s[..i] + rep + s[i + |pat|..]
  {
    assert s[i..][..|pat|] == s[i..i + |pat|];
    forall k | 0 <= k < i ensures !StartsWith(s[k..], pat) {
      assert !OccursAt(s, pat, k) && s[k..][..|pat|] == s[k..k + |pat|];
    }
    IndexOfSubAt(s, pat, i);
  }

  /** A pattern that does not occur leaves the text as it is. */
  lemma ReplaceFirstAbsent(s: string, pat: string, rep: string)
    requires !Includes(s, pat)
    ensures ReplaceFirst(s, pat, rep) == s
  {
    FoundIsIncluded(s, pat);
  }

  lemma FoundIsIncluded(s: string, t: string)
    ensures IndexOfSub(s, t).Some? ==> Includes(s, t)
  {
    IncludesIff(s, t);
    IndexOfSubSpec(s, t);
    if IndexOfSub(s, t).Some? {
      var i := IndexOfSub(s, t).value;
      assert OccursAt(s, t, i);
    }
  }

  function DigitChar(d: nat): char
    requires d < 10
  {
    ['0', '1', '2', '3', '4', '5', '6', '7', '8', '9'][d]
  }

  /** A non-negative number as a template string prints it: decimal, no leading zeros. */
  function NatToString(n: nat): (s: string)
    ensures s != [] && AllDigits(s)
    ensures |s| > 1 ==> s[0] != '0'
  {
    if n < 10 then [DigitChar(n)] else NatToString(n / 10) + [DigitChar(n % 10)]
  }

  /** An integer as a template string prints it. */
  function IntToString(i: int): string
  {
    if i < 0 then "-" + NatToString(-i) else NatToString(i)
  }

  /** `parseInt(s, 10)` for a string made only of digits (leading zeros allowed). */
  function DigitsValue(s: string): nat
    requires AllDigits(s)
  {
    if s == [] then 0 else DigitsValue(s[..|s| - 1]) * 10 + (s[|s| - 1] as int - '0' as int)
  }

  /** Printing a number and parsing it back gives the number. */
  lemma {:induction false} DigitsValueOfNatToString(n: nat)
    ensures DigitsValue(NatToString(n)) == n
  {
    if n >= 10 {
      DigitsValueOfNatToString(n / 10);
      var s := NatToString(n);
      assert s[..|s| - 1] == NatToString(n / 10);
    }
  }
}
