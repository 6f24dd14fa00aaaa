/**
 * The Python `str` and `int` operations the add-ons rely on, restricted to
 * ASCII behaviour: `rfind`, `split`, `in` on strings, a one-character
 * `replace`, `strip`, `title`, `int(...)` on text and `f"{n}"` of an integer.
 */
module PyText {

  datatype Option<T> = None | Some(value: T) {
    /** The wrapped value, or `default` when there is none. */
    function GetOr(default: T): T {
      if Some? then value else default
    }
  }

  // ---------------------------------------------------------------------
  // Character classes

  predicate IsUpper(c: char) { 'A' <= c <= 'Z' }
  predicate IsLower(c: char) { 'a' <= c <= 'z' }
  /** A cased character in the sense of `str.title` (ASCII letters only). */
  predicate IsLetter(c: char) { IsUpper(c) || IsLower(c) }
  predicate IsDigit(c: char) { '0' <= c <= '9' }

  /** ASCII characters for which `str.isspace()` holds; `str.strip()` removes these. */
  const StrSpace: set<char> :=
    {' ', '\t', '\n', '\U{B}', '\U{C}', '\r', '\U{1C}', '\U{1D}', '\U{1E}', '\U{1F}'}

  /** The C `isspace` set that `int()` skips around its digits. */
  const IntSpace: set<char> := {' ', '\t', '\n', '\U{B}', '\U{C}', '\r'}

  /** The position of a letter in the alphabet: 0 for `a` and `A`, 25 for `z` and `Z`. */
  function LetterIndex(c: char): int
    requires IsLetter(c)
  {
    if IsUpper(c) then c as int - 'A' as int else c as int - 'a' as int
  }

  /** `a` is `b` up to case: the same letter in either case, or the very same non-letter. */
  predicate SameUpToCase(a: char, b: char) {
    if IsLetter(b) then IsLetter(a) && LetterIndex(a) == LetterIndex(b) else a == b
  }

  /** `c.upper()` for ASCII: the same letter in upper case; anything else unchanged. */
  function ToUpper(c: char): (r: char)
    ensures SameUpToCase(r, c)
    ensures IsLetter(r) <==> IsLetter(c)
    ensures !IsLower(r)
  {
    if IsLower(c) then (c as int - 32) as char else c
  }

  /** `c.lower()` for ASCII: the same letter in lower case; anything else unchanged. */
  function ToLower(c: char): (r: char)
    ensures SameUpToCase(r, c)
    ensures IsLetter(r) <==> IsLetter(c)
    ensures !IsUpper(r)
  {
    if IsUpper(c) then (c as int + 32) as char else c
  }

  // ---------------------------------------------------------------------
  // Searching

  /** The last index below `end` holding `c`, or -1. */
  function RFindBefore(s: string, c: char, end: int): (r: int)
    requires 0 <= end <= |s|
    ensures -1 <= r < end
    ensures r >= 0 ==> s[r] == c
    decreases end
  {
    if end == 0 then -1
    else if s[end - 1] == c then end - 1
    else RFindBefore(s, c, end - 1)
  }

  /** `s.rfind(c)`: the last index holding `c`, or -1. */
  function RFind(s: string, c: char): (r: int)
    ensures -1 <= r < |s|
    ensures r >= 0 ==> s[r] == c
  {
    RFindBefore(s, c, |s|)
  }

  /** No `c` lies between the index `RFindBefore` returns and `end`. */
  lemma {:induction false} RFindBeforeLast(s: string, c: char, end: int)
    requires 0 <= end <= |s|
    ensures forall j :: RFindBefore(s, c, end) < j < end ==> s[j] != c
    decreases end
  {
    if end > 0 && s[end - 1] != c {
      RFindBeforeLast(s, c, end - 1);
    }
  }

  /** No `c` follows the index `rfind` returns. */
  lemma RFindLast(s: string, c: char)
    ensures forall j :: RFind(s, c) < j < |s| ==> s[j] != c
  {
    RFindBeforeLast(s, c, |s|);
  }

  /** `needle` occurs in `hay` starting at `i`. */
  predicate OccursAt(hay: string, needle: string, i: int) {
    0 <= i && i + |needle| <= |hay| && hay[i..i + |needle|] == needle
  }

  /** Python's `needle in hay` on two strings. */
  function Contains(hay: string, needle: string): bool
    decreases |hay|
  {
    (|needle| <= |hay| && hay[..|needle|] == needle)
    || (|hay| > 0 && Contains(hay[1..], needle))
  }

  /** An occurrence at any position makes `needle in hay` true. */
  lemma {:induction false} OccursContains(hay: string, needle: string, i: int)
    requires OccursAt(hay, needle, i)
    ensures Contains(hay, needle)
    decreases i
  {
    if i > 0 {
      assert hay[1..][i - 1..i - 1 + |needle|] == hay[i..i + |needle|];
      OccursContains(hay[1..], needle, i - 1);
    }
  }

  /** `needle in hay` holds exactly when `needle` occurs at some position of `hay`. */
  lemma {:induction false} ContainsIff(hay: string, needle: string)
    ensures Contains(hay, needle) <==> exists i :: OccursAt(hay, needle, i)
    decreases |hay|
  {
    if exists i :: OccursAt(hay, needle, i) {
      var i :| OccursAt(hay, needle, i);
      OccursContains(hay, needle, i);
    }
    if Contains(hay, needle) {
      if |needle| <= |hay| && hay[..|needle|] == needle {
        assert OccursAt(hay, needle, 0);
      } else {
        ContainsIff(hay[1..], needle);
        var i :| OccursAt(hay[1..], needle, i);
        assert hay[i + 1..i + 1 + |needle|] == hay[1..][i..i + |needle|];
        assert OccursAt(hay, needle, i + 1);
      }
    }
  }

  // ---------------------------------------------------------------------
  // Splitting

  /** Nothing after the last `c` is a `c`. */
  lemma RFindSuffixFree(s: string, c: char)
    ensures c !in s[RFind(s, c) + 1..]
  {
    RFindLast(s, c);
    SuffixFree(s, c, RFind(s, c));
  }

  /** A text with no `c` after index `r` has no `c` in its suffix past `r`. */
  lemma SuffixFree(s: string, c: char, r: int)
    requires -1 <= r < |s|
    requires forall j :: r < j < |s| ==> s[j] != c
    ensures c !in s[r + 1..]
  {
    var t := s[r + 1..];
    forall k | 0 <= k < |t| ensures t[k] != c {
      assert t[k] == s[r + 1 + k];
    }
  }

  /** The three facts `rfind` promises determine its result. */
  lemma RFindUnique(s: string, c: char, r: int)
    requires -1 <= r < |s|
    requires r >= 0 ==> s[r] == c
    requires forall j :: r < j < |s| ==> s[j] != c
    ensures RFind(s, c) == r
  {
    RFindBeforeUnique(s, c, |s|, r);
  }

  /** `RFindBefore` is determined the same way, below any `end`. */
  lemma {:induction false} RFindBeforeUnique(s: string, c: char, end: int, r: int)
    requires 0 <= end <= |s| && -1 <= r < end
    requires r >= 0 ==> s[r] == c
    requires forall j :: r < j < end ==> s[j] != c
    ensures RFindBefore(s, c, end) == r
    decreases end
  {
    if end > 0 && s[end - 1] != c {
      RFindBeforeUnique(s, c, end - 1, r);
    }
  }

  /** The last `sep` of `s` lies in the text after its first `sep`, if there is one there. */
  lemma RFindAfterFind(s: string, sep: char, i: int)
    requires 0 <= i < |s| && s[i] == sep
    ensures var rt := RFind(s[i + 1..], sep);
      RFind(s, sep) == if rt >= 0 then i + 1 + rt else i
  {
    var t := s[i + 1..];
    var rt := RFind(t, sep);
    var expected := if rt >= 0 then i + 1 + rt else i;
    RFindLast(t, sep);
    if rt >= 0 { assert s[expected] == t[rt]; }
    forall j | expected < j < |s| ensures s[j] != sep {
      assert s[j] == t[j - i - 1];
    }
    RFindUnique(s, sep, expected);
  }

  /**
   * `s.split(sep)` for a one-character separator, built from the right: the
   * pieces before the last `sep`, then the text after it.
   */
  function Split(s: string, sep: char): (parts: seq<string>)
    ensures |parts| >= 1
    decreases |s|
  {
    var i := RFind(s, sep);
    if i < 0 then [s] else Split(s[..i], sep) + [s[i + 1..]]
  }

  /** `sep.join(parts)`. */
  function Join(parts: seq<string>, sep: char): string
    requires |parts| >= 1
  {
    if |parts| == 1 then parts[0] else Join(parts[..|parts| - 1], sep) + [sep] + parts[|parts| - 1]
  }

  /** Splitting loses nothing: joining the pieces gives back the text. */
  lemma {:induction false} JoinSplit(s: string, sep: char)
    ensures Join(Split(s, sep), sep) == s
    decreases |s|
  {
    var i := RFind(s, sep);
    if i < 0 {
      assert Split(s, sep) == [s];
    } else {
      var init := Split(s[..i], sep);
      var parts := init + [s[i + 1..]];
      assert Split(s, sep) == parts;
      JoinSplit(s[..i], sep);
      assert parts[..|parts| - 1] == init;
      assert Join(parts, sep) == Join(init, sep) + [sep] + s[i + 1..];
      assert s == s[..i] + [sep] + s[i + 1..];
    }
  }

  /** No piece of a split holds the separator. */
  lemma {:induction false} SplitPiecesFree(s: string, sep: char)
    ensures var parts := Split(s, sep); forall k :: 0 <= k < |parts| ==> sep !in parts[k]
    decreases |s|
  {
    var i := RFind(s, sep);
    RFindSuffixFree(s, sep);
    if i < 0 {
      assert Split(s, sep) == [s];
      assert s[i + 1..] == s;
    } else {
      var init := Split(s[..i], sep);
      SplitPiecesFree(s[..i], sep);
      assert var p := Split(s[..i], sep); forall k :: 0 <= k < |p| ==> sep !in p[k];
      var parts := init + [s[i + 1..]];
      assert Split(s, sep) == parts;
      forall k | 0 <= k < |parts| ensures sep !in parts[k] {
        if k < |init| {
          assert parts[k] == init[k];
          assert sep !in init[k];
        } else {
          assert parts[k] == s[i + 1..];
          assert sep !in s[i + 1..];
        }
      }
    }
  }

  /** The last piece of `s.split(sep)` is the text after the last separator. */
  lemma SplitLast(s: string, sep: char)
    ensures var parts := Split(s, sep); parts[|parts| - 1] == s[RFind(s, sep) + 1..]
  {
    var i := RFind(s, sep);
    if i < 0 {
      assert Split(s, sep) == [s];
      assert s[i + 1..] == s;
    } else {
      var init := Split(s[..i], sep);
      assert Split(s, sep) == init + [s[i + 1..]];
    }
  }

  /** A leading separator shifts the last separator's index by one. */
  lemma RFindAfterLead(s: string, sep: char)
    requires s != [] && s[0] == sep
    ensures RFind(s, sep) == RFind(s[1..], sep) + 1
  {
    RFindAfterFind(s, sep, 0);
  }

  /** Dropping one leading separator before splitting does not change the last piece. */
  lemma SplitLastAfterLead(s: string, sep: char)
    requires s != [] && s[0] == sep
    ensures var parts := Split(s[1..], sep); parts[|parts| - 1] == s[RFind(s, sep) + 1..]
  {
    SplitLast(s[1..], sep);
    RFindAfterLead(s, sep);
    DropDrop(s, 1, RFind(s[1..], sep) + 1);
  }

  /** Dropping `a` and then `b` elements drops `a + b`. */
  lemma DropDrop(s: string, a: int, b: int)
    requires 0 <= a && 0 <= b && a + b <= |s|
    ensures s[a..][b..] == s[a + b..]
  {
  }

  /**
   * Python's `xs[i]` position for a list of length `n`: a negative index
   * counts from the end; `None` stands for the `IndexError` of an index
   * out of range.
   */
  function PyIndex(n: int, i: int): (r: Option<int>)
    requires n >= 0
    ensures r.Some? <==> -n <= i < n
    ensures r.Some? ==> 0 <= r.value < n && (r.value == i || r.value == i + n)
  {
    if 0 <= i < n then Some(i) else if -n <= i < 0 then Some(i + n) else None
  }

  // ---------------------------------------------------------------------
  // Rewriting

  /** `s.replace(from, to)` for one character: same length, each `from` becomes `to` and every other character stays. */
  function ReplaceChar(s: string, from: char, to: char): (r: string)
    ensures |r| == |s|
    ensures forall i :: 0 <= i < |s| && s[i] == from ==> r[i] == to
    ensures forall i :: 0 <= i < |s| && s[i] != from ==> r[i] == s[i]
  {
    seq(|s|, i requires 0 <= i < |s| => if s[i] == from then to else s[i])
  }

  /** Replacing a character the text does not hold changes nothing. */
  lemma ReplaceAbsent(s: string, from: char, to: char)
    requires from !in s
    ensures ReplaceChar(s, from, to) == s
  {
    var r := ReplaceChar(s, from, to);
    forall k | 0 <= k < |s| ensures r[k] == s[k] {
      assert s[k] != from;
    }
  }

  /** Replacing `from` by a different character leaves no `from`. */
  lemma ReplaceRemoves(s: string, from: char, to: char)
    requires from != to
    ensures from !in ReplaceChar(s, from, to)
  {
    var r := ReplaceChar(s, from, to);
    forall k | 0 <= k < |r| ensures r[k] != from {
    }
  }

  /** The first index from `i` on whose character is not in `ws`, or `|s|`. */
  function LeadEnd(s: string, ws: set<char>, i: int): (k: int)
    requires 0 <= i <= |s|
    ensures i <= k <= |s|
    ensures k == |s| || s[k] !in ws
    decreases |s| - i
  {
    if i < |s| && s[i] in ws then LeadEnd(s, ws, i + 1) else i
  }

  /** Going down from `j` to no lower than `lo`: the end of the last character not in `ws`, or `lo`. */
  function TrailStart(s: string, ws: set<char>, lo: int, j: int): (k: int)
    requires 0 <= lo <= j <= |s|
    ensures lo <= k <= j
    ensures k == lo || s[k - 1] !in ws
    decreases j
  {
    if j > lo && s[j - 1] in ws then TrailStart(s, ws, lo, j - 1) else j
  }

  /** `LeadEnd` skips only characters of `ws`. */
  lemma {:induction false} LeadEndCut(s: string, ws: set<char>, i: int)
    requires 0 <= i <= |s|
    ensures forall k :: i <= k < LeadEnd(s, ws, i) ==> s[k] in ws
    decreases |s| - i
  {
    if i < |s| && s[i] in ws {
      LeadEndCut(s, ws, i + 1);
    }
  }

  /** `TrailStart` skips only characters of `ws`. */
  lemma {:induction false} TrailStartCut(s: string, ws: set<char>, lo: int, j: int)
    requires 0 <= lo <= j <= |s|
    ensures forall k :: TrailStart(s, ws, lo, j) <= k < j ==> s[k] in ws
    decreases j
  {
    if j > lo && s[j - 1] in ws {
      TrailStartCut(s, ws, lo, j - 1);
    }
  }

  /** Both ends of `s` trimmed of characters in `ws`: what lies from the first to the last character not in `ws`. */
  function Trim(s: string, ws: set<char>): (r: string)
    ensures |r| <= |s|
    ensures r == [] || (r[0] !in ws && r[|r| - 1] !in ws)
  {
    var i := LeadEnd(s, ws, 0);
    s[i..TrailStart(s, ws, i, |s|)]
  }

  /** What trimming cuts off on either side of the part it keeps is all `ws`. */
  lemma TrimMiddle(s: string, ws: set<char>)
    ensures var i := LeadEnd(s, ws, 0); var j := TrailStart(s, ws, i, |s|);
      && Trim(s, ws) == s[i..j]
      && (forall k :: 0 <= k < i ==> s[k] in ws)
      && (forall k :: j <= k < |s| ==> s[k] in ws)
  {
    var i := LeadEnd(s, ws, 0);
    LeadEndCut(s, ws, 0);
    TrailStartCut(s, ws, i, |s|);
  }

  /** `s.strip()`. */
  function Strip(s: string): string
  {
    Trim(s, StrSpace)
  }

  /** `strip` never brings in a character the text did not have. */
  lemma StripKeepsAbsent(s: string, c: char)
    requires c !in s
    ensures c !in Strip(s)
  {
    var i := LeadEnd(s, StrSpace, 0);
    SliceKeepsAbsent(s, c, i, TrailStart(s, StrSpace, i, |s|));
  }

  /** A slice holds no character the whole text lacks. */
  lemma SliceKeepsAbsent(s: string, c: char, i: int, j: int)
    requires 0 <= i <= j <= |s| && c !in s
    ensures c !in s[i..j]
  {
    var t := s[i..j];
    forall k | 0 <= k < |t| ensures t[k] != c {
      assert t[k] == s[i + k];
    }
  }

  // ---------------------------------------------------------------------
  // Title case

  /**
   * What `title` puts at position `i`: CPython walks the text keeping
   * whether the previous character was cased, which for ASCII is whether it
   * is a letter; a letter after a letter is lower-cased, any other letter
   * upper-cased.
   */
  function TitleCharAt(s: string, i: int): char
    requires 0 <= i < |s|
  {
    if i > 0 && IsLetter(s[i - 1]) then ToLower(s[i]) else ToUpper(s[i])
  }

  /** `s.title()`: every character kept up to case. */
  function Title(s: string): (r: string)
    ensures |r| == |s|
    ensures forall i :: 0 <= i < |s| ==> SameUpToCase(r[i], s[i])
  {
    seq(|s|, i requires 0 <= i < |s| => TitleCharAt(s, i))
  }

  /** The title-case rule holds at position `i` of `s`. */
  predicate TitledAt(s: string, i: int)
    requires 0 <= i < |s|
  {
    IsLetter(s[i]) ==> if i > 0 && IsLetter(s[i - 1]) then IsLower(s[i]) else IsUpper(s[i])
  }

  /** Every word of `s` starts upper case and continues lower case. */
  predicate IsTitled(s: string) {
    forall i :: 0 <= i < |s| ==> TitledAt(s, i)
  }

  /** `title` changes letters only in case: letters stay letters and other characters stay as they are. */
  lemma TitleKeepsNonLetters(s: string, i: int)
    requires 0 <= i < |s|
    ensures IsLetter(Title(s)[i]) <==> IsLetter(s[i])
    ensures !IsLetter(s[i]) ==> Title(s)[i] == s[i]
  {
  }

  /** `title` never brings in a character that is not a letter. */
  lemma TitleKeepsAbsent(s: string, c: char)
    requires !IsLetter(c) && c !in s
    ensures c !in Title(s)
  {
    var r := Title(s);
    forall k | 0 <= k < |r| ensures r[k] != c {
      TitleKeepsNonLetters(s, k);
    }
  }

  /** `title` keeps whether the first and last characters are whitespace. */
  lemma TitleKeepsEnds(s: string)
    requires s != []
    ensures |Title(s)| == |s|
    ensures Title(s)[0] in StrSpace <==> s[0] in StrSpace
    ensures Title(s)[|s| - 1] in StrSpace <==> s[|s| - 1] in StrSpace
  {
    var r := Title(s);
    SameUpToCaseSpace(r[0], s[0]);
    SameUpToCaseSpace(r[|s| - 1], s[|s| - 1]);
  }

  /** Whitespace has no case: a character equal to another up to case is whitespace exactly when the other is. */
  lemma SameUpToCaseSpace(a: char, b: char)
    requires SameUpToCase(a, b)
    ensures a in StrSpace <==> b in StrSpace
  {
    if IsLetter(b) {
      assert a !in StrSpace && b !in StrSpace;
    }
  }

  /** The result of `title` is title-cased. */
  lemma TitleIsTitled(s: string)
    ensures IsTitled(Title(s))
  {
    var r := Title(s);
    forall i | 0 <= i < |r| ensures TitledAt(r, i) {
      if i > 0 { TitleKeepsNonLetters(s, i - 1); }
    }
  }

  /** `title` leaves a text alone exactly when it is already title-cased. */
  lemma TitleFixedIff(s: string)
    ensures Title(s) == s <==> IsTitled(s)
  {
    if Title(s) == s {
      TitleIsTitled(s);
    }
    if IsTitled(s) {
      var r := Title(s);
      forall i | 0 <= i < |s| ensures r[i] == s[i] {
        assert TitledAt(s, i);
      }
      assert r == s;
    }
  }

  /** Two letters with the same alphabet position and the same case are the same character. */
  lemma SameLetterSameCase(a: char, b: char)
    requires IsLetter(a) && IsLetter(b) && LetterIndex(a) == LetterIndex(b)
    requires IsUpper(a) <==> IsUpper(b)
    ensures a == b
  {
  }

  /**
   * `title` is the only way to case `s` as a title: a text that keeps every
   * character of `s` up to case and is title-cased is `s.title()`.
   */
  lemma TitleUnique(s: string, r: string)
    requires |r| == |s| && forall i :: 0 <= i < |s| ==> SameUpToCase(r[i], s[i])
    requires IsTitled(r)
    ensures r == Title(s)
  {
    var t := Title(s);
    TitleIsTitled(s);
    forall i | 0 <= i < |s| ensures r[i] == t[i] {
      assert SameUpToCase(r[i], s[i]) && SameUpToCase(t[i], s[i]);
      if IsLetter(s[i]) {
        assert TitledAt(r, i) && TitledAt(t, i);
        if i > 0 {
          assert SameUpToCase(r[i - 1], s[i - 1]) && SameUpToCase(t[i - 1], s[i - 1]);
        }
        SameLetterSameCase(r[i], t[i]);
      }
    }
  }

  /** Applying `title` twice is the same as applying it once. */
  lemma TitleIdempotent(s: string)
    ensures Title(Title(s)) == Title(s)
  {
    TitleIsTitled(s);
    TitleFixedIff(Title(s));
  }

  // ---------------------------------------------------------------------
  // Integers as text

  predicate AllDigits(s: string) {
    |s| > 0 && forall i :: 0 <= i < |s| ==> IsDigit(s[i])
  }

  function DigitValue(c: char): nat
    requires IsDigit(c)
  {
    c as int - '0' as int
  }

  /** The base-10 value of a run of ASCII digits (leading zeros allowed). */
  function DigitsValue(s: string): nat
    requires forall i :: 0 <= i < |s| ==> IsDigit(s[i])
  {
    if s == [] then 0 else 10 * DigitsValue(s[..|s| - 1]) + DigitValue(s[|s| - 1])
  }

  /** The body of a base-10 `int()` after whitespace: an optional sign and one or more digits. */
  function ParseSigned(t: string): Option<int>
  {
    if t != [] && (t[0] == '-' || t[0] == '+') then
      if AllDigits(t[1..]) then
        var v: int := DigitsValue(t[1..]);
        Some(if t[0] == '-' then -v else v)
      else None
    else if AllDigits(t) then Some(DigitsValue(t))
    else None
  }

  /**
   * `int(s)` in base 10, with `None` for the `ValueError` it raises. Python
   * also admits single `_` between digits; the callers here only pass
   * text that has no `_`, which is what the precondition records.
   */
  function ParseInt(s: string): Option<int>
    requires '_' !in s
  {
    ParseSigned(Trim(s, IntSpace))
  }

  function DigitChar(d: nat): (c: char)
    requires d < 10
    ensures IsDigit(c) && DigitValue(c) == d
  {
    ('0' as int + d) as char
  }

  /** The decimal digits of `n`, without leading zeros. */
  function NatToString(n: nat): (r: string)
    ensures r != [] && AllDigits(r)
    ensures r[0] == '0' ==> n == 0
    ensures n == 0 ==> r == "0"
  {
    if n < 10 then [DigitChar(n)]
    else
      var init := NatToString(n / 10);
      assert (init + [DigitChar(n % 10)])[0] == init[0];
      init + [DigitChar(n % 10)]
  }

  /** `f"{n}"` / `str(n)` of an integer: a `-` exactly when `n` is negative, then its digits. */
  function IntToString(n: int): (r: string)
    ensures r != [] && (AllDigits(r) || (r[0] == '-' && AllDigits(r[1..])))
    ensures r[0] == '-' <==> n < 0
    ensures var d := if n < 0 then r[1..] else r; d != [] && (d[0] == '0' ==> n == 0)
    ensures n == 0 ==> r == "0"
  {
    if n < 0 then
      var d := NatToString(-n);
      assert ("-" + d)[1..] == d;
      "-" + d
    else NatToString(n)
  }

  /** The digits of `n` read back as `n`. */
  lemma {:induction false} NatToStringValue(n: nat)
    ensures DigitsValue(NatToString(n)) == n
  {
    var init := if n < 10 then "" else NatToString(n / 10);
    var r := init + [DigitChar(n % 10)];
    assert NatToString(n) == r;
    assert r[..|r| - 1] == init;
    if n >= 10 {
      NatToStringValue(n / 10);
    }
    assert DigitsValue(init) == n / 10;
    assert DigitsValue(r) == 10 * (n / 10) + n % 10;
  }

  /** The digits of an integer carry no `_`: `int()` may be applied to them. */
  lemma IntToStringNoUnderscore(n: int)
    ensures '_' !in IntToString(n) && '/' !in IntToString(n)
  {
  }

  /** Trimming leaves a text alone when neither end is in `ws`. */
  lemma TrimUnchanged(s: string, ws: set<char>)
    requires s != [] && s[0] !in ws && s[|s| - 1] !in ws
    ensures Trim(s, ws) == s
  {
    assert s[0..|s|] == s;
  }

  /** `int()` reads back the digits of a natural number. */
  lemma ParseNatDigits(n: nat)
    ensures ParseSigned(NatToString(n)) == Some(n)
  {
    NatToStringValue(n);
    var d := NatToString(n);
    assert AllDigits(d);
    assert IsDigit(d[0]);
  }

  /** `int()` reads back the digits of a natural number after a `-`. */
  lemma ParseNegatedDigits(n: nat)
    ensures ParseSigned("-" + NatToString(n)) == Some(0 - n)
  {
    NatToStringValue(n);
    var d := NatToString(n);
    assert AllDigits(d);
    assert ("-" + d)[1..] == d;
  }

  /** The text of an integer has no surrounding whitespace. */
  lemma IntToStringTrimmed(n: int)
    ensures Trim(IntToString(n), IntSpace) == IntToString(n)
  {
    var s := IntToString(n);
    assert s[0] !in IntSpace && s[|s| - 1] !in IntSpace;
    TrimUnchanged(s, IntSpace);
  }

  /** The sign and digits of an integer's text read back as the integer. */
  lemma ParseSignedIntText(n: int)
    ensures ParseSigned(IntToString(n)) == Some(n)
  {
    if n < 0 {
      assert IntToString(n) == "-" + NatToString(-n);
      ParseNegatedDigits(-n);
    } else {
      assert IntToString(n) == NatToString(n);
      ParseNatDigits(n);
    }
  }

  /** `int(str(n)) == n`: printing an integer and reading it back gives the integer. */
  lemma IntRoundTrip(n: int)
    ensures '_' !in IntToString(n) && ParseInt(IntToString(n)) == Some(n)
  {
    IntToStringNoUnderscore(n);
    IntToStringTrimmed(n);
    ParseSignedIntText(n);
  }
}
