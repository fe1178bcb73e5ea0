/**
 * The JavaScript string operations the program leans on (`startsWith`,
 * `includes`, `split`, `trim`, `toLowerCase`, `replace` of a literal),
 * each defined once over `string = seq<char>` and characterised by its contract.
 */
module Strings {

  /** Separator sets the path and tag splitting uses. */
  const Slash: set<char> := {'/'}
  const Dot: set<char> := {'.'}
  const Colon: set<char> := {':'}
  /** Both path separators, `/[/\\]/`. */
  const PathSeparators: set<char> := {'/', '\\'}

  predicate StartsWith(s: string, prefix: string) {
    |prefix| <= |s| && s[..|prefix|] == prefix
  }

  predicate EndsWith(s: string, suffix: string) {
    |suffix| <= |s| && s[|s| - |suffix|..] == suffix
  }

  /** `s.includes(sub)`: `sub` occurs at some position of `s`. */
  predicate Contains(s: string, sub: string)
    decreases |s|
  {
    StartsWith(s, sub) || (|s| > 0 && Contains(s[1..], sub))
  }

  /** No character of `t` is a separator. */
  predicate NoneIn(t: string, seps: set<char>) {
    forall j :: 0 <= j < |t| ==> t[j] !in seps
  }

  /** Number of characters of `s` that are separators. */
  function CountIn(s: string, seps: set<char>): nat
    decreases |s|
  {
    if |s| == 0 then 0 else (if s[0] in seps then 1 else 0) + CountIn(s[1..], seps)
  }

  /**
   * `s.split(re)` for a regular expression that is one character class:
   * the maximal separator-free pieces between separators, empty pieces kept.
   */
  function Split(s: string, seps: set<char>): (parts: seq<string>)
    ensures |parts| == CountIn(s, seps) + 1
    ensures forall i :: 0 <= i < |parts| ==> NoneIn(parts[i], seps)
    decreases |s|
  {
    if |s| == 0 then [""]
    else
      var rest := Split(s[1..], seps);
      if s[0] in seps then [""] + rest
      else [[s[0]] + rest[0]] + rest[1..]
  }

  /** `parts.join(sep)`. */
  function Join(parts: seq<string>, sep: char): string
    decreases |parts|
  {
    if |parts| == 0 then ""
    else if |parts| == 1 then parts[0]
    else parts[0] + [sep] + Join(parts[1..], sep)
  }

  lemma {:induction false} JoinCons(head: char, parts: seq<string>, sep: char)
    requires |parts| >= 1
    ensures Join([[head] + parts[0]] + parts[1..], sep) == [head] + Join(parts, sep)
  {
    var ps := [[head] + parts[0]] + parts[1..];
    if |parts| == 1 {
      assert ps == [[head] + parts[0]];
    } else {
      assert ps[1..] == parts[1..];
    }
  }

  /** Splitting on one character and joining with it gives the string back. */
  lemma {:induction false} JoinSplit(s: string, sep: char)
    ensures Join(Split(s, {sep}), sep) == s
    decreases |s|
  {
    if |s| > 0 {
      var rest := Split(s[1..], {sep});
      JoinSplit(s[1..], sep);
      if s[0] == sep {
        assert Split(s, {sep}) == [""] + rest;
        assert ([""] + rest)[1..] == rest;
        assert s == [sep] + s[1..];
      } else {
        JoinCons(s[0], rest, sep);
        assert s == [s[0]] + s[1..];
      }
    }
  }

  /** Splitting a string with a known first character. */
  lemma SplitHead(c: char, t: string, seps: set<char>)
    ensures Split([c] + t, seps)
         == if c in seps then [""] + Split(t, seps) else [[c] + Split(t, seps)[0]] + Split(t, seps)[1..]
  {
    assert ([c] + t)[1..] == t;
  }

  /** Joining separator-free pieces and splitting again gives the pieces back. */
  lemma {:induction false} SplitJoin(parts: seq<string>, sep: char)
    requires |parts| >= 1
    requires forall i :: 0 <= i < |parts| ==> NoneIn(parts[i], {sep})
    ensures Split(Join(parts, sep), {sep}) == parts
    decreases |parts|, |parts[0]|
  {
    if |parts[0]| > 0 {
      var c := parts[0][0];
      var tail := [parts[0][1..]] + parts[1..];
      assert parts[0] == [c] + parts[0][1..];
      assert tail[1..] == parts[1..];
      assert NoneIn(tail[0], {sep});
      SplitJoin(tail, sep);
      JoinCons(c, tail, sep);
      assert [[c] + tail[0]] + tail[1..] == parts;
      SplitHead(c, Join(tail, sep), {sep});
    } else if |parts| > 1 {
      SplitJoin(parts[1..], sep);
      assert Join(parts, sep) == [sep] + Join(parts[1..], sep);
      SplitHead(sep, Join(parts[1..], sep), {sep});
      assert [""] + parts[1..] == parts;
    } else {
      assert parts == [""];
    }
  }

  function Last<T>(xs: seq<T>): T
    requires |xs| > 0
  {
    xs[|xs| - 1]
  }

  lemma {:induction false} CountInZero(s: string, seps: set<char>)
    ensures CountIn(s, seps) == 0 <==> NoneIn(s, seps)
    decreases |s|
  {
    if |s| > 0 {
      CountInZero(s[1..], seps);
      assert forall j :: 1 <= j < |s| ==> s[j] == s[1..][j - 1];
    }
  }

  /** Separators of a concatenation are those of its parts. */
  lemma {:induction false} CountInAppend(a: string, b: string, seps: set<char>)
    ensures CountIn(a + b, seps) == CountIn(a, seps) + CountIn(b, seps)
    decreases |a|
  {
    if |a| > 0 {
      CountInAppend(a[1..], b, seps);
      assert (a + b)[1..] == a[1..] + b;
    } else {
      assert a + b == b;
    }
  }

  lemma {:induction false} LastOfSplit(s: string, seps: set<char>)
    ensures var r := Last(Split(s, seps));
      EndsWith(s, r) && (|r| == |s| || s[|s| - |r| - 1] in seps)
    decreases |s|
  {
    if |s| > 0 {
      var s1 := s[1..];
      LastOfSplit(s1, seps);
      var rest := Split(s1, seps);
      var r := Last(rest);
      if s[0] !in seps && |rest| == 1 {
        OnePiece(s1, seps);
        SplitHead(s[0], s1, seps);
        assert [s[0]] + s1 == s;
      } else {
        LastPieceOfTail(s, seps);
        if |r| == |s1| && s[0] !in seps {
          CountInZero(s1, seps);
          assert false;
        }
        SuffixOfTail(s, r, seps);
      }
    }
  }

  /** A split into one piece leaves the text whole. */
  lemma OnePiece(s: string, seps: set<char>)
    requires |Split(s, seps)| == 1
    requires var r := Last(Split(s, seps)); EndsWith(s, r) && (|r| == |s| || s[|s| - |r| - 1] in seps)
    ensures Split(s, seps) == [s]
  {
    CountInZero(s, seps);
    var r := Split(s, seps)[0];
    assert |r| == |s|;
  }

  /** After a leading separator, or with more than one piece, the last piece is that of the tail. */
  lemma LastPieceOfTail(s: string, seps: set<char>)
    requires |s| > 0
    requires s[0] in seps || |Split(s[1..], seps)| > 1
    ensures Last(Split(s, seps)) == Last(Split(s[1..], seps))
  {
    SplitHead(s[0], s[1..], seps);
    assert [s[0]] + s[1..] == s;
  }

  /** A suffix of the tail that follows a separator there, or the whole tail after a separator. */
  lemma SuffixOfTail(s: string, r: string, seps: set<char>)
    requires |s| > 0
    requires EndsWith(s[1..], r)
    requires |r| == |s| - 1 ==> s[0] in seps
    requires |r| == |s| - 1 || s[1..][|s| - 1 - |r| - 1] in seps
    ensures EndsWith(s, r) && (|r| == |s| || s[|s| - |r| - 1] in seps)
  {
    assert s[1..][|s| - 1 - |r|..] == s[|s| - |r|..];
  }

  /**
   * `s.split(re).pop()`: the text after the last separator (all of `s` when
   * there is none). The contract pins it down: the longest separator-free suffix.
   */
  function LastSegment(s: string, seps: set<char>): (r: string)
    ensures EndsWith(s, r)
    ensures NoneIn(r, seps)
    ensures |r| == |s| || s[|s| - |r| - 1] in seps
  {
    LastOfSplit(s, seps);
    Last(Split(s, seps))
  }

  lemma {:induction false} FirstOfSplit(s: string, seps: set<char>)
    ensures var r := Split(s, seps)[0];
      StartsWith(s, r) && (|r| == |s| || s[|r|] in seps)
    decreases |s|
  {
    if |s| > 0 {
      FirstOfSplit(s[1..], seps);
      var r := Split(s[1..], seps)[0];
      if s[0] !in seps {
        assert Split(s, seps)[0] == [s[0]] + r;
        assert s[1..][..|r|] == s[1..|r| + 1];
        assert s[..|r| + 1] == [s[0]] + s[1..|r| + 1];
      }
    }
  }

  /**
   * `s.split(re)[0]`: the text before the first separator (all of `s` when
   * there is none), i.e. the longest separator-free prefix.
   */
  function FirstSegment(s: string, seps: set<char>): (r: string)
    ensures StartsWith(s, r)
    ensures NoneIn(r, seps)
    ensures |r| == |s| || s[|r|] in seps
  {
    FirstOfSplit(s, seps);
    Split(s, seps)[0]
  }

  /** `s.replace(/x/g, y)` for one character `x`. */
  function ReplaceChar(s: string, x: char, y: char): (r: string)
    ensures |r| == |s|
    ensures forall i :: 0 <= i < |s| ==> r[i] == (if s[i] == x then y else s[i])
  {
    seq(|s|, i requires 0 <= i < |s| => if s[i] == x then y else s[i])
  }

  /** `String.prototype.toLowerCase` restricted to ASCII letters. */
  function LowerChar(c: char): (d: char)
    ensures ('A' <= c <= 'Z') ==> 'a' <= d <= 'z'
    ensures !('A' <= c <= 'Z') ==> d == c
  {
    if 'A' <= c <= 'Z' then (c as int + 32) as char else c
  }

  function Lower(s: string): (r: string)
    ensures |r| == |s|
    ensures forall i :: 0 <= i < |s| ==> r[i] == LowerChar(s[i])
  {
    seq(|s|, i requires 0 <= i < |s| => LowerChar(s[i]))
  }

  lemma LowerDrop(s: string, k: nat)
    requires k <= |s|
    ensures Lower(s)[k..] == Lower(s[k..])
  {
  }

  lemma LowerIdempotent(s: string)
    ensures Lower(Lower(s)) == Lower(s)
  {
  }

  /** A set of separators without letters: lowercasing neither creates nor removes one. */
  predicate NoLetters(seps: set<char>) {
    forall c :: c in seps ==> !('A' <= c <= 'Z') && !('a' <= c <= 'z')
  }

  /** A string has exactly one longest separator-free suffix. */
  lemma LastSegmentUnique(s: string, seps: set<char>, r1: string, r2: string)
    requires EndsWith(s, r1) && NoneIn(r1, seps) && (|r1| == |s| || s[|s| - |r1| - 1] in seps)
    requires EndsWith(s, r2) && NoneIn(r2, seps) && (|r2| == |s| || s[|s| - |r2| - 1] in seps)
    ensures r1 == r2
  {
  }

  /**
   * `p.split(/[/\\]/).pop()`: the text after the last `/` or `\` of a path,
   * the one concept behind the editor's file name, the terminal's run label
   * and the explorer's root label.
   */
  function LastPathSegment(p: string): (name: string)
    ensures EndsWith(p, name) && NoneIn(name, PathSeparators)
    ensures |name| == |p| || p[|p| - |name| - 1] in PathSeparators
  {
    LastSegment(p, PathSeparators)
  }

  /** After either separator, the last segment is the final component. */
  lemma LastPathSegmentOfChild(dir: string, sep: char, base: string)
    requires sep in PathSeparators
    requires NoneIn(base, PathSeparators)
    ensures LastPathSegment(dir + [sep] + base) == base
  {
    var p := dir + [sep] + base;
    assert p[|p| - |base|..] == base;
    assert p[|p| - |base| - 1] == sep;
    LastSegmentUnique(p, PathSeparators, LastPathSegment(p), base);
  }

  /** A separator-free suffix that starts the text or follows a separator is the last segment. */
  lemma LastSegmentIs(s: string, seps: set<char>, r: string)
    requires EndsWith(s, r) && NoneIn(r, seps) && (|r| == |s| || s[|s| - |r| - 1] in seps)
    ensures LastSegment(s, seps) == r
  {
    LastSegmentUnique(s, seps, LastSegment(s, seps), r);
  }

  /** Text built from separator-free parts is separator-free. */
  lemma NoneInAppend(a: string, b: string, seps: set<char>)
    requires NoneIn(a, seps) && NoneIn(b, seps)
    ensures NoneIn(a + b, seps)
  {
    forall j | 0 <= j < |a + b| ensures (a + b)[j] !in seps {
      if j < |a| { assert (a + b)[j] == a[j]; } else { assert (a + b)[j] == b[j - |a|]; }
    }
  }

  lemma LastSegmentLower(s: string, seps: set<char>)
    requires NoLetters(seps)
    ensures LastSegment(Lower(s), seps) == Lower(LastSegment(s, seps))
  {
    var r := LastSegment(s, seps);
    var t := Lower(s);
    assert t[|t| - |r|..] == Lower(s[|s| - |r|..]);
    assert NoneIn(Lower(r), seps);
    if |r| < |s| {
      assert t[|t| - |r| - 1] == LowerChar(s[|s| - |r| - 1]);
    }
    LastSegmentUnique(t, seps, LastSegment(t, seps), Lower(r));
  }

  /** The characters `String.prototype.trim` removes (WhiteSpace and LineTerminator). */
  predicate IsJsWhitespace(c: char) {
    || c == '\t' || c == '\n' || c == '\U{000B}' || c == '\U{000C}' || c == '\r'
    || c == ' ' || c == '\U{00A0}' || c == '\U{1680}'
    || ('\U{2000}' <= c <= '\U{200A}')
    || c == '\U{2028}' || c == '\U{2029}' || c == '\U{202F}' || c == '\U{205F}'
    || c == '\U{3000}' || c == '\U{FEFF}'
  }

  predicate IsBlank(s: string) {
    forall i :: 0 <= i < |s| ==> IsJsWhitespace(s[i])
  }

  /** A concatenation is blank exactly when both of its parts are. */
  lemma BlankAppend(a: string, b: string)
    ensures IsBlank(a + b) <==> IsBlank(a) && IsBlank(b)
  {
    if IsBlank(a) && IsBlank(b) {
      forall k | 0 <= k < |a + b|
        ensures IsJsWhitespace((a + b)[k])
      {
        if k < |a| {
          assert (a + b)[k] == a[k];
        } else {
          assert (a + b)[k] == b[k - |a|];
        }
      }
    }
    if IsBlank(a + b) {
      forall i | 0 <= i < |a|
        ensures IsJsWhitespace(a[i])
      {
        assert (a + b)[i] == a[i];
      }
      forall i | 0 <= i < |b|
        ensures IsJsWhitespace(b[i])
      {
        assert (a + b)[|a| + i] == b[i];
      }
    }
  }

  function TrimStart(s: string): (r: string)
    ensures EndsWith(s, r)
    ensures IsBlank(s[..|s| - |r|])
    ensures r == [] || !IsJsWhitespace(r[0])
    decreases |s|
  {
    if |s| > 0 && IsJsWhitespace(s[0]) then
      var r := TrimStart(s[1..]);
      assert s[..|s| - |r|] == [s[0]] + s[1..][..|s| - 1 - |r|];
      BlankAppend([s[0]], s[1..][..|s| - 1 - |r|]);
      assert s[1..][|s| - 1 - |r|..] == s[|s| - |r|..];
      r
    else s
  }

  function TrimEnd(s: string): (r: string)
    ensures StartsWith(s, r)
    ensures IsBlank(s[|r|..])
    ensures r == [] || !IsJsWhitespace(r[|r| - 1])
    decreases |s|
  {
    if |s| > 0 && IsJsWhitespace(s[|s| - 1]) then
      var r := TrimEnd(s[..|s| - 1]);
      assert s[|r|..] == s[..|s| - 1][|r|..] + [s[|s| - 1]];
      BlankAppend(s[..|s| - 1][|r|..], [s[|s| - 1]]);
      assert s[..|s| - 1][..|r|] == s[..|r|];
      r
    else s
  }

  /** `s.trim()`: drop the leading and trailing whitespace. */
  function Trim(s: string): string {
    TrimEnd(TrimStart(s))
  }

  /** `s.trim()` is falsy exactly when `s` holds nothing but whitespace. */
  lemma TrimEmptyIffBlank(s: string)
    ensures Trim(s) == "" <==> IsBlank(s)
  {
    var t := TrimStart(s);
    if !IsBlank(s) {
      var i :| 0 <= i < |s| && !IsJsWhitespace(s[i]);
      var k := i - (|s| - |t|);
      assert 0 <= k < |t| && t[k] == s[i];
    }
  }

  /**
   * `s.replace(pat, rep)` with a string pattern: only the first occurrence is
   * replaced (`ReplaceFirstOccurrence`). The `$` patterns JavaScript expands
   * in `rep` are not modelled; `rep` is inserted literally.
   */
  function ReplaceFirst(s: string, pat: string, rep: string): (r: string)
    requires |pat| > 0
    ensures StartsWith(s, pat) ==> r == rep + s[|pat|..]
    ensures !Contains(s, pat) ==> r == s
    decreases |s|
  {
    if StartsWith(s, pat) then rep + s[|pat|..]
    else if |s| == 0 then s
    else [s[0]] + ReplaceFirst(s[1..], pat, rep)
  }

  /**
   * Wherever the first occurrence sits: for `s = u + pat + v` where `pat`
   * does not start anywhere inside `u` (the text up to the last character
   * of this occurrence holds no earlier one), the result is `u + rep + v`.
   */
  lemma {:induction false} ReplaceFirstOccurrence(u: string, pat: string, v: string, rep: string)
    requires |pat| > 0
    requires !Contains(u + pat[..|pat| - 1], pat)
    ensures ReplaceFirst(u + pat + v, pat, rep) == u + rep + v
    decreases |u|
  {
    var s := u + pat + v;
    if u == [] {
      assert s == pat + v;
      assert s[..|pat|] == pat;
    } else {
      NoEarlierOccurrence(u, pat, v);
      ReplaceFirstStep(s, pat, rep);
      assert s[0] == u[0] && s[1..] == u[1..] + pat + v;
      ReplaceFirstOccurrence(u[1..], pat, v, rep);
      assert u + rep + v == [u[0]] + (u[1..] + rep + v);
    }
  }

  lemma ReplaceFirstStep(s: string, pat: string, rep: string)
    requires |pat| > 0 && |s| > 0 && !StartsWith(s, pat)
    ensures ReplaceFirst(s, pat, rep) == [s[0]] + ReplaceFirst(s[1..], pat, rep)
  {
  }

  /** With no occurrence starting inside a non-empty `u`, none starts at 0 and none inside `u[1..]`. */
  lemma NoEarlierOccurrence(u: string, pat: string, v: string)
    requires |pat| > 0 && |u| > 0
    requires !Contains(u + pat[..|pat| - 1], pat)
    ensures !StartsWith(u + pat + v, pat)
    ensures !Contains(u[1..] + pat[..|pat| - 1], pat)
  {
    var x := u + pat[..|pat| - 1];
    assert (u + pat + v)[..|pat|] == x[..|pat|];
    assert x[1..] == u[1..] + pat[..|pat| - 1];
  }

  // ---------------------------------------------------------------------------
  // Numbers in template literals
  // ---------------------------------------------------------------------------

  predicate IsDigit(c: char) {
    '0' <= c <= '9'
  }

  /** The value of a string of decimal digits. */
  function DigitsValue(s: string): nat
    requires forall i :: 0 <= i < |s| ==> IsDigit(s[i])
    decreases |s|
  {
    if |s| == 0 then 0
    else
      assert IsDigit(s[|s| - 1]);
      10 * DigitsValue(s[..|s| - 1]) + (s[|s| - 1] as int - '0' as int)
  }

  /** `${n}` for a natural number: its decimal digits, without leading zeros. */
  function NatToString(n: nat): (s: string)
    ensures |s| > 0 && (forall i :: 0 <= i < |s| ==> IsDigit(s[i]))
    ensures |s| > 1 ==> s[0] != '0'
    ensures DigitsValue(s) == n
    decreases n
  {
    var last := [('0' as int + n % 10) as char];
    if n < 10 then last
    else
      var s := NatToString(n / 10) + last;
      assert s[..|s| - 1] == NatToString(n / 10);
      s
  }

  /** `${i}` for an integer: a minus sign before the digits of a negative number. */
  function IntToString(i: int): string {
    if i >= 0 then NatToString(i) else "-" + NatToString(-i)
  }

  // ---------------------------------------------------------------------------
  // UTF-16 code units
  // ---------------------------------------------------------------------------

  /** Characters at or above U+10000 take two UTF-16 code units in a JavaScript string. */
  predicate IsAstral(c: char) {
    c as int >= 0x1_0000
  }

  /** The code units JavaScript stores for one character: itself below U+10000, a surrogate pair above. */
  function CharCodeUnits(c: char): (u: seq<int>)
    ensures |u| == (if IsAstral(c) then 2 else 1)
    ensures !IsAstral(c) ==> u[0] == c as int
    ensures IsAstral(c) ==> 0xD800 <= u[0] < 0xDC00 <= u[1] < 0xE000
  {
    if !IsAstral(c) then [c as int]
    else
      var v := c as int - 0x1_0000;
      [0xD800 + v / 0x400, 0xDC00 + v % 0x400]
  }

  /** A surrogate pair decodes back to the character it was made from. */
  lemma SurrogatePairRoundTrip(c: char)
    requires IsAstral(c)
    ensures 0x1_0000 + (CharCodeUnits(c)[0] - 0xD800) * 0x400 + (CharCodeUnits(c)[1] - 0xDC00) == c as int
  {
    var v := c as int - 0x1_0000;
    assert v == (v / 0x400) * 0x400 + v % 0x400;
  }

  /** The UTF-16 code units of a string, as a JavaScript string value holds them. */
  function CodeUnits(s: string): (u: seq<int>)
    ensures |u| >= |s|
    ensures (forall i :: 0 <= i < |s| ==> !IsAstral(s[i])) ==> |u| == |s|
  {
    if s == [] then [] else CharCodeUnits(s[0]) + CodeUnits(s[1..])
  }

  lemma {:induction false} CodeUnitsAppend(a: string, b: string)
    ensures CodeUnits(a + b) == CodeUnits(a) + CodeUnits(b)
  {
    if a != [] {
      assert (a + b)[1..] == a[1..] + b;
      CodeUnitsAppend(a[1..], b);
    } else {
      assert a + b == b;
    }
  }
}
