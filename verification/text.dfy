/**
  The string primitives of the .NET base library that the product model uses:
  `char.IsWhiteSpace`, `string.IsNullOrWhiteSpace`, `string.Trim`,
  `string.Split(char)` and `string.Join(char, ...)`, over strings as `seq<char>`.
 */
module Text {
  import opened Wrappers

  /**
    `char.IsWhiteSpace`: the Unicode space, line and paragraph separators
    together with the control characters U+0009..U+000D and U+0085.
   */
  predicate IsWhiteSpace(c: char) {
    || ('\U{0009}' <= c <= '\U{000D}')
    || c == ' '
    || c == '\U{0085}'
    || c == '\U{00A0}'
    || c == '\U{1680}'
    || ('\U{2000}' <= c <= '\U{200A}')
    || c == '\U{2028}'
    || c == '\U{2029}'
    || c == '\U{202F}'
    || c == '\U{205F}'
    || c == '\U{3000}'
  }

  /** Every character is white space (the empty string included). */
  predicate IsBlank(s: string) {
    forall i :: 0 <= i < |s| ==> IsWhiteSpace(s[i])
  }

  /** `string.IsNullOrWhiteSpace`. */
  predicate IsNullOrWhiteSpace(s: Option<string>) {
    s.None? || IsBlank(s.value)
  }

  /** Neither the first nor the last character is white space. */
  predicate IsTrimmed(s: string) {
    s == [] || (!IsWhiteSpace(s[0]) && !IsWhiteSpace(s[|s| - 1]))
  }

  /** `string.TrimStart()`: drops the longest all-white-space prefix. */
  function TrimStart(s: string): (r: string)
    ensures |r| <= |s| && r == s[|s| - |r|..]
    ensures IsBlank(s[..|s| - |r|])
    ensures r == [] || !IsWhiteSpace(r[0])
    ensures r == [] <==> IsBlank(s)
  {
    if |s| > 0 && IsWhiteSpace(s[0]) then
      var r := TrimStart(s[1..]);
      BlankFront(s, |s| - 1 - |r|);
      r
    else
      s
  }

  /** A white-space head joins a blank prefix of the tail, and blankness of the whole follows the tail. */
  lemma BlankFront(s: string, k: nat)
    requires |s| > 0 && IsWhiteSpace(s[0]) && k <= |s| - 1
    ensures IsBlank(s[1..][..k]) ==> IsBlank(s[..k + 1])
    ensures IsBlank(s[1..]) ==> IsBlank(s)
  {
    var front, rest := s[..k + 1], s[1..][..k];
    if IsBlank(rest) {
      forall i | 1 <= i < |front| ensures IsWhiteSpace(front[i]) {
        assert front[i] == rest[i - 1];
      }
    }
    if IsBlank(s[1..]) {
      forall i | 1 <= i < |s| ensures IsWhiteSpace(s[i]) {
        assert s[i] == s[1..][i - 1];
      }
    }
  }

  /** `string.TrimEnd()`: drops the longest all-white-space suffix. */
  function TrimEnd(s: string): (r: string)
    ensures |r| <= |s| && r == s[..|r|]
    ensures IsBlank(s[|r|..])
    ensures r == [] || !IsWhiteSpace(r[|r| - 1])
    ensures r == [] <==> IsBlank(s)
  {
    if |s| > 0 && IsWhiteSpace(s[|s| - 1]) then
      var r := TrimEnd(s[..|s| - 1]);
      BlankBack(s, |r|);
      r
    else
      s
  }

  /** A white-space last character joins a blank suffix of the rest, and blankness of the whole follows the rest. */
  lemma BlankBack(s: string, k: nat)
    requires |s| > 0 && IsWhiteSpace(s[|s| - 1]) && k <= |s| - 1
    ensures IsBlank(s[..|s| - 1][k..]) ==> IsBlank(s[k..])
    ensures IsBlank(s[..|s| - 1]) ==> IsBlank(s)
  {
    var back, rest := s[k..], s[..|s| - 1][k..];
    if IsBlank(rest) {
      forall i | 0 <= i < |rest| ensures IsWhiteSpace(back[i]) {
        assert back[i] == rest[i];
      }
    }
    if IsBlank(s[..|s| - 1]) {
      forall i | 0 <= i < |s| - 1 ensures IsWhiteSpace(s[i]) {
        assert s[i] == s[..|s| - 1][i];
      }
    }
  }

  /** `string.Trim()`: drops white space at both ends. */
  function Trim(s: string): (r: string)
    ensures IsTrimmed(r)
    ensures r == [] <==> IsBlank(s)
    ensures forall c :: c in r ==> c in s
    ensures IsTrimmed(s) ==> r == s
  {
    var t := TrimStart(s);
    var r := TrimEnd(t);
    TrimKeepsCharacters(s, t, r);
    TrimmedPrefix(t, r);
    r
  }

  /** A prefix of a string with a non-white head, itself ending in a non-white character, is trimmed. */
  lemma TrimmedPrefix(t: string, r: string)
    requires t == [] || !IsWhiteSpace(t[0])
    requires |r| <= |t| && r == t[..|r|]
    requires r == [] || !IsWhiteSpace(r[|r| - 1])
    ensures IsTrimmed(r)
  {
    if r != [] {
      assert r[0] == t[0];
    }
  }

  /** A blank-ended prefix cut of a blank-started suffix cut is an infix between blank ends. */
  lemma TrimInfix(s: string, t: string, r: string)
    requires |t| <= |s| && t == s[|s| - |t|..] && IsBlank(s[..|s| - |t|])
    requires |r| <= |t| && r == t[..|r|] && IsBlank(t[|r|..])
    ensures exists i, j :: 0 <= i <= j <= |s| && r == s[i..j] && IsBlank(s[..i]) && IsBlank(s[j..])
  {
    var i := |s| - |t|;
    var j := i + |r|;
    assert s[j..] == t[|r|..];
    assert r == s[i..j];
  }

  /** `Trim` removes only a blank prefix and a blank suffix: what is left is an infix of the input. */
  lemma TrimIsInfix(s: string)
    ensures exists i, j :: 0 <= i <= j <= |s| && Trim(s) == s[i..j] && IsBlank(s[..i]) && IsBlank(s[j..])
  {
    var t := TrimStart(s);
    TrimInfix(s, t, TrimEnd(t));
  }

  /**
    `Trim` is the only trimmed infix between blank ends: wherever a string is
    cut into a blank prefix, a trimmed middle and a blank suffix, the middle
    is what `Trim` returns.
   */
  lemma TrimIsTheTrimmedInfix(s: string, i: nat, j: nat)
    requires i <= j <= |s| && IsBlank(s[..i]) && IsBlank(s[j..]) && IsTrimmed(s[i..j])
    ensures Trim(s) == s[i..j]
  {
    TrimIsInfix(s);
    var i0, j0 :| 0 <= i0 <= j0 <= |s| && Trim(s) == s[i0..j0] && IsBlank(s[..i0]) && IsBlank(s[j0..]);
    TrimmedInfixUnique(s, i, j, i0, j0);
  }

  /** Two cuts of a string into a blank prefix, a trimmed middle and a blank suffix have the same middle. */
  lemma TrimmedInfixUnique(s: string, i: nat, j: nat, i0: nat, j0: nat)
    requires i <= j <= |s| && IsBlank(s[..i]) && IsBlank(s[j..]) && IsTrimmed(s[i..j])
    requires i0 <= j0 <= |s| && IsBlank(s[..i0]) && IsBlank(s[j0..]) && IsTrimmed(s[i0..j0])
    ensures s[i..j] == s[i0..j0]
  {
    if i == j || i0 == j0 {
      var e := if i == j then i else i0;
      BlankEnds(s, e);
      BlankMiddle(s, i, j);
      BlankMiddle(s, i0, j0);
    } else {
      assert !IsWhiteSpace(s[i]) && !IsWhiteSpace(s[j - 1]) by {
        assert s[i] == s[i..j][0] && s[j - 1] == s[i..j][j - i - 1];
      }
      assert !IsWhiteSpace(s[i0]) && !IsWhiteSpace(s[j0 - 1]) by {
        assert s[i0] == s[i0..j0][0] && s[j0 - 1] == s[i0..j0][j0 - i0 - 1];
      }
      BlankBefore(s, i0, i);
      BlankBefore(s, i, i0);
      BlankAfter(s, j0, j - 1);
      BlankAfter(s, j, j0 - 1);
    }
  }

  /** In a blank string, a trimmed infix is empty. */
  lemma BlankMiddle(s: string, i: nat, j: nat)
    requires i <= j <= |s| && IsBlank(s) && IsTrimmed(s[i..j])
    ensures i == j
  {
  }

  /** A character before the end of a blank prefix is white space. */
  lemma BlankBefore(s: string, i: nat, k: nat)
    requires i <= |s| && IsBlank(s[..i])
    ensures k < i ==> IsWhiteSpace(s[k])
  {
    if k < i {
      assert s[k] == s[..i][k];
    }
  }

  /** A character inside a blank suffix is white space. */
  lemma BlankAfter(s: string, j: nat, k: nat)
    requires j <= |s| && IsBlank(s[j..])
    ensures j <= k < |s| ==> IsWhiteSpace(s[k])
  {
    if j <= k < |s| {
      assert s[k] == s[j..][k - j];
    }
  }

  /** A blank prefix and a blank suffix that meet make a blank string. */
  lemma BlankEnds(s: string, i: nat)
    requires i <= |s| && IsBlank(s[..i]) && IsBlank(s[i..])
    ensures IsBlank(s)
  {
    forall k | 0 <= k < |s| ensures IsWhiteSpace(s[k]) {
      BlankBefore(s, i, k);
      BlankAfter(s, i, k);
    }
  }

  /** Characters of an infix `s[|s| - |t|..][..|r|]` come from `s`. */
  lemma TrimKeepsCharacters(s: string, t: string, r: string)
    requires |t| <= |s| && t == s[|s| - |t|..]
    requires |r| <= |t| && r == t[..|r|]
    ensures forall c :: c in r ==> c in s
  {
    forall c | c in r ensures c in s {
      var i :| 0 <= i < |r| && r[i] == c;
      assert s[i + (|s| - |t|)] == c;
    }
  }

  /** Number of occurrences of `c` in `s`. */
  function Count(s: string, c: char): nat {
    if s == [] then 0 else (if s[0] == c then 1 else 0) + Count(s[1..], c)
  }

  /**
    `s.Split(sep)` with no options: the maximal `sep`-free pieces between
    separators, in order, empty pieces included.
   */
  function Split(s: string, sep: char): (parts: seq<string>)
    ensures |parts| == Count(s, sep) + 1
    ensures forall i :: 0 <= i < |parts| ==> sep !in parts[i]
  {
    if s == [] then [[]]
    else
      var rest := Split(s[1..], sep);
      if s[0] == sep then [[]] + rest
      else [[s[0]] + rest[0]] + rest[1..]
  }

  /** `string.Join(sep, parts)`. */
  function Join(parts: seq<string>, sep: char): string {
    if |parts| == 0 then []
    else if |parts| == 1 then parts[0]
    else parts[0] + [sep] + Join(parts[1..], sep)
  }

  /** Every character of every piece of a split comes from the input. */
  lemma {:induction false} SplitCharsFromInput(s: string, sep: char)
    ensures forall i, c :: 0 <= i < |Split(s, sep)| && c in Split(s, sep)[i] ==> c in s
  {
    if s != [] {
      var rest := Split(s[1..], sep);
      var parts := Split(s, sep);
      SplitCharsFromInput(s[1..], sep);
      forall i, c | 0 <= i < |parts| && c in parts[i] ensures c in s {
        var j := if s[0] == sep then i - 1 else i;
        if s[0] != sep && i == 0 {
          assert parts[0] == [s[0]] + rest[0];
          if c != s[0] {
            assert c in rest[0];
            assert c in s[1..];
          }
        } else {
          assert parts[i] == rest[j];
          assert c in s[1..];
        }
      }
    }
  }

  /** Joining the pieces of a split gives back the input. */
  lemma {:induction false} JoinSplit(s: string, sep: char)
    ensures Join(Split(s, sep), sep) == s
  {
    if s != [] {
      var rest := Split(s[1..], sep);
      JoinSplit(s[1..], sep);
      if s[0] != sep {
        var parts := [[s[0]] + rest[0]] + rest[1..];
        assert parts[1..] == rest[1..];
        if |rest| == 1 {
          assert Join(parts, sep) == [s[0]] + rest[0];
        } else {
          assert Join(rest, sep) == rest[0] + [sep] + Join(rest[1..], sep);
        }
      } else {
        assert ([[]] + rest)[1..] == rest;
      }
    }
  }

  /** A separator-free string splits into itself alone. */
  lemma {:induction false} SplitWithoutSeparator(a: string, sep: char)
    requires sep !in a
    ensures Split(a, sep) == [a]
  {
    if a != [] {
      SplitWithoutSeparator(a[1..], sep);
      assert [a[0]] + a[1..] == a;
    }
  }

  /** A separator after a separator-free head starts a new piece. */
  lemma {:induction false} SplitAtSeparator(a: string, sep: char, b: string)
    requires sep !in a
    ensures Split(a + [sep] + b, sep) == [a] + Split(b, sep)
  {
    if a == [] {
      assert a + [sep] + b == [sep] + b;
      assert ([sep] + b)[1..] == b;
    } else {
      var s := a + [sep] + b;
      assert s[0] == a[0] && s[1..] == a[1..] + [sep] + b;
      SplitAtSeparator(a[1..], sep, b);
      assert [a[0]] + a[1..] == a;
    }
  }

  /** Splitting a join of separator-free pieces gives back the pieces. */
  lemma {:induction false} SplitJoin(parts: seq<string>, sep: char)
    requires |parts| > 0
    requires forall i :: 0 <= i < |parts| ==> sep !in parts[i]
    ensures Split(Join(parts, sep), sep) == parts
  {
    if |parts| == 1 {
      SplitWithoutSeparator(parts[0], sep);
    } else {
      SplitJoin(parts[1..], sep);
      SplitAtSeparator(parts[0], sep, Join(parts[1..], sep));
      assert [parts[0]] + parts[1..] == parts;
    }
  }

  /** Joining pieces none of which holds `c` gives a string without `c`. */
  lemma {:induction false} JoinAvoids(parts: seq<string>, sep: char, c: char)
    requires c != sep
    requires forall i :: 0 <= i < |parts| ==> c !in parts[i]
    ensures c !in Join(parts, sep)
  {
    if |parts| > 1 {
      JoinAvoids(parts[1..], sep, c);
    }
  }
}
