/** The Python string operations the core relies on: `str.strip()` (with and
    without an argument), `str.lower()`, `str.startswith`, the `in` substring
    test, `str.split(sep)` and `str.split("=", 1)[1]`. */
module Text {

  /** The characters Python's `str.isspace()` accepts: what `str.strip()`
      removes when called without an argument. */
  const Whitespace: set<char> := {
    ' ', '\t', '\n', '\U{0B}', '\U{0C}', '\r', '\U{1C}', '\U{1D}', '\U{1E}', '\U{1F}',
    '\U{85}', '\U{A0}', '\U{1680}',
    '\U{2000}', '\U{2001}', '\U{2002}', '\U{2003}', '\U{2004}', '\U{2005}',
    '\U{2006}', '\U{2007}', '\U{2008}', '\U{2009}', '\U{200A}',
    '\U{2028}', '\U{2029}', '\U{202F}', '\U{205F}', '\U{3000}'
  }

  /** Removes the leading characters that are in `cs`. */
  function DropLeading(s: string, cs: set<char>): (r: string)
    ensures |r| <= |s|
  {
    if s != [] && s[0] in cs then DropLeading(s[1..], cs) else s
  }

  lemma {:induction false} DropLeadingSpec(s: string, cs: set<char>)
    ensures var r := DropLeading(s, cs);
      && |r| <= |s| && r == s[|s| - |r|..]
      && (r == [] || r[0] !in cs)
      && forall k :: 0 <= k < |s| - |r| ==> s[k] in cs
    decreases |s|
  {
    if s != [] && s[0] in cs {
      DropLeadingSpec(s[1..], cs);
    }
  }

  /** Removes the trailing characters that are in `cs`. */
  function DropTrailing(s: string, cs: set<char>): (r: string)
    ensures |r| <= |s|
  {
    if s != [] && s[|s| - 1] in cs then DropTrailing(s[..|s| - 1], cs) else s
  }

  lemma {:induction false} DropTrailingSpec(s: string, cs: set<char>)
    ensures var r := DropTrailing(s, cs);
      && |r| <= |s| && r == s[..|r|]
      && (r == [] || r[|r| - 1] !in cs)
      && forall k :: |r| <= k < |s| ==> s[k] in cs
    decreases |s|
  {
    if s != [] && s[|s| - 1] in cs {
      DropTrailingSpec(s[..|s| - 1], cs);
    }
  }

  /** `s.strip(chars)`: drops the characters in `cs` from both ends. */
  function StripChars(s: string, cs: set<char>): string {
    DropTrailing(DropLeading(s, cs), cs)
  }

  /** `s.strip()` */
  function Strip(s: string): string { StripChars(s, Whitespace) }

  /** `s.strip('"')` */
  function StripQuotes(s: string): string { StripChars(s, {'"'}) }

  /** What `StripChars` keeps: a slice of the input with no character of `cs` at
      either end, everything cut away on either side in `cs`. */
  lemma StripCharsSlice(s: string, cs: set<char>)
    ensures var r := StripChars(s, cs);
      && (r == [] || (r[0] !in cs && r[|r| - 1] !in cs))
      && var i := |s| - |DropLeading(s, cs)|;
         && i + |r| <= |s|
         && r == s[i..i + |r|]
         && (forall k :: 0 <= k < i ==> s[k] in cs)
         && (forall k :: i + |r| <= k < |s| ==> s[k] in cs)
  {
    var d := DropLeading(s, cs);
    var r := DropTrailing(d, cs);
    DropLeadingSpec(s, cs);
    DropTrailingSpec(d, cs);
    PrefixOfSuffix(s, d, r, |s| - |d|, cs);
  }

  /** A prefix `r` of the suffix `d` of `s` starting at `i` is the slice of `s`
      from `i`; what `d` has after `r` is what `s` has after it. */
  lemma PrefixOfSuffix(s: string, d: string, r: string, i: int, cs: set<char>)
    requires 0 <= i <= |s| && d == s[i..]
    requires |r| <= |d| && r == d[..|r|]
    requires r == [] || r[0] !in cs
    requires forall k :: |r| <= k < |d| ==> d[k] in cs
    ensures i + |r| <= |s| && r == s[i..i + |r|]
    ensures r == [] || s[i] !in cs
    ensures forall k :: i + |r| <= k < |s| ==> s[k] in cs
  {
    forall k | i + |r| <= k < |s|
      ensures s[k] in cs
    {
      assert s[k] == d[k - i];
    }
  }

  /** Stripping twice strips nothing more. */
  lemma StripCharsIdempotent(s: string, cs: set<char>)
    ensures StripChars(StripChars(s, cs), cs) == StripChars(s, cs)
  {
    var r := StripChars(s, cs);
    StripCharsSlice(s, cs);
    if r != [] {
      assert r[0] !in cs && r[|r| - 1] !in cs;
      assert DropLeading(r, cs) == r;
      assert DropTrailing(r, cs) == r;
    }
  }

  /** A trimmed string has no whitespace at either end and is left alone by a
      second `strip()`. */
  lemma StripTrimmed(s: string)
    ensures var r := Strip(s);
      && (r == [] || (r[0] !in Whitespace && r[|r| - 1] !in Whitespace))
      && Strip(r) == r
  {
    StripCharsSlice(s, Whitespace);
    StripCharsIdempotent(s, Whitespace);
  }

  /** A value passed through `strip('"')` neither starts nor ends with a quote. */
  lemma StripQuotesUnquoted(s: string)
    ensures var r := StripQuotes(s);
      r == [] || (r[0] != '"' && r[|r| - 1] != '"')
  {
    StripCharsSlice(s, {'"'});
  }

  /** `c.lower()` for the letters A to Z. */
  function LowerChar(c: char): char {
    if 'A' <= c <= 'Z' then (c as int + 32) as char else c
  }

  /** `s.lower()`, character by character. */
  function Lower(s: string): (r: string)
    ensures |r| == |s|
  {
    seq(|s|, i requires 0 <= i < |s| => LowerChar(s[i]))
  }

  /** `s.startswith(prefix)` */
  predicate StartsWith(s: string, prefix: string) {
    |prefix| <= |s| && s[..|prefix|] == prefix
  }

  /** `sub in s`: a case-sensitive substring test, scanning left to right. */
  predicate Contains(s: string, sub: string)
    decreases |s|
  {
    StartsWith(s, sub) || (s != [] && Contains(s[1..], sub))
  }

  predicate OccursAt(s: string, sub: string, i: int) {
    0 <= i && i + |sub| <= |s| && s[i..i + |sub|] == sub
  }

  /** The scan finds `sub` exactly when it occurs at some position. */
  lemma ContainsIff(s: string, sub: string)
    ensures Contains(s, sub) <==> exists i :: OccursAt(s, sub, i)
  {
    if Contains(s, sub) {
      var i := ContainsWitness(s, sub);
    }
    forall i | OccursAt(s, sub, i) ensures Contains(s, sub) {
      OccursContains(s, sub, i);
    }
  }

  lemma {:induction false} ContainsWitness(s: string, sub: string) returns (i: int)
    requires Contains(s, sub)
    ensures OccursAt(s, sub, i)
    decreases |s|
  {
    if StartsWith(s, sub) {
      i := 0;
    } else {
      var j := ContainsWitness(s[1..], sub);
      assert s[j + 1..j + 1 + |sub|] == s[1..][j..j + |sub|];
      i := j + 1;
    }
  }

  lemma {:induction false} OccursContains(s: string, sub: string, i: int)
    requires OccursAt(s, sub, i)
    ensures Contains(s, sub)
    decreases i
  {
    if i == 0 {
      assert s[..|sub|] == s[0..|sub|];
    } else {
      assert s[1..][i - 1..i - 1 + |sub|] == s[i..i + |sub|];
      OccursContains(s[1..], sub, i - 1);
    }
  }

  /** A string shorter than `sub` cannot contain it. */
  lemma {:induction false} ContainsTooShort(s: string, sub: string)
    requires |s| < |sub|
    ensures !Contains(s, sub)
    decreases |s|
  {
    if s != [] {
      ContainsTooShort(s[1..], sub);
    }
  }

  /** `s.split(sep)`: the pieces between the separators, at least one. */
  function Split(s: string, sep: char): (r: seq<string>)
    ensures |r| >= 1
    ensures forall i :: 0 <= i < |r| ==> sep !in r[i]
    decreases |s|
  {
    if s == [] then [[]]
    else
      var rest := Split(s[1..], sep);
      if s[0] == sep then [[]] + rest else [[s[0]] + rest[0]] + rest[1..]
  }

  /** `sep.join(pieces)` */
  function Join(pieces: seq<string>, sep: char): string
    decreases |pieces|
  {
    if pieces == [] then []
    else if |pieces| == 1 then pieces[0]
    else pieces[0] + [sep] + Join(pieces[1..], sep)
  }

  /** Joining the pieces back gives the string that was split. */
  lemma {:induction false} JoinSplit(s: string, sep: char)
    ensures Join(Split(s, sep), sep) == s
    decreases |s|
  {
    if s != [] {
      var rest := Split(s[1..], sep);
      JoinSplit(s[1..], sep);
      if s[0] == sep {
        assert Split(s, sep) == [[]] + rest;
        assert Join([[]] + rest, sep) == [] + [sep] + Join(rest, sep);
        assert s == [sep] + s[1..];
      } else {
        var first := [s[0]] + rest[0];
        assert Split(s, sep) == [first] + rest[1..];
        if |rest| == 1 {
          assert Join([first] + rest[1..], sep) == first;
          assert s == [s[0]] + s[1..];
        } else {
          assert ([first] + rest[1..])[1..] == rest[1..];
          assert Join([first] + rest[1..], sep) == first + [sep] + Join(rest[1..], sep);
          assert Join(rest, sep) == rest[0] + [sep] + Join(rest[1..], sep);
          assert s == [s[0]] + s[1..];
        }
      }
    }
  }

  /** Splitting a piece free of separators, followed by a separator, peels it off. */
  lemma {:induction false} SplitAfterPiece(p: string, sep: char, t: string)
    requires sep !in p
    ensures Split(p + [sep] + t, sep) == [p] + Split(t, sep)
    decreases |p|
  {
    if p == [] {
      assert [] + [sep] + t == [sep] + t;
      assert ([sep] + t)[1..] == t;
    } else {
      var s := p + [sep] + t;
      assert s[1..] == p[1..] + [sep] + t;
      SplitAfterPiece(p[1..], sep, t);
      assert [p[0]] + p[1..] == p;
    }
  }

  /** A piece free of separators splits into itself. */
  lemma {:induction false} SplitPiece(p: string, sep: char)
    requires sep !in p
    ensures Split(p, sep) == [p]
    decreases |p|
  {
    if p != [] {
      SplitPiece(p[1..], sep);
      assert [p[0]] + p[1..] == p;
    }
  }

  /** Splitting a join gives the pieces back (the other half of the round trip). */
  lemma {:induction false} SplitJoin(pieces: seq<string>, sep: char)
    requires |pieces| >= 1
    requires forall i :: 0 <= i < |pieces| ==> sep !in pieces[i]
    ensures Split(Join(pieces, sep), sep) == pieces
    decreases |pieces|
  {
    if |pieces| == 1 {
      SplitPiece(pieces[0], sep);
    } else {
      SplitJoin(pieces[1..], sep);
      SplitAfterPiece(pieces[0], sep, Join(pieces[1..], sep));
      assert [pieces[0]] + pieces[1..] == pieces;
    }
  }

  /** The index of the first `c` in `s`. */
  function FirstIndex(s: string, c: char): (i: nat)
    requires c in s
    ensures i < |s| && s[i] == c && c !in s[..i]
  {
    if s[0] == c then 0
    else
      var j := FirstIndex(s[1..], c);
      assert s[..j + 1] == [s[0]] + s[1..][..j];
      j + 1
  }

  /** `s.split(c, 1)[1]`: what follows the first `c`. */
  function AfterFirst(s: string, c: char): string
    requires c in s
  {
    s[FirstIndex(s, c) + 1..]
  }

  /** When `s` starts with a prefix whose only `c` is its last character,
      what follows the first `c` is what follows the prefix. */
  lemma AfterFirstPrefix(s: string, prefix: string, c: char)
    requires StartsWith(s, prefix) && |prefix| > 0 && prefix[|prefix| - 1] == c
    requires c !in prefix[..|prefix| - 1]
    ensures c in s && AfterFirst(s, c) == s[|prefix|..]
  {
    assert s[|prefix| - 1] == prefix[|prefix| - 1];
    var i := FirstIndex(s, c);
    assert forall j :: 0 <= j < |prefix| - 1 ==> s[j] == prefix[..|prefix| - 1][j];
    assert forall j :: 0 <= j < i ==> s[..i][j] == s[j];
  }
}
