/**
 * The JavaScript string built-ins the client relies on, on `seq<char>`:
 * `split` and `join` with a one-character separator, `replace` with a
 * one-character string pattern (first occurrence only) and ASCII
 * `toUpperCase`.
 */
module Text {

  /** Index of the first occurrence of `c` in `s`. */
  function FirstIndex(s: string, c: char): (i: nat)
    requires c in s
    ensures i < |s| && s[i] == c
    ensures c !in s[..i]
  {
    if s[0] == c then 0
    else
      var j := FirstIndex(s[1..], c);
      assert s[..j + 1] == [s[0]] + s[1..][..j];
      j + 1
  }

  /** Number of occurrences of `c` in `s`. */
  function Count(s: string, c: char): (n: nat)
    ensures n <= |s|
    ensures n == 0 <==> c !in s
  {
    if s == [] then 0
    else (if s[0] == c then 1 else 0) + Count(s[1..], c)
  }

  lemma {:induction false} CountAppend(a: string, b: string, c: char)
    ensures Count(a + b, c) == Count(a, c) + Count(b, c)
  {
    if a == [] {
      assert a + b == b;
    } else {
      assert (a + b)[1..] == a[1..] + b;
      CountAppend(a[1..], b, c);
    }
  }

  /** `s.split(sep)`: the pieces between occurrences of `sep`; never empty. */
  function Split(s: string, sep: char): (parts: seq<string>)
    ensures |parts| >= 1
    decreases |s|
  {
    if sep !in s then [s]
    else
      var i := FirstIndex(s, sep);
      [s[..i]] + Split(s[i + 1..], sep)
  }

  /** `parts.join(sep)`; the join of an empty array is the empty string. */
  function Join(parts: seq<string>, sep: char): string
  {
    if |parts| == 0 then ""
    else if |parts| == 1 then parts[0]
    else parts[0] + [sep] + Join(parts[1..], sep)
  }

  /** No piece contains the separator. */
  predicate SeparatorFree(parts: seq<string>, sep: char)
  {
    forall k :: 0 <= k < |parts| ==> sep !in parts[k]
  }

  /** Joining a piece in front of a non-empty list of pieces puts one separator between them. */
  lemma JoinCons(piece: string, rest: seq<string>, sep: char)
    requires |rest| >= 1
    ensures Join([piece] + rest, sep) == piece + [sep] + Join(rest, sep)
  {
    assert ([piece] + rest)[1..] == rest;
  }

  /** A string is what comes before index `i`, the character there, and what follows. */
  lemma AroundIndex(s: string, i: nat)
    requires i < |s|
    ensures s == s[..i] + [s[i]] + s[i + 1..]
  {
  }

  /** Joining the pieces of a split gives back the original string. */
  lemma {:induction false} JoinSplit(s: string, sep: char)
    ensures Join(Split(s, sep), sep) == s
    decreases |s|
  {
    if sep in s {
      var i := FirstIndex(s, sep);
      var rest := Split(s[i + 1..], sep);
      JoinSplit(s[i + 1..], sep);
      assert Split(s, sep) == [s[..i]] + rest;
      JoinCons(s[..i], rest, sep);
      AroundIndex(s, i);
    }
  }

  /** The pieces of a split never contain the separator. */
  lemma {:induction false} SplitSeparatorFree(s: string, sep: char)
    ensures SeparatorFree(Split(s, sep), sep)
    decreases |s|
  {
    if sep in s {
      var i := FirstIndex(s, sep);
      SplitSeparatorFree(s[i + 1..], sep);
    }
  }

  /** Counting across the first occurrence of `c`, at index `i`. */
  lemma CountAtFirst(s: string, c: char, i: nat)
    requires i < |s| && s[i] == c && c !in s[..i]
    ensures Count(s, c) == 1 + Count(s[i + 1..], c)
  {
    var head, tail := s[..i], s[i + 1..];
    AroundIndex(s, i);
    assert s == head + ([c] + tail);
    CountAppend(head, [c] + tail, c);
    CountAppend([c], tail, c);
    assert Count([c], c) == 1;
  }

  /** There is one more piece than there are separators. */
  lemma {:induction false} SplitLength(s: string, sep: char)
    ensures |Split(s, sep)| == Count(s, sep) + 1
    decreases |s|
  {
    if sep in s {
      var i := FirstIndex(s, sep);
      SplitLength(s[i + 1..], sep);
      assert |Split(s, sep)| == 1 + |Split(s[i + 1..], sep)|;
      CountAtFirst(s, sep, i);
    }
  }

  /** A join of separator-free pieces has one separator fewer than pieces. */
  lemma {:induction false} JoinCount(parts: seq<string>, sep: char)
    requires |parts| >= 1
    requires SeparatorFree(parts, sep)
    ensures Count(Join(parts, sep), sep) == |parts| - 1
  {
    if |parts| > 1 {
      JoinCount(parts[1..], sep);
      CountAppend(parts[0] + [sep], Join(parts[1..], sep), sep);
      CountAppend(parts[0], [sep], sep);
    }
  }

  /** Splitting a join of separator-free pieces gives back the pieces. */
  lemma {:induction false} SplitJoin(parts: seq<string>, sep: char)
    requires |parts| >= 1
    requires SeparatorFree(parts, sep)
    ensures Split(Join(parts, sep), sep) == parts
  {
    if |parts| == 1 {
      assert Join(parts, sep) == parts[0];
    } else {
      var s := Join(parts, sep);
      assert [parts[0]] + parts[1..] == parts;
      JoinCons(parts[0], parts[1..], sep);
      assert s == parts[0] + [sep] + Join(parts[1..], sep);
      assert s[|parts[0]|] == sep;
      assert s[..|parts[0]|] == parts[0];
      var i := FirstIndex(s, sep);
      assert i == |parts[0]|;
      assert s[i + 1..] == Join(parts[1..], sep);
      SplitJoin(parts[1..], sep);
    }
  }

  /** `s.replace(pattern, replacement)` for one-character strings: only the first occurrence is replaced. */
  function ReplaceFirst(s: string, pattern: char, replacement: char): string
  {
    if pattern !in s then s
    else
      var i := FirstIndex(s, pattern);
      s[..i] + [replacement] + s[i + 1..]
  }

  /** ReplaceFirst changes exactly the first occurrence of the pattern, and nothing when there is none. */
  lemma ReplaceFirstSpec(s: string, pattern: char, replacement: char)
    ensures |ReplaceFirst(s, pattern, replacement)| == |s|
    ensures pattern !in s ==> ReplaceFirst(s, pattern, replacement) == s
    ensures pattern in s ==>
      var i := FirstIndex(s, pattern);
      && ReplaceFirst(s, pattern, replacement)[i] == replacement
      && (forall k :: 0 <= k < |s| && k != i ==> ReplaceFirst(s, pattern, replacement)[k] == s[k])
      && (forall k :: 0 <= k < i ==> s[k] != pattern)
  {
    if pattern in s {
      var i := FirstIndex(s, pattern);
      forall k | 0 <= k < i
        ensures s[k] != pattern
      {
        assert s[..i][k] == s[k];
      }
    }
  }

  /** The first occurrence of `c` in `before + [c] + after` sits right after `before` when `before` has none. */
  lemma {:induction false} FirstIndexAt(before: string, after: string, c: char)
    requires c !in before
    ensures FirstIndex(before + [c] + after, c) == |before|
  {
    var s := before + [c] + after;
    if before != [] {
      assert s[0] == before[0];
      assert before[0] in before;
      assert s[1..] == before[1..] + [c] + after;
      assert forall x :: x in before[1..] ==> x in before;
      FirstIndexAt(before[1..], after, c);
    }
  }

  /** The replaced occurrence is the first one; what follows it is left alone. */
  lemma ReplaceFirstAt(before: string, after: string, pattern: char, replacement: char)
    requires pattern !in before
    ensures ReplaceFirst(before + [pattern] + after, pattern, replacement) == before + [replacement] + after
  {
    var s := before + [pattern] + after;
    assert s[|before|] == pattern;
    FirstIndexAt(before, after, pattern);
    assert s[..|before|] == before;
    assert s[|before| + 1..] == after;
  }

  /** ASCII `toUpperCase` of one character. */
  function UpperChar(c: char): (u: char)
    ensures 'a' <= c <= 'z' ==> 'A' <= u <= 'Z' && u as int == c as int - 32
    ensures !('a' <= c <= 'z') ==> u == c
    ensures !('a' <= u <= 'z')
    ensures u == c <==> !('a' <= c <= 'z')
  {
    if 'a' <= c <= 'z' then (c as int - 32) as char else c
  }

  const LowerAlphabet: string := "abcdefghijklmnopqrstuvwxyz"
  const UpperAlphabet: string := "ABCDEFGHIJKLMNOPQRSTUVWXYZ"

  lemma AlphabetCodes(i: nat)
    requires i < 26
    ensures LowerAlphabet[i] as int == 'a' as int + i && UpperAlphabet[i] as int == 'A' as int + i
  {
  }

  /** Upper-casing is the lookup of a letter of `a`–`z` in `A`–`Z`; any other character is kept. */
  lemma UpperCharTable(c: char)
    ensures forall i :: 0 <= i < |LowerAlphabet| && LowerAlphabet[i] == c ==> UpperChar(c) == UpperAlphabet[i]
    ensures c !in LowerAlphabet ==> UpperChar(c) == c
  {
    forall i | 0 <= i < |LowerAlphabet| && LowerAlphabet[i] == c
      ensures UpperChar(c) == UpperAlphabet[i]
    {
      AlphabetCodes(i);
    }
    if 'a' <= c <= 'z' {
      AlphabetCodes(c as int - 'a' as int);
    }
  }

  lemma UpperCharIdempotent(c: char)
    ensures UpperChar(UpperChar(c)) == UpperChar(c)
  {
  }

  /** ASCII `toUpperCase` of a string. */
  function ToUpper(s: string): (u: string)
    ensures |u| == |s|
    ensures forall k :: 0 <= k < |s| ==> u[k] == UpperChar(s[k])
    ensures forall k :: 0 <= k < |u| ==> !('a' <= u[k] <= 'z')
  {
    seq(|s|, k requires 0 <= k < |s| => UpperChar(s[k]))
  }

  lemma ToUpperIdempotent(s: string)
    ensures ToUpper(ToUpper(s)) == ToUpper(s)
  {
  }

  /** Upper-casing works character by character, so it distributes over concatenation. */
  lemma ToUpperAppend(a: string, b: string)
    ensures ToUpper(a + b) == ToUpper(a) + ToUpper(b)
  {
  }

  /** A string is its own upper-case form exactly when it holds no ASCII lower-case letter. */
  lemma ToUpperIdentity(s: string)
    ensures ToUpper(s) == s <==> forall k :: 0 <= k < |s| ==> !('a' <= s[k] <= 'z')
  {
    if forall k :: 0 <= k < |s| ==> !('a' <= s[k] <= 'z') {
      assert ToUpper(s) == s;
    }
  }

  /** `s.startsWith(prefix)`. */
  predicate StartsWith(s: string, prefix: string)
  {
    |prefix| <= |s| && s[..|prefix|] == prefix
  }

  lemma StartsWithAppend(a: string, b: string)
    ensures StartsWith(a + b, a)
  {
    assert (a + b)[..|a|] == a;
  }

  /** A join of two or more pieces starts with the first piece and the separator. */
  lemma JoinStartsWith(parts: seq<string>, sep: char)
    requires |parts| >= 2
    ensures StartsWith(Join(parts, sep), parts[0] + [sep])
  {
    assert Join(parts, sep) == (parts[0] + [sep]) + Join(parts[1..], sep);
    StartsWithAppend(parts[0] + [sep], Join(parts[1..], sep));
  }
}
