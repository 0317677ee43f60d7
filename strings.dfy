/**
  * The Foundation string operations the core relies on, written out on
  * `seq<char>`: removing every character outside `0`-`9` (the regular
  * expression `[^0-9]` replaced by nothing), `lowercased()`, `hasSuffix`,
  * `suffix(n)`, `filter { !$0.isEmpty }.joined(separator:)` and
  * `trimmingCharacters(in: .whitespacesAndNewlines)`.
  */
module Strings {

  predicate IsDigit(ch: char) {
    '0' <= ch <= '9'
  }

  predicate AllDigits(s: string) {
    forall i :: 0 <= i < |s| ==> IsDigit(s[i])
  }

  /**
    * `s` with every non-digit character removed: what is left is made of the
    * characters `0`-`9` only, and is no longer than `s`.
    */
  function Digits(s: string): (r: string)
    ensures AllDigits(r)
    ensures |r| <= |s|
  {
    if s == [] then []
    else if IsDigit(s[0]) then [s[0]] + Digits(s[1..])
    else Digits(s[1..])
  }

  /** Stripping distributes over concatenation: the digits of `a` come first, in order. */
  lemma {:induction false} DigitsAppend(a: string, b: string)
    ensures Digits(a + b) == Digits(a) + Digits(b)
  {
    if a == [] {
      assert a + b == b;
    } else {
      assert (a + b)[1..] == a[1..] + b;
      DigitsAppend(a[1..], b);
    }
  }

  /** A string of digits only is left as it is, so stripping twice is stripping once. */
  lemma {:induction false} DigitsOfDigitString(s: string)
    requires AllDigits(s)
    ensures Digits(s) == s
  {
    if s != [] {
      DigitsOfDigitString(s[1..]);
    }
  }

  lemma DigitsIdempotent(s: string)
    ensures Digits(Digits(s)) == Digits(s)
  {
    DigitsOfDigitString(Digits(s));
  }

  /** Exactly the digit characters of `s` survive: a digit is kept, nothing else appears. */
  lemma {:induction false} DigitsKeepExactlyTheDigits(s: string, ch: char)
    ensures ch in Digits(s) <==> IsDigit(ch) && ch in s
  {
    if s != [] {
      DigitsKeepExactlyTheDigits(s[1..], ch);
      assert s == [s[0]] + s[1..];
    }
  }

  /** A number written as three digit groups with separators reduces to the groups run together. */
  lemma DigitsOfGroups(a: string, s1: char, b: string, s2: char, c: string)
    requires AllDigits(a) && AllDigits(b) && AllDigits(c)
    requires !IsDigit(s1) && !IsDigit(s2)
    ensures Digits(a + [s1] + b + [s2] + c) == a + b + c
  {
    var p1, p2, p3 := a + [s1], a + [s1] + b, a + [s1] + b + [s2];
    assert Digits(p1) == a by {
      DigitsAppend(a, [s1]);
      DigitsOfDigitString(a);
    }
    assert Digits(p2) == a + b by {
      DigitsAppend(p1, b);
      DigitsOfDigitString(b);
    }
    assert Digits(p3) == a + b by {
      DigitsAppend(p2, [s2]);
    }
    DigitsAppend(p3, c);
    DigitsOfDigitString(c);
  }

  /** ASCII letters `A`-`Z` are mapped to `a`-`z`; every other character is unchanged. */
  function LowerChar(ch: char): char {
    if 'A' <= ch <= 'Z' then (ch as int - 'A' as int + 'a' as int) as char else ch
  }

  /** `lowercased()`: each character mapped on its own, the length kept. */
  function Lower(s: string): (r: string)
    ensures |r| == |s|
    ensures forall i :: 0 <= i < |s| ==> r[i] == LowerChar(s[i])
  {
    if s == [] then [] else [LowerChar(s[0])] + Lower(s[1..])
  }

  /** Lowercasing is idempotent: a stored email key is already in lowercase form. */
  lemma LowerIdempotent(s: string)
    ensures Lower(Lower(s)) == Lower(s)
  {
    assert forall i :: 0 <= i < |s| ==> LowerChar(LowerChar(s[i])) == LowerChar(s[i]);
  }

  /** Lowercasing neither adds nor removes an `@`. */
  lemma LowerKeepsAt(s: string)
    ensures '@' in Lower(s) <==> '@' in s
  {
    if '@' in s {
      var i :| 0 <= i < |s| && s[i] == '@';
      assert Lower(s)[i] == '@';
    }
  }

  /** Swift's `hasSuffix`: `s` is some string followed by `suffix`. */
  predicate EndsWith(s: string, suffix: string): (b: bool)
    ensures b <==> exists front :: s == front + suffix
  {
    if |suffix| <= |s| then
      assert s == s[..|s| - |suffix|] + s[|s| - |suffix|..];
      s[|s| - |suffix|..] == suffix
    else
      false
  }

  /** Swift's `suffix(n)`: the last `n` characters, or all of them when there are fewer. */
  function Last(s: string, n: nat): (r: string)
    ensures |r| == if |s| < n then |s| else n
    ensures EndsWith(s, r)
  {
    if |s| <= n then s else s[|s| - n..]
  }

  /** The parts that are not empty, in order (`filter { !$0.isEmpty }`). */
  function NonEmptyParts(parts: seq<string>): (r: seq<string>)
    ensures forall i :: 0 <= i < |r| ==> r[i] != []
    ensures forall p :: p in r <==> p in parts && p != []
    ensures |r| <= |parts|
  {
    if parts == [] then []
    else (if parts[0] == [] then [] else [parts[0]]) + NonEmptyParts(parts[1..])
  }

  /** Filtering works piece by piece, so the kept parts stay in their order. */
  lemma {:induction false} NonEmptyPartsAppend(a: seq<string>, b: seq<string>)
    ensures NonEmptyParts(a + b) == NonEmptyParts(a) + NonEmptyParts(b)
  {
    if a == [] {
      assert a + b == b;
    } else {
      assert (a + b)[1..] == a[1..] + b;
      NonEmptyPartsAppend(a[1..], b);
    }
  }

  /**
    * `joined(separator:)`: the first part opens the result and the last part
    * closes it, with no separator before or after them.
    */
  function Join(parts: seq<string>, sep: string): (r: string)
    ensures parts == [] ==> r == []
    ensures parts != [] ==> |parts[0]| <= |r| && r[..|parts[0]|] == parts[0]
    ensures parts != [] ==> EndsWith(r, parts[|parts| - 1])
  {
    if parts == [] then []
    else if |parts| == 1 then parts[0]
    else parts[0] + sep + Join(parts[1..], sep)
  }

  /** Joining the non-empty ones of two parts puts one separator between them only when both are there. */
  lemma JoinTwoNonEmpty(a: string, b: string, sep: string)
    ensures Join(NonEmptyParts([a, b]), sep) ==
      if a == [] then b else if b == [] then a else a + sep + b
  {
    assert [a, b][1..] == [b];
    assert [b][1..] == [];
  }

  /**
    * The characters of Foundation's `CharacterSet.whitespacesAndNewlines`:
    * the Unicode separators (categories Zs, Zl and Zp), the control
    * characters U+0009 to U+000D and U+0085.
    */
  predicate IsWhitespaceOrNewline(ch: char) {
    || ('\U{0009}' <= ch <= '\U{000D}')
    || ch == ' ' || ch == '\U{0085}' || ch == '\U{00A0}' || ch == '\U{1680}'
    || ('\U{2000}' <= ch <= '\U{200A}')
    || ch == '\U{2028}' || ch == '\U{2029}' || ch == '\U{202F}' || ch == '\U{205F}'
    || ch == '\U{3000}'
  }

  predicate AllWhitespace(s: string) {
    forall i :: 0 <= i < |s| ==> IsWhitespaceOrNewline(s[i])
  }

  /** `s` without its leading whitespace. */
  function TrimStart(s: string): (r: string)
    ensures r == [] || !IsWhitespaceOrNewline(r[0])
    ensures |r| <= |s| && r == s[|s| - |r|..]
    ensures AllWhitespace(s[..|s| - |r|])
  {
    if s != [] && IsWhitespaceOrNewline(s[0]) then TrimStart(s[1..]) else s
  }

  /** `s` without its trailing whitespace. */
  function TrimEnd(s: string): (r: string)
    ensures r == [] || !IsWhitespaceOrNewline(r[|r| - 1])
    ensures |r| <= |s| && r == s[..|r|]
    ensures AllWhitespace(s[|r|..])
  {
    if s != [] && IsWhitespaceOrNewline(s[|s| - 1]) then
      var r := TrimEnd(s[..|s| - 1]);
      assert s[|r|..] == s[..|s| - 1][|r|..] + [s[|s| - 1]];
      r
    else s
  }

  /** `trimmingCharacters(in: .whitespacesAndNewlines)`. */
  function Trimmed(s: string): (r: string)
    ensures r == [] || (!IsWhitespaceOrNewline(r[0]) && !IsWhitespaceOrNewline(r[|r| - 1]))
  {
    TrimEnd(TrimStart(s))
  }

  lemma {:induction false} TrimStartOfWhitespace(s: string)
    requires AllWhitespace(s)
    ensures TrimStart(s) == []
  {
    if s != [] {
      TrimStartOfWhitespace(s[1..]);
    }
  }

  /** Trimming leaves nothing exactly when every character is whitespace or a newline. */
  lemma TrimmedEmptyIffAllWhitespace(s: string)
    ensures Trimmed(s) == [] <==> AllWhitespace(s)
  {
    var t := TrimStart(s);
    if Trimmed(s) == [] {
      assert t[0..] == t;
      assert t == [];
      assert s[..|s|] == s;
    }
    if AllWhitespace(s) {
      TrimStartOfWhitespace(s);
    }
  }
}
