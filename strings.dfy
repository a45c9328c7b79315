/**
 The Kotlin standard-library string operations the coverage cache relies on:
 `startsWith`, `removePrefix`, `substringBefore`/`substringAfter`,
 `split` on a one-character delimiter, `trim`, `toIntOrNull` and the
 decimal rendering of an `Int` (the inverse of `toIntOrNull`).
 */
module KotlinStrings {
  import opened Wrappers

  // ---------------------------------------------------------------- prefixes

  /** `s.startsWith(prefix)`. */
  predicate StartsWith(s: string, prefix: string) {
    |prefix| <= |s| && s[..|prefix|] == prefix
  }

  /** `startsWith` compares character by character: `prefix` fits in `s` and agrees with it at every position. */
  lemma StartsWithCharwise(s: string, prefix: string)
    ensures StartsWith(s, prefix) <==> |prefix| <= |s| && forall i :: 0 <= i < |prefix| ==> s[i] == prefix[i]
  {
    if |prefix| <= |s| && forall i :: 0 <= i < |prefix| ==> s[i] == prefix[i] {
      assert s[..|prefix|] == prefix;
    }
  }

  /**
   `s` without its first `k` characters, where `k` removes at least one.
   Every suffix below is taken through this function and only once it is
   known to be shorter than `s`: a suffix `s[k..]` whose `k` might be zero
   sets the verifier's sequence axioms off on an endless search.
   */
  function Suffix(s: string, k: nat): (r: string)
    requires 0 < k <= |s|
    ensures |r| == |s| - k
  {
    s[k..]
  }

  /** `s.removePrefix(prefix)`: drops `prefix` only when `s` begins with it. */
  function RemovePrefix(s: string, prefix: string): (r: string)
    ensures StartsWith(s, prefix) ==> prefix + r == s
    ensures !StartsWith(s, prefix) ==> r == s
  {
    if prefix != [] && StartsWith(s, prefix) then Suffix(s, |prefix|) else s
  }

  // ---------------------------------------------------------- one delimiter

  /** Position of the first `c` in `s`, or -1 (`indexOf`). */
  function IndexOf(s: string, c: char): (i: int)
    ensures -1 <= i < |s|
    ensures i == -1 <==> c !in s
    ensures 0 <= i ==> s[i] == c && c !in s[..i]
  {
    if |s| == 0 then -1
    else if s[0] == c then 0
    else
      var j := IndexOf(s[1..], c);
      if j < 0 then -1
      else
        assert s[..j + 1] == [s[0]] + s[1..][..j];
        j + 1
  }

  /** `s.substringBefore(c)`: everything before the first `c`, or all of `s` when there is none. */
  function SubstringBefore(s: string, c: char): (r: string)
    ensures c !in r
    ensures c !in s ==> r == s
    ensures c in s ==> StartsWith(s, r + [c])
  {
    var i := IndexOf(s, c);
    if i < 0 then s
    else
      assert s[..i + 1] == s[..i] + [c];
      s[..i]
  }

  /** `s.substringAfter(c)`: everything after the first `c`, or all of `s` when there is none. */
  function SubstringAfter(s: string, c: char): (r: string)
    ensures c !in s ==> r == s
    ensures c in s ==> |r| < |s|
  {
    var i := IndexOf(s, c);
    if i < 0 then s else Suffix(s, i + 1)
  }

  /** Before and after the first `c`, with that `c` between them, give back `s`. */
  lemma SubstringsRebuild(s: string, c: char)
    requires c in s
    ensures SubstringBefore(s, c) + [c] + SubstringAfter(s, c) == s
  {
    var i := IndexOf(s, c);
    assert s == s[..i] + [s[i]] + s[i + 1..];
  }

  /** The first `c` of `a + [c] + b` is the one after `a` when `a` holds no `c`. */
  lemma {:induction false} IndexOfConcat(a: string, c: char, b: string)
    requires c !in a
    ensures IndexOf(a + [c] + b, c) == |a|
  {
    if a != [] {
      assert (a + [c] + b)[1..] == a[1..] + [c] + b;
      IndexOfConcat(a[1..], c, b);
    }
  }

  /** Splitting at a delimiter that `a` does not contain recovers `a` and `b`. */
  lemma SubstringsOfConcat(a: string, c: char, b: string)
    requires c !in a
    ensures SubstringBefore(a + [c] + b, c) == a
    ensures SubstringAfter(a + [c] + b, c) == b
  {
    IndexOfConcat(a, c, b);
    var s := a + [c] + b;
    assert s[..|a|] == a;
    assert s[|a| + 1..] == b;
  }

  // ------------------------------------------------------------------ split

  /** `parts.joinToString(sep)`. */
  function Join(parts: seq<string>, sep: char): string {
    if parts == [] then ""
    else if |parts| == 1 then parts[0]
    else parts[0] + [sep] + Join(parts[1..], sep)
  }

  /** No part contains the delimiter. */
  predicate Separated(parts: seq<string>, sep: char) {
    forall i :: 0 <= i < |parts| ==> sep !in parts[i]
  }

  /**
   `s.split(sep)` for a one-character delimiter: every occurrence of `sep`
   cuts, and empty pieces (leading, trailing, between two delimiters) are kept;
   the empty string splits into `[""]`.
   */
  function Split(s: string, sep: char): (parts: seq<string>)
    ensures |parts| >= 1
    decreases |s|
  {
    var i := IndexOf(s, sep);
    if i < 0 then [s]
    else [s[..i]] + Split(Suffix(s, i + 1), sep)
  }

  /** The parts of a split hold no delimiter. */
  lemma {:induction false} SplitSeparated(s: string, sep: char)
    ensures Separated(Split(s, sep), sep)
    decreases |s|
  {
    if sep in s {
      var first, rest := CutAtFirst(s, sep);
      SplitAfterFirst(first, sep, rest);
      SplitSeparated(rest, sep);
      SeparatedCons(first, Split(rest, sep), sep);
    }
  }

  /** Joining the parts of a split gives the string back. */
  lemma {:induction false} JoinSplit(s: string, sep: char)
    ensures Join(Split(s, sep), sep) == s
    decreases |s|
  {
    if sep in s {
      var first, rest := CutAtFirst(s, sep);
      SplitAfterFirst(first, sep, rest);
      JoinSplit(rest, sep);
      JoinCons(first, Split(rest, sep), sep);
    }
  }

  /** `s` cut at its first delimiter. */
  lemma CutAtFirst(s: string, sep: char) returns (first: string, rest: string)
    requires sep in s
    ensures s == first + [sep] + rest && sep !in first
  {
    first, rest := SubstringBefore(s, sep), SubstringAfter(s, sep);
    SubstringsRebuild(s, sep);
  }

  lemma JoinCons(first: string, others: seq<string>, sep: char)
    requires |others| >= 1
    ensures Join([first] + others, sep) == first + [sep] + Join(others, sep)
  {
    assert ([first] + others)[1..] == others;
  }

  lemma SeparatedCons(first: string, others: seq<string>, sep: char)
    requires sep !in first && Separated(others, sep)
    ensures Separated([first] + others, sep)
  {
    var parts := [first] + others;
    forall k | 0 <= k < |parts| ensures sep !in parts[k] {
      if k > 0 {
        assert parts[k] == others[k - 1];
      }
    }
  }

  /** A delimiter-free `first` followed by the delimiter comes off as the first part. */
  lemma SplitAfterFirst(first: string, sep: char, rest: string)
    requires sep !in first
    ensures Split(first + [sep] + rest, sep) == [first] + Split(rest, sep)
  {
    var s := first + [sep] + rest;
    IndexOfConcat(first, sep, rest);
    assert s[..|first|] == first;
    assert Suffix(s, |first| + 1) == rest;
  }

  /** Splitting a join of delimiter-free parts gives the parts back. */
  lemma {:induction false} SplitJoin(parts: seq<string>, sep: char)
    requires |parts| >= 1 && Separated(parts, sep)
    ensures Split(Join(parts, sep), sep) == parts
  {
    if |parts| > 1 {
      var first, others := parts[0], parts[1..];
      assert parts == [first] + others;
      JoinCons(first, others, sep);
      SeparatedTail(parts, sep);
      SplitAfterFirst(first, sep, Join(others, sep));
      SplitJoin(others, sep);
    } else {
      assert sep !in parts[0];
    }
  }

  lemma SeparatedTail(parts: seq<string>, sep: char)
    requires |parts| >= 1 && Separated(parts, sep)
    ensures Separated(parts[1..], sep)
  {
    forall k | 0 <= k < |parts| - 1 ensures sep !in parts[1..][k] {
      assert parts[1..][k] == parts[k + 1];
    }
  }

  /** `Split` is the only delimiter-free decomposition of `s`. */
  lemma SplitUnique(s: string, sep: char, parts: seq<string>)
    requires |parts| >= 1 && Separated(parts, sep) && Join(parts, sep) == s
    ensures parts == Split(s, sep)
  {
    SplitJoin(parts, sep);
  }

  // ------------------------------------------------------------------- trim

  /** White space as far as this model is concerned (space, tab, CR, LF). */
  predicate IsWhitespace(c: char) {
    c == ' ' || c == '\t' || c == '\r' || c == '\n'
  }

  predicate AllWhitespace(s: string) {
    forall i :: 0 <= i < |s| ==> IsWhitespace(s[i])
  }

  /** `s` with its leading white space cut. */
  function TrimStart(s: string): (r: string)
    ensures |r| <= |s|
    ensures r != [] ==> !IsWhitespace(r[0])
  {
    if s != [] && IsWhitespace(s[0]) then TrimStart(s[1..]) else s
  }

  /** `s` with its trailing white space cut: what is left is a prefix of `s`. */
  function TrimEnd(s: string): (r: string)
    ensures |r| <= |s| && r == s[..|r|]
    ensures r != [] ==> !IsWhitespace(r[|r| - 1])
  {
    if s != [] && IsWhitespace(s[|s| - 1]) then TrimEnd(s[..|s| - 1]) else s
  }

  /** `s.trim()`: the result neither starts nor ends with white space. */
  function Trim(s: string): (r: string)
    ensures |r| <= |s|
    ensures r != [] ==> !IsWhitespace(r[0]) && !IsWhitespace(r[|r| - 1])
  {
    TrimEnd(TrimStart(s))
  }

  /** `TrimStart` cuts white space and nothing else. */
  lemma {:induction false} TrimStartCutsPadding(s: string)
    ensures exists pad :: AllWhitespace(pad) && s == pad + TrimStart(s)
  {
    if s != [] && IsWhitespace(s[0]) {
      var tail := s[1..];
      TrimStartCutsPadding(tail);
      var rest :| AllWhitespace(rest) && tail == rest + TrimStart(tail);
      AllWhitespaceConcat([s[0]], rest);
      assert s == [s[0]] + rest + TrimStart(s) by {
        assert s == [s[0]] + tail;
      }
    } else {
      assert s == [] + TrimStart(s);
    }
  }

  /** `TrimEnd` cuts white space and nothing else. */
  lemma {:induction false} TrimEndCutsPadding(s: string)
    ensures exists pad :: AllWhitespace(pad) && s == TrimEnd(s) + pad
  {
    if s != [] && IsWhitespace(s[|s| - 1]) {
      var init := s[..|s| - 1];
      TrimEndCutsPadding(init);
      var rest :| AllWhitespace(rest) && init == TrimEnd(init) + rest;
      var last := s[|s| - 1];
      AllWhitespaceConcat(rest, [last]);
      assert TrimEnd(s) == TrimEnd(init);
      assert s == init + [last];
      assert s == TrimEnd(s) + (rest + [last]);
    } else {
      assert s == TrimEnd(s) + [];
    }
  }

  /** `r` is `s` with some white space removed from both ends and nothing else. */
  ghost predicate StripsWhitespace(s: string, r: string) {
    exists left, right :: AllWhitespace(left) && AllWhitespace(right) && s == left + r + right
  }

  /** `trim` cuts white space from both ends and nothing else. */
  lemma TrimStrips(s: string)
    ensures StripsWhitespace(s, Trim(s))
  {
    var t := TrimStart(s);
    TrimStartCutsPadding(s);
    var left :| AllWhitespace(left) && s == left + t;
    TrimEndCutsPadding(t);
    var right :| AllWhitespace(right) && t == TrimEnd(t) + right;
    assert s == left + Trim(s) + right;
  }

  /** Trimming cuts exactly the white space padding around a word that has none at its ends. */
  lemma TrimPadded(left: string, word: string, right: string)
    requires AllWhitespace(left) && AllWhitespace(right)
    requires word != [] ==> !IsWhitespace(word[0]) && !IsWhitespace(word[|word| - 1])
    ensures Trim(left + word + right) == word
  {
    var s := left + word + right;
    if word == [] {
      AllWhitespaceConcat(left, right);
      assert s == (left + right) + [];
      TrimStartPadded(left + right, []);
    } else {
      assert s == left + (word + right);
      TrimStartPadded(left, word + right);
      TrimEndPadded(word, right);
    }
  }

  lemma AllWhitespaceConcat(a: string, b: string)
    requires AllWhitespace(a) && AllWhitespace(b)
    ensures AllWhitespace(a + b)
  {
    forall k | 0 <= k < |a + b|
      ensures IsWhitespace((a + b)[k])
    {
      if k >= |a| {
        assert (a + b)[k] == b[k - |a|];
      }
    }
  }

  lemma {:induction false} TrimStartPadded(left: string, s: string)
    requires AllWhitespace(left)
    requires s != [] ==> !IsWhitespace(s[0])
    ensures TrimStart(left + s) == s
  {
    if left != [] {
      assert (left + s)[1..] == left[1..] + s;
      TrimStartPadded(left[1..], s);
    }
  }

  lemma {:induction false} TrimEndPadded(s: string, right: string)
    requires AllWhitespace(right)
    requires s != [] ==> !IsWhitespace(s[|s| - 1])
    ensures TrimEnd(s + right) == s
  {
    if right != [] {
      var r := right[..|right| - 1];
      assert forall k :: 0 <= k < |r| ==> r[k] == right[k];
      assert (s + right)[..|s + right| - 1] == s + r;
      TrimEndPadded(s, r);
    } else {
      assert s + right == s;
    }
  }

  // ---------------------------------------------------------------- integers

  /** Bounds of Kotlin's 32-bit `Int`. */
  const IntMin: int := -0x8000_0000
  const IntMax: int := 0x7fff_ffff

  predicate InIntRange(n: int) {
    IntMin <= n <= IntMax
  }

  predicate IsDigit(c: char) {
    '0' <= c <= '9'
  }

  predicate AllDigits(s: string) {
    forall i :: 0 <= i < |s| ==> IsDigit(s[i])
  }

  /** The value of a string of decimal digits, most significant first. */
  function DigitsValue(s: string): nat
    requires AllDigits(s)
  {
    if s == [] then 0
    else DigitsValue(s[..|s| - 1]) * 10 + (s[|s| - 1] as int - '0' as int)
  }

  /**
   `s.toIntOrNull()`: an optional `+` or `-` followed by at least one digit,
   whose value fits in a 32-bit `Int`; anything else is null.
   */
  function ToIntOrNull(s: string): (r: Option<int>)
    ensures r.Some? ==> InIntRange(r.value)
    ensures r.Some? ==> s != [] && s != "+" && s != "-"
    ensures r.Some? ==> forall i :: 0 <= i < |s| ==> IsDigit(s[i]) || (i == 0 && (s[i] == '+' || s[i] == '-'))
  {
    if s == [] then None
    else if s[0] == '-' || s[0] == '+' then
      if |s| == 1 || !AllDigits(s[1..]) then None
      else
        var v: int := if s[0] == '-' then -(DigitsValue(s[1..]) as int) else DigitsValue(s[1..]);
        if InIntRange(v) then Some(v) else None
    else if !AllDigits(s) then None
    else
      var v := DigitsValue(s);
      if InIntRange(v) then Some(v) else None
  }

  function DigitChar(d: nat): (c: char)
    requires d < 10
    ensures IsDigit(c) && c as int - '0' as int == d
  {
    (d + '0' as int) as char
  }

  /** Decimal rendering of a natural number, without leading zeros. */
  function NatToString(n: nat): (s: string)
    ensures s != [] && AllDigits(s)
  {
    if n < 10 then [DigitChar(n)] else NatToString(n / 10) + [DigitChar(n % 10)]
  }

  /** Decimal rendering of an integer (`Int.toString()`). */
  function IntToString(n: int): (s: string)
    ensures s != []
    ensures forall i :: 0 <= i < |s| ==> IsDigit(s[i]) || s[i] == '-'
  {
    if n < 0 then "-" + NatToString(-n) else NatToString(n)
  }

  lemma {:induction false} DigitsValueOfNatToString(n: nat)
    ensures DigitsValue(NatToString(n)) == n
  {
    if n >= 10 {
      var p := NatToString(n / 10);
      var s := p + [DigitChar(n % 10)];
      assert s[..|s| - 1] == p;
      DigitsValueOfNatToString(n / 10);
    }
  }

  /** `toIntOrNull` reads back every 32-bit value that `toString` writes. */
  lemma ToIntOrNullOfIntToString(n: int)
    requires InIntRange(n)
    ensures ToIntOrNull(IntToString(n)) == Some(n)
  {
    if n < 0 {
      ToIntOrNullOfNegative(-n);
    } else {
      DigitsValueOfNatToString(n);
    }
  }

  lemma ToIntOrNullOfNegative(n: nat)
    requires InIntRange(-(n as int))
    ensures ToIntOrNull("-" + NatToString(n)) == Some(-(n as int))
  {
    var s := "-" + NatToString(n);
    assert s[1..] == NatToString(n);
    DigitsValueOfNatToString(n);
  }

  /** A leading `+` is accepted as well. */
  lemma ToIntOrNullOfPlus(n: nat)
    requires InIntRange(n)
    ensures ToIntOrNull("+" + NatToString(n)) == Some(n)
  {
    assert ("+" + NatToString(n))[1..] == NatToString(n);
    DigitsValueOfNatToString(n);
  }

  /** Every number outside `Int`'s range is rejected, whatever its sign. */
  lemma ToIntOrNullRejectsOutOfRange(n: int)
    requires !InIntRange(n)
    ensures ToIntOrNull(IntToString(n)) == None
    ensures n >= 0 ==> ToIntOrNull("+" + NatToString(n)) == None
  {
    if n < 0 {
      assert IntToString(n)[1..] == NatToString(-n);
      DigitsValueOfNatToString(-n);
    } else {
      assert ("+" + NatToString(n))[1..] == NatToString(n);
      DigitsValueOfNatToString(n);
    }
  }

  /** `k` zero digits. */
  function Zeros(k: nat): (z: string)
    ensures |z| == k && AllDigits(z)
  {
    seq(k, _ => '0')
  }

  lemma {:induction false} DigitsValueOfZeros(k: nat)
    ensures DigitsValue(Zeros(k)) == 0
  {
    if k > 0 {
      assert Zeros(k)[..k - 1] == Zeros(k - 1);
      DigitsValueOfZeros(k - 1);
    }
  }

  /** Leading zeros do not change the value of a digit string. */
  lemma {:induction false} DigitsValueOfPadded(k: nat, s: string)
    requires AllDigits(s)
    ensures AllDigits(Zeros(k) + s) && DigitsValue(Zeros(k) + s) == DigitsValue(s)
    decreases |s|
  {
    var t := Zeros(k) + s;
    assert AllDigits(t) by {
      forall i | 0 <= i < |t| ensures IsDigit(t[i]) {
        if i >= k {
          assert t[i] == s[i - k];
        }
      }
    }
    if s == [] {
      assert t == Zeros(k);
      DigitsValueOfZeros(k);
    } else {
      var init := s[..|s| - 1];
      assert t[..|t| - 1] == Zeros(k) + init;
      assert t[|t| - 1] == s[|s| - 1];
      DigitsValueOfPadded(k, init);
    }
  }

  /**
   `toIntOrNull` reads a number written with any count of leading zeros, after
   an optional sign, as its value (`"007"` is 7, `"-007"` is -7), and still
   rejects it when the value is outside `Int`'s range.
   */
  lemma ToIntOrNullOfZeroPadded(k: nat, n: nat)
    ensures ToIntOrNull(Zeros(k) + NatToString(n)) == if InIntRange(n) then Some(n) else None
  {
    PaddedDigits(k, n);
    ToIntOrNullOfDigits(Zeros(k) + NatToString(n));
  }

  lemma ToIntOrNullOfPlusZeroPadded(k: nat, n: nat)
    ensures ToIntOrNull("+" + Zeros(k) + NatToString(n)) == if InIntRange(n) then Some(n) else None
  {
    var digits := Zeros(k) + NatToString(n);
    PaddedDigits(k, n);
    ToIntOrNullOfDigits(digits);
    assert "+" + Zeros(k) + NatToString(n) == "+" + digits;
  }

  lemma ToIntOrNullOfMinusZeroPadded(k: nat, n: nat)
    ensures ToIntOrNull("-" + Zeros(k) + NatToString(n)) == if InIntRange(-(n as int)) then Some(-(n as int)) else None
  {
    var digits := Zeros(k) + NatToString(n);
    PaddedDigits(k, n);
    ToIntOrNullOfDigits(digits);
    assert "-" + Zeros(k) + NatToString(n) == "-" + digits;
  }

  /** Zeros in front of a rendering leave a non-empty digit string of the same value. */
  lemma PaddedDigits(k: nat, n: nat)
    ensures var digits := Zeros(k) + NatToString(n);
      digits != [] && AllDigits(digits) && DigitsValue(digits) == n
  {
    DigitsValueOfPadded(k, NatToString(n));
    DigitsValueOfNatToString(n);
  }

  /** A non-empty digit string, bare or after a sign, reads as its value when that fits in `Int`. */
  lemma ToIntOrNullOfDigits(digits: string)
    requires digits != [] && AllDigits(digits)
    ensures ToIntOrNull(digits) == if InIntRange(DigitsValue(digits)) then Some(DigitsValue(digits)) else None
    ensures ToIntOrNull("+" + digits) == if InIntRange(DigitsValue(digits)) then Some(DigitsValue(digits)) else None
    ensures ToIntOrNull("-" + digits) ==
              if InIntRange(-(DigitsValue(digits) as int)) then Some(-(DigitsValue(digits) as int)) else None
  {
    assert IsDigit(digits[0]);
    assert ("+" + digits)[1..] == digits;
    assert ("-" + digits)[1..] == digits;
  }

  /** No rendering of a number contains a space, a colon, a comma or a dot. */
  lemma IntToStringHasNoSeparators(n: int)
    ensures ' ' !in IntToString(n) && ':' !in IntToString(n)
    ensures ',' !in IntToString(n) && '.' !in IntToString(n)
  {
    var s := IntToString(n);
    forall i | 0 <= i < |s|
      ensures s[i] != ' ' && s[i] != ':' && s[i] != ',' && s[i] != '.'
    {
      assert IsDigit(s[i]) || s[i] == '-';
    }
  }
}
