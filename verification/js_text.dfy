/** The few JavaScript string operations the application relies on, written
    out with JavaScript's own edge cases: `trim`, `startsWith`, `split` on a
    one-character separator, `slice` with negative indices, and decimal
    rendering and parsing of non-negative integers. */
module JsText {

  import opened Wrappers

  /** The characters JavaScript's `\s` class and `String.prototype.trim`
      treat as white space (WhiteSpace and LineTerminator). */
  predicate IsWhitespace(c: char) {
    var n := c as int;
    n == 0x09 || n == 0x0A || n == 0x0B || n == 0x0C || n == 0x0D || n == 0x20
    || n == 0xA0 || n == 0x1680 || (0x2000 <= n <= 0x200A) || n == 0x2028
    || n == 0x2029 || n == 0x202F || n == 0x205F || n == 0x3000 || n == 0xFEFF
  }

  predicate AllWhitespace(s: string) {
    forall i :: 0 <= i < |s| ==> IsWhitespace(s[i])
  }

  predicate NoWhitespace(s: string) {
    forall i :: 0 <= i < |s| ==> !IsWhitespace(s[i])
  }

  /** `s.trimStart()`. */
  function TrimStart(s: string): (r: string)
    ensures |r| <= |s| && r == s[|s| - |r|..]
    ensures AllWhitespace(s[..|s| - |r|])
    ensures r == [] || !IsWhitespace(r[0])
  {
    if |s| > 0 && IsWhitespace(s[0]) then
      var r := TrimStart(s[1..]);
      assert s[1..][..|s| - 1 - |r|] == s[1..|s| - |r|];
      r
    else s
  }

  /** `s.trimEnd()`. */
  function TrimEnd(s: string): (r: string)
    ensures |r| <= |s| && r == s[..|r|]
    ensures AllWhitespace(s[|r|..])
    ensures r == [] || !IsWhitespace(r[|r| - 1])
  {
    if |s| > 0 && IsWhitespace(s[|s| - 1]) then
      var r := TrimEnd(s[..|s| - 1]);
      r
    else s
  }

  /** `s.trim()`: the contiguous part of `s` between its leading and trailing
      white space. It is empty exactly when every character is white space,
      which is what `!s.trim()` tests. */
  function Trim(s: string): (r: string)
    ensures |r| <= |s|
    ensures r == [] || (!IsWhitespace(r[0]) && !IsWhitespace(r[|r| - 1]))
    ensures r == [] <==> AllWhitespace(s)
  {
    TrimEnd(TrimStart(s))
  }

  /** `s.startsWith(prefix)`. */
  predicate StartsWith(s: string, prefix: string) {
    |prefix| <= |s| && s[..|prefix|] == prefix
  }

  /** `s.split(sep)` for a one-character separator: the maximal
      separator-free pieces, always at least one. */
  function Split(s: string, sep: char): (r: seq<string>)
    ensures |r| >= 1
    ensures forall i :: 0 <= i < |r| ==> sep !in r[i]
  {
    if |s| == 0 then [""]
    else if s[0] == sep then [""] + Split(s[1..], sep)
    else
      var rest := Split(s[1..], sep);
      [[s[0]] + rest[0]] + rest[1..]
  }

  /** `pieces.join(sep)` for a one-character separator. */
  function Join(pieces: seq<string>, sep: char): string
    requires |pieces| >= 1
  {
    if |pieces| == 1 then pieces[0]
    else pieces[0] + [sep] + Join(pieces[1..], sep)
  }

  /** The number of occurrences of `c` in `s`. */
  function Count(s: string, c: char): nat {
    if |s| == 0 then 0 else (if s[0] == c then 1 else 0) + Count(s[1..], c)
  }

  lemma CountAppend(a: string, b: string, c: char)
    ensures Count(a + b, c) == Count(a, c) + Count(b, c)
  {
    if |a| > 0 {
      assert (a + b)[0] == a[0];
      assert (a + b)[1..] == a[1..] + b;
      CountAppend(a[1..], b, c);
    } else {
      assert a + b == b;
    }
  }

  lemma CountAbsent(s: string, c: char)
    ensures Count(s, c) == 0 <==> c !in s
  {
    if |s| > 0 {
      CountAbsent(s[1..], c);
      assert s == [s[0]] + s[1..];
    }
  }

  /** Splitting yields one more piece than there are separators. */
  lemma {:induction false} SplitLength(s: string, sep: char)
    ensures |Split(s, sep)| == Count(s, sep) + 1
  {
    if |s| > 0 {
      SplitLength(s[1..], sep);
    }
  }

  /** Splitting a separator-free word followed by a separator and more text
      yields the word and then the pieces of the rest. */
  lemma {:induction false} SplitAfterWord(w: string, rest: string, sep: char)
    requires sep !in w
    ensures Split(w + [sep] + rest, sep) == [w] + Split(rest, sep)
    ensures Split(w, sep) == [w]
  {
    if |w| > 0 {
      SplitAfterWord(w[1..], rest, sep);
      assert (w + [sep] + rest)[1..] == w[1..] + [sep] + rest;
      assert [w[0]] + w[1..] == w;
    }
  }

  /** A string without the separator splits into itself. */
  lemma SplitWithoutSeparator(s: string, sep: char)
    ensures sep !in s ==> Split(s, sep) == [s]
  {
    if sep !in s {
      SplitAfterWord(s, "", sep);
    }
  }

  /** `split` undoes `join` whenever no piece contains the separator. */
  lemma {:induction false} SplitJoin(pieces: seq<string>, sep: char)
    requires |pieces| >= 1
    requires forall i :: 0 <= i < |pieces| ==> sep !in pieces[i]
    ensures Split(Join(pieces, sep), sep) == pieces
  {
    if |pieces| == 1 {
      SplitAfterWord(pieces[0], [], sep);
    } else {
      SplitJoin(pieces[1..], sep);
      SplitAfterWord(pieces[0], Join(pieces[1..], sep), sep);
      assert [pieces[0]] + pieces[1..] == pieces;
    }
  }

  /** The separators in a join are the ones between pieces plus those inside
      the pieces. */
  lemma {:induction false} JoinCount(pieces: seq<string>, sep: char)
    requires |pieces| >= 1
    ensures Count(Join(pieces, sep), sep) >= |pieces| - 1
    ensures (forall i :: 0 <= i < |pieces| ==> sep !in pieces[i])
            ==> Count(Join(pieces, sep), sep) == |pieces| - 1
    ensures (exists i :: 0 <= i < |pieces| && sep in pieces[i])
            ==> Count(Join(pieces, sep), sep) > |pieces| - 1
  {
    CountAbsent(pieces[0], sep);
    if |pieces| > 1 {
      JoinCount(pieces[1..], sep);
      CountAppend(pieces[0] + [sep], Join(pieces[1..], sep), sep);
      CountAppend(pieces[0], [sep], sep);
      assert Count([sep], sep) == 1;
      if exists i :: 0 <= i < |pieces| && sep in pieces[i] {
        var i :| 0 <= i < |pieces| && sep in pieces[i];
        if i > 0 {
          assert sep in pieces[1..][i - 1];
        }
      }
      if forall i :: 0 <= i < |pieces| ==> sep !in pieces[i] {
        assert forall i :: 0 <= i < |pieces| - 1 ==> sep !in pieces[1..][i] by {
          forall i | 0 <= i < |pieces| - 1 ensures sep !in pieces[1..][i] {
            assert pieces[1..][i] == pieces[i + 1];
          }
        }
      }
    }
  }

  /** `s.indexOf(c)`: the position of the first occurrence, or None for
      `-1`. */
  function IndexOf(s: string, c: char): (r: Option<nat>)
    ensures r.None? <==> c !in s
    ensures r.Some? ==> (r.value < |s| && s[r.value] == c && c !in s[..r.value])
  {
    if |s| == 0 then None
    else if s[0] == c then Some(0)
    else
      match IndexOf(s[1..], c)
      case None => None
      case Some(k) =>
        assert s[..k + 1] == [s[0]] + s[1..][..k];
        Some(k + 1)
  }

  /** `s.slice(start, end)` on a string or an array: negative indices count
      from the end, and both are clamped to the sequence. */
  function Slice<T>(s: seq<T>, start: int, end: int): (r: seq<T>)
    ensures |r| <= |s|
  {
    var from := if start < 0 then (if |s| + start < 0 then 0 else |s| + start)
                else (if start > |s| then |s| else start);
    var to := if end < 0 then (if |s| + end < 0 then 0 else |s| + end)
              else (if end > |s| then |s| else end);
    if from >= to then [] else s[from..to]
  }

  /** Slicing with non-negative bounds takes the clamped window. */
  lemma SliceWindow<T>(s: seq<T>, start: nat, end: nat)
    requires start <= end
    ensures Slice(s, start, end) ==
            if start >= |s| then [] else s[start..if end > |s| then |s| else end]
  {
  }

  predicate IsDigit(c: char) {
    '0' <= c <= '9'
  }

  function DigitChar(d: nat): (c: char)
    requires d < 10
    ensures IsDigit(c) && c as int - '0' as int == d
  {
    ('0' as int + d) as char
  }

  /** `String(n)` for a non-negative integer: its decimal digits without
      leading zeros. */
  function NatToString(n: nat): (r: string)
    ensures |r| >= 1
    ensures forall i :: 0 <= i < |r| ==> IsDigit(r[i])
  {
    if n < 10 then [DigitChar(n)]
    else NatToString(n / 10) + [DigitChar(n % 10)]
  }

  /** The value of a string of decimal digits (no sign, no white space). */
  function DigitsValue(s: string): nat
    requires forall i :: 0 <= i < |s| ==> IsDigit(s[i])
  {
    if |s| == 0 then 0
    else
      assert IsDigit(s[|s| - 1]);
      10 * DigitsValue(s[..|s| - 1]) + (s[|s| - 1] as int - '0' as int)
  }

  /** Reading a non-empty string of digits, or nothing. */
  function ParseNat(s: string): (r: Option<nat>)
    ensures r.Some? <==> |s| >= 1 && forall i :: 0 <= i < |s| ==> IsDigit(s[i])
  {
    if |s| >= 1 && forall i :: 0 <= i < |s| ==> IsDigit(s[i]) then Some(DigitsValue(s))
    else None
  }

  /** Rendering a count and reading it back gives the count. */
  lemma {:induction false} ParseNatToString(n: nat)
    ensures ParseNat(NatToString(n)) == Some(n)
  {
    var s := NatToString(n);
    if n >= 10 {
      ParseNatToString(n / 10);
      assert s[..|s| - 1] == NatToString(n / 10);
      assert DigitsValue(s) == 10 * (n / 10) + n % 10;
    } else {
      assert s[..|s| - 1] == [];
      assert DigitsValue(s) == n;
    }
  }

  /** `String(n)` for any integer. */
  function IntToString(n: int): (r: string)
    ensures |r| >= 1
  {
    if n < 0 then "-" + NatToString(-n) else NatToString(n)
  }

  /** The longest prefix of `s` made of digits. */
  function LeadingDigits(s: string): (r: string)
    ensures |r| <= |s| && r == s[..|r|]
    ensures forall i :: 0 <= i < |r| ==> IsDigit(r[i])
    ensures |r| == |s| || !IsDigit(s[|r|])
  {
    if |s| == 0 || !IsDigit(s[0]) then ""
    else
      var rest := LeadingDigits(s[1..]);
      assert s[..1 + |rest|] == [s[0]] + rest;
      [s[0]] + rest
  }

  /** `parseInt(s, 10)`: leading white space, an optional sign, then the
      longest run of digits; anything after it is ignored. No digits gives
      NaN, written None. */
  function ParseInt(s: string): (r: Option<int>)
    ensures r.None? <==> LeadingDigits(SignlessBody(TrimStart(s))) == []
  {
    var t := TrimStart(s);
    var digits := LeadingDigits(SignlessBody(t));
    var magnitude: int := if digits == [] then 0 else DigitsValue(digits);
    if digits == [] then None
    else if |t| > 0 && t[0] == '-' then Some(-magnitude)
    else Some(magnitude)
  }

  /** The text after an optional leading sign. */
  function SignlessBody(t: string): (r: string)
    ensures r == t || (|t| > 0 && (t[0] == '-' || t[0] == '+') && r == t[1..])
  {
    if |t| > 0 && (t[0] == '-' || t[0] == '+') then t[1..] else t
  }

  /** A string of digits is its own longest digit prefix. */
  lemma {:induction false} LeadingDigitsOfDigits(s: string)
    requires forall i :: 0 <= i < |s| ==> IsDigit(s[i])
    ensures LeadingDigits(s) == s
  {
    if |s| > 0 {
      LeadingDigitsOfDigits(s[1..]);
    }
  }

  /** `parseInt(String(n), 10) === n`: a rendered id reads back as itself. */
  lemma ParseIntOfIntToString(n: int)
    ensures ParseInt(IntToString(n)) == Some(n)
  {
    var s := IntToString(n);
    var digits := NatToString(if n < 0 then -n else n);
    assert !IsWhitespace(s[0]);
    assert TrimStart(s) == s;
    ParseNatToString(if n < 0 then -n else n);
    LeadingDigitsOfDigits(digits);
    if n < 0 {
      assert s[1..] == digits;
    } else {
      assert s[0] != '-' && s[0] != '+';
    }
  }

  /** A character outside the Basic Multilingual Plane, which a JavaScript
      string stores as a surrogate pair. */
  predicate IsAstral(c: char) {
    c as int >= 0x1_0000
  }

  /** `s.length`: JavaScript counts UTF-16 code units, two for an astral
      character. */
  function Utf16Length(s: string): (n: nat)
    ensures |s| <= n <= 2 * |s|
    ensures n == |s| <==> forall i :: 0 <= i < |s| ==> !IsAstral(s[i])
  {
    if |s| == 0 then 0
    else
      var rest := Utf16Length(s[1..]);
      assert forall i :: 1 <= i < |s| ==> s[i] == s[1..][i - 1];
      (if IsAstral(s[0]) then 2 else 1) + rest
  }
}
