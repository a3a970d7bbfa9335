/** The JavaScript string operations the handlers rely on: case mapping,
    `trim`, `startsWith`, `includes`, `split(" ")[1]`, `slice(-k)`,
    `String(n)`, `parseInt` and Node's `path.extname`. Case mapping covers the
    ASCII letters only. */
module JsText {
  import opened Options

  // ---------------------------------------------------------------------------
  // Case mapping

  predicate IsUpperAscii(c: char) { 'A' <= c <= 'Z' }
  predicate IsLowerAscii(c: char) { 'a' <= c <= 'z' }

  function LowerChar(c: char): (d: char)
    ensures !IsUpperAscii(d)
    ensures !IsUpperAscii(c) ==> d == c
  {
    if IsUpperAscii(c) then (c as int + 32) as char else c
  }

  function UpperChar(c: char): (d: char)
    ensures !IsLowerAscii(d)
    ensures !IsLowerAscii(c) ==> d == c
  {
    if IsLowerAscii(c) then (c as int - 32) as char else c
  }

  /** `toLowerCase()`: same length, no upper-case letter left, everything that
      was not an upper-case letter kept in place. */
  function Lower(s: string): (r: string)
    ensures |r| == |s|
    ensures forall i :: 0 <= i < |r| ==> !IsUpperAscii(r[i])
    ensures forall i :: 0 <= i < |s| && !IsUpperAscii(s[i]) ==> r[i] == s[i]
  {
    seq(|s|, i requires 0 <= i < |s| => LowerChar(s[i]))
  }

  /** `toUpperCase()`: same length, no lower-case letter left, everything that
      was not a lower-case letter kept in place. */
  function Upper(s: string): (r: string)
    ensures |r| == |s|
    ensures forall i :: 0 <= i < |r| ==> !IsLowerAscii(r[i])
    ensures forall i :: 0 <= i < |s| && !IsLowerAscii(s[i]) ==> r[i] == s[i]
  {
    seq(|s|, i requires 0 <= i < |s| => UpperChar(s[i]))
  }

  /** A string with no upper-case letter is its own lower-case form. */
  lemma LowerOfLower(s: string)
    requires forall i :: 0 <= i < |s| ==> !IsUpperAscii(s[i])
    ensures Lower(s) == s
  {
  }

  // ---------------------------------------------------------------------------
  // Whitespace and trim

  /** The characters `String.prototype.trim` and `parseInt` skip: ECMAScript
      WhiteSpace and LineTerminator. */
  predicate IsSpace(c: char)
  {
    var k := c as int;
    k == 0x09 || k == 0x0A || k == 0x0B || k == 0x0C || k == 0x0D || k == 0x20 ||
    k == 0xA0 || k == 0x1680 || (0x2000 <= k <= 0x200A) || k == 0x2028 || k == 0x2029 ||
    k == 0x202F || k == 0x205F || k == 0x3000 || k == 0xFEFF
  }

  /** `trimStart()`: the longest suffix of `s` that does not start with a space. */
  function TrimStart(s: string): (r: string)
    ensures |r| <= |s| && r == s[|s| - |r|..]
    ensures forall k :: 0 <= k < |s| - |r| ==> IsSpace(s[k])
    ensures |r| > 0 ==> !IsSpace(r[0])
  {
    if |s| > 0 && IsSpace(s[0]) then
      var r := TrimStart(s[1..]);
      assert forall k :: 1 <= k < |s| ==> s[k] == s[1..][k - 1];
      r
    else s
  }

  /** `trimEnd()`: the longest prefix of `s` that does not end with a space. */
  function TrimEnd(s: string): (r: string)
    ensures |r| <= |s| && r == s[..|r|]
    ensures forall k :: |r| <= k < |s| ==> IsSpace(s[k])
    ensures |r| > 0 ==> !IsSpace(r[|r| - 1])
  {
    if |s| > 0 && IsSpace(s[|s| - 1]) then
      var r := TrimEnd(s[..|s| - 1]);
      assert forall k :: 0 <= k < |s| - 1 ==> s[k] == s[..|s| - 1][k];
      r
    else s
  }

  /** `trim()`: neither end of the result is a space, and nothing is left
      exactly when `s` is all spaces. */
  function Trim(s: string): (r: string)
    ensures |r| <= |s|
    ensures |r| > 0 ==> !IsSpace(r[0]) && !IsSpace(r[|r| - 1])
    ensures r == "" <==> forall k :: 0 <= k < |s| ==> IsSpace(s[k])
  {
    var t := TrimStart(s);
    var r := TrimEnd(t);
    assert r == "" ==> t == "";
    r
  }

  /** Every character `trim()` keeps comes from `s`. */
  lemma TrimKeepsChars(s: string)
    ensures forall i :: 0 <= i < |Trim(s)| ==> Trim(s)[i] in s
  {
    var t := TrimStart(s);
    var r := TrimEnd(t);
    assert Trim(s) == r;
    forall i | 0 <= i < |r|
      ensures r[i] in s
    {
      var j := |s| - |t| + i;
      assert r[i] == t[i] == s[j];
    }
  }

  /** Trimming a string that has no space at either end changes nothing. */
  lemma TrimOfTrimmed(s: string)
    requires |s| > 0 ==> !IsSpace(s[0]) && !IsSpace(s[|s| - 1])
    ensures Trim(s) == s
  {
  }

  /** How every handler cleans an e-mail address: `email.toLowerCase().trim()`. */
  function NormalizeEmail(e: string): (r: string)
    ensures forall i :: 0 <= i < |r| ==> !IsUpperAscii(r[i])
    ensures |r| > 0 ==> !IsSpace(r[0]) && !IsSpace(r[|r| - 1])
  {
    TrimKeepsChars(Lower(e));
    Trim(Lower(e))
  }

  /** Cleaning an already cleaned address changes nothing, so lookups and
      stores agree on the key. */
  lemma {:induction false} NormalizeEmailIdempotent(e: string)
    ensures NormalizeEmail(NormalizeEmail(e)) == NormalizeEmail(e)
  {
    var n := NormalizeEmail(e);
    LowerOfLower(n);
    TrimOfTrimmed(n);
  }

  // ---------------------------------------------------------------------------
  // Searching

  /** `s.startsWith(p)`. */
  predicate StartsWith(s: string, p: string)
  {
    |p| <= |s| && s[..|p|] == p
  }

  /** `s.includes(t)`: `t` occurs somewhere in `s`. */
  predicate Contains(s: string, t: string)
    decreases |s|
  {
    StartsWith(s, t) || (|s| > 0 && Contains(s[1..], t))
  }

  /** `t` occurs in `s` starting at position `i`. */
  ghost predicate OccursAt(s: string, t: string, i: int)
  {
    0 <= i <= |s| - |t| && s[i..i + |t|] == t
  }

  /** `Contains` holds exactly when `t` occurs at some position of `s`. */
  lemma {:induction false} ContainsAt(s: string, t: string)
    ensures Contains(s, t) <==> exists i :: OccursAt(s, t, i)
    decreases |s|
  {
    if StartsWith(s, t) {
      assert OccursAt(s, t, 0);
    }
    if |s| > 0 {
      ContainsAt(s[1..], t);
      if exists i :: OccursAt(s, t, i) {
        var i :| OccursAt(s, t, i);
        if i > 0 {
          assert OccursAt(s[1..], t, i - 1) by {
            assert s[1..][i - 1..i - 1 + |t|] == s[i..i + |t|];
          }
        }
      }
      if Contains(s[1..], t) && !StartsWith(s, t) {
        var i :| OccursAt(s[1..], t, i);
        assert OccursAt(s, t, i + 1) by {
          assert s[1..][i..i + |t|] == s[i + 1..i + 1 + |t|];
        }
      }
    }
  }

  /** The first position of `c` in `s`, if any. */
  function IndexOfChar(s: string, c: char): (r: Option<nat>)
    ensures r.Some? ==> r.value < |s| && s[r.value] == c && c !in s[..r.value]
    ensures r.None? ==> c !in s
  {
    if |s| == 0 then None
    else if s[0] == c then Some(0)
    else match IndexOfChar(s[1..], c)
      case None => None
      case Some(k) => Some(k + 1)
  }

  /** `a || d` on an optional text field: `d` when `a` is absent or empty. */
  function TextOr(a: Option<string>, d: string): (r: string)
    ensures a.Some? && a.value != "" ==> r == a.value
    ensures !(a.Some? && a.value != "") ==> r == d
  {
    if a.Some? && a.value != "" then a.value else d
  }

  /** `s.split(" ")[1]`: the text between the first and the second space
      (or the end), absent when `s` has no space. */
  function SecondPiece(s: string): (r: Option<string>)
    ensures r.None? <==> ' ' !in s
    ensures r.Some? ==> ' ' !in r.value
    ensures r.Some? ==> exists i :: 0 <= i < |s| && s[i] == ' ' && ' ' !in s[..i] && StartsWith(s[i + 1..], r.value)
  {
    match IndexOfChar(s, ' ')
    case None => None
    case Some(i) =>
      var rest := s[i + 1..];
      var piece := match IndexOfChar(rest, ' ') case None => rest case Some(j) => rest[..j];
      Some(piece)
  }

  /** `s.slice(-k)` for k > 0: the last k characters, or all of `s` when shorter. */
  function LastChars(s: string, k: nat): (r: string)
    ensures |r| == if |s| < k then |s| else k
    ensures r == s[|s| - |r|..]
  {
    if |s| <= k then s else s[|s| - k..]
  }

  // ---------------------------------------------------------------------------
  // Numbers and text

  predicate IsDecimalDigit(c: char) { '0' <= c <= '9' }

  function DigitChar(d: nat): (c: char)
    requires d < 10
    ensures IsDecimalDigit(c)
  {
    ('0' as int + d) as char
  }

  /** `String(n)` for a natural number: decimal, no leading zero. */
  function NatToString(n: nat): (r: string)
    ensures |r| >= 1
    ensures forall i :: 0 <= i < |r| ==> IsDecimalDigit(r[i])
    ensures r[0] == '0' ==> n == 0
  {
    if n < 10 then [DigitChar(n)] else NatToString(n / 10) + [DigitChar(n % 10)]
  }

  /** `String(i)` for an integer. */
  function IntToString(i: int): (r: string)
    ensures |r| >= 1
    ensures i >= 0 ==> r == NatToString(i)
    ensures i < 0 ==> r == "-" + NatToString(-i)
  {
    if i < 0 then "-" + NatToString(-i) else NatToString(i)
  }

  /** The value of `c` as a digit in base `radix`, or -1 when it is not one. */
  function DigitValue(c: char, radix: nat): (v: int)
    requires radix == 10 || radix == 16
    ensures -1 <= v < radix as int
    ensures IsDecimalDigit(c) ==> v == c as int - '0' as int
  {
    var d :=
      if '0' <= c <= '9' then c as int - '0' as int
      else if 'a' <= c <= 'z' then c as int - 'a' as int + 10
      else if 'A' <= c <= 'Z' then c as int - 'A' as int + 10
      else -1;
    if d < radix as int then d else -1
  }

  /** How many leading characters of `s` are digits in base `radix`. */
  function LeadingDigits(s: string, radix: nat): (k: nat)
    requires radix == 10 || radix == 16
    ensures k <= |s|
    ensures forall i :: 0 <= i < k ==> DigitValue(s[i], radix) >= 0
    ensures k < |s| ==> DigitValue(s[k], radix) < 0
  {
    if |s| > 0 && DigitValue(s[0], radix) >= 0 then 1 + LeadingDigits(s[1..], radix) else 0
  }

  /** The number a string of digits spells in base `radix`, most significant first. */
  function DigitsValue(ds: string, radix: nat): nat
    requires radix == 10 || radix == 16
    requires forall i :: 0 <= i < |ds| ==> DigitValue(ds[i], radix) >= 0
  {
    if |ds| == 0 then 0
    else DigitsValue(ds[..|ds| - 1], radix) * radix + DigitValue(ds[|ds| - 1], radix)
  }

  /** `parseInt(s)` with no radix: skip leading spaces, an optional sign, an
      optional `0x`/`0X` that switches to base 16, then as many digits as there
      are; absent (NaN) when there is none. */
  function ParseInt(s: string): Option<int>
  {
    ParseSigned(TrimStart(s))
  }

  /** The sign step of `parseInt`. */
  function ParseSigned(t: string): Option<int>
  {
    if |t| > 0 && t[0] == '-' then
      match ParseUnsigned(t[1..])
      case None => None
      case Some(v) => Some(-(v as int))
    else if |t| > 0 && t[0] == '+' then ParseUnsigned(t[1..])
    else ParseUnsigned(t)
  }

  /** The radix step of `parseInt`: a `0x` or `0X` prefix selects base 16. */
  function ParseUnsigned(u: string): Option<nat>
  {
    if |u| >= 2 && u[0] == '0' && (u[1] == 'x' || u[1] == 'X') then ParseDigits(u[2..], 16)
    else ParseDigits(u, 10)
  }

  /** The digit step of `parseInt`: the value of the leading digit run, absent when empty. */
  function ParseDigits(b: string, radix: nat): Option<nat>
    requires radix == 10 || radix == 16
  {
    var k := LeadingDigits(b, radix);
    if k == 0 then None else Some(DigitsValue(b[..k], radix))
  }

  /** The decimal text of `n` reads back as `n`. */
  lemma {:induction false} DigitsValueOfNatToString(n: nat)
    ensures forall i :: 0 <= i < |NatToString(n)| ==> DigitValue(NatToString(n)[i], 10) >= 0
    ensures DigitsValue(NatToString(n), 10) == n
  {
    var s := NatToString(n);
    if n >= 10 {
      DigitsValueOfNatToString(n / 10);
      assert s[..|s| - 1] == NatToString(n / 10);
    }
  }

  /** `parseInt(String(n) + rest)` is `n` whenever `rest` cannot continue the
      number: the text a handler writes for a term reads back as that term. */
  lemma {:induction false} ParseIntOfIntToString(n: int, rest: string)
    requires |rest| > 0 ==> !IsDecimalDigit(rest[0]) && !(n == 0 && (rest[0] == 'x' || rest[0] == 'X'))
    ensures ParseInt(IntToString(n) + rest) == Some(n)
  {
    var s := IntToString(n) + rest;
    ParseSignedOfIntToString(n, rest);
    IntToStringStartsClean(n, rest);
    NoSpaceTrimStart(s);
  }

  /** Text that does not start with a space is its own `trimStart()`. */
  lemma NoSpaceTrimStart(s: string)
    requires |s| > 0 && !IsSpace(s[0])
    ensures TrimStart(s) == s
  {
  }

  /** The sign step of `parseInt` reads the text of `n` back. */
  lemma {:induction false} ParseSignedOfIntToString(n: int, rest: string)
    requires |rest| > 0 ==> !IsDecimalDigit(rest[0]) && !(n == 0 && (rest[0] == 'x' || rest[0] == 'X'))
    ensures ParseSigned(IntToString(n) + rest) == Some(n)
  {
    if n < 0 {
      ParseSignedNegative(-n, rest);
    } else {
      ParseSignedNatural(n, rest);
    }
  }

  lemma ParseSignedNegative(m: nat, rest: string)
    requires m > 0
    requires |rest| > 0 ==> !IsDecimalDigit(rest[0])
    ensures ParseSigned(IntToString(-(m as int)) + rest) == Some(-(m as int))
  {
    var d := NatToString(m);
    var u := d + rest;
    var t := IntToString(-(m as int)) + rest;
    assert IntToString(-(m as int)) == "-" + d;
    assert t[0] == '-';
    assert t[1..] == u by {
      assert |t[1..]| == |u|;
      forall i | 0 <= i < |u|
        ensures t[1..][i] == u[i]
      {
        assert t[1..][i] == t[i + 1];
      }
    }
    ParseUnsignedOfNatToString(m, rest);
  }

  lemma ParseSignedNatural(m: nat, rest: string)
    requires |rest| > 0 ==> !IsDecimalDigit(rest[0]) && !(m == 0 && (rest[0] == 'x' || rest[0] == 'X'))
    ensures ParseSigned(IntToString(m) + rest) == Some(m)
  {
    var u := NatToString(m) + rest;
    assert IntToString(m) + rest == u;
    ParseUnsignedOfNatToString(m, rest);
    assert u[0] == NatToString(m)[0];
    assert IsDecimalDigit(u[0]);
  }

  /** The text of a number starts with a sign or a digit, never a space. */
  lemma IntToStringStartsClean(n: int, rest: string)
    ensures !IsSpace((IntToString(n) + rest)[0])
  {
    var t := IntToString(n);
    assert (t + rest)[0] == t[0];
    if n >= 0 {
      assert IsDecimalDigit(t[0]);
    }
  }

  /** The unsigned step reads the decimal text of `m` back, followed by any
      text that cannot continue it. */
  lemma {:induction false} ParseUnsignedOfNatToString(m: nat, rest: string)
    requires |rest| > 0 ==> !IsDecimalDigit(rest[0]) && !(m == 0 && (rest[0] == 'x' || rest[0] == 'X'))
    ensures ParseUnsigned(NatToString(m) + rest) == Some(m)
  {
    var digits := NatToString(m);
    var u := digits + rest;
    if |u| >= 2 && u[0] == '0' {
      assert m == 0 && digits == "0";
      assert u[1] == rest[0];
    }
    DigitsValueOfNatToString(m);
    LeadingDigitsOfDigits(digits, rest);
    assert u[..|digits|] == digits;
  }

  /** The digit run at the front of `digits + rest` is exactly `digits`. */
  lemma {:induction false} LeadingDigitsOfDigits(digits: string, rest: string)
    requires forall i :: 0 <= i < |digits| ==> IsDecimalDigit(digits[i])
    requires |rest| > 0 ==> !IsDecimalDigit(rest[0])
    ensures LeadingDigits(digits + rest, 10) == |digits|
  {
    var s := digits + rest;
    if |digits| > 0 {
      DecimalDigitCounts(digits[0]);
      assert s[0] == digits[0];
      assert s[1..] == digits[1..] + rest;
      forall i | 0 <= i < |digits| - 1
        ensures IsDecimalDigit(digits[1..][i])
      {
        assert digits[1..][i] == digits[i + 1];
      }
      LeadingDigitsOfDigits(digits[1..], rest);
    } else {
      assert s == rest;
      if |rest| > 0 {
        OtherCharStops(rest[0]);
      }
    }
  }

  /** A decimal digit is a digit in base 10. */
  lemma DecimalDigitCounts(c: char)
    requires IsDecimalDigit(c)
    ensures DigitValue(c, 10) >= 0
  {
  }

  /** Any other character ends a run of base-10 digits. */
  lemma OtherCharStops(c: char)
    requires !IsDecimalDigit(c)
    ensures DigitValue(c, 10) < 0
  {
  }

  // ---------------------------------------------------------------------------
  // Paths

  /** The last path segment of `p` (what follows its last '/'). */
  function BaseName(p: string): (r: string)
    ensures '/' !in r
    ensures |r| <= |p|
    ensures r == p[|p| - |r|..]
  {
    if |p| == 0 then p
    else if p[|p| - 1] == '/' then []
    else
      var r := BaseName(p[..|p| - 1]);
      assert p[..|p| - 1][|p| - 1 - |r|..] + [p[|p| - 1]] == p[|p| - 1 - |r|..];
      r + [p[|p| - 1]]
  }

  /** The position of the last '.' in `s`, if any. */
  function LastDot(s: string): (r: Option<nat>)
    ensures r.Some? ==> r.value < |s| && s[r.value] == '.' && '.' !in s[r.value + 1..]
    ensures r.None? ==> '.' !in s
  {
    if |s| == 0 then None
    else if s[|s| - 1] == '.' then Some(|s| - 1)
    else
      var r := LastDot(s[..|s| - 1]);
      assert r.Some? ==> s[r.value + 1..] == s[..|s| - 1][r.value + 1..] + [s[|s| - 1]];
      assert r.None? ==> s == s[..|s| - 1] + [s[|s| - 1]];
      r
  }

  /** Node's `path.extname`: from the last '.' of the last segment to its end;
      empty when there is no '.', when that '.' opens the segment, or for "..".
      Trailing separators are not stripped first. */
  function ExtName(p: string): (r: string)
    ensures |r| > 0 ==> r[0] == '.' && '.' !in r[1..] && '/' !in r
    ensures |r| > 0 ==> |r| < |BaseName(p)| && r == BaseName(p)[|BaseName(p)| - |r|..]
  {
    var b := BaseName(p);
    match LastDot(b)
    case None => []
    case Some(i) => if i == 0 || b == ".." then [] else b[i..]
  }
}
