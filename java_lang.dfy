/**
 * The JDK behaviour the RPC runtime relies on, stated exactly: 32-bit `int`
 * arithmetic (wrap-around and the truncating `%`), `String.trim`,
 * `String.split` on a one-character separator, `Integer.parseInt`,
 * `Integer.toHexString`, `String.equalsIgnoreCase`, and the runtime class of
 * the values that travel in requests and responses.
 */
module JavaLang {
  import opened Wrappers

  // ---------------------------------------------------------------------------
  // 32-bit int

  const INT_MIN: int := -0x8000_0000
  const INT_MAX: int := 0x7fff_ffff
  const TWO_POW_32: int := 0x1_0000_0000

  predicate IsInt(n: int) { INT_MIN <= n <= INT_MAX }

  /** The Java `int` that an exact integer result wraps to. */
  function Wrap(n: int): (r: int)
    ensures IsInt(r)
    ensures (n - r) % TWO_POW_32 == 0
    ensures IsInt(n) ==> r == n
  {
    (n - INT_MIN) % TWO_POW_32 + INT_MIN
  }

  /** Java's `a % b` for a positive divisor: the remainder takes the sign of `a`. */
  function Rem(a: int, b: int): (r: int)
    requires b > 0
    ensures a >= 0 ==> 0 <= r < b
    ensures a < 0 ==> -b < r <= 0
  {
    if a >= 0 then a % b else -((-a) % b)
  }

  // ---------------------------------------------------------------------------
  // Objects carried by requests and responses

  /** A Java object passed as an argument, returned as a result or registered as a service bean. */
  datatype Value =
    | Str(s: string)
    | Int(i: int)
    | Bool(b: bool)
    | Obj(className: string, ref: nat)   // any other object, by class and identity

  /** The `toString` of a `NullPointerException` without a message. */
  const NULL_POINTER: string := "java.lang.NullPointerException"

  /** `obj.getClass().getName()` */
  function ClassName(v: Value): string
  {
    match v
    case Str(_) => "java.lang.String"
    case Int(_) => "java.lang.Integer"
    case Bool(_) => "java.lang.Boolean"
    case Obj(c, _) => c
  }

  // ---------------------------------------------------------------------------
  // String.trim

  /** A string made only of characters at or below U+0020, the ones `trim` removes. */
  predicate IsBlank(s: string)
  {
    forall i :: 0 <= i < |s| ==> s[i] <= ' '
  }

  /** `s` without its leading characters at or below U+0020. */
  function TrimStart(s: string): (r: string)
    ensures |r| <= |s| && r == s[|s| - |r|..]
    ensures IsBlank(s[..|s| - |r|])
    ensures |r| > 0 ==> r[0] > ' '
  {
    if |s| > 0 && s[0] <= ' ' then TrimStart(s[1..]) else s
  }

  /** `s` without its trailing characters at or below U+0020. */
  function TrimEnd(s: string): (r: string)
    ensures |r| <= |s| && r == s[..|r|]
    ensures IsBlank(s[|r|..])
    ensures |r| > 0 ==> r[|r| - 1] > ' '
  {
    if |s| > 0 && s[|s| - 1] <= ' ' then TrimEnd(s[..|s| - 1]) else s
  }

  /** `String.trim`. */
  function Trim(s: string): string
  {
    TrimEnd(TrimStart(s))
  }

  /**
   * What `trim` keeps: `s` is blanks (`TrimStart` drops exactly those, by its
   * contract), then `s.trim()`, then blanks.
   */
  lemma TrimDecomposes(s: string)
    ensures Trim(s) <= s[|s| - |TrimStart(s)|..]
    ensures |s| - |TrimStart(s)| + |Trim(s)| <= |s|
    ensures IsBlank(s[|s| - |TrimStart(s)| + |Trim(s)|..])
  {
    TrimOfTrimStart(s);
    TrimParts(s, TrimStart(s), Trim(s));
  }

  /** `s.trim()` is `TrimStart(s)` without its trailing blanks. */
  lemma TrimOfTrimStart(s: string)
    ensures |Trim(s)| <= |TrimStart(s)| && Trim(s) == TrimStart(s)[..|Trim(s)|]
    ensures IsBlank(TrimStart(s)[|Trim(s)|..])
  {
    var t := TrimStart(s);
    assert Trim(s) == TrimEnd(t);
  }

  /** The blanks after a prefix `r` of the suffix `t` of `s`, inside `s`. */
  lemma TrimParts(s: string, t: string, r: string)
    requires |t| <= |s| && t == s[|s| - |t|..]
    requires |r| <= |t| && IsBlank(t[|r|..])
    ensures |s| - |t| + |r| <= |s|
    ensures IsBlank(s[|s| - |t| + |r|..])
  {
    assert t[|r|..] == s[|s| - |t| + |r|..];
  }

  /** `s.trim()` neither starts nor ends with a blank. */
  lemma TrimEdges(s: string)
    ensures |Trim(s)| > 0 ==> Trim(s)[0] > ' ' && Trim(s)[|Trim(s)| - 1] > ' '
  {
    var t := TrimStart(s);
    var r := TrimEnd(t);
    assert Trim(s) == r;
    if |r| > 0 {
      assert r[0] == t[0];
    }
  }

  /** `s.trim().length() > 0` exactly when `s` has a character above U+0020. */
  lemma TrimEmptyIffBlank(s: string)
    ensures |Trim(s)| == 0 <==> IsBlank(s)
  {
    var t := TrimStart(s);
    if |Trim(s)| == 0 {
      assert t[0..] == t;
      assert IsBlank(t);
      assert |t| == 0;
      assert s[..|s|] == s;
    } else {
      var r := Trim(s);
      assert r[0] > ' ';
      assert r[0] == t[0] == s[|s| - |t|];
    }
  }

  // ---------------------------------------------------------------------------
  // String.split with a one-character, non-regex separator, limit 0

  /** The pieces joined back together with `sep` between them. */
  function Join(parts: seq<string>, sep: char): string
    requires |parts| >= 1
  {
    if |parts| == 1 then parts[0] else parts[0] + [sep] + Join(parts[1..], sep)
  }

  /** Every maximal run between separators, empty runs included. */
  function Pieces(s: string, sep: char): (r: seq<string>)
    ensures |r| >= 1
    ensures Join(r, sep) == s
    ensures forall i :: 0 <= i < |r| ==> sep !in r[i]
  {
    if |s| == 0 then [""]
    else
      var rest := Pieces(s[1..], sep);
      if s[0] == sep then
        assert [""] + rest == [""] + rest[0..];
        [""] + rest
      else
        var r := [[s[0]] + rest[0]] + rest[1..];
        assert |r| == 1 ==> Join(r, sep) == s;
        assert |r| > 1 ==> r[1..] == rest[1..] && Join(rest, sep) == rest[0] + [sep] + Join(rest[1..], sep);
        r
  }

  /** The pieces without their trailing empty strings. */
  function DropTrailingEmpty(parts: seq<string>): (r: seq<string>)
    ensures |r| <= |parts| && r == parts[..|r|]
    ensures |r| > 0 ==> r[|r| - 1] != ""
    ensures forall i :: |r| <= i < |parts| ==> parts[i] == ""
  {
    if |parts| > 0 && parts[|parts| - 1] == "" then DropTrailingEmpty(parts[..|parts| - 1]) else parts
  }

  /** `n` copies of the separator. */
  function Seps(n: nat, sep: char): (r: string)
    ensures |r| == n && forall i :: 0 <= i < n ==> r[i] == sep
  {
    if n == 0 then "" else [sep] + Seps(n - 1, sep)
  }

  /** Empty pieces at the end contribute only their separators to the join. */
  lemma {:induction false} JoinEmptyTail(parts: seq<string>, k: nat, sep: char)
    requires 1 <= k <= |parts|
    requires forall i :: k <= i < |parts| ==> parts[i] == ""
    ensures Join(parts, sep) == Join(parts[..k], sep) + Seps(|parts| - k, sep)
  {
    if k == |parts| {
      assert parts[..k] == parts;
    } else if k > 1 {
      JoinEmptyTail(parts[1..], k - 1, sep);
      assert parts[..k][1..] == parts[1..][..k - 1];
    } else {
      JoinEmptyTail(parts[1..], 1, sep);
      assert parts[1..][..1] == [""];
      assert Seps(|parts| - 1, sep) == [sep] + Seps(|parts| - 2, sep);
    }
  }

  /**
   * `s.split(sep)`: no separator gives `{s}` (even for ""), otherwise the
   * pieces without trailing empty ones. No piece holds the separator, the
   * last one is not empty, and the pieces joined are `s` up to a run of
   * separators at its end; a result without pieces means `s` is only
   * separators.
   */
  function Split(s: string, sep: char): (r: seq<string>)
    ensures forall i :: 0 <= i < |r| ==> sep !in r[i]
    ensures sep in s && |r| > 0 ==> r[|r| - 1] != ""
    ensures sep !in s ==> r == [s]
    ensures |r| > 0 ==> Join(r, sep) <= s && forall i :: |Join(r, sep)| <= i < |s| ==> s[i] == sep
    ensures |r| == 0 ==> forall i :: 0 <= i < |s| ==> s[i] == sep
  {
    if sep !in s then [s]
    else
      var p := Pieces(s, sep);
      var r := DropTrailingEmpty(p);
      assert |r| > 0 ==> Join(r, sep) <= s && forall i :: |Join(r, sep)| <= i < |s| ==> s[i] == sep by {
        if |r| > 0 {
          JoinEmptyTail(p, |r|, sep);
        }
      }
      assert |r| == 0 ==> forall i :: 0 <= i < |s| ==> s[i] == sep by {
        if |r| == 0 {
          JoinEmptyTail(p, 1, sep);
          assert p[..1] == [""];
        }
      }
      r
  }

  lemma {:induction false} PiecesNoSep(s: string, sep: char)
    requires sep !in s
    ensures Pieces(s, sep) == [s]
  {
    if |s| > 0 {
      assert sep !in s[1..] by { assert forall i :: 0 <= i < |s| - 1 ==> s[1..][i] == s[i + 1]; }
      PiecesNoSep(s[1..], sep);
      assert [s[0]] + s[1..] == s;
    }
  }

  lemma {:induction false} PiecesAfterFirstSep(a: string, sep: char, b: string)
    requires sep !in a
    ensures Pieces(a + [sep] + b, sep) == [a] + Pieces(b, sep)
  {
    var s := a + [sep] + b;
    if |a| == 0 {
      assert s[0] == sep && s[1..] == b;
    } else {
      assert s[0] == a[0] && s[1..] == a[1..] + [sep] + b;
      assert sep !in a[1..] by { assert forall i :: 0 <= i < |a| - 1 ==> a[1..][i] == a[i + 1]; }
      PiecesAfterFirstSep(a[1..], sep, b);
      assert [a[0]] + a[1..] == a;
    }
  }

  /** Splitting `a + sep + b` where neither side holds the separator and `b` is not empty. */
  lemma SplitPair(a: string, sep: char, b: string)
    requires sep !in a && sep !in b && b != ""
    ensures Split(a + [sep] + b, sep) == [a, b]
  {
    var s := a + [sep] + b;
    assert s[|a|] == sep;
    PiecesAfterFirstSep(a, sep, b);
    PiecesNoSep(b, sep);
    assert Pieces(s, sep) == [a, b];
  }

  /** A separator at the very end is dropped with the empty piece after it. */
  lemma SplitTrailingSep(a: string, sep: char)
    requires sep !in a && a != ""
    ensures Split(a + [sep], sep) == [a]
  {
    var s := a + [sep];
    assert s[|a|] == sep;
    assert s == a + [sep] + "";
    PiecesAfterFirstSep(a, sep, "");
    assert Pieces(s, sep) == [a, ""];
  }

  /** Every piece is empty. */
  predicate AllEmpty(parts: seq<string>)
  {
    forall i :: 0 <= i < |parts| ==> parts[i] == ""
  }

  /** Every character is the separator. */
  predicate AllSep(s: string, sep: char)
  {
    forall i :: 0 <= i < |s| ==> s[i] == sep
  }

  /** A string is all separators exactly when its first character is one and the rest is all separators. */
  lemma AllSepCons(s: string, sep: char)
    requires |s| > 0
    ensures AllSep(s, sep) <==> s[0] == sep && AllSep(s[1..], sep)
  {
    if s[0] == sep && AllSep(s[1..], sep) {
      forall i | 1 <= i < |s| ensures s[i] == sep {
        assert s[1..][i - 1] == s[i];
      }
    }
  }

  /** Prepending an empty piece keeps every piece empty, or not. */
  lemma AllEmptyCons(rest: seq<string>)
    ensures AllEmpty([""] + rest) <==> AllEmpty(rest)
  {
    if AllEmpty([""] + rest) {
      forall i | 0 <= i < |rest| ensures rest[i] == "" {
        assert ([""] + rest)[i + 1] == rest[i];
      }
    }
  }

  lemma {:induction false} PiecesAllEmptyIff(s: string, sep: char)
    ensures AllEmpty(Pieces(s, sep)) <==> AllSep(s, sep)
  {
    if |s| > 0 {
      PiecesAllEmptyIff(s[1..], sep);
      AllSepCons(s, sep);
      var rest := Pieces(s[1..], sep);
      if s[0] == sep {
        assert Pieces(s, sep) == [""] + rest;
        AllEmptyCons(rest);
      } else {
        assert Pieces(s, sep)[0] == [s[0]] + rest[0];
        assert Pieces(s, sep)[0] != "";
      }
    }
  }

  /** `split` returns an empty array exactly for a non-empty string made only of separators. */
  lemma SplitEmptyIff(s: string, sep: char)
    ensures |Split(s, sep)| == 0 <==> |s| > 0 && forall i :: 0 <= i < |s| ==> s[i] == sep
  {
    if sep in s {
      var p := Pieces(s, sep);
      PiecesAllEmptyIff(s, sep);
      var r := DropTrailingEmpty(p);
      if |r| > 0 {
        assert r[|r| - 1] == p[|r| - 1];
        assert !AllEmpty(p);
      } else {
        assert AllEmpty(p);
      }
      assert |s| > 0;
    } else if |s| > 0 {
      assert s[0] != sep;
    }
  }

  // ---------------------------------------------------------------------------
  // Integer.parseInt (radix 10, ASCII digits)

  predicate IsDigit(c: char) { '0' <= c <= '9' }

  predicate AllDigits(d: string) { forall i :: 0 <= i < |d| ==> IsDigit(d[i]) }

  function DigitsValue(d: string): nat
    requires AllDigits(d)
  {
    if |d| == 0 then 0 else DigitsValue(d[..|d| - 1]) * 10 + (d[|d| - 1] as int - '0' as int)
  }

  function NumberFormat(s: string): string
  {
    "java.lang.NumberFormatException: For input string: \"" + s + "\""
  }

  /** `Integer.parseInt(s)`: an optional sign, at least one digit, and a value in `int` range. */
  function ParseInt(s: string): (r: Result<int>)
    ensures r.Success? ==> IsInt(r.value)
    ensures r.Failure? ==> r.error == NumberFormat(s)
  {
    if |s| == 0 then Failure(NumberFormat(s))
    else
      var signed := s[0] == '-' || s[0] == '+';
      var digits := if signed then s[1..] else s;
      if |digits| == 0 || !AllDigits(digits) then Failure(NumberFormat(s))
      else
        var v: int := if s[0] == '-' then -(DigitsValue(digits) as int) else DigitsValue(digits);
        if IsInt(v) then Success(v) else Failure(NumberFormat(s))
  }

  /** The decimal text of a natural number, without sign or leading zeros. */
  function Decimal(n: nat): (r: string)
    ensures |r| > 0 && AllDigits(r)
  {
    if n < 10 then [('0' as int + n) as char] else Decimal(n / 10) + [('0' as int + n % 10) as char]
  }

  lemma {:induction false} DecimalValue(n: nat)
    ensures DigitsValue(Decimal(n)) == n
  {
    if n >= 10 {
      DecimalValue(n / 10);
      var d := Decimal(n);
      assert d[..|d| - 1] == Decimal(n / 10);
    }
  }

  /** `Integer.parseInt` reads back the decimal text of every non-negative `int`. */
  lemma ParseIntDecimal(n: nat)
    requires n <= INT_MAX
    ensures ParseInt(Decimal(n)) == Success(n)
  {
    DecimalValue(n);
  }

  /** `Integer.toString(n)`: the decimal text of an `int`, with a minus sign when negative. */
  function IntToString(n: int): (r: string)
    ensures |r| > 0
    ensures n < 0 <==> r[0] == '-'
  {
    if n < 0 then "-" + Decimal(-n) else Decimal(n)
  }

  /** `Integer.parseInt` reads back the text `Integer.toString` writes for every `int`. */
  lemma ParseIntToString(n: int)
    requires IsInt(n)
    ensures ParseInt(IntToString(n)) == Success(n)
  {
    if n < 0 {
      var s := IntToString(n);
      DecimalValue(-n);
      assert s[1..] == Decimal(-n);
    } else {
      ParseIntDecimal(n);
    }
  }

  /** The `toString` of what `new byte[len]` throws for a negative `len`. */
  function NegativeArraySize(len: int): string
  {
    "java.lang.NegativeArraySizeException: " + IntToString(len)
  }

  // ---------------------------------------------------------------------------
  // Integer.toHexString and String.equalsIgnoreCase

  /** `16^k` */
  function Pow16(k: nat): nat
  {
    if k == 0 then 1 else 16 * Pow16(k - 1)
  }

  /** The lower-case hexadecimal digits of `u`, without leading zeros. */
  function HexDigits(u: nat): (r: string)
    ensures |r| > 0
    ensures forall i :: 0 <= i < |r| ==> r[i] in "0123456789abcdef"
    ensures u > 0 ==> r[0] != '0'
  {
    var d := "0123456789abcdef";
    if u < 16 then [d[u]] else HexDigits(u / 16) + [d[u % 16]]
  }

  /** A number below `16^k` has at most `k` hexadecimal digits. */
  lemma {:induction false} HexDigitsShort(u: nat, k: nat)
    requires 1 <= k && u < Pow16(k)
    ensures |HexDigits(u)| <= k
  {
    if u >= 16 {
      assert k > 1;
      HexDigitsShort(u / 16, k - 1);
    }
  }

  /**
   * `Integer.toHexString(n)`: the unsigned 32-bit value in lower-case hex,
   * so at most eight digits, and a leading zero only for zero itself.
   */
  function ToHexString(n: int): (r: string)
    requires IsInt(n)
    ensures 1 <= |r| <= 8
    ensures forall i :: 0 <= i < |r| ==> r[i] in "0123456789abcdef"
    ensures n != 0 ==> r[0] != '0'
  {
    var u := if n < 0 then n + TWO_POW_32 else n;
    assert Pow16(8) == TWO_POW_32;
    HexDigitsShort(u, 8);
    HexDigits(u)
  }

  /** The value of one lower-case hexadecimal digit. */
  function HexDigitValue(c: char): int
  {
    if '0' <= c <= '9' then c as int - '0' as int else c as int - 'a' as int + 10
  }

  /** The number a string of lower-case hexadecimal digits denotes. */
  function HexValue(s: string): int
  {
    if |s| == 0 then 0 else HexValue(s[..|s| - 1]) * 16 + HexDigitValue(s[|s| - 1])
  }

  /** Reading back the digits `HexDigits` writes gives the number written. */
  lemma {:induction false} HexRoundTrip(u: nat)
    ensures HexValue(HexDigits(u)) == u
  {
    var d := "0123456789abcdef";
    var k := u % 16;
    assert HexDigitValue(d[k]) == k by {
      assert d[k] == "0123456789abcdef"[k];
      if k < 10 {
        assert d[k] as int == '0' as int + k;
      } else {
        assert d[k] as int == 'a' as int + (k - 10);
      }
    }
    if u >= 16 {
      HexRoundTrip(u / 16);
      var s := HexDigits(u);
      assert s[..|s| - 1] == HexDigits(u / 16);
    }
  }

  /** `Integer.toHexString` writes the two's-complement value of its argument. */
  lemma ToHexStringValue(n: int)
    requires IsInt(n)
    ensures HexValue(ToHexString(n)) == if n < 0 then n + TWO_POW_32 else n
  {
    HexRoundTrip(if n < 0 then n + TWO_POW_32 else n);
  }

  function ToUpperAscii(c: char): char
  {
    if 'a' <= c <= 'z' then (c as int - 32) as char else c
  }

  function ToLowerAscii(c: char): char
  {
    if 'A' <= c <= 'Z' then (c as int + 32) as char else c
  }

  /** The characters that upper-case to `u`, for a `u` that is not a lower-case letter: `u` and its lower case. */
  lemma ToUpperAsciiInverse(c: char, u: char)
    requires ToUpperAscii(u) == u
    ensures ToUpperAscii(c) == u <==> c == u || c == ToLowerAscii(u)
  {
  }

  /** Every character of `s` in upper case. */
  function UpperAscii(s: string): (r: string)
    ensures |r| == |s|
  {
    seq(|s|, i requires 0 <= i < |s| => ToUpperAscii(s[i]))
  }

  /**
   * `a.equalsIgnoreCase(b)` for a non-null `b`, with case folding of the
   * ASCII letters: the two strings agree once both are upper-cased.
   */
  predicate EqualsIgnoreCase(a: string, b: string): (eq: bool)
    ensures eq <==> UpperAscii(a) == UpperAscii(b)
    ensures a == b ==> eq
  {
    var ua := UpperAscii(a);
    var ub := UpperAscii(b);
    assert forall i :: 0 <= i < |a| ==> ua[i] == ToUpperAscii(a[i]);
    assert forall i :: 0 <= i < |b| ==> ub[i] == ToUpperAscii(b[i]);
    |a| == |b| && forall i :: 0 <= i < |a| ==> ToUpperAscii(a[i]) == ToUpperAscii(b[i])
  }
}
