/**
 * The semantics of the few Java library operations the desktop device support
 * relies on, restricted to what that code needs: String.compareTo,
 * String.replace(target, ""), String.split(" "), Integer.parseInt and
 * Long.parseLong, Long.toString and Integer.toHexString.
 */
module JavaLang {
  import opened Outcomes

  /** The exceptions that escape the modelled handlers: none of them is caught there. */
  datatype Exception =
    | NumberFormatException(input: string)
    | NullPointerException
    | JsonSyntaxException

  const IntMin: int := -0x8000_0000
  const IntMax: int := 0x7FFF_FFFF
  const LongMin: int := -0x8000_0000_0000_0000
  const LongMax: int := 0x7FFF_FFFF_FFFF_FFFF

  /**
   * Cursor.getInt of an integer column: the stored value cast to int, that is
   * its low 32 bits read in two's complement.
   */
  function GetInt(v: int): (r: int)
    ensures IntMin <= r <= IntMax
    ensures (v - r) % 0x1_0000_0000 == 0
    ensures IntMin <= v <= IntMax ==> r == v
  {
    var m := v % 0x1_0000_0000;
    if m > IntMax then m - 0x1_0000_0000 else m
  }

  // ---------------------------------------------------------------------------
  // Decimal digits: Long.toString, Integer.parseInt, Long.parseLong
  // ---------------------------------------------------------------------------

  predicate IsDigit(c: char) { '0' <= c <= '9' }

  predicate AllDigits(s: string) { forall i :: 0 <= i < |s| ==> IsDigit(s[i]) }

  /** The value of a string of decimal digits, most significant first. */
  function DigitsValue(s: string): nat
    requires AllDigits(s)
  {
    if s == [] then 0 else DigitsValue(s[..|s| - 1]) * 10 + (s[|s| - 1] as int - '0' as int)
  }

  function DigitChar(d: nat): (c: char)
    requires d < 10
    ensures IsDigit(c) && c as int - '0' as int == d
  {
    ('0' as int + d) as char
  }

  /** Long.toString of a non-negative value: its digits, with no leading zero. */
  function Decimal(n: nat): (r: string)
    ensures 1 <= |r| && AllDigits(r)
    ensures DigitsValue(r) == n
    ensures |r| == 1 <==> n < 10
    ensures r[0] == '0' <==> n == 0
  {
    if n < 10 then [DigitChar(n)]
    else
      var r := Decimal(n / 10) + [DigitChar(n % 10)];
      assert r[..|r| - 1] == Decimal(n / 10);
      r
  }

  /** Integer.toString / Long.toString of any value. */
  function IntString(i: int): string
  {
    if i < 0 then "-" + Decimal(-i) else Decimal(i)
  }

  /**
   * How Integer.parseInt (min, max = IntMin, IntMax) and Long.parseLong
   * (LongMin, LongMax) read a string: one optional sign, at least one digit,
   * and a value inside the type's range; anything else is None (the
   * NumberFormatException).
   */
  function ParseSigned(s: string, min: int, max: int): (r: Option<int>)
    ensures r.Some? ==> min <= r.value <= max
    ensures r.Some? ==> s != [] && (s[0] == '-' || s[0] == '+' || IsDigit(s[0]))
  {
    if s == [] then None
    else
      var digits := if s[0] == '-' || s[0] == '+' then s[1..] else s;
      if digits == [] || !AllDigits(digits) then None
      else
        var v: int := if s[0] == '-' then 0 - DigitsValue(digits) else DigitsValue(digits);
        if min <= v <= max then Some(v) else None
  }

  /** Integer.parseInt(s). */
  function ParseInt(s: string): Result<int, Exception>
  {
    match ParseSigned(s, IntMin, IntMax)
    case Some(v) => Ok(v)
    case None => Err(NumberFormatException(s))
  }

  /** Long.parseLong(s) returns normally. */
  predicate IsLong(s: string)
  {
    ParseSigned(s, LongMin, LongMax).Some?
  }

  /** Reading back what Integer.toString wrote: the value itself when it fits an int, else the exception. */
  lemma ParseIntString(i: int)
    ensures ParseInt(IntString(i)) ==
      if IntMin <= i <= IntMax then Ok(i) else Err(NumberFormatException(IntString(i)))
  {
    var s := IntString(i);
    if i < 0 {
      assert s[1..] == Decimal(-i);
    }
  }

  /** The empty string is never a number. */
  lemma ParseIntEmpty()
    ensures ParseInt("") == Err(NumberFormatException(""))
  {
  }

  // ---------------------------------------------------------------------------
  // String.compareTo
  // ---------------------------------------------------------------------------

  /** String.compareTo: the difference of the first differing chars, else of the lengths. */
  function CompareTo(a: string, b: string): int
  {
    if a == [] || b == [] then |a| - |b|
    else if a[0] != b[0] then a[0] as int - b[0] as int
    else CompareTo(a[1..], b[1..])
  }

  lemma {:induction false} CompareToAntisymmetric(a: string, b: string)
    ensures CompareTo(b, a) == -CompareTo(a, b)
  {
    if a != [] && b != [] && a[0] == b[0] {
      CompareToAntisymmetric(a[1..], b[1..]);
    }
  }

  lemma {:induction false} CompareToZero(a: string, b: string)
    ensures CompareTo(a, b) == 0 <==> a == b
  {
    if a != [] && b != [] && a[0] == b[0] {
      CompareToZero(a[1..], b[1..]);
      assert a == [a[0]] + a[1..] && b == [b[0]] + b[1..];
    }
  }

  /** Lexicographic order is transitive: the order the date comparator of getAllSms relies on. */
  lemma {:induction false} CompareToTransitive(a: string, b: string, c: string)
    requires CompareTo(a, b) >= 0 && CompareTo(b, c) >= 0
    ensures CompareTo(a, c) >= 0
  {
    if a != [] && b != [] && c != [] && a[0] == b[0] && b[0] == c[0] {
      CompareToTransitive(a[1..], b[1..], c[1..]);
    }
  }

  /**
   * Appending one char to two strings of the same length: the comparison is
   * decided by the prefixes when they differ, and by the last chars otherwise.
   */
  lemma {:induction false} CompareToSnoc(x: string, y: string, c: char, e: char)
    requires |x| == |y|
    ensures CompareTo(x + [c], y + [e]) == if x != y then CompareTo(x, y) else c as int - e as int
  {
    if x != [] && x[0] == y[0] {
      assert (x + [c])[1..] == x[1..] + [c] && (y + [e])[1..] == y[1..] + [e];
      CompareToSnoc(x[1..], y[1..], c, e);
      assert x[1..] == y[1..] <==> x == y by {
        assert x == [x[0]] + x[1..] && y == [y[0]] + y[1..];
      }
    }
  }

  // ---------------------------------------------------------------------------
  // String.replace(target, "")
  // ---------------------------------------------------------------------------

  /** s.replace(target, ""): every occurrence of target, scanning left to right without overlap, removed. */
  function RemoveAll(s: string, target: string): (r: string)
    requires target != []
    ensures |r| <= |s|
    decreases |s|
  {
    if |s| < |target| then s
    else if s[..|target|] == target then RemoveAll(s[|target|..], target)
    else [s[0]] + RemoveAll(s[1..], target)
  }

  /** A string without the target's first char is left as it is. */
  lemma {:induction false} RemoveAllAbsent(s: string, target: string)
    requires target != [] && target[0] !in s
    ensures RemoveAll(s, target) == s
  {
    if |s| >= |target| {
      assert s[..|target|][0] == s[0];
      RemoveAllAbsent(s[1..], target);
    }
  }

  /** Removing a one-char target keeps exactly the other chars, in order. */
  lemma {:induction false} RemoveAllChar(s: string, c: char)
    ensures c !in RemoveAll(s, [c])
    ensures RemoveAll(s, [c]) == Without(s, c)
  {
    if s != [] {
      RemoveAllChar(s[1..], c);
      if s[..1] == [c] {
        assert s[0] == c;
      } else {
        assert s[0] != c;
      }
    }
  }

  /** The chars of s other than c, in order. */
  function Without(s: string, c: char): string
  {
    if s == [] then [] else (if s[0] == c then [] else [s[0]]) + Without(s[1..], c)
  }

  // ---------------------------------------------------------------------------
  // String.split(" ")
  // ---------------------------------------------------------------------------

  /** The pieces of s between single separators: n separators give n + 1 pieces. */
  function Pieces(s: string, sep: char): (r: seq<string>)
    ensures |r| >= 1
  {
    if s == [] then [""]
    else
      var tail := Pieces(s[1..], sep);
      if s[0] == sep then [""] + tail else [[s[0]] + tail[0]] + tail[1..]
  }

  function DropTrailingEmpty(ps: seq<string>): seq<string>
  {
    if ps != [] && ps[|ps| - 1] == "" then DropTrailingEmpty(ps[..|ps| - 1]) else ps
  }

  /**
   * s.split(String.valueOf(sep)) for a separator that is no regular-expression
   * metacharacter: the pieces with the trailing empty ones removed. Java
   * returns the string itself when the separator does not occur; for a
   * non-empty string that is its single piece (SplitNoMatch), so only the
   * empty string needs its own case.
   */
  function Split(s: string, sep: char): seq<string>
  {
    if s == [] then [s] else DropTrailingEmpty(Pieces(s, sep))
  }

  /** Without a separator in it, a string splits into itself. */
  lemma SplitNoMatch(s: string, sep: char)
    requires sep !in s
    ensures Split(s, sep) == [s]
  {
    if s != [] {
      PiecesOfPlain(s, sep);
    }
  }

  /** The ids joined by the separator: the inverse of Split on well-formed ids. */
  function Join(ids: seq<string>, sep: char): string
    requires |ids| >= 1
  {
    if |ids| == 1 then ids[0] else ids[0] + [sep] + Join(ids[1..], sep)
  }

  lemma {:induction false} PiecesAllEmpty(s: string, sep: char)
    ensures (forall k :: 0 <= k < |Pieces(s, sep)| ==> Pieces(s, sep)[k] == "") <==>
            (forall i :: 0 <= i < |s| ==> s[i] == sep)
  {
    if s != [] {
      PiecesAllEmpty(s[1..], sep);
      var tail := Pieces(s[1..], sep);
      if s[0] == sep {
        var ps := Pieces(s, sep);
        assert ps == [""] + tail;
        if forall k :: 0 <= k < |tail| ==> tail[k] == "" {
          forall k | 0 <= k < |ps| ensures ps[k] == "" {
            if k > 0 { assert ps[k] == tail[k - 1]; }
          }
        }
        if forall k :: 0 <= k < |ps| ==> ps[k] == "" {
          forall k | 0 <= k < |tail| ensures tail[k] == "" {
            assert ps[k + 1] == tail[k];
          }
        }
        assert (forall i :: 0 <= i < |s| ==> s[i] == sep) <==> (forall i :: 0 <= i < |s[1..]| ==> s[1..][i] == sep) by {
          assert forall i :: 1 <= i < |s| ==> s[i] == s[1..][i - 1];
        }
      } else {
        assert Pieces(s, sep)[0] != "";
      }
    }
  }

  lemma {:induction false} DropTrailingEmptyNil(ps: seq<string>)
    ensures DropTrailingEmpty(ps) == [] <==> forall k :: 0 <= k < |ps| ==> ps[k] == ""
  {
    if ps != [] && ps[|ps| - 1] == "" {
      DropTrailingEmptyNil(ps[..|ps| - 1]);
    }
  }

  /** Split gives no piece at all exactly for a non-empty string of separators only. */
  lemma SplitEmptyIff(s: string, sep: char)
    ensures |Split(s, sep)| == 0 <==> s != [] && forall i :: 0 <= i < |s| ==> s[i] == sep
  {
    if s != [] {
      PiecesAllEmpty(s, sep);
      DropTrailingEmptyNil(Pieces(s, sep));
      assert Split(s, sep) == DropTrailingEmpty(Pieces(s, sep));
    }
  }

  lemma {:induction false} PiecesOfPlain(x: string, sep: char)
    requires sep !in x
    ensures Pieces(x, sep) == [x]
  {
    if x != [] {
      assert x[0] != sep by { assert x[0] in x; }
      PiecesOfPlain(x[1..], sep);
      assert [x[0]] + x[1..] == x;
    }
  }

  lemma {:induction false} PiecesAfterSeparator(x: string, y: string, sep: char)
    requires sep !in x
    ensures Pieces(x + [sep] + y, sep) == [x] + Pieces(y, sep)
  {
    if x == [] {
      assert ([] + [sep] + y)[1..] == y;
    } else {
      assert x[0] != sep by { assert x[0] in x; }
      assert (x + [sep] + y)[1..] == x[1..] + [sep] + y;
      PiecesAfterSeparator(x[1..], y, sep);
      assert [x[0]] + x[1..] == x;
    }
  }

  lemma {:induction false} PiecesJoin(ids: seq<string>, sep: char)
    requires |ids| >= 1 && forall k :: 0 <= k < |ids| ==> sep !in ids[k]
    ensures Pieces(Join(ids, sep), sep) == ids
  {
    if |ids| == 1 {
      PiecesOfPlain(ids[0], sep);
    } else {
      PiecesAfterSeparator(ids[0], Join(ids[1..], sep), sep);
      PiecesJoin(ids[1..], sep);
    }
  }

  /** Splitting what Join wrote gives the ids back, when none is empty or holds the separator. */
  lemma SplitJoin(ids: seq<string>, sep: char)
    requires |ids| >= 1
    requires forall k :: 0 <= k < |ids| ==> ids[k] != [] && sep !in ids[k]
    ensures Split(Join(ids, sep), sep) == ids
  {
    PiecesJoin(ids, sep);
    if |ids| > 1 {
      assert Join(ids, sep)[|ids[0]|] == sep;
    }
  }

  // ---------------------------------------------------------------------------
  // Integer.toHexString of a non-negative value
  // ---------------------------------------------------------------------------

  function HexDigit(d: nat): char
    requires d < 16
  {
    if d < 10 then ('0' as int + d) as char else ('a' as int + d - 10) as char
  }

  /** The value of a lower-case hexadecimal digit. */
  function HexDigitValue(c: char): Option<nat>
  {
    if '0' <= c <= '9' then Some(c as int - '0' as int)
    else if 'a' <= c <= 'f' then Some(c as int - 'a' as int + 10)
    else None
  }

  /** The value of a string of lower-case hexadecimal digits, most significant first. */
  function HexValue(s: string): Option<nat>
  {
    if s == [] then Some(0)
    else match (HexValue(s[..|s| - 1]), HexDigitValue(s[|s| - 1]))
      case (Some(h), Some(d)) => Some(h * 16 + d)
      case _ => None
  }

  /** Integer.toHexString(v) for v >= 0: lower-case digits, no leading zero, so 1 or 2 digits below 256. */
  function ToHexString(v: nat): (r: string)
    ensures HexValue(r) == Some(v)
    ensures |r| == 1 <==> v < 16
    ensures v < 256 ==> |r| <= 2
  {
    if v < 16 then
      assert [HexDigit(v)][..0] == [];
      [HexDigit(v)]
    else
      var r := ToHexString(v / 16) + [HexDigit(v % 16)];
      assert r[..|r| - 1] == ToHexString(v / 16);
      r
  }
}
