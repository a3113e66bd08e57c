/** C strings: characters up to the first NUL, searching, and the numbers printf writes. */
module CStrings {

  /** The character at an index of a C string, whose terminator may be read. */
  function At(s: string, i: nat): char
    requires i <= |s|
  {
    if i < |s| then s[i] else '\0'
  }

  /** Index of the first c in s, or |s|. */
  function Find(s: string, c: char): (i: nat)
    ensures i <= |s| && c !in s[..i] && (i < |s| ==> s[i] == c)
  {
    if s == "" then 0 else if s[0] == c then 0 else 1 + Find(s[1..], c)
  }

  /** Holds for the contents of a C string without its terminator. */
  predicate CString(s: string) {
    '\0' !in s
  }

  // ---- numbers -----------------------------------------------------------------------------

  predicate IsDigit(c: char) {
    '0' <= c <= '9'
  }

  predicate Digits(s: string) {
    forall k :: 0 <= k < |s| ==> IsDigit(s[k])
  }

  /** n as `%d` prints it. */
  function Decimal(n: nat): (s: string)
    ensures s != "" && Digits(s)
  {
    if n < 10 then [Digit(n)] else Decimal(n / 10) + [Digit(n % 10)]
  }

  function Digit(d: nat): (c: char)
    requires d < 10
    ensures IsDigit(c) && DigitValue(c) == d
  {
    '0' + d as char
  }

  function DigitValue(c: char): nat
    requires IsDigit(c)
  {
    c as nat - '0' as nat
  }

  /** One digit as `%x` prints it. */
  function HexDigit(d: nat): char
    requires d < 16
  {
    if d < 10 then Digit(d) else 'a' + (d - 10) as char
  }

  /** The number a string of digits denotes. */
  function Value(s: string): nat
    requires Digits(s)
  {
    if s == "" then 0 else 10 * Value(s[..|s| - 1]) + DigitValue(s[|s| - 1])
  }

  lemma {:induction false} DecimalValue(n: nat)
    ensures Value(Decimal(n)) == n
  {
    if n >= 10 {
      DecimalValue(n / 10);
      assert Decimal(n)[..|Decimal(n)| - 1] == Decimal(n / 10);
    } else {
      assert Decimal(n)[..0] == "";
    }
  }

  lemma Spellings()
    ensures Decimal(0) == "0" && Decimal(2) == "2" && Decimal(4) == "4" && Decimal(8) == "8"
    ensures Decimal(16) == "16" && Decimal(128) == "128"
  {
    assert Decimal(1) == "1" && Decimal(12) == Decimal(1) + "2" && "1" + "2" == "12";
    assert Decimal(16) == Decimal(1) + "6" && "1" + "6" == "16";
    assert Decimal(128) == Decimal(12) + "8" && "12" + "8" == "128";
  }

  ghost function PowerOfTen(k: nat): nat {
    if k == 0 then 1 else 10 * PowerOfTen(k - 1)
  }

  lemma {:induction false} DigitCount(n: nat, k: nat)
    requires k > 0 && n < PowerOfTen(k)
    ensures |Decimal(n)| <= k
  {
    if n >= 10 {
      DigitCount(n / 10, k - 1);
    }
  }

  lemma TwoDigits(n: nat)
    requires n < 100
    ensures |Decimal(n)| <= 2
  {
  }

  /** Every number a 32-bit int can hold takes at most ten digits. */
  lemma TenDigits(n: nat)
    requires n < 0x8000_0000
    ensures |Decimal(n)| <= 10
  {
    DigitCount(n, 10);
  }

  // ---- texts made of pieces ------------------------------------------------------------------

  /** The first n pieces, one after the other. */
  function Join(piece: nat -> string, n: nat): string {
    if n == 0 then "" else Join(piece, n - 1) + piece(n - 1)
  }

  lemma {:induction false} JoinGrows(piece: nat -> string, n: nat, count: nat)
    requires n <= count
    ensures |Join(piece, n)| <= |Join(piece, count)|
    decreases count
  {
    if n < count {
      JoinGrows(piece, n, count - 1);
    }
  }

  lemma {:induction false} JoinSame(piece: nat -> string, other: nat -> string, n: nat)
    requires forall k: nat :: k < n ==> piece(k) == other(k)
    ensures Join(piece, n) == Join(other, n)
  {
    if n > 0 {
      JoinSame(piece, other, n - 1);
    }
  }

  lemma {:induction false} JoinCString(piece: nat -> string, n: nat)
    requires forall k: nat :: k < n ==> CString(piece(k))
    ensures CString(Join(piece, n))
  {
    if n > 0 {
      JoinCString(piece, n - 1);
    }
  }

  /** One more piece behind a given text; what it needs and yields when `count` pieces have room. */
  lemma JoinStep(head: string, piece: nat -> string, n: nat, count: nat)
    requires n < count
    ensures head + Join(piece, n) + piece(n) == head + Join(piece, n + 1)
    ensures |head + Join(piece, n + 1)| <= |head| + |Join(piece, count)|
  {
    JoinGrows(piece, n + 1, count);
    Assoc(head, Join(piece, n), piece(n));
  }

  lemma Assoc<T>(a: seq<T>, b: seq<T>, c: seq<T>)
    ensures (a + b) + c == a + (b + c)
  {
  }

  lemma {:induction false} JoinBound(piece: nat -> string, n: nat, each: nat)
    requires forall k: nat :: k < n ==> |piece(k)| <= each
    ensures |Join(piece, n)| <= n * each
  {
    if n > 0 {
      JoinBound(piece, n - 1, each);
      assert n * each == (n - 1) * each + each;
    }
  }
}
