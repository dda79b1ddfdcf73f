/** Numbers printed to a memory channel, and parsed again. */
module Numerals {
  import opened Radix

  const TWO64: int := 0x1_0000_0000_0000_0000
  const TWO63: int := 0x8000_0000_0000_0000

  // ---- characters ----

  predicate IsSpace(c: char) {
    c == ' ' || 9 <= c as int <= 13
  }

  predicate IsDigit(c: char) {
    '0' <= c <= '9'
  }

  predicate IsLower(c: char) {
    'a' <= c <= 'z'
  }

  predicate IsUpper(c: char) {
    'A' <= c <= 'Z'
  }

  predicate IsAlnum(c: char) {
    IsDigit(c) || IsLower(c) || IsUpper(c)
  }

  /** The value of a letter or digit */
  function ValueOf(c: char): nat
    requires IsAlnum(c)
  {
    if IsDigit(c) then c as int - '0' as int
    else if IsLower(c) then c as int - 'a' as int + 10
    else c as int - 'A' as int + 10
  }

  /** Character i of a text, which a null character ends */
  function CharAt(s: string, i: nat): char {
    if i < |s| then s[i] else '\0'
  }

  // ---- what is printed ----

  const LOWER: string := "0123456789abcdef"
  const UPPER: string := "0123456789ABCDEF"

  function DigitChar(d: nat, caps: bool): char
    requires d < 16
  {
    if caps then UPPER[d] else LOWER[d]
  }

  lemma DigitCharValue(d: nat, base: nat, caps: bool)
    requires 2 <= base <= 16 && d < base
    ensures var c := DigitChar(d, caps);
      IsAlnum(c) && ValueOf(c) == d && (base <= 10 ==> IsDigit(c)) && (c == '0' <==> d == 0)
      && c !in {'x', 'X', '\0'}
  {
  }

  lemma ParentLess(d: nat, base: nat)
    requires base >= 2 && d > 0
    ensures Parent(base, d) < d
  {
    DivLess(d, base);
  }

  /** The digits of a number that is not zero, from the first */
  function DigitText(d: nat, base: nat, caps: bool): string
    requires 2 <= base <= 16
  {
    if d == 0 then "" else
      DivLess(d, base);
      DigitText(Parent(base, d), base, caps) + [DigitChar(LastDigit(base, d), caps)]
  }

  function Unsigned(d: nat, base: nat, caps: bool): string {
    if base < 2 || base > 16 then "<bad base>"
    else if d == 0 then "0"
    else DigitText(d, base, caps)
  }

  function Abs(d: int): nat {
    if d < 0 then -d else d
  }

  /** The sign a flag asks for */
  function Mark(d: int, plus: bool, space: bool): string {
    if plus && d >= 0 then "+" else if !plus && space && d > 0 then " " else ""
  }

  function Body(d: int, base: nat, caps: bool): string {
    if 2 <= base <= 16 && d < 0 then "-" + DigitText(-d, base, caps) else Unsigned(Abs(d), base, caps)
  }

  function Signed(d: int, base: nat, caps: bool, plus: bool, space: bool): string {
    Mark(d, plus, space) + Body(d, base, caps)
  }

  /** A memory channel: a buffer of some size, filled up to offset. */
  class MemChan {
    var buf: array<char>
    var offset: nat

    ghost predicate Valid()
      reads this
    {
      offset <= buf.Length < TWO32
    }

    ghost function Contents(): string
      reads this, buf
      requires Valid()
    {
      buf[..offset]
    }

    /** mc_alloc */
    constructor ()
      ensures Valid() && Contents() == "" && fresh(buf)
    {
      buf, offset := new char[0], 0;
    }

    /** mc_put: what was there stays, and data comes after it. */
    method Put(data: string)
      requires Valid() && offset + |data| < TWO32
      modifies this, buf
      ensures Valid() && Contents() == old(Contents()) + data && offset == old(offset) + |data|
      ensures (buf == old(buf) || fresh(buf))
    {
      if offset + |data| > buf.Length { Grow(offset + |data|); }
      CopyTo(buf, offset, data);
      offset := offset + |data|;
    }

    static method CopyTo(p: array<char>, at: nat, data: string)
      requires at + |data| <= p.Length
      modifies p
      ensures p[..at + |data|] == old(p[..at]) + data
    {
      forall i | 0 <= i < |data| { p[at + i] := data[i]; }
      assert p[..at] == old(p[..at]);
      assert forall i :: at <= i < at + |data| ==> p[i] == data[i - at];
    }

    /** Twice the size, in 32 bits, or what is needed */
    method Grow(needed: Word)
      requires Valid() && offset <= needed
      modifies this`buf
      ensures Valid() && Contents() == old(Contents()) && fresh(buf) && buf.Length >= needed
    {
      var size := buf.Length * 2 % TWO32;
      if needed > size { size := needed; }
      var bigger := new char[size];
      forall i | 0 <= i < offset { bigger[i] := buf[i]; }
      assert bigger[..offset] == buf[..offset];
      buf := bigger;
    }

    /** mc_puts, of the text in p from index k on, up to a null character */
    method PutString(p: array<char>, k: nat)
      requires Valid() && p != buf && k < p.Length && p[p.Length - 1] == '\0' && offset + p.Length - 1 - k < TWO32
      requires forall i :: k <= i < p.Length - 1 ==> p[i] != '\0'
      modifies this, buf
      ensures Valid() && Contents() == old(Contents()) + old(p[k..p.Length - 1])
      ensures (buf == old(buf) || fresh(buf))
    {
      var i := k;
      while p[i] != '\0'
        invariant k <= i < p.Length && Valid() && (buf == old(buf) || fresh(buf)) && p != buf && p[..] == old(p[..])
        invariant Contents() == old(Contents()) + p[k..i] && offset == old(offset) + i - k
        decreases p.Length - i
      {
        Put([p[i]]);
        assert p[k..i + 1] == p[k..i] + [p[i]];
        i := i + 1;
      }
    }

    /** The digits, from the last back to the first, in a buffer of 64 characters */
    method PutDigits(d0: nat, base: nat, caps: bool)
      requires Valid() && 2 <= base <= 16 && d0 > 0 && |DigitText(d0, base, caps)| <= 63
      requires offset + 63 < TWO32
      modifies this, buf
      ensures Valid() && Contents() == old(Contents()) + DigitText(d0, base, caps) && (buf == old(buf) || fresh(buf))
    {
      hide DigitChar, Parent, LastDigit;
      var p := new char[64];
      var k: nat, d: nat := 63, d0;
      p[k] := '\0';
      while d != 0
        invariant 0 <= k <= 63 && |DigitText(d, base, caps)| <= k && p[63] == '\0'
        invariant DigitText(d0, base, caps) == DigitText(d, base, caps) + p[k..63]
        invariant forall i :: k <= i < 63 ==> p[i] != '\0'
        modifies p
      {
        ParentLess(d, base);
        DigitCharValue(LastDigit(base, d), base, caps);
        k := k - 1;
        p[k] := DigitChar(LastDigit(base, d), caps);
        assert p[k..63] == [p[k]] + p[k + 1..63];
        d := Parent(base, d);
      }
      PutString(p, k);
    }

    /** mc_unsigned_long_long; 64 binary digits and the null would not fit the buffer. */
    method PutUnsigned(d: nat, base: nat, caps: bool)
      requires Valid() && offset + 63 < TWO32 && d < TWO64 && (base == 2 ==> d < TWO63)
      modifies this, buf
      ensures Valid() && Contents() == old(Contents()) + Unsigned(d, base, caps)
      ensures buf == old(buf) || fresh(buf)
    {
      if base < 2 || base > 16 {
        Put("<bad base>");
        return;
      }
      if d == 0 {
        Put("0");
        return;
      }
      DigitsFit(d, base, caps);
      PutDigits(d, base, caps);
    }

    method PutMark(d: int, plus: bool, space: bool)
      requires Valid() && offset + 1 < TWO32
      modifies this, buf
      ensures offset <= old(offset) + 1
      ensures Valid() && Contents() == old(Contents()) + Mark(d, plus, space)
      ensures buf == old(buf) || fresh(buf)
    {
      if plus {
        if d >= 0 { Put("+"); }
      } else if space {
        if d > 0 { Put(" "); }
      }
    }

    /** mc_signed_long_long; the most negative number has no opposite. */
    method PutSigned(d: int, base: nat, caps: bool, plus: bool, space: bool)
      requires Valid() && offset + 65 < TWO32 && -TWO63 < d < TWO63
      modifies this, buf
      ensures Valid() && Contents() == old(Contents()) + Signed(d, base, caps, plus, space)
      ensures buf == old(buf) || fresh(buf)
    {
      hide Mark, Body;
      ghost var was := Contents();
      PutMark(d, plus, space);
      PutBody(d, base, caps);
      assert was + (Mark(d, plus, space) + Body(d, base, caps)) == was + Mark(d, plus, space) + Body(d, base, caps);
    }

    method PutBody(d: int, base: nat, caps: bool)
      requires Valid() && offset + 64 < TWO32 && -TWO63 < d < TWO63
      modifies this, buf
      ensures Valid() && Contents() == old(Contents()) + Body(d, base, caps)
      ensures buf == old(buf) || fresh(buf)
    {
      hide DigitText;
      if base < 2 || base > 16 {
        Put("<bad base>");
        return;
      }
      if d == 0 {
        Put("0");
        return;
      }
      ghost var was := Contents();
      var e := d;
      if d < 0 {
        Put("-");
        e := -d;
      }
      ghost var mid, t := Contents(), DigitText(e, base, caps);
      DigitsFit(e, base, caps);
      PutDigits(e, base, caps);
      assert d < 0 ==> mid == was + "-" && was + "-" + t == was + ("-" + t);
    }
  }

  lemma DigitsFit(d: nat, base: nat, caps: bool)
    requires 2 <= base <= 16 && 0 < d < TWO64 && (base == 2 ==> d < TWO63)
    ensures |DigitText(d, base, caps)| <= 63
  {
    hide DigitChar, Parent, LastDigit;
    Pow2Of63();
    if base == 2 {
      BitsBound(d, base, caps, 63);
    } else {
      var q := Parent(base, d);
      Third(d, base);
      if q > 0 {
        Third(q, base);
        BitsBound(Parent(base, q), base, caps, 61);
      }
    }
  }

  lemma Third(d: nat, base: nat)
    requires base >= 3
    ensures 3 * Parent(base, d) <= d
  {
    var q := Parent(base, d);
    assert d == base * q + d % base;
    MulMonotone(q, 3, base);
  }

  lemma Pow2Of63()
    ensures Pow(2, 61) == TWO63 / 4 && Pow(2, 63) == TWO63 && Pow(2, 64) == TWO64
  {
    Pow2Of32();
    PowAdd(2, 32, 32);
    assert Pow(2, 64) == 2 * Pow(2, 63) && Pow(2, 63) == 2 * Pow(2, 62) && Pow(2, 62) == 2 * Pow(2, 61);
  }

  /** A number below 2^n has at most n digits. */
  lemma {:induction false} BitsBound(d: nat, base: nat, caps: bool, n: nat)
    requires 2 <= base <= 16 && d < Pow(2, n)
    ensures |DigitText(d, base, caps)| <= n
    decreases n
  {
    hide DigitChar, Parent, LastDigit;
    if d > 0 {
      ParentLess(d, base);
      HalfBelow(d, base, n);
      BitsBound(Parent(base, d), base, caps, n - 1);
    }
  }

  lemma HalfBelow(d: nat, base: nat, n: nat)
    requires base >= 2 && 0 < d < Pow(2, n)
    ensures n > 0 && Parent(base, d) < Pow(2, n - 1)
  {
    var q := Parent(base, d);
    assert d == base * q + d % base;
    MulMonotone(q, 2, base);
  }

  // ---- what is parsed ----

  predicate Goes(s: string, i: nat, base: nat) {
    if base > 10 then IsAlnum(CharAt(s, i)) else IsDigit(CharAt(s, i))
  }

  /** Where the blanks from i on end */
  function AfterBlanks(s: string, i: nat): (k: nat)
    requires i <= |s|
    ensures i <= k <= |s|
    decreases |s| - i
  {
    if IsSpace(CharAt(s, i)) then AfterBlanks(s, i + 1) else i
  }

  /** Where the number's prefix ends, and the base it then has */
  function AfterPrefix(s: string, i: nat, base: nat): (r: (nat, nat))
    requires i <= |s|
    ensures i <= r.0 <= |s|
  {
    if (base == 0 || base == 16) && CharAt(s, i) == '0' && CharAt(s, i + 1) in {'x', 'X'} then (i + 2, 16)
    else if (base == 0 || base == 8) && CharAt(s, i) == '0' then (i + 1, 8)
    else (i, if base == 0 then 10 else base)
  }

  /** The number that n and the digits from i on make, and where they end */
  function Numeral(s: string, i: nat, base: nat, n: nat): (r: (nat, nat))
    requires i <= |s|
    ensures i <= r.1 <= |s|
    decreases |s| - i
  {
    if Goes(s, i, base) then Numeral(s, i + 1, base, n * base + ValueOf(s[i])) else (n, i)
  }

  datatype Parsed = Parsed(minus: bool, total: nat, end: nat)

  function Parse(s: string, base: nat): (p: Parsed)
    ensures p.end <= |s|
  {
    var i := AfterBlanks(s, 0);
    var minus := CharAt(s, i) == '-';
    var j := if CharAt(s, i) in {'-', '+'} then i + 1 else i;
    var (k, b) := AfterPrefix(s, j, base);
    var (total, end) := Numeral(s, k, b, 0);
    Parsed(minus, total, end)
  }

  /** The 64-bit signed number congruent to x */
  function ToSigned(x: int): int {
    if x % TWO64 < TWO63 then x % TWO64 else x % TWO64 - TWO64
  }

  /** The number a text says, whatever its size */
  function Value(p: Parsed): int {
    if p.minus then 0 - p.total else p.total
  }

  lemma SignedZero()
    ensures ToSigned(0) == 0
  {
  }

  lemma OppositeWraps(total: nat)
    ensures ToUnsigned(0 - ToUnsigned(total)) == ToUnsigned(0 - total)
  {
    var k := total / TWO64;
    assert 0 - total % TWO64 == (0 - total) + k * TWO64;
    Shifted(0 - total, k);
  }

  lemma OppositeSigned(total: nat)
    ensures ToSigned(ToSigned(total)) == ToSigned(total)
    ensures ToSigned(0 - ToSigned(total)) == ToSigned(0 - total)
  {
    var k := SignedQuotient(total);
    Shifted(total, k);
    Shifted(0 - total, -k);
  }

  function SignedQuotient(x: int): (k: int)
    ensures ToSigned(x) == x + k * TWO64
  {
    if x % TWO64 < TWO63 then -(x / TWO64) else -(x / TWO64) - 1
  }

  lemma GoesOn(s: string, i: nat, base: nat)
    requires Goes(s, i, base)
    ensures i < |s| && IsAlnum(s[i])
  {
  }

  /** The 64-bit unsigned number congruent to x */
  function ToUnsigned(x: int): (r: nat) {
    x % TWO64
  }

  lemma UnsignedZero()
    ensures ToUnsigned(0) == 0
  {
  }

  lemma WrapTwice(x: nat, n: nat, b: nat, d: nat)
    requires n == ToUnsigned(x)
    ensures ToUnsigned(ToUnsigned(n * b) + d) == ToUnsigned(x * b + d)
  {
    var q := x / TWO64;
    assert x * b == n * b + (q * b) * TWO64;
    Shifted(n * b, q * b);
    var p := (x * b) / TWO64;
    assert x * b == (n * b) % TWO64 + p * TWO64;
    Shifted((n * b) % TWO64 + d, p);
  }

  lemma Shifted(x: int, k: int)
    ensures (x + k * TWO64) % TWO64 == x % TWO64
  {
  }

  lemma WrapSigned(x: nat, n: int, b: nat, d: nat)
    requires n == ToSigned(x)
    ensures ToSigned(ToSigned(n * b) + d) == ToSigned(x * b + d)
  {
    var k := (n - x) / TWO64;
    assert n == x + k * TWO64;
    assert n * b == x * b + (k * b) * TWO64;
    Shifted(x * b, k * b);
    var p := (x * b - ToSigned(x * b)) / TWO64;
    assert x * b + d == (ToSigned(x * b) + d) + p * TWO64;
    Shifted(ToSigned(x * b) + d, p);
  }

  method PassBlanks(s: string) returns (i: nat)
    ensures i <= |s| && i == AfterBlanks(s, 0)
  {
    i := 0;
    while IsSpace(CharAt(s, i))
      invariant i <= |s| && AfterBlanks(s, i) == AfterBlanks(s, 0)
      decreases |s| - i
    {
      i := i + 1;
    }
  }

  method PassPrefix(s: string, i0: nat, base0: nat) returns (i: nat, base: nat)
    requires i0 <= |s|
    ensures (i, base) == AfterPrefix(s, i0, base0)
  {
    i, base := i0, base0;
    if base == 0 || base == 16 {
      if CharAt(s, i) == '0' && (CharAt(s, i + 1) == 'x' || CharAt(s, i + 1) == 'X') {
        i := i + 2;
        base := 16;
      }
    }
    if base == 0 || base == 8 {
      if CharAt(s, i) == '0' {
        i := i + 1;
        base := 8;
      }
    }
    if base == 0 { base := 10; }
  }

  /** strtoul: the blanks, the sign, the prefix and the digits are passed one by one. */
  method StrToUL(s: string, base0: nat) returns (r: nat, end: nat)
    ensures end == Parse(s, base0).end && r == ToUnsigned(Value(Parse(s, base0)))
  {
    hide IsSpace, IsAlnum, IsDigit, ValueOf, AfterPrefix, Numeral, ToUnsigned;
    var i := PassBlanks(s);
    var minus := false;
    if CharAt(s, i) == '-' {
      minus := true;
      i := i + 1;
    } else if CharAt(s, i) == '+' {
      i := i + 1;
    }
    var base: nat;
    i, base := PassPrefix(s, i, base0);
    var total;
    total, end := AddDigits(s, i, base);
    OppositeWraps(Parse(s, base0).total);
    var back: int := total;
    r := if minus then ToUnsigned(-back) else total;
  }

  /** The digit loop of strtoul, in 64-bit words */
  method AddDigits(s: string, k: nat, base: nat) returns (total: nat, i: nat)
    requires k <= |s|
    ensures (total, i) == (ToUnsigned(Numeral(s, k, base, 0).0), Numeral(s, k, base, 0).1)
  {
    hide IsAlnum, IsDigit, ValueOf, ToUnsigned;
    UnsignedZero();
    i, total := k, 0;
    ghost var x: nat := 0;
    while Goes(s, i, base)
      invariant k <= i <= |s| && total == ToUnsigned(x) && Numeral(s, i, base, x) == Numeral(s, k, base, 0)
      decreases |s| - i
    {
      GoesOn(s, i, base);
      WrapTwice(x, total, base, ValueOf(s[i]));
      x := x * base + ValueOf(s[i]);
      total := ToUnsigned(total * base);
      total := ToUnsigned(total + ValueOf(s[i]));
      i := i + 1;
    }
  }

  /** strtol, whose signed sums wrap around */
  method StrToL(s: string, base0: nat) returns (r: int, end: nat)
    ensures end == Parse(s, base0).end && r == ToSigned(Value(Parse(s, base0)))
  {
    hide IsSpace, IsAlnum, IsDigit, ValueOf, AfterPrefix, ToSigned;
    var sign := 1;
    var i := PassBlanks(s);
    if CharAt(s, i) == '+' {
      i := i + 1;
    } else if CharAt(s, i) == '-' {
      i := i + 1;
      sign := -1;
    }
    var base: nat;
    i, base := PassPrefix(s, i, base0);
    var n;
    n, end := AddSigned(s, i, base);
    OppositeSigned(Parse(s, base0).total);
    r := ToSigned(sign * n);
  }

  /** The digit loop of strtol */
  method AddSigned(s: string, k: nat, base: nat) returns (n: int, i: nat)
    requires k <= |s|
    ensures (n, i) == (ToSigned(Numeral(s, k, base, 0).0), Numeral(s, k, base, 0).1)
  {
    hide IsAlnum, IsDigit, ValueOf, ToSigned;
    SignedZero();
    i, n := k, 0;
    ghost var x: nat := 0;
    while Goes(s, i, base)
      invariant k <= i <= |s| && n == ToSigned(x) && Numeral(s, i, base, x) == Numeral(s, k, base, 0)
      decreases |s| - i
    {
      GoesOn(s, i, base);
      WrapSigned(x, n, base, ValueOf(s[i]));
      x := x * base + ValueOf(s[i]);
      n := ToSigned(n * base);
      n := ToSigned(n + ValueOf(s[i]));
      i := i + 1;
    }
  }

  // ---- parsing what was printed ----

  /** Text that does not prolong a number */
  predicate Ends(rest: string) {
    rest == "" || !IsAlnum(rest[0])
  }

  predicate Reads(base: nat, parsed: nat) {
    2 <= base <= 16 && (parsed == base || (base == 10 && parsed == 0))
  }

  /** The digits of d, in any text, are read back as d. */
  lemma {:induction false} DigitsRead(d: nat, base: nat, caps: bool, s: string, i: nat)
    requires 2 <= base <= 16 && i + |DigitText(d, base, caps)| <= |s|
    requires s[i..i + |DigitText(d, base, caps)|] == DigitText(d, base, caps)
    ensures Numeral(s, i, base, 0) == Numeral(s, i + |DigitText(d, base, caps)|, base, d)
    decreases d
  {
    hide DigitChar, Parent, LastDigit, ValueOf, IsAlnum, IsDigit;
    if d > 0 {
      ParentLess(d, base);
      var q, t := Parent(base, d), DigitText(Parent(base, d), base, caps);
      var k := i + |t|;
      DigitCharValue(LastDigit(base, d), base, caps);
      assert s[i..k] == t by {
        assert s[i..k] == s[i..k + 1][..|t|] && DigitText(d, base, caps)[..|t|] == t;
      }
      assert s[k] == s[i..k + 1][|t|];
      DigitsRead(q, base, caps, s, i);
      Rejoined(d, base);
    }
  }

  lemma Rejoined(d: nat, base: nat)
    requires base > 0
    ensures Parent(base, d) * base + LastDigit(base, d) == d
  {
    KidOfDigits(base, d);
  }

  /** The first digit is not a zero. */
  lemma {:induction false} FirstDigit(d: nat, base: nat, caps: bool)
    requires 2 <= base <= 16 && d > 0
    ensures |DigitText(d, base, caps)| > 0
    ensures var c := DigitText(d, base, caps)[0]; IsAlnum(c) && c != '0'
    decreases d
  {
    hide DigitChar, Parent, LastDigit;
    ParentLess(d, base);
    DigitCharValue(LastDigit(base, d), base, caps);
    if Parent(base, d) > 0 {
      FirstDigit(Parent(base, d), base, caps);
    } else {
      Rejoined(d, base);
    }
  }

  /** What Unsigned prints is read from wherever the sign ends. */
  lemma UnsignedRead(d: nat, base: nat, caps: bool, rest: string, s: string, i: nat, parsed: nat)
    requires Reads(base, parsed) && Ends(rest) && i <= |s| && s[i..] == Unsigned(d, base, caps) + rest
    ensures IsAlnum(CharAt(s, i))
    ensures var (k, b) := AfterPrefix(s, i, parsed);
      Numeral(s, k, b, 0) == (d, |s| - |rest|)
  {
    hide Unsigned, IsAlnum, AfterPrefix, Numeral, Reads, Ends;
    var u := Unsigned(d, base, caps);
    Slices(s, i, u, rest);
    if d > 0 {
      PositiveRead(d, base, caps, rest, s, i, parsed);
    } else {
      ZeroText(base, caps, parsed);
      ZeroRead(s, i, base, rest, parsed);
    }
  }

  lemma ZeroText(base: nat, caps: bool, parsed: nat)
    requires Reads(base, parsed)
    ensures Unsigned(0, base, caps) == "0"
  {
  }

  lemma PositiveRead(d: nat, base: nat, caps: bool, rest: string, s: string, i: nat, parsed: nat)
    requires Reads(base, parsed) && Ends(rest) && d > 0
    requires var e := i + |Unsigned(d, base, caps)|;
      |s| == e + |rest| && s[i..e] == Unsigned(d, base, caps) && s[e..] == rest
    ensures IsAlnum(CharAt(s, i))
    ensures var (k, b) := AfterPrefix(s, i, parsed);
      Numeral(s, k, b, 0) == (d, |s| - |rest|)
  {
    hide DigitText, IsAlnum, AfterPrefix, Numeral, Ends;
    var u := DigitText(d, base, caps);
    var e := i + |u|;
    FirstDigit(d, base, caps);
    assert s[i] == s[i..e][0];
    NoPrefix(s, i, base, parsed);
    DigitsRead(d, base, caps, s, i);
    RestRead(s, e, rest, base, d);
  }

  lemma Slices(s: string, i: nat, u: string, rest: string)
    requires i <= |s| && s[i..] == u + rest
    ensures var e := i + |u|;
      |s| == e + |rest| && s[i..e] == u && s[e..] == rest && (u != "" ==> s[i] == u[0])
  {
    assert s[i..][..|u|] == u && s[i..][|u|..] == rest;
  }

  lemma NoPrefix(s: string, i: nat, base: nat, parsed: nat)
    requires Reads(base, parsed) && i < |s| && s[i] != '0'
    ensures AfterPrefix(s, i, parsed) == (i, base)
  {
  }

  lemma RestRead(s: string, e: nat, rest: string, base: nat, d: nat)
    requires e <= |s| && s[e..] == rest && Ends(rest)
    ensures Numeral(s, e, base, d) == (d, e)
  {
    RestStops(s, e, rest, base);
  }

  lemma RestStops(s: string, e: nat, rest: string, base: nat)
    requires e <= |s| && s[e..] == rest && Ends(rest)
    ensures !Goes(s, e, base) && CharAt(s, e) !in {'0', 'x', 'X'}
  {
    assert CharAt(s, e) == if rest == "" then '\0' else rest[0];
  }

  /** A zero may pass for a prefix. */
  lemma ZeroRead(s: string, i: nat, base: nat, rest: string, parsed: nat)
    requires Reads(base, parsed) && i < |s| && s[i] == '0' && s[i + 1..] == rest && Ends(rest)
    ensures IsAlnum(s[i])
    ensures var (k, b) := AfterPrefix(s, i, parsed);
      Numeral(s, k, b, 0) == (0, i + 1)
  {
    hide ValueOf, IsAlnum;
    ZeroDigit();
    var (k, b) := AfterPrefix(s, i, parsed);
    RestStops(s, i + 1, rest, b);
    assert k == i || k == i + 1;
    assert Numeral(s, i, b, 0) == Numeral(s, i + 1, b, 0);
  }

  lemma ZeroDigit()
    ensures IsAlnum('0') && ValueOf('0') == 0
  {
  }

  lemma UnsignedParsed(d: nat, base: nat, caps: bool, rest: string, parsed: nat)
    requires Reads(base, parsed) && Ends(rest)
    ensures Parse(Unsigned(d, base, caps) + rest, parsed) == Parsed(false, d, |Unsigned(d, base, caps)|)
  {
    hide DigitText, Unsigned, AfterPrefix, Numeral;
    var s := Unsigned(d, base, caps) + rest;
    assert s[0..] == s;
    UnsignedRead(d, base, caps, rest, s, 0, parsed);
  }

  /** Any text Signed prints is read back whole, as the number printed. */
  lemma SignedParsed(d: int, base: nat, caps: bool, plus: bool, space: bool, rest: string, parsed: nat)
    requires Reads(base, parsed) && Ends(rest)
    ensures var t := Signed(d, base, caps, plus, space);
      Parse(t + rest, parsed) == Parsed(d < 0, Abs(d), |t|)
  {
    hide DigitText, Unsigned, AfterPrefix, Numeral;
    var u, t := Unsigned(Abs(d), base, caps), Signed(d, base, caps, plus, space);
    var m := if d < 0 then "-" else Mark(d, plus, space);
    SignedParts(d, base, caps, plus, space);
    var s := t + rest;
    assert t == m + u;
    assert s[|m|..] == u + rest;
    UnsignedRead(Abs(d), base, caps, rest, s, |m|, parsed);
    if |m| > 0 { assert s[0] == m[0]; }
    NotBlank(CharAt(s, |m|));
    assert AfterBlanks(s, |m|) == |m|;
    assert |s| == |t| + |rest|;
  }

  lemma NotBlank(c: char)
    requires IsAlnum(c)
    ensures !IsSpace(c) && c !in {'-', '+'}
  {
  }

  lemma SignedParts(d: int, base: nat, caps: bool, plus: bool, space: bool)
    requires 2 <= base <= 16
    ensures Signed(d, base, caps, plus, space)
      == (if d < 0 then "-" else Mark(d, plus, space)) + Unsigned(Abs(d), base, caps)
  {
  }

  // ---- prefixes and blanks ----

  const BLANKS: set<char> := {' ', '\t', '\n', '\r', 11 as char, 12 as char}

  /** "0x" is for base 16, "0" for base 8, given or left open. */
  predicate PrefixFor(prefix: string, base: nat, parsed: nat) {
    ((prefix == "0x" || prefix == "0X") && base == 16 && parsed in {0, 16}) || (prefix == "0" && base == 8 && parsed in {0, 8})
  }

  /** Blanks, a sign and a prefix are passed, and the digits after them are read in the base of the prefix. */
  lemma PrefixedParsed(blanks: string, sign: string, prefix: string, d: nat, base: nat, caps: bool, rest: string, parsed: nat)
    requires (forall c :: c in blanks ==> c in BLANKS) && sign in {"", "-", "+"} && PrefixFor(prefix, base, parsed) && Ends(rest)
    ensures var t := blanks + sign + prefix + DigitText(d, base, caps);
      Parse(t + rest, parsed) == Parsed(sign == "-", d, |t|)
  {
    hide DigitText, Numeral, IsAlnum, IsDigit, ValueOf, Ends;
    var u := DigitText(d, base, caps);
    var s := blanks + sign + prefix + u + rest;
    var i := |blanks|;
    var j := i + |sign|;
    var k := j + |prefix|;
    assert s[j..k] == prefix && s[k..k + |u|] == u && s[k + |u|..] == rest && s[i..j] == sign && s[..i] == blanks;
    assert s[j] == '0' by { assert s[j] == s[j..k][0]; }
    if sign != "" { assert s[i] == s[i..j][0]; }
    BlanksPassed(s, i, 0);
    PrefixPassed(s, j, prefix, d, base, caps, rest, parsed);
    DigitsRead(d, base, caps, s, k);
    RestRead(s, k + |u|, rest, base, d);
  }

  lemma {:induction false} BlanksPassed(s: string, n: nat, i: nat)
    requires i <= n < |s| && !IsSpace(s[n]) && forall c :: c in s[..n] ==> c in BLANKS
    ensures AfterBlanks(s, i) == n
    decreases n - i
  {
    if i < n {
      assert s[i] in s[..n];
      BlanksPassed(s, n, i + 1);
    }
  }

  lemma PrefixPassed(s: string, j: nat, prefix: string, d: nat, base: nat, caps: bool, rest: string, parsed: nat)
    requires PrefixFor(prefix, base, parsed) && Ends(rest) && j + |prefix| + |DigitText(d, base, caps)| <= |s|
    requires var k, u := j + |prefix|, DigitText(d, base, caps); s[j..k] == prefix && s[k..k + |u|] == u && s[k + |u|..] == rest
    ensures AfterPrefix(s, j, parsed) == (j + |prefix|, base)
  {
    hide DigitText, IsAlnum, Ends;
    var k, u := j + |prefix|, DigitText(d, base, caps);
    assert s[j] == s[j..k][0];
    if base == 16 {
      assert s[j + 1] == s[j..k][1];
    } else if d == 0 {
      NoDigits(base, caps);
      RestStops(s, k, rest, base);
    } else {
      FirstDigit(d, base, caps);
      OctalDigit(d, caps);
      assert s[k] == s[k..k + |u|][0];
    }
  }

  lemma NoDigits(base: nat, caps: bool)
    requires 2 <= base <= 16
    ensures DigitText(0, base, caps) == ""
  {
  }

  lemma {:induction false} OctalDigit(d: nat, caps: bool)
    requires d > 0
    ensures |DigitText(d, 8, caps)| > 0 && DigitText(d, 8, caps)[0] !in {'x', 'X'}
    decreases d
  {
    hide DigitChar, Parent, LastDigit;
    ParentLess(d, 8);
    DigitCharValue(LastDigit(8, d), 8, caps);
    if Parent(8, d) > 0 { OctalDigit(Parent(8, d), caps); }
  }

  lemma OwnSigned(d: int)
    requires -TWO63 < d < TWO63
    ensures ToSigned(d) == d && ToUnsigned(d) == d % TWO64
  {
  }

  /** Printing then parsing changes no number but the most negative. */
  method PrintAndParse(d: int, base: nat, caps: bool, plus: bool, space: bool, rest: string, parsed: nat)
    returns (r: int, end: nat, u: nat)
    requires -TWO63 < d < TWO63 && Reads(base, parsed) && Ends(rest)
    ensures r == d && u == d % TWO64 && end == |Signed(d, base, caps, plus, space)|
  {
    hide Signed, Parse, ToSigned, ToUnsigned, Ends, Reads;
    var mc := new MemChan();
    mc.PutSigned(d, base, caps, plus, space);
    var t := mc.buf[..mc.offset];
    assert t == Signed(d, base, caps, plus, space);
    SignedParsed(d, base, caps, plus, space, rest, parsed);
    OwnSigned(d);
    r, end := StrToL(t + rest, parsed);
    u, end := StrToUL(t + rest, parsed);
  }

  /** Printing then parsing an unsigned number gives it back. */
  method PrintAndParseUnsigned(d: nat, base: nat, caps: bool, rest: string, parsed: nat)
    returns (r: nat, end: nat)
    requires d < TWO64 && (base == 2 ==> d < TWO63) && Reads(base, parsed) && Ends(rest)
    ensures r == d && end == |Unsigned(d, base, caps)|
  {
    hide Unsigned, Parse, Ends, Reads;
    var mc := new MemChan();
    mc.PutUnsigned(d, base, caps);
    var t := mc.buf[..mc.offset];
    assert t == Unsigned(d, base, caps);
    UnsignedParsed(d, base, caps, rest, parsed);
    r, end := StrToUL(t + rest, parsed);
  }
}
