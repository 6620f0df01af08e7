/** Printing and reading integers: number and skip_atoi of src/lib/stdio.c. */
module Stdio {
  import opened Wrappers

  const WRAP: int := 0x1_0000_0000

  type int32 = x: int | -0x8000_0000 <= x < 0x8000_0000

  // The low 32 bits, as a signed number.
  function Wrap32(x: int): int32 {
    var u := x % WRAP;
    if u < 0x8000_0000 then u else u - WRAP
  }

  // The bits of number's type argument.
  datatype Flags = Flags(zeropad: bool, sign: bool, plus: bool, space: bool, left: bool, special: bool, small: bool)

  // ---- digits

  function DigitChar(d: nat, small: bool): char
    requires d < 36
  {
    if d < 10 then '0' + d as char else if small then 'a' + (d - 10) as char else 'A' + (d - 10) as char
  }

  predicate IsDigit(c: char) { '0' <= c <= '9' }

  function DigitValue(c: char): nat {
    if '0' <= c <= '9' then (c - '0') as nat
    else if 'a' <= c <= 'z' then (c - 'a') as nat + 10
    else if 'A' <= c <= 'Z' then (c - 'A') as nat + 10
    else 0
  }

  lemma DigitBack(d: nat, small: bool)
    requires d < 36
    ensures DigitValue(DigitChar(d, small)) == d
    ensures IsDigit(DigitChar(d, small)) <==> d < 10
    ensures DigitChar(d, small) == '0' <==> d == 0
  {
  }

  // do_div: the quotient stays in n, the remainder is the result.
  function Quotient(n: nat, base: nat): nat
    requires base >= 2
  {
    n / base
  }

  function Remainder(n: nat, base: nat): (r: nat)
    requires base >= 2
    ensures r < base
  {
    n % base
  }

  lemma AtLeast(q: nat, base: nat)
    requires q >= 1 && base >= 2
    ensures q * base >= 2 * q && q * base >= base
  {
    assert q * base == 2 * q + q * (base - 2);
    assert q * base == base + (q - 1) * base;
  }

  lemma Divided(n: nat, base: nat)
    requires base >= 2
    ensures n == Quotient(n, base) * base + Remainder(n, base) && Quotient(n, base) <= n / 2
    ensures n > 0 ==> Quotient(n, base) < n
    ensures n < base <==> Quotient(n, base) == 0
  {
    var q, r := n / base, n % base;
    assert n == q * base + r;
    if q == 0 {
      assert q * base == 0;
    } else {
      AtLeast(q, base);
    }
  }

  // The digits of m, most significant first.
  function Digits(m: nat, base: nat, small: bool): (r: string)
    requires 2 <= base <= 36
    ensures |r| >= 1
    decreases m
  {
    if m < base then [DigitChar(m, small)]
    else
      Divided(m, base);
      Digits(Quotient(m, base), base, small) + [DigitChar(Remainder(m, base), small)]
  }

  // What a string of digits stands for.
  function Value(s: string, base: nat): nat {
    if s == [] then 0 else Value(s[..|s| - 1], base) * base + DigitValue(s[|s| - 1])
  }

  /** The digits evaluate to the number, in every base, and start with 0 only for 0. */
  lemma {:induction false} DigitsValue(m: nat, base: nat, small: bool)
    requires 2 <= base <= 36
    ensures Value(Digits(m, base, small), base) == m
    ensures Digits(m, base, small)[0] == '0' ==> m == 0
    decreases m
  {
    Divided(m, base);
    var s := Digits(m, base, small);
    if m < base {
      DigitBack(m, small);
      assert s[..0] == [];
    } else {
      DigitsValue(Quotient(m, base), base, small);
      DigitBack(Remainder(m, base), small);
      assert s[..|s| - 1] == Digits(Quotient(m, base), base, small);
    }
  }

  lemma {:induction false} DigitsLength(m: nat, base: nat, small: bool, k: nat)
    requires 2 <= base <= 36 && m < Power2(k) && k >= 1
    ensures |Digits(m, base, small)| <= k
    decreases k
  {
    Divided(m, base);
    assert Power2(1) == 2;
    if m < base {
    } else {
      DigitsLength(Quotient(m, base), base, small, k - 1);
    }
  }

  function Power2(k: nat): nat { if k == 0 then 1 else 2 * Power2(k - 1) }

  function Repeat(c: char, n: int): (r: string)
    ensures |r| == if n > 0 then n else 0
    ensures forall k | 0 <= k < |r| :: r[k] == c
  {
    seq(if n > 0 then n else 0, _ => c)
  }

  function Max(a: int, b: int): int { if a > b then a else b }

  // ---- what number writes

  // The number that is divided into digits: the unary minus wraps, the division is unsigned.
  function Magnitude(num: int32, flags: Flags): (m: nat)
    ensures m < WRAP
  {
    var n: int := num;
    if flags.sign && n < 0 then -n else if n < 0 then n + WRAP else n
  }

  function SignPart(num: int32, flags: Flags): string {
    if flags.sign && num < 0 then "-" else if flags.plus then "+" else if flags.space then " " else ""
  }

  function Prefix(base: int, flags: Flags): string {
    if !flags.special then "" else
    if base == 8 then "0" else if base == 16 then ['0', DigitChar(33, flags.small)] else ""
  }

  // Zeros up to the precision, then the digits.
  function Body(num: int32, base: int, precision: int, flags: Flags): (r: string)
    requires 2 <= base <= 36
    ensures |r| == Max(|Digits(Magnitude(num, flags), base, flags.small)|, precision)
  {
    var ds := Digits(Magnitude(num, flags), base, flags.small);
    Repeat('0', precision - |ds|) + ds
  }

  function Core(num: int32, base: int, precision: int, flags: Flags): string
    requires 2 <= base <= 36
  {
    SignPart(num, flags) + Prefix(base, flags) + Body(num, base, precision, flags)
  }

  /** The image of num: padded on the right, or between prefix and digits with zeros, or on the left. */
  function Image(num: int32, base: int, size: int, precision: int, flags: Flags): string
    requires 2 <= base <= 36
  {
    var pad := size - |Core(num, base, precision, flags)|;
    if flags.left then Core(num, base, precision, flags) + Repeat(' ', pad)
    else if flags.zeropad then
      SignPart(num, flags) + Prefix(base, flags) + Repeat('0', pad) + Body(num, base, precision, flags)
    else Repeat(' ', pad) + Core(num, base, precision, flags)
  }

  /** In every padding mode the image is as long as the width, or what it has to hold if that is more. */
  lemma ImageLength(num: int32, base: int, size: int, precision: int, flags: Flags)
    requires 2 <= base <= 36
    ensures |Image(num, base, size, precision, flags)| ==
      Max(size, |SignPart(num, flags)| + |Prefix(base, flags)|
                + Max(|Digits(Magnitude(num, flags), base, flags.small)|, precision))
  {
  }

  // ---- number

  // From buffer b to buffer c, text was written at p, up to q.
  ghost predicate Wrote(b: string, c: string, p: nat, q: nat, text: string) {
    |b| == |c| && p <= q <= |c| && c[..q] == b[..p] + text && c[q..] == b[q..]
  }

  lemma WroteMore(b: string, c: string, d: string, p: nat, q: nat, r: nat, text: string, more: string)
    requires Wrote(b, c, p, q, text) && Wrote(c, d, q, r, more)
    ensures Wrote(b, d, p, r, text + more)
  {
    assert d[..r] == b[..p] + (text + more);
    assert d[r..] == c[q..][r - q..];
  }

  lemma WroteNone(b: string, p: nat)
    requires p <= |b|
    ensures Wrote(b, b, p, p, "")
  {
  }

  // *str++ = c
  method PutChar(buf: array<char>, at: nat, c: char) returns (end: nat)
    requires at < buf.Length
    modifies buf
    ensures end == at + 1 && Wrote(old(buf[..]), buf[..], at, end, [c])
  {
    buf[at] := c;
    end := at + 1;
    assert buf[..end] == old(buf[..at]) + [c];
  }

  // while (n-- > 0) *str++ = c; left is n afterwards.
  method Fill(buf: array<char>, at: nat, n: int, c: char) returns (end: nat, left: int)
    requires at + Max(n, 0) <= buf.Length
    modifies buf
    ensures end == at + Max(n, 0) && left < 0 && Wrote(old(buf[..]), buf[..], at, end, Repeat(c, n))
  {
    ghost var was := buf[..];
    left, end := n, at;
    WroteNone(was, at);
    assert Repeat(c, 0) == "";
    while left > 0
      invariant left <= n && end == at + (n - left) && (left >= 0 || left == n)
      invariant Wrote(was, buf[..], at, end, Repeat(c, n - left))
    {
      left := left - 1;
      ghost var now := buf[..];
      end := PutChar(buf, end, c);
      hide Wrote;
      WroteMore(was, now, buf[..], at, end - 1, end, Repeat(c, n - left - 1), [c]);
      assert Repeat(c, n - left) == Repeat(c, n - left - 1) + [c];
    }
    assert Repeat(c, n - left) == Repeat(c, n);
    left := left - 1;
  }

  // The characters of text, one after the other.
  method PutText(buf: array<char>, at: nat, text: string) returns (end: nat)
    requires at + |text| <= buf.Length
    modifies buf
    ensures end == at + |text| && Wrote(old(buf[..]), buf[..], at, end, text)
  {
    ghost var was := buf[..];
    end := at;
    WroteNone(was, at);
    assert text[..0] == "";
    for k := 0 to |text|
      invariant end == at + k && Wrote(was, buf[..], at, end, text[..k])
    {
      ghost var now := buf[..];
      end := PutChar(buf, end, text[k]);
      hide Wrote;
      WroteMore(was, now, buf[..], at, end - 1, end, text[..k], [text[k]]);
      assert text[..k + 1] == text[..k] + [text[k]];
    }
    assert text[..|text|] == text;
  }

  function Reversed(s: string): (r: string)
    ensures |r| == |s|
  {
    if s == [] then [] else [s[|s| - 1]] + Reversed(s[..|s| - 1])
  }

  lemma {:induction false} ReversedAt(s: string, k: nat)
    requires k < |s|
    ensures Reversed(s)[k] == s[|s| - 1 - k]
  {
    if k == 0 {
    } else {
      ReversedAt(s[..|s| - 1], k - 1);
    }
  }

  lemma Reassociate(a: string, c: char, b: string)
    ensures (a + [c]) + b == a + ([c] + b)
  {
  }

  // One turn of the division loop.
  lemma DigitsStep(m: nat, base: nat, small: bool, low: string)
    requires 2 <= base <= 36 && m > 0
    ensures Remainder(m, base) < 36
    ensures var more := low + [DigitChar(Remainder(m, base), small)];
      Digits(m, base, small) + Reversed(low) ==
        if Quotient(m, base) > 0 then Digits(Quotient(m, base), base, small) + Reversed(more) else Reversed(more)
  {
    Divided(m, base);
    var c, q := DigitChar(Remainder(m, base), small), Quotient(m, base);
    assert (low + [c])[..|low|] == low;
    assert Reversed(low + [c]) == [c] + Reversed(low);
    if m < base {
      assert Remainder(m, base) == m;
      assert Digits(m, base, small) == [c];
    } else {
      assert Digits(m, base, small) == Digits(q, base, small) + [c];
      Reassociate(Digits(q, base, small), c, Reversed(low));
    }
    hide *;
  }

  // The digits go to tmp, least significant first.
  method Convert(m: nat, base: nat, small: bool, tmp: array<char>) returns (i: nat)
    requires 2 <= base <= 36 && m < WRAP && tmp.Length == 36
    modifies tmp
    ensures 1 <= i <= 32 && Reversed(tmp[..i]) == Digits(m, base, small)
  {
    ghost var digits := Digits(m, base, small);
    assert |digits| <= 32 by {
      ThirtyTwo();
      DigitsLength(m, base, small, 32);
    }
    assert m == 0 ==> digits == "0" && Reversed("0") == "0" by { DigitBack(0, small); }
    hide Power2;
    i := 0;
    var num: nat := m;
    if num == 0 {
      tmp[i] := '0';
      i := i + 1;
      assert tmp[..1] == "0";
    } else {
      i := Divide(m, base, small, tmp);
    }
  }

  // One turn of that loop: a digit moves from num to those written.
  lemma DivideTurn(digits: string, num: nat, base: nat, small: bool, low: string)
    requires 2 <= base <= 36 && num > 0 && digits == Digits(num, base, small) + Reversed(low)
    ensures |low| < |digits| && Quotient(num, base) < num && Remainder(num, base) < 36
    ensures var (next, more) := (Quotient(num, base), low + [DigitChar(Remainder(num, base), small)]);
      digits == if next > 0 then Digits(next, base, small) + Reversed(more) else Reversed(more)
  {
    DigitsStep(num, base, small, low);
    Divided(num, base);
    hide *;
  }

  // while (num != 0) tmp[i++] = digits[do_div(num, base)]
  method Divide(m: nat, base: nat, small: bool, tmp: array<char>) returns (i: nat)
    requires 2 <= base <= 36 && 0 < m && tmp.Length == 36 && |Digits(m, base, small)| <= 32
    modifies tmp
    ensures 1 <= i <= 32 && Reversed(tmp[..i]) == Digits(m, base, small)
  {
    ghost var digits := Digits(m, base, small);
    i := 0;
    var num: nat := m;
    assert Digits(num, base, small) + Reversed(tmp[..0]) == digits;
    hide Digits, Reversed, DigitChar, Quotient, Remainder;
    while num != 0
      invariant i <= 32
      invariant digits == (if num > 0 then Digits(num, base, small) + Reversed(tmp[..i]) else Reversed(tmp[..i]))
      decreases num
    {
      ghost var low := tmp[..i];
      DivideTurn(digits, num, base, small, low);
      var digit, next := DigitChar(Remainder(num, base), small), Quotient(num, base);
      tmp[i] := digit;
      assert tmp[..i + 1] == low + [digit];
      num := next;
      i := i + 1;
    }
  }

  lemma ThirtyTwo()
    ensures Power2(32) == WRAP
  {
    assert Power2(8) == 256;
    assert Power2(16) == 256 * Power2(8);
    assert Power2(24) == 256 * Power2(16);
    assert Power2(32) == 256 * Power2(24);
  }

  // while (i-- > 0) *str++ = tmp[i]
  method Unwind(buf: array<char>, at: nat, tmp: array<char>, i: nat) returns (end: nat)
    requires at + i <= buf.Length && i <= tmp.Length && tmp != buf
    modifies buf
    ensures end == at + i && Wrote(old(buf[..]), buf[..], at, end, Reversed(tmp[..i]))
  {
    ghost var was, text := buf[..], Reversed(tmp[..i]);
    end := at;
    WroteNone(was, at);
    assert text[..0] == "";
    var k := i;
    while k > 0
      invariant k <= i && end == at + i - k
      invariant Wrote(was, buf[..], at, end, text[..i - k])
    {
      k := k - 1;
      ReversedAt(tmp[..i], i - 1 - k);
      ghost var now := buf[..];
      end := PutChar(buf, end, tmp[k]);
      hide Wrote;
      WroteMore(was, now, buf[..], at, end - 1, end, text[..i - 1 - k], [tmp[k]]);
      assert text[..i - k] == text[..i - 1 - k] + [tmp[k]];
    }
    assert text[..i] == text;
  }

  // The pieces in the order number writes them.
  function Assembled(sign: string, prefix: string, digits: string, most: int, pad: int, zeropad: bool, left: bool): string {
    (if zeropad || left then "" else Repeat(' ', pad)) + sign + prefix + (if left || !zeropad then "" else Repeat('0', pad))
    + (Repeat('0', most - |digits|) + digits + if left && pad >= 0 then Repeat(' ', pad) else "")
  }

  lemma Joined(blanks: string, sign: string, prefix: string, zeros: string, body: string)
    ensures "" + sign + prefix + "" + (body + blanks) == sign + prefix + body + blanks
    ensures "" + sign + prefix + zeros + (body + "") == sign + prefix + zeros + body
    ensures blanks + sign + prefix + "" + (body + "") == blanks + (sign + prefix + body)
  {
  }

  lemma AssembledImage(num: int32, base: int, size: int, precision: int, flags: Flags)
    requires 2 <= base <= 36
    ensures var (sign, prefix, digits) :=
        (SignPart(num, flags), Prefix(base, flags), Digits(Magnitude(num, flags), base, flags.small));
      var most := Max(|digits|, precision);
      var pad := size - |sign| - |prefix| - most;
      && Assembled(sign, prefix, digits, most, pad, flags.zeropad && !flags.left, flags.left)
         == Image(num, base, size, precision, flags)
      && |Image(num, base, size, precision, flags)| == |sign| + |prefix| + most + Max(pad, 0)
  {
    hide SignPart, Prefix, Digits;
    var (sign, prefix, digits) :=
      (SignPart(num, flags), Prefix(base, flags), Digits(Magnitude(num, flags), base, flags.small));
    var most := Max(|digits|, precision);
    var pad := size - |sign| - |prefix| - most;
    var (blanks, zeros, body) := (Repeat(' ', pad), Repeat('0', pad), Repeat('0', most - |digits|) + digits);
    assert Repeat('0', most - |digits|) == Repeat('0', precision - |digits|);
    assert Core(num, base, precision, flags) == sign + prefix + body && |body| == most;
    assert pad < 0 ==> blanks == "";
    Joined(blanks, sign, prefix, zeros, body);
  }

  // The blanks, the sign, the prefix and the zeros before the digits; left is size afterwards.
  method Head(buf: array<char>, at: nat, sign: string, prefix: string, pad: int, zeropad: bool, left: bool)
    returns (end: nat, size: int)
    requires at + |sign| + |prefix| + (if left then 0 else Max(pad, 0)) <= buf.Length
    modifies buf
    ensures end == at + |sign| + |prefix| + (if left then 0 else Max(pad, 0)) && (if left then size == pad else size < 0)
    ensures Wrote(old(buf[..]), buf[..], at, end,
                  (if zeropad || left then "" else Repeat(' ', pad)) + sign + prefix
                  + (if left || !zeropad then "" else Repeat('0', pad)))
  {
    ghost var was := buf[..];
    WroteNone(was, at);
    hide Wrote;
    end, size := at, pad;
    if !zeropad && !left {
      end, size := Fill(buf, end, size, ' ');
    }
    ghost var (text, now) := (if zeropad || left then "" else Repeat(' ', pad), buf[..]);
    end := PutText(buf, end, sign);
    WroteMore(was, now, buf[..], at, end - |sign|, end, text, sign);
    text, now := text + sign, buf[..];
    end := PutText(buf, end, prefix);
    WroteMore(was, now, buf[..], at, end - |prefix|, end, text, prefix);
    text, now := text + prefix, buf[..];
    if !left {
      ghost var n := size;
      end, size := Fill(buf, end, size, if zeropad then '0' else ' ');
      WroteMore(was, now, buf[..], at, end - Max(n, 0), end, text, Repeat(if zeropad then '0' else ' ', n));
    }
    assert text + "" == text;
  }

  // The zeros up to the precision, the digits, and the blanks after them.
  method Tail(buf: array<char>, at: nat, tmp: array<char>, i: nat, most: int, size: int) returns (end: nat)
    requires at + most + Max(size, 0) <= buf.Length && i <= tmp.Length && i <= most && tmp != buf
    modifies buf
    ensures end == at + most + Max(size, 0)
    ensures Wrote(old(buf[..]), buf[..], at, end,
                  Repeat('0', most - i) + Reversed(tmp[..i]) + if size < 0 then "" else Repeat(' ', size))
  {
    ghost var (was, digits) := (buf[..], Reversed(tmp[..i]));
    hide Wrote;
    var left;
    end, left := Fill(buf, at, most - i, '0');
    ghost var now := buf[..];
    end := Unwind(buf, end, tmp, i);
    WroteMore(was, now, buf[..], at, end - i, end, Repeat('0', most - i), digits);
    now := buf[..];
    end, left := Fill(buf, end, size, ' ');
    WroteMore(was, now, buf[..], at, end - Max(size, 0), end, Repeat('0', most - i) + digits, Repeat(' ', size));
    assert size < 0 ==> Repeat(' ', size) == "";
  }

  // All that number writes.
  method Write(buf: array<char>, at: nat, sign: string, prefix: string, tmp: array<char>, i: nat, most: int, pad: int,
               zeropad: bool, left: bool) returns (end: nat)
    requires at + |sign| + |prefix| + most + Max(pad, 0) <= buf.Length && i <= tmp.Length && i <= most && tmp != buf
    modifies buf
    ensures Wrote(old(buf[..]), buf[..], at, end, Assembled(sign, prefix, Reversed(tmp[..i]), most, pad, zeropad, left))
  {
    ghost var was := buf[..];
    ghost var head := (if zeropad || left then "" else Repeat(' ', pad)) + sign + prefix
                      + (if left || !zeropad then "" else Repeat('0', pad));
    ghost var tail := Repeat('0', most - i) + Reversed(tmp[..i]) + if left && pad >= 0 then Repeat(' ', pad) else "";
    assert Assembled(sign, prefix, Reversed(tmp[..i]), most, pad, zeropad, left) == head + tail;
    hide Wrote, Repeat, Reversed, Assembled;
    var p, rest := Head(buf, at, sign, prefix, pad, zeropad, left);
    ghost var now := buf[..];
    end := Tail(buf, p, tmp, i, most, rest);
    WroteMore(was, now, buf[..], at, p, end, head, tail);
  }

  /** number: the image is written at str, and nothing else changes; a base out of range writes nothing and returns a
      null pointer. */
  method Number(buf: array<char>, str: nat, num: int32, base: int, size: int, precision: int, flags: Flags)
    returns (end: Option<nat>)
    requires 2 <= base <= 36 ==> str + |Image(num, base, size, precision, flags)| <= buf.Length
    modifies buf
    ensures base < 2 || base > 36 ==> end == None && buf[..] == old(buf[..])
    ensures 2 <= base <= 36 ==>
      end.Some? && Wrote(old(buf[..]), buf[..], str, end.value, Image(num, base, size, precision, flags))
  {
    hide Digits, SignPart, Prefix, Image, Body, Wrote, Assembled, Magnitude, Reversed;
    var type_ := flags;
    if type_.left {
      type_ := type_.(zeropad := false);
    }
    if base < 2 || base > 36 {
      return None;
    }
    var tmp := new char[36];
    var sign, prefix := SignPart(num, flags), Prefix(base, flags);
    var i := Convert(Magnitude(num, flags), base, flags.small, tmp);
    // if (i > precision) precision = i
    var most := Max(i, precision);
    var pad := size - |sign| - |prefix| - most;
    AssembledImage(num, base, size, precision, flags);
    var q := Write(buf, str, sign, prefix, tmp, i, most, pad, type_.zeropad, type_.left);
    return Some(q);
  }

  // ---- skip_atoi

  // The digits s starts with.
  function DigitRun(s: string): string {
    if s == [] || !IsDigit(s[0]) then [] else [s[0]] + DigitRun(s[1..])
  }

  // What skip_atoi makes of s.
  function Read(s: string): int32 { Wrap32(Value(DigitRun(s), 10)) }

  lemma {:induction false} RunIs(s: string, n: nat)
    requires n <= |s| && (forall k | 0 <= k < n :: IsDigit(s[k])) && (n < |s| ==> !IsDigit(s[n]))
    ensures DigitRun(s) == s[..n]
  {
    if n == 0 {
    } else {
      RunIs(s[1..], n - 1);
      assert s[..n] == [s[0]] + s[1..][..n - 1];
    }
  }

  lemma WrapAway(b: int, k: int)
    ensures (b + k * WRAP) % WRAP == b % WRAP
  {
    assert b + k * WRAP == (b / WRAP + k) * WRAP + b % WRAP;
  }

  lemma WrapStep(v: int, d: int)
    ensures Wrap32(Wrap32(v) * 10 + d) == Wrap32(v * 10 + d)
  {
    var k := v / WRAP + if Wrap32(v) < 0 then 1 else 0;
    assert Wrap32(v) == v - k * WRAP;
    WrapAway(Wrap32(v) * 10 + d, 10 * k);
    assert Wrap32(v) * 10 + d + 10 * k * WRAP == v * 10 + d;
  }

  lemma ValueNext(s: string, at: nat, end: nat)
    requires at <= end < |s|
    ensures Value(s[at..end + 1], 10) == Value(s[at..end], 10) * 10 + DigitValue(s[end])
  {
    assert s[at..end + 1][..end - at] == s[at..end];
  }

  /** skip_atoi, on a string that its terminator ends: the digits from at on, as a 32-bit number, and where they end. */
  method SkipAtoi(s: string, at: nat) returns (i: int32, end: nat)
    requires at < |s| && !IsDigit(s[|s| - 1])
    ensures i == Read(s[at..]) && end == at + |DigitRun(s[at..])|
  {
    i, end := 0, at;
    while IsDigit(s[end])
      invariant at <= end < |s| && forall k | at <= k < end :: IsDigit(s[k])
      invariant i == Wrap32(Value(s[at..end], 10))
      decreases |s| - end
    {
      ValueNext(s, at, end);
      WrapStep(Value(s[at..end], 10), DigitValue(s[end]));
      i := Wrap32(i * 10 + (s[end] - '0') as int);
      end := end + 1;
    }
    RunIs(s[at..], end - at);
    assert s[at..][..end - at] == s[at..end];
  }

  // ---- printing, then reading

  lemma {:induction false} DecimalDigits(m: nat, small: bool)
    ensures forall k | 0 <= k < |Digits(m, 10, small)| :: IsDigit(Digits(m, 10, small)[k])
    decreases m
  {
    Divided(m, 10);
    if m < 10 {
    } else {
      DecimalDigits(Quotient(m, 10), small);
    }
  }

  lemma {:induction false} LeadingZeros(n: nat, s: string, base: nat)
    ensures Value(Repeat('0', n) + s, base) == Value(s, base)
    decreases n + |s|
  {
    var t := Repeat('0', n) + s;
    if s != [] {
      LeadingZeros(n, s[..|s| - 1], base);
      assert t[..|t| - 1] == Repeat('0', n) + s[..|s| - 1];
    } else if n > 0 {
      LeadingZeros(n - 1, s, base);
      assert t[..|t| - 1] == Repeat('0', n - 1) + s;
    }
  }

  /** Whatever the precision, the body evaluates to the magnitude in every base; for the least integer that is 2^31. */
  lemma BodyMeans(num: int32, base: int, precision: int, flags: Flags)
    requires 2 <= base <= 36
    ensures Value(Body(num, base, precision, flags), base) == Magnitude(num, flags)
  {
    var ds := Digits(Magnitude(num, flags), base, flags.small);
    DigitsValue(Magnitude(num, flags), base, flags.small);
    LeadingZeros(Max(precision - |ds|, 0), ds, base);
    assert Repeat('0', precision - |ds|) == Repeat('0', Max(precision - |ds|, 0));
    hide Digits, Value, Magnitude;
  }

  // Without a sign the decimal image is zeros and digits, with blanks before or after.
  lemma DecimalImage(num: int32, size: int, precision: int, flags: Flags)
    requires !flags.plus && !flags.space && !(flags.sign && num < 0)
    ensures var body := Body(num, 10, precision, flags);
      Image(num, 10, size, precision, flags) ==
        if flags.left then body + Repeat(' ', size - |body|)
        else if flags.zeropad then Repeat('0', size - |body|) + body
        else Repeat(' ', size - |body|) + body
  {
    var body := Body(num, 10, precision, flags);
    assert SignPart(num, flags) == "" && Prefix(10, flags) == "" && Core(num, 10, precision, flags) == body;
    assert "" + "" + Repeat('0', size - |body|) + body == Repeat('0', size - |body|) + body;
    hide Body;
  }

  // Zeros and the body are all digits and stand for the magnitude.
  lemma BodyValue(num: int32, precision: int, flags: Flags, zeros: int)
    ensures var s := Repeat('0', zeros) + Body(num, 10, precision, flags);
      Value(s, 10) == Magnitude(num, flags) && forall k | 0 <= k < |s| :: IsDigit(s[k])
  {
    var m := Magnitude(num, flags);
    var ds := Digits(m, 10, flags.small);
    DecimalDigits(m, flags.small);
    BodyMeans(num, 10, precision, flags);
    LeadingZeros(Max(zeros, 0), Body(num, 10, precision, flags), 10);
    assert Repeat('0', zeros) == Repeat('0', Max(zeros, 0));
    hide Digits, Value, Magnitude;
  }

  lemma MagnitudeBack(num: int32, flags: Flags)
    requires !(flags.sign && num < 0)
    ensures Wrap32(Magnitude(num, flags)) == num
  {
  }

  // A text that starts with zeros and the body is read as the number.
  lemma ReadsRun(text: string, num: int32, precision: int, flags: Flags, zeros: int, after: string)
    requires !(flags.sign && num < 0) && after != [] && !IsDigit(after[0])
    requires text == Repeat('0', zeros) + Body(num, 10, precision, flags) + after
      || (zeros == 0 && text == Body(num, 10, precision, flags) + after)
    ensures Read(text) == num
  {
    var s := Repeat('0', zeros) + Body(num, 10, precision, flags);
    assert zeros == 0 ==> s == Body(num, 10, precision, flags);
    BodyValue(num, precision, flags, zeros);
    MagnitudeBack(num, flags);
    ReadsBody(text, s, after);
    hide Body, Magnitude, Value, DigitRun, Wrap32;
  }

  lemma Regroup(body: string, blanks: string, rest: string)
    ensures (body + blanks) + rest == body + (blanks + rest)
    ensures rest != [] && !IsDigit(rest[0]) && (blanks != [] ==> blanks[0] == ' ') ==> !IsDigit((blanks + rest)[0])
  {
  }

  lemma ReadsBlank(text: string)
    requires text != [] && text[0] == ' '
    ensures Read(text) == 0
  {
  }

  /** The round trip: a 32-bit number printed in base 10, without a sign, and followed by anything but a digit is read back
      as itself, modulo 2^32 where the unsigned print is over 2^31 - 1; exactly unless blanks for the width come first. */
  lemma ReadBackExactly(num: int32, size: int, precision: int, flags: Flags, rest: string)
    requires !flags.plus && !flags.space && !(flags.sign && num < 0)
    requires rest != [] && !IsDigit(rest[0])
    ensures Read(Image(num, 10, size, precision, flags) + rest) == num <==>
      num == 0 || flags.left || flags.zeropad || size <= Max(|Digits(Magnitude(num, flags), 10, flags.small)|, precision)
  {
    var body := Body(num, 10, precision, flags);
    var pad := size - |body|;
    var blanks := Repeat(' ', pad);
    var text := Image(num, 10, size, precision, flags) + rest;
    DecimalImage(num, size, precision, flags);
    hide *;
    if flags.left {
      Regroup(body, blanks, rest);
      ReadsRun(text, num, precision, flags, 0, blanks + rest);
    } else if flags.zeropad {
      ReadsRun(text, num, precision, flags, pad, rest);
    } else if pad > 0 {
      ReadsBlank(text);
    } else {
      assert blanks == "" && "" + body == body;
      ReadsRun(text, num, precision, flags, 0, rest);
    }
  }

  lemma ReadsBody(text: string, digits: string, after: string)
    requires text == digits + after && after != [] && !IsDigit(after[0])
    requires forall k | 0 <= k < |digits| :: IsDigit(digits[k])
    ensures DigitRun(text) == digits
  {
    RunIs(text, |digits|);
  }

  /** Up to 2^31 - 1 nothing wraps on the way: every prefix of the digits stands for a number no larger. */
  lemma {:induction false} PrefixValue(s: string, k: nat)
    requires k <= |s|
    ensures Value(s[..k], 10) <= Value(s, 10)
  {
    if k < |s| {
      PrefixValue(s[..|s| - 1], k);
      assert s[..|s| - 1][..k] == s[..k];
    } else {
      assert s[..k] == s;
    }
  }
}
