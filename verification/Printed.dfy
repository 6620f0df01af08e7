/** What the text that number writes says: read as strtol reads it, in every base and with every flag, it is the number; and
    what the flags, the width and the precision show in it. */
module Printed {
  import opened Stdio

  predicate Letter(c: char) { 'a' <= c <= 'z' || 'A' <= c <= 'Z' }

  predicate Alnum(c: char) { '0' <= c <= '9' || Letter(c) }

  predicate DigitIn(c: char, base: nat) { Alnum(c) && DigitValue(c) < base }

  // ---- reading

  function SkipBlanks(s: string): string {
    if s != [] && s[0] == ' ' then SkipBlanks(s[1..]) else s
  }

  // The digits s starts with.
  function RunIn(s: string, base: nat): string {
    if s == [] || !DigitIn(s[0], base) then [] else [s[0]] + RunIn(s[1..], base)
  }

  function Signed(s: string): bool { s != [] && (s[0] == '-' || s[0] == '+') }

  function Hex(s: string): bool { |s| >= 2 && s[0] == '0' && (s[1] == 'x' || s[1] == 'X') }

  // Behind the sign and the 0x of a hexadecimal number.
  function Behind(s: string, base: nat): string {
    var u := if Signed(s) then s[1..] else s;
    if base == 16 && Hex(u) then u[2..] else u
  }

  /** What strtol reads: blanks, a sign, 0x for base 16, and digits. */
  function Strtol(s: string, base: nat): int {
    var t := SkipBlanks(s);
    var m: int := Value(RunIn(Behind(t, base), base), base);
    if t != [] && t[0] == '-' then -m else m
  }

  // The number meant: with SIGN the number itself, otherwise its 32 bits.
  function Meant(num: int32, flags: Flags): int {
    if flags.sign || num >= 0 then num else num + 0x1_0000_0000
  }

  // ---- the parts of the text

  // Blanks, a sign or none, the prefix, digits, blanks.
  ghost predicate Parts(text: string, num: int32, base: nat, flags: Flags, before: nat, sign: string, prefix: string,
                        digits: string, after: nat) {
    && text == Repeat(' ', before) + (sign + (prefix + (digits + Repeat(' ', after))))
    && sign == SignPart(num, flags) && prefix == Prefix(base, flags) && digits != []
    && (forall c | c in digits :: DigitIn(c, base)) && Value(digits, base) == Magnitude(num, flags)
  }

  lemma {:induction false} DigitsIn(m: nat, base: nat, small: bool)
    requires 2 <= base <= 36
    ensures forall c | c in Digits(m, base, small) :: DigitIn(c, base)
    decreases m
  {
    Divided(m, base);
    if m < base {
      DigitBack(m, small);
    } else {
      DigitsIn(Quotient(m, base), base, small);
      DigitBack(Remainder(m, base), small);
    }
  }

  // Any number of zeros in front of the body.
  lemma ZeroBody(num: int32, base: nat, precision: int, flags: Flags, n: int)
    requires 2 <= base <= 36
    ensures var s := Repeat('0', n) + Body(num, base, precision, flags);
      && s != [] && (forall c | c in s :: DigitIn(c, base)) && Value(s, base) == Magnitude(num, flags)
  {
    DigitsIn(Magnitude(num, flags), base, flags.small);
    BodyMeans(num, base, precision, flags);
    LeadingZeros(Max(n, 0), Body(num, base, precision, flags), base);
    assert Repeat('0', n) == Repeat('0', Max(n, 0));
    hide Digits, Value, Magnitude;
  }

  lemma ImageParts(num: int32, base: nat, size: int, precision: int, flags: Flags)
    returns (before: nat, sign: string, prefix: string, digits: string, after: nat)
    requires 2 <= base <= 36
    ensures Parts(Image(num, base, size, precision, flags), num, base, flags, before, sign, prefix, digits, after)
    ensures before > 0 ==> !flags.left && !flags.zeropad && size > 0
    ensures after > 0 ==> flags.left
  {
    sign, prefix := SignPart(num, flags), Prefix(base, flags);
    var body := Body(num, base, precision, flags);
    var pad := size - |Core(num, base, precision, flags)|;
    before, after, digits := 0, 0, body;
    ZeroBody(num, base, precision, flags, 0);
    ZeroBody(num, base, precision, flags, pad);
    assert Repeat('0', 0) + body == body;
    hide Body, Digits, Value, Magnitude, SignPart, Prefix, DigitIn;
    if flags.left {
      after := Max(pad, 0);
      assert Repeat(' ', pad) == Repeat(' ', after);
      Grouped("", sign, prefix, body, Repeat(' ', after));
    } else if flags.zeropad {
      digits := Repeat('0', pad) + body;
      GroupedZeros(sign, prefix, Repeat('0', pad), body);
    } else {
      before := Max(pad, 0);
      assert Repeat(' ', pad) == Repeat(' ', before);
      Grouped(Repeat(' ', before), sign, prefix, body, "");
    }
    assert Repeat(' ', 0) == "";
  }

  lemma Grouped(before: string, sign: string, prefix: string, body: string, after: string)
    ensures before + (sign + prefix + body) + after == before + (sign + (prefix + (body + after)))
    ensures before + (sign + prefix + body) == before + (sign + (prefix + (body + "")))
    ensures sign + prefix + body + after == "" + (sign + (prefix + (body + after)))
  {
  }

  lemma GroupedZeros(sign: string, prefix: string, zeros: string, body: string)
    ensures sign + prefix + zeros + body == "" + (sign + (prefix + ((zeros + body) + "")))
  {
  }

  // ---- reading the parts

  lemma {:induction false} SkipsBlanks(n: nat, s: string)
    ensures SkipBlanks(Repeat(' ', n) + s) == SkipBlanks(s)
    decreases n
  {
    var t := Repeat(' ', n) + s;
    if n == 0 {
      assert t == s;
    } else {
      assert t[1..] == Repeat(' ', n - 1) + s;
      SkipsBlanks(n - 1, s);
    }
  }

  lemma {:induction false} RunsIn(digits: string, rest: string, base: nat)
    requires (forall c | c in digits :: DigitIn(c, base)) && rest != [] && !DigitIn(rest[0], base)
    ensures RunIn(digits + rest, base) == digits
    decreases |digits|
  {
    var t := digits + rest;
    if digits == [] {
      assert t == rest;
    } else {
      assert t[1..] == digits[1..] + rest && digits[0] in digits;
      RunsIn(digits[1..], rest, base);
      assert [digits[0]] + digits[1..] == digits;
    }
  }

  // The characters that can come behind the digits.
  predicate Ends(rest: string) { rest != [] && !Alnum(rest[0]) }

  lemma EndsBlank(n: nat, rest: string)
    requires Ends(rest)
    ensures Ends(Repeat(' ', n) + rest)
  {
  }

  // The digits behind the prefix.
  lemma PrefixRead(num: int32, base: nat, flags: Flags, prefix: string, digits: string, rest: string)
    requires 2 <= base <= 36 && prefix == Prefix(base, flags) && digits != [] && Ends(rest)
    requires (forall c | c in digits :: DigitIn(c, base))
    ensures var u := prefix + (digits + rest);
      && u != [] && u[0] != ' ' && !Signed(u) && Value(RunIn(Behind(u, base), base), base) == Value(digits, base)
  {
    PrefixFirst(num, base, flags, prefix, digits, rest);
    EndsRun(rest, base);
    RunsIn(digits, rest, base);
    hide RunIn, Value, DigitIn;
    if flags.special && base == 16 {
      BehindHex(flags.small, digits + rest);
    } else if flags.special && base == 8 {
      OctalRead(digits, rest);
    } else {
      assert prefix + (digits + rest) == digits + rest;
      BehindNone(digits, rest, base);
    }
  }

  lemma EndsRun(rest: string, base: nat)
    requires Ends(rest)
    ensures rest != [] && !DigitIn(rest[0], base)
  {
  }

  lemma BehindHex(small: bool, s: string)
    ensures Behind(['0', DigitChar(33, small)] + s, 16) == s
  {
    var u := ['0', DigitChar(33, small)] + s;
    assert u[2..] == s;
  }

  lemma OctalRead(digits: string, rest: string)
    requires (forall c | c in digits :: DigitIn(c, 8)) && rest != [] && !DigitIn(rest[0], 8)
    ensures var u := "0" + (digits + rest); Value(RunIn(Behind(u, 8), 8), 8) == Value(digits, 8)
  {
    assert DigitIn('0', 8);
    hide DigitIn, Value;
    RunsIn("0" + digits, rest, 8);
    assert "0" + digits == Repeat('0', 1) + digits && "0" + (digits + rest) == ("0" + digits) + rest;
    LeadingZeros(1, digits, 8);
    hide RunIn;
  }

  lemma BehindNone(digits: string, rest: string, base: nat)
    requires digits != [] && (forall c | c in digits :: DigitIn(c, base)) && rest != [] && !Alnum(rest[0])
    ensures Behind(digits + rest, base) == digits + rest
  {
    var u := digits + rest;
    assert digits[0] in digits && u[0] == digits[0];
    if base == 16 && |u| >= 2 {
      assert u[1] == (if |digits| > 1 then digits[1] else rest[0]);
      assert |digits| > 1 ==> digits[1] in digits;
    }
  }

  lemma SignRead(num: int32, base: nat, flags: Flags, sign: string, u: string)
    requires sign == SignPart(num, flags) && u != [] && u[0] != ' ' && !Signed(u)
    ensures var t := SkipBlanks(sign + u);
      && t != [] && Behind(t, base) == Behind(u, base) && (t[0] == '-' <==> flags.sign && num < 0)
      && (t[0] == '+' <==> !(flags.sign && num < 0) && flags.plus)
      && (t == sign + u || sign == " ")
  {
    if sign == "" {
      assert sign + u == u;
    } else {
      assert (sign + u)[1..] == u;
    }
  }

  lemma Reassociated(before: nat, sign: string, prefix: string, digits: string, blanks: string, rest: string)
    ensures (Repeat(' ', before) + (sign + (prefix + (digits + blanks)))) + rest
         == Repeat(' ', before) + (sign + (prefix + (digits + (blanks + rest))))
  {
  }

  /** The round trip for every base, width, precision and flag: the text, followed by anything but a letter or a digit, is
      read as the number; without SIGN, as its 32 bits. */
  lemma ReadsAsMeant(num: int32, base: nat, size: int, precision: int, flags: Flags, rest: string)
    requires 2 <= base <= 36 && Ends(rest)
    ensures Strtol(Image(num, base, size, precision, flags) + rest, base) == Meant(num, flags)
  {
    var before, sign, prefix, digits, after := ImageParts(num, base, size, precision, flags);
    hide Image, Repeat, SignPart, Prefix, RunIn, SkipBlanks, Behind, Value, DigitIn, Ends, Signed;
    var tail := Repeat(' ', after) + rest;
    EndsBlank(after, rest);
    PrefixRead(num, base, flags, prefix, digits, tail);
    var u := prefix + (digits + tail);
    SignRead(num, base, flags, sign, u);
    SkipsBlanks(before, sign + u);
    Reassociated(before, sign, prefix, digits, Repeat(' ', after), rest);
  }

  /** The sign, behind any blanks for the width: '-' exactly for a negative number printed with SIGN, '+' exactly for another
      one with PLUS. */
  lemma SignShown(num: int32, base: nat, size: int, precision: int, flags: Flags)
    requires 2 <= base <= 36
    ensures var t := SkipBlanks(Image(num, base, size, precision, flags));
      && t != [] && (t[0] == '-' <==> flags.sign && num < 0) && (t[0] == '+' <==> !(flags.sign && num < 0) && flags.plus)
  {
    var before, sign, prefix, digits, after := ImageParts(num, base, size, precision, flags);
    hide Image, SignPart, Prefix, RunIn, SkipBlanks, Behind, Value, DigitIn, Ends, Signed;
    var tail := Repeat(' ', after);
    PrefixFirst(num, base, flags, prefix, digits, tail);
    SignRead(num, base, flags, sign, prefix + (digits + tail));
    SkipsBlanks(before, sign + (prefix + (digits + tail)));
  }

  lemma PrefixFirst(num: int32, base: nat, flags: Flags, prefix: string, digits: string, rest: string)
    requires prefix == Prefix(base, flags) && digits != [] && forall c | c in digits :: DigitIn(c, base)
    ensures var u := prefix + (digits + rest); u != [] && u[0] != ' ' && !Signed(u)
  {
    assert digits[0] in digits && (digits + rest)[0] == digits[0];
  }

  /** Without blanks for the width, the first character is a blank exactly with SPACE, without PLUS, for a number that is
      not printed with '-'. */
  lemma SpaceShown(num: int32, base: nat, size: int, precision: int, flags: Flags)
    requires 2 <= base <= 36 && (flags.left || flags.zeropad || size <= 0)
    ensures var t := Image(num, base, size, precision, flags);
      t != [] && (t[0] == ' ' <==> flags.space && !flags.plus && !(flags.sign && num < 0))
  {
    var before, sign, prefix, digits, after := ImageParts(num, base, size, precision, flags);
    PrefixFirst(num, base, flags, prefix, digits, Repeat(' ', after));
    var u := prefix + (digits + Repeat(' ', after));
    hide Image, Prefix, DigitIn;
    assert Repeat(' ', before) == "" && Image(num, base, size, precision, flags) == sign + u;
  }

  // ---- lengths, and on which side the width goes

  // One for a sign, two for 0x, one for the 0 of base 8.
  function Marks(num: int32, base: nat, flags: Flags): nat {
    (if (flags.sign && num < 0) || flags.plus || flags.space then 1 else 0)
    + if flags.special && base == 16 then 2 else if flags.special && base == 8 then 1 else 0
  }

  /** The length, in every padding mode: the width, or, if that is more, sign and prefix and the digits or the precision. */
  lemma LengthShown(num: int32, base: nat, size: int, precision: int, flags: Flags)
    requires 2 <= base <= 36
    ensures |Image(num, base, size, precision, flags)|
        == Max(size, Marks(num, base, flags) + Max(|Digits(Magnitude(num, flags), base, flags.small)|, precision))
  {
    ImageLength(num, base, size, precision, flags);
    hide Digits, Magnitude, Image;
  }

  /** The text without a width. */
  function Narrow(num: int32, base: nat, precision: int, flags: Flags): string
    requires 2 <= base <= 36
  {
    Image(num, base, 0, precision, flags)
  }

  /** A width adds blanks behind the text with LEFT, and in front of it without LEFT and ZEROPAD. */
  lemma WidthPads(num: int32, base: nat, size: int, precision: int, flags: Flags)
    requires 2 <= base <= 36
    ensures var (t, n) := (Image(num, base, size, precision, flags), Narrow(num, base, precision, flags));
      && (flags.left ==> t == n + Repeat(' ', size - |n|))
      && (!flags.left && !flags.zeropad ==> t == Repeat(' ', size - |n|) + n)
  {
    var c := Core(num, base, precision, flags);
    assert Repeat(' ', -|c|) == "" && Repeat('0', -|c|) == "";
    hide Core, Body, Digits, Magnitude, SignPart, Prefix;
    assert c + "" == c && "" + c == c;
  }

  // With ZEROPAD the text is head, zeros and body.
  lemma ZeroImage(num: int32, base: nat, size: int, precision: int, flags: Flags)
    requires 2 <= base <= 36 && flags.zeropad && !flags.left
    ensures var (head, body) := (SignPart(num, flags) + Prefix(base, flags), Body(num, base, precision, flags));
      && Image(num, base, size, precision, flags) == head + Repeat('0', size - |head + body|) + body
      && |head| == Marks(num, base, flags)
  {
    hide Body, Digits, Magnitude;
  }

  /** ZEROPAD, without LEFT, puts zeros between sign and prefix and the digits. */
  lemma ZerosPad(num: int32, base: nat, size: int, precision: int, flags: Flags)
    requires 2 <= base <= 36 && flags.zeropad && !flags.left
    ensures var (t, n, k) := (Image(num, base, size, precision, flags), Narrow(num, base, precision, flags), Marks(num, base, flags));
      && k < |n| && t == n[..k] + Repeat('0', size - |n|) + n[k..]
      && forall c | c in n[k..] :: DigitIn(c, base)
  {
    hide Image, Body, DigitIn, SignPart, Prefix, Marks, Repeat, Value, Magnitude;
    var (head, body) := (SignPart(num, flags) + Prefix(base, flags), Body(num, base, precision, flags));
    ZeroBody(num, base, precision, flags, 0);
    ZeroImage(num, base, size, precision, flags);
    ZeroImage(num, base, 0, precision, flags);
    NoZeros(body, 0 - |head + body|);
    Cut(head, body, Repeat('0', size - |head + body|));
  }

  lemma NoZeros(body: string, n: int)
    requires n <= 0
    ensures Repeat('0', n) == "" && Repeat('0', 0) + body == body
  {
  }

  lemma Cut(head: string, body: string, zeros: string)
    ensures var n := head + "" + body;
      n == head + body && |n| == |head| + |body| && n[..|head|] == head && n[|head|..] == body
  {
  }

  // ---- letters

  lemma {:induction false} DigitsCase(m: nat, base: nat, small: bool)
    requires 2 <= base <= 36
    ensures forall c | c in Digits(m, base, small) :: if small then !('A' <= c <= 'Z') else !('a' <= c <= 'z')
    decreases m
  {
    Divided(m, base);
    if m < base {
    } else {
      DigitsCase(Quotient(m, base), base, small);
    }
  }

  /** SMALL decides the case of all letters. */
  lemma CaseShown(num: int32, base: nat, size: int, precision: int, flags: Flags)
    requires 2 <= base <= 36
    ensures forall c | c in Image(num, base, size, precision, flags) ::
      if flags.small then !('A' <= c <= 'Z') else !('a' <= c <= 'z')
  {
    DigitsCase(Magnitude(num, flags), base, flags.small);
    hide Digits, Magnitude;
  }

  /** SPECIAL: hexadecimal text starts, behind blanks and sign, with 0x or 0X, octal text with 0; without SPECIAL hexadecimal
      text does not. */
  lemma SpecialShown(num: int32, base: nat, size: int, precision: int, flags: Flags)
    requires base == 8 || base == 16
    ensures var t := SkipBlanks(Image(num, base, size, precision, flags));
      var u := if Signed(t) then t[1..] else t;
      && (base == 16 ==> (Hex(u) <==> flags.special))
      && (base == 8 && flags.special ==> u != [] && u[0] == '0')
  {
    hide Image, SkipBlanks, SignPart, Value, Magnitude, DigitIn, Hex, Prefix, Repeat;
    var before, sign, prefix, digits, after := ImageParts(num, base, size, precision, flags);
    var tail := Repeat(' ', after);
    PrefixFirst(num, base, flags, prefix, digits, tail);
    var u := prefix + (digits + tail);
    SkipsBlanks(before, sign + u);
    SignSkipped(num, flags, sign, u);
    TailBlank(after);
    HexShown(num, base, flags, prefix, digits, tail);
  }

  lemma TailBlank(n: nat)
    ensures var tail := Repeat(' ', n); tail != [] ==> tail[0] == ' '
  {
  }

  lemma HexShown(num: int32, base: nat, flags: Flags, prefix: string, digits: string, tail: string)
    requires (base == 8 || base == 16) && prefix == Prefix(base, flags) && digits != []
    requires (forall c | c in digits :: DigitIn(c, base)) && (tail != [] ==> tail[0] == ' ')
    ensures var u := prefix + (digits + tail);
      && (base == 16 ==> (Hex(u) <==> flags.special)) && (base == 8 && flags.special ==> u != [] && u[0] == '0')
  {
    var s := digits + tail;
    if !flags.special {
      assert prefix + s == s;
      if |s| >= 2 {
        assert s[1] == (if |digits| > 1 then digits[1] else tail[0]);
        assert |digits| > 1 ==> digits[1] in digits;
      }
    }
  }

  lemma SignSkipped(num: int32, flags: Flags, sign: string, u: string)
    requires sign == SignPart(num, flags) && u != [] && u[0] != ' ' && !Signed(u)
    ensures var t := SkipBlanks(sign + u); (if Signed(t) then t[1..] else t) == u
  {
    if sign == "" {
      assert sign + u == u;
    } else {
      assert (sign + u)[1..] == u;
    }
  }

  // ---- skip_atoi behind a sign

  lemma NegativeImage(num: int32, size: int, precision: int, flags: Flags)
    requires flags.sign && num < 0 && size <= 0
    ensures Image(num, 10, size, precision, flags) == "-" + Body(num, 10, precision, flags)
  {
    var body := Body(num, 10, precision, flags);
    hide Body;
    var c := Core(num, 10, precision, flags);
    assert c == "-" + body;
    assert Repeat(' ', size - |c|) == "" && Repeat('0', size - |c|) == "";
    assert "-" + "" + "" + body == c && c + "" == c && "" + c == c;
  }

  /** Printed in base 10 without a width, a negative number is read back by skip_atoi from behind its sign, as 2^31 wraps. */
  lemma ReadsBehindSign(num: int32, size: int, precision: int, flags: Flags, rest: string)
    requires flags.sign && num < 0 && size <= 0 && rest != [] && !IsDigit(rest[0])
    ensures var t := Image(num, 10, size, precision, flags);
      t != [] && t[0] == '-' && Read(t[1..] + rest) == Wrap32(-(num as int))
  {
    hide Image, Body, Value, DigitRun, Wrap32, Repeat;
    var body := Body(num, 10, precision, flags);
    NegativeImage(num, size, precision, flags);
    BodyValue(num, precision, flags, 0);
    NoZeros(body, 0);
    assert ("-" + body)[1..] == body;
    ReadsBody(body + rest, body, rest);
  }
}
