/**
 Printing and parsing integers: mini_itoa (libs/printk.c:57-102) and atoi with
 its three parsers (libs/string.c:87-163). An int is 32 bits and wraps.
 */
module Digits {
  const WORD: int := 0x1_0000_0000
  const HALF: int := 0x8000_0000

  predicate IsInt(v: int) {
    -HALF <= v < HALF
  }

  /** The int that has the low 32 bits of `x`. */
  function Wrap(x: int): (v: int)
    ensures IsInt(v)
  {
    (x + HALF) % WORD - HALF
  }

  // ----- text -----

  function Digit(d: nat, upper: bool): char
    requires d < 16
  {
    if d < 10 then '0' + d as char else (if upper then 'A' else 'a') + (d - 10) as char
  }

  /** The digit a character stands for; 16 for none. */
  function DigitValue(c: char): (d: nat)
    ensures d <= 16
  {
    if '0' <= c <= '9' then (c - '0') as nat
    else if 'a' <= c <= 'f' then (c - 'a') as nat + 10
    else if 'A' <= c <= 'F' then (c - 'A') as nat + 10
    else 16
  }

  /** `v` in base `radix`, most significant digit first. */
  function Numeral(v: nat, radix: nat, upper: bool): (s: string)
    requires 2 <= radix <= 16
    ensures |s| > 0
  {
    if v < radix then [Digit(v, upper)] else Numeral(v / radix, radix, upper) + [Digit(v % radix, upper)]
  }

  lemma DivStep(v: nat, radix: nat)
    requires 2 <= radix
    ensures v == v / radix * radix + v % radix && (v > 0 ==> v / radix < v) && (v / radix > 0 <==> v >= radix)
    ensures v < radix ==> v % radix == v
  {
  }

  /** One more digit. */
  lemma NumeralStep(v: nat, radix: nat, upper: bool)
    requires 2 <= radix <= 16
    ensures Numeral(v, radix, upper) == (if v / radix > 0 then Numeral(v / radix, radix, upper) else "") + [Digit(v % radix, upper)]
  {
    hide Digit;
    DivStep(v, radix);
  }

  /** The same, with the digits already split off behind it. */
  lemma NumeralPeel(v: nat, radix: nat, upper: bool, out: string)
    requires 2 <= radix <= 16
    ensures Numeral(v, radix, upper) + out ==
            (if v / radix > 0 then Numeral(v / radix, radix, upper) else "") + ([Digit(v % radix, upper)] + out)
  {
    hide Numeral, Digit;
    NumeralStep(v, radix, upper);
  }

  function Zeros(n: nat): (s: string)
    ensures |s| == n && forall i | 0 <= i < n :: s[i] == '0'
  {
    seq(n, _ => '0')
  }

  predicate Negative(value: int, unsig: bool) {
    value < 0 && !unsig
  }

  /** What the digit loop divides: C converts the int to unsigned. */
  function Magnitude(value: int, unsig: bool): (m: nat)
    requires IsInt(value)
    ensures m < WORD
  {
    if Negative(value, unsig) then -value else if value < 0 then value + WORD else value
  }

  /** The text mini_itoa leaves: a sign, zeros up to the pad, the numeral. */
  function Text(value: int, radix: nat, upper: bool, unsig: bool, pad: nat): string
    requires IsInt(value) && 2 <= radix <= 16
  {
    var n := Numeral(Magnitude(value, unsig), radix, upper);
    (if Negative(value, unsig) then "-" else "") + Zeros(if pad > |n| then pad - |n| else 0) + n
  }

  // ----- printing, in place -----

  function Reverse(s: string): (r: string)
    ensures |r| == |s| && forall i | 0 <= i < |s| :: r[i] == s[|s| - 1 - i]
  {
    seq(|s|, i requires 0 <= i < |s| => s[|s| - 1 - i])
  }

  lemma ReverseTwice(s: string)
    ensures Reverse(Reverse(s)) == s
  {
  }

  lemma ReverseCons(c: char, s: string)
    ensures Reverse([c] + s) == Reverse(s) + [c]
  {
  }

  /** The do-while loop: digits, least significant first. */
  method EmitDigits(m: nat, radix: nat, upper: bool, buffer: array<char>) returns (n: nat)
    requires 2 <= radix <= 16 && buffer.Length > |Numeral(m, radix, upper)|
    modifies buffer
    ensures n == |Numeral(m, radix, upper)| && buffer[..n] == Reverse(Numeral(m, radix, upper))
  {
    hide Reverse, Digit, Numeral;
    var v: nat, more := m, true;
    ghost var out := "";
    n := 0;
    assert buffer[..0] == "" == Reverse("");
    while more
      invariant n == |out| && buffer.Length > |Numeral(m, radix, upper)|
      invariant Numeral(m, radix, upper) == (if more then Numeral(v, radix, upper) else []) + out
      invariant n < buffer.Length && buffer[..n] == Reverse(out)
      decreases more, v
    {
      NumeralPeel(v, radix, upper, out);
      DivStep(v, radix);
      var c := Digit(v % radix, upper);
      ReverseCons(c, out);
      out := [c] + out;
      buffer[n] := c;
      assert buffer[..n + 1] == buffer[..n] + [c];
      n := n + 1;
      v := v / radix;
      more := v > 0;
    }
  }

  method EmitPad(buffer: array<char>, digits: nat, pad: nat, ghost numeral: string) returns (n: nat)
    requires digits == |numeral| < buffer.Length && pad < buffer.Length && buffer[..digits] == Reverse(numeral)
    modifies buffer
    ensures n == (if pad > digits then pad else digits) && buffer[..n] == Reverse(Zeros(n - digits) + numeral)
  {
    n := digits;
    while n < pad
      invariant digits <= n && (n == digits || n <= pad) && n < buffer.Length
      invariant buffer[..n] == Reverse(Zeros(n - digits) + numeral)
    {
      buffer[n] := '0';
      assert buffer[..n + 1] == buffer[..n] + ['0'];
      n := n + 1;
    }
  }

  method ReverseInPlace(buffer: array<char>, len: nat)
    requires len < buffer.Length
    modifies buffer
    ensures buffer[..len] == Reverse(old(buffer[..len])) && buffer[len..] == old(buffer[len..])
  {
    for i := 0 to len / 2
      invariant forall k | 0 <= k < i :: buffer[k] == old(buffer[len - 1 - k]) && buffer[len - 1 - k] == old(buffer[k])
      invariant forall k | i <= k < len - i :: buffer[k] == old(buffer[k])
      invariant buffer[len..] == old(buffer[len..])
    {
      buffer[i], buffer[len - 1 - i] := buffer[len - 1 - i], buffer[i];
    }
  }

  /** mini_itoa; it refuses a radix above 16 and leaves the buffer alone. */
  method MiniItoa(value: int, radix: nat, upper: bool, unsig: bool, buffer: array<char>, pad: nat) returns (len: nat)
    requires IsInt(value) && 2 <= radix
    requires radix <= 16 ==> buffer.Length > |Text(value, radix, upper, unsig, pad)|
    modifies buffer
    ensures radix > 16 ==> len == 0 && buffer[..] == old(buffer[..])
    ensures radix <= 16 ==> len < buffer.Length && buffer[..len] == Text(value, radix, upper, unsig, pad) && buffer[len] == '\0'
  {
    hide Numeral, Reverse, Zeros;
    if radix > 16 { return 0; }
    ghost var text := Text(value, radix, upper, unsig, pad);
    ghost var numeral := Numeral(Magnitude(value, unsig), radix, upper);
    var n := EmitDigits(Magnitude(value, unsig), radix, upper, buffer);
    n := EmitPad(buffer, n, pad, numeral);
    ghost var body := Zeros(if pad > |numeral| then pad - |numeral| else 0) + numeral;
    if Negative(value, unsig) {
      ReverseCons('-', body);
      assert text == "-" + body;
      buffer[n] := '-';
      assert buffer[..n + 1] == buffer[..n] + ['-'];
      n := n + 1;
    } else {
      assert text == body;
    }
    assert buffer[..n] == Reverse(text);
    buffer[n] := '\0';
    len := n;
    ReverseTwice(text);
    ReverseInPlace(buffer, len);
    assert buffer[len] == buffer[len..][0];
  }

  // ----- parsing -----

  /** The loop the three parsers share: digits of the radix up to the first other character, wrapping. */
  function Parse(s: string, radix: nat, ans: int): int {
    if s == [] || DigitValue(s[0]) >= radix then ans else Parse(s[1..], radix, Wrap(ans * radix + DigitValue(s[0])))
  }

  /** The same in unbounded arithmetic. */
  function ParseNat(s: string, radix: nat, ans: nat): nat {
    if s == [] || DigitValue(s[0]) >= radix then ans else ParseNat(s[1..], radix, ans * radix + DigitValue(s[0]))
  }

  /** atoi on the characters before the NUL. */
  function Atoi(s: string): int {
    if |s| >= 2 && s[0] == '0' && (s[1] == 'x' || s[1] == 'X') then Parse(s[2..], 16, 0)
    else if |s| >= 1 && s[0] == '0' then Parse(s[1..], 8, 0)
    else Parse(s, 10, 0)
  }

  /** One parser's loop over a NUL-terminated buffer; the C sums before it subtracts, wrapping each time. */
  method ParseLoop(str: array<char>, start: nat, radix: nat, ghost s: string) returns (ans: int)
    requires start <= start + |s| < str.Length && str[start..start + |s|] == s && str[start + |s|] == '\0'
    requires radix <= 16
    ensures ans == Parse(s, radix, 0)
  {
    ans := 0;
    var i := start;
    while str[i] != '\0' && DigitValue(str[i]) < radix
      invariant start <= i <= start + |s|
      invariant Parse(s, radix, 0) == Parse(s[i - start..], radix, ans)
      decreases start + |s| - i
    {
      assert str[start..start + |s|][i - start] == str[i];
      ans := Wrap(ans * radix + DigitValue(str[i]));
      i := i + 1;
    }
    if i < start + |s| {
      assert str[start..start + |s|][i - start] == str[i];
    }
  }

  /** atoi. */
  method AtoiLoop(str: array<char>, ghost s: string) returns (ans: int)
    requires |s| < str.Length && str[..|s|] == s && str[|s|] == '\0' && '\0' !in s
    ensures ans == Atoi(s)
  {
    if str[0] == '0' && (str[1] == 'x' || str[1] == 'X') {
      ans := ParseLoop(str, 2, 16, s[2..]);
    } else if str[0] == '0' {
      ans := ParseLoop(str, 1, 8, s[1..]);
    } else {
      ans := ParseLoop(str, 0, 10, s);
    }
  }

  // ----- round trips -----

  lemma WrapShift(x: int, k: int)
    ensures Wrap(x + k * WORD) == Wrap(x)
  {
  }

  lemma WrapStep(a: int, r: nat, d: nat)
    ensures Wrap(Wrap(a) * r + d) == Wrap(a * r + d)
  {
    var k := (a + HALF) / WORD;
    assert a == Wrap(a) + k * WORD;
    assert a * r + d == Wrap(a) * r + d + (k * r) * WORD;
    WrapShift(Wrap(a) * r + d, k * r);
  }

  lemma {:induction false} ParseIsWrapped(s: string, radix: nat, acc: nat)
    ensures Parse(s, radix, Wrap(acc)) == Wrap(ParseNat(s, radix, acc))
  {
    hide Wrap;
    if s == [] || DigitValue(s[0]) >= radix {
    } else {
      WrapStep(acc, radix, DigitValue(s[0]));
      ParseIsWrapped(s[1..], radix, acc * radix + DigitValue(s[0]));
    }
  }

  lemma ParseFromZero(s: string, radix: nat)
    ensures Parse(s, radix, 0) == Wrap(ParseNat(s, radix, 0))
  {
    ParseIsWrapped(s, radix, 0);
  }

  predicate AllDigits(s: string, radix: nat) {
    forall i | 0 <= i < |s| :: DigitValue(s[i]) < radix
  }

  /** A stop inside `a` stops the parse; else `b` goes on from what `a` gave. */
  lemma {:induction false} ParseConcat(a: string, b: string, radix: nat, acc: nat)
    ensures ParseNat(a + b, radix, acc) == if AllDigits(a, radix) then ParseNat(b, radix, ParseNat(a, radix, acc)) else ParseNat(a, radix, acc)
  {
    hide DigitValue;
    if a == [] {
      assert a + b == b;
    } else {
      assert (a + b)[1..] == a[1..] + b;
      assert AllDigits(a, radix) <==> DigitValue(a[0]) < radix && AllDigits(a[1..], radix);
      ParseConcat(a[1..], b, radix, acc * radix + DigitValue(a[0]));
    }
  }

  lemma DigitRound(d: nat, upper: bool)
    requires d < 16
    ensures DigitValue(Digit(d, upper)) == d
  {
  }

  /** A numeral parses back to its number, and has no leading zero but its own. */
  lemma {:induction false} NumeralRound(v: nat, radix: nat, upper: bool)
    requires 2 <= radix <= 16
    ensures var n := Numeral(v, radix, upper);
            AllDigits(n, radix) && ParseNat(n, radix, 0) == v && (n[0] == '0' <==> v == 0) && (v == 0 ==> n == "0")
    decreases v
  {
    hide Digit, DigitValue;
    DivStep(v, radix);
    var q, d := v / radix, v % radix;
    DigitRound(d, upper);
    if v < radix {
      assert ParseNat([Digit(v, upper)][1..], radix, v) == v;
      DigitZero(v, upper);
    } else {
      var hi := Numeral(q, radix, upper);
      NumeralRound(q, radix, upper);
      ParseConcat(hi, [Digit(d, upper)], radix, 0);
      assert ParseNat([Digit(d, upper)][1..], radix, q * radix + d) == q * radix + d;
    }
  }

  lemma DigitZero(d: nat, upper: bool)
    requires d < 16
    ensures Digit(d, upper) == '0' <==> d == 0
  {
  }

  lemma {:induction false} ZerosParse(k: nat, s: string, radix: nat)
    requires radix > 0
    ensures ParseNat(Zeros(k) + s, radix, 0) == ParseNat(s, radix, 0)
    decreases k
  {
    if k == 0 {
      assert Zeros(0) + s == s;
    } else {
      assert (Zeros(k) + s)[1..] == Zeros(k - 1) + s;
      ZerosParse(k - 1, s, radix);
    }
  }

  lemma WrapMagnitude(value: int, unsig: bool)
    requires IsInt(value)
    ensures !Negative(value, unsig) ==> Wrap(Magnitude(value, unsig)) == value
  {
  }

  // ----- the characters -----

  const UPPER_CASE: string := "0123456789ABCDEF"
  const LOWER_CASE: string := "0123456789abcdef"

  lemma DigitExact(d: nat, upper: bool)
    requires d < 16
    ensures Digit(d, upper) == if upper then UPPER_CASE[d] else LOWER_CASE[d]
  {
  }

  /** A digit of either case stands for its place, and no other character for any. */
  lemma DigitValueExact(c: char)
    ensures forall d | 0 <= d < 16 :: DigitValue(c) == d <==> c == UPPER_CASE[d] || c == LOWER_CASE[d]
    ensures DigitValue(c) == 16 <==> forall d | 0 <= d < 16 :: c != UPPER_CASE[d] && c != LOWER_CASE[d]
  {
    var v := DigitValue(c);
    if v < 16 {
      assert c == UPPER_CASE[v] || c == LOWER_CASE[v];
    }
  }

  predicate IsDigit(c: char, radix: nat, upper: bool)
    requires radix <= 16
  {
    exists d :: 0 <= d < radix && c == if upper then UPPER_CASE[d] else LOWER_CASE[d]
  }

  lemma {:induction false} NumeralDigits(v: nat, radix: nat, upper: bool)
    requires 2 <= radix <= 16
    ensures forall i | 0 <= i < |Numeral(v, radix, upper)| :: IsDigit(Numeral(v, radix, upper)[i], radix, upper)
    decreases v
  {
    hide Digit;
    DivStep(v, radix);
    DigitExact(v % radix, upper);
    if v < radix {
    } else {
      NumeralDigits(v / radix, radix, upper);
    }
  }

  /** What mini_itoa prints: a '-' for a negative signed value and no other sign; behind it at least `pad` digits of
      the case asked for, that stand for the absolute value, or for the value modulo 2^32 where it is unsigned; and no
      leading zero but padding and the single digit of 0. */
  lemma TextExact(value: int, radix: nat, upper: bool, unsig: bool, pad: nat)
    requires IsInt(value) && 2 <= radix <= 16
    ensures var t, sign := Text(value, radix, upper, unsig, pad), if value < 0 && !unsig then "-" else "";
            && sign <= t
            && var digits := t[|sign|..];
            && |digits| >= pad && |digits| > 0 && (forall i | 0 <= i < |digits| :: IsDigit(digits[i], radix, upper))
            && ParseNat(digits, radix, 0) == (if value >= 0 then value else if unsig then value + 0x1_0000_0000 else -value)
            && (|digits| > pad && |digits| > 1 ==> digits[0] != '0')
  {
    hide Digit, Numeral, ParseNat, Zeros, IsDigit;
    var m := Magnitude(value, unsig);
    var n := Numeral(m, radix, upper);
    var k := if pad > |n| then pad - |n| else 0;
    var t, sign := Text(value, radix, upper, unsig, pad), if value < 0 && !unsig then "-" else "";
    assert t == sign + (Zeros(k) + n) && t[|sign|..] == Zeros(k) + n;
    NumeralRound(m, radix, upper);
    ZerosParse(k, n, radix);
    NumeralDigits(m, radix, upper);
    ZeroIsDigit(radix, upper);
    assert k == 0 ==> Zeros(k) + n == n;
  }

  lemma ZeroIsDigit(radix: nat, upper: bool)
    requires 2 <= radix <= 16
    ensures IsDigit('0', radix, upper)
  {
    assert '0' == if upper then UPPER_CASE[0] else LOWER_CASE[0];
  }

  /** "0x" and the hexadecimal text, in either case and with any padding, parse back to every int, its sign bit included. */
  lemma HexRoundTrip(value: int, upper: bool, pad: nat, x: char)
    requires IsInt(value) && (x == 'x' || x == 'X')
    ensures Atoi(['0', x] + Text(value, 16, upper, true, pad)) == value
  {
    var t, m := Text(value, 16, upper, true, pad), Magnitude(value, true);
    var n := Numeral(m, 16, upper);
    assert (['0', x] + t)[2..] == t;
    ParseFromZero(t, 16);
    assert "" + Zeros(if pad > |n| then pad - |n| else 0) == Zeros(if pad > |n| then pad - |n| else 0);
    ZerosParse(if pad > |n| then pad - |n| else 0, n, 16);
    NumeralRound(m, 16, upper);
    WrapMagnitude(value, true);
  }

  /** Read as octal, a decimal numeral of 8 or more falls short. */
  lemma {:induction false} OctalFallsShort(v: nat, upper: bool)
    ensures ParseNat(Numeral(v, 10, upper), 8, 0) <= v
    ensures v >= 8 ==> ParseNat(Numeral(v, 10, upper), 8, 0) < v
    ensures v < 8 ==> ParseNat(Numeral(v, 10, upper), 8, 0) == v
    decreases v
  {
    if v < 10 {
      DigitRound(v, upper);
      assert ParseNat([Digit(v, upper)][1..], 8, v) == v;
    } else {
      var hi, d := Numeral(v / 10, 10, upper), v % 10;
      OctalFallsShort(v / 10, upper);
      DigitRound(d, upper);
      ParseConcat(hi, [Digit(d, upper)], 8, 0);
      assert ParseNat([Digit(d, upper)][1..], 8, ParseNat(hi, 8, 0) * 8 + d) == ParseNat(hi, 8, 0) * 8 + d;
    }
  }

  /** The decimal text parses back exactly when it shows no minus sign and no zero is padded before an 8 or more:
      padding makes atoi read octal. */
  lemma DecimalExact(value: int, unsig: bool, pad: nat)
    requires IsInt(value)
    ensures var m := Magnitude(value, unsig);
            Atoi(Text(value, 10, false, unsig, pad)) == value
            <==> !Negative(value, unsig) && (pad <= |Numeral(m, 10, false)| || m < 8)
  {
    var t, m := Text(value, 10, false, unsig, pad), Magnitude(value, unsig);
    var n := Numeral(m, 10, false);
    var k := if pad > |n| then pad - |n| else 0;
    NumeralRound(m, 10, false);
    WrapMagnitude(value, unsig);
    if Negative(value, unsig) {
      assert t[0] == '-';
    } else {
      assert t == Zeros(k) + n;
      if k > 0 || m == 0 {
        OctalText(t, n, k, m);
      } else {
        assert t == n;
        ParseFromZero(t, 10);
      }
    }
  }

  lemma OctalText(t: string, n: string, k: nat, m: nat)
    requires n == Numeral(m, 10, false) && t == Zeros(k) + n && (k > 0 || m == 0) && m < WORD
    ensures Atoi(t) == Wrap(m) <==> k == 0 || m < 8
  {
    hide Numeral, Wrap, ParseNat, Parse;
    NumeralRound(m, 10, false);
    if k == 0 {
      assert t == "0" && t[1..] == "";
      ParseEmpty();
    } else {
      var rest := Zeros(k - 1) + n;
      assert t[1..] == rest && t[0] == '0';
      assert t[1] == if k > 1 then '0' else n[0];
      assert DigitValue(n[0]) < 10;
      ParseFromZero(rest, 8);
      ZerosParse(k - 1, n, 8);
      OctalFallsShort(m, false);
      WrapEqual(ParseNat(n, 8, 0), m);
    }
  }

  lemma ParseEmpty()
    ensures Parse("", 8, 0) == 0 == Wrap(0)
  {
  }

  lemma WrapEqual(a: nat, b: nat)
    requires a <= b < WORD
    ensures Wrap(a) == Wrap(b) <==> a == b
  {
  }
}
