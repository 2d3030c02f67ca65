/**
 Formatted output over RTT: characters are collected in a buffer of 64 and
 written in one piece when it is full; numbers are printed digit by digit from
 the highest, with 32-bit arithmetic.
 */
module RttPrintf {
  import opened Words
  import opened RttBuffer

  const BUFFER_SIZE: nat := 64

  const SPACE: byte := 32
  const ZERO: byte := 48
  const PLUS: byte := 43
  const MINUS: byte := 45

  // ------------------------------------------------------------------- numbers

  /** The bases the format specifiers use. */
  predicate IsBase(base: nat) {
    base == 10 || base == 16
  }

  function Scale(base: nat, x: nat): (r: nat)
    requires IsBase(base)
    ensures r >= x && r % base == 0
  {
    if base == 10 then 10 * x else 16 * x
  }

  function Pow(base: nat, n: nat): (r: nat)
    requires IsBase(base)
    ensures r >= 1
  {
    if n == 0 then 1 else Scale(base, Pow(base, n - 1))
  }

  /** '0' to '9', then 'A' to 'F'. */
  function DigitChar(d: nat): (r: byte)
    requires d < 16
  {
    if d < 10 then 48 + d else 55 + d
  }

  function DigitValue(c: byte): nat {
    if 48 <= c <= 57 then c - 48 else if 65 <= c <= 70 then c - 55 else 0
  }

  /** The number a string of digits stands for. */
  function Value(text: seq<byte>, base: nat): nat
    requires IsBase(base)
    decreases |text|
  {
    if text == [] then 0 else Scale(base, Value(text[..|text| - 1], base)) + DigitValue(text[|text| - 1])
  }

  /** How many digits a number has. */
  function Len(v: nat, base: nat): (r: nat)
    requires IsBase(base)
    ensures r >= 1
  {
    if v < base then 1 else 1 + Len(v / base, base)
  }

  function Max(a: nat, b: nat): nat {
    if a < b then b else a
  }

  /** The `n` lowest digits of a number, highest first. */
  function Digits(v: nat, base: nat, n: nat): (r: seq<byte>)
    requires IsBase(base)
    ensures |r| == n
    decreases n
  {
    if n == 0 then [] else Digits(v / base, base, n - 1) + [DigitChar(v % base)]
  }

  lemma {:induction false} LenBounds(v: nat, base: nat)
    requires IsBase(base)
    ensures v < Pow(base, Len(v, base))
    ensures v > 0 ==> Pow(base, Len(v, base) - 1) <= v
    decreases v
  {
    if v >= base {
      LenBounds(v / base, base);
    }
  }

  lemma ValueSnoc(text: seq<byte>, c: byte, base: nat)
    requires IsBase(base)
    ensures Value(text + [c], base) == Scale(base, Value(text, base)) + DigitValue(c)
  {
    assert (text + [c])[..|text|] == text;
  }

  lemma Recombine(v: nat, base: nat)
    requires IsBase(base)
    ensures v == Scale(base, v / base) + v % base
  {
  }

  /** The digits evaluate back to the number. */
  lemma {:induction false} DigitsEvaluate(v: nat, base: nat, n: nat)
    requires IsBase(base) && v < Pow(base, n)
    ensures Value(Digits(v, base, n), base) == v
    decreases n
  {
    if n > 0 {
      LowestDigit(v, base, n - 1);
      RestIsSmaller(v, base, Pow(base, n - 1));
      hide Digits, Value, Pow, Scale;
      DigitsEvaluate(v / base, base, n - 1);
      DigitIsRead(v % base);
      ValueSnoc(Digits(v / base, base, n - 1), DigitChar(v % base), base);
      Recombine(v, base);
    }
  }

  lemma DigitIsRead(d: nat)
    requires d < 16
    ensures DigitValue(DigitChar(d)) == d
  {
  }

  lemma {:induction false} PowGrows(base: nat, m: nat, n: nat)
    requires IsBase(base) && m <= n
    ensures Pow(base, m) <= Pow(base, n)
    decreases n - m
  {
    if m < n {
      PowGrows(base, m, n - 1);
    }
  }

  /** A product, kept apart from the solver's arithmetic. */
  function Times(a: nat, b: nat): nat {
    a * b
  }

  function Quotient(a: nat, b: nat): nat
    requires b >= 1
  {
    a / b
  }

  lemma TimesScale(q: nat, base: nat, p: nat)
    requires IsBase(base)
    ensures Times(q, Scale(base, p)) == Scale(base, Times(q, p))
  {
  }

  lemma DivideSum(base: nat, x: nat, r: nat)
    requires IsBase(base)
    ensures (Scale(base, x) + r) / base == x + r / base && (Scale(base, x) + r) % base == r % base
  {
  }

  lemma LowestDigit(v: nat, base: nat, n: nat)
    requires IsBase(base)
    ensures Digits(v, base, n + 1) == Digits(v / base, base, n) + [DigitChar(v % base)]
  {
  }

  lemma RestIsSmaller(r: nat, base: nat, p: nat)
    requires IsBase(base) && r < Scale(base, p)
    ensures r / base < p
  {
  }

  lemma SmallRemainder(q: nat, base: nat)
    requires IsBase(base) && q < base
    ensures q % base == q
  {
    if base == 10 {
      assert q % 10 == q;
    }
  }

  lemma OnlyDigit(q: nat, base: nat)
    requires IsBase(base) && q < base
    ensures Digits(q, base, 1) == [DigitChar(q)] + Digits(0, base, 0) && Times(q, 1) == q
  {
    SmallRemainder(q, base);
    LowestDigit(q, base, 0);
    assert Digits(q / base, base, 0) == [] == Digits(0, base, 0);
    hide Digits;
  }

  /** The highest of `n + 1` digits, and the others. */
  lemma {:induction false} TopDigit(v: nat, q: nat, r: nat, base: nat, n: nat)
    requires IsBase(base) && q < base && r < Pow(base, n) && v == Times(q, Pow(base, n)) + r
    ensures Digits(v, base, n + 1) == [DigitChar(q)] + Digits(r, base, n)
    decreases n
  {
    hide Digits, Times, Scale;
    LowestDigit(v, base, n);
    if n == 0 {
      OnlyDigit(q, base);
    } else {
      var p := Pow(base, n - 1);
      LowestDigit(r, base, n - 1);
      TimesScale(q, base, p);
      DivideSum(base, Times(q, p), r);
      RestIsSmaller(r, base, p);
      TopDigit(v / base, q, r / base, base, n - 1);
      assert [DigitChar(q)] + (Digits(r / base, base, n - 1) + [DigitChar(r % base)])
          == [DigitChar(q)] + Digits(r / base, base, n - 1) + [DigitChar(r % base)];
    }
  }

  lemma Products(a: nat, b: nat, p: nat)
    requires a >= b
    ensures a * p >= b * p
  {
  }

  /** A number below `base` times `p`, divided by `p`. */
  lemma SplitOff(v: nat, q: nat, p: nat, base: nat)
    requires IsBase(base) && p >= 1 && v < Scale(base, p) && q == Quotient(v, p)
    ensures q < base && Times(q, p) <= v < Times(q, p) + p
  {
    if q >= base {
      Products(q, base, p);
    }
  }

  // ------------------------------------------------------ place value and width

  lemma {:induction false} LenIsLeast(v: nat, base: nat, m: nat)
    requires IsBase(base)
    ensures m >= 1 && v < Pow(base, m) ==> Len(v, base) <= m
    ensures Pow(base, m) <= v ==> Len(v, base) > m
  {
    hide Pow, Len;
    LenBounds(v, base);
    if m < Len(v, base) - 1 {
      PowGrows(base, m, Len(v, base) - 1);
    } else if m >= Len(v, base) {
      PowGrows(base, Len(v, base), m);
    }
    if v == 0 {
      LenOfZero(base);
    }
  }

  lemma LenOfZero(base: nat)
    requires IsBase(base)
    ensures Len(0, base) == 1
  {
  }

  lemma DivCompares(v: nat, p: nat, base: nat)
    requires IsBase(base) && p >= 1
    ensures v / p < base <==> v < Scale(base, p)
  {
  }

  /** How many digits the output loop writes, from this place value on. */
  function DigitsFrom(digit: nat, base: nat): nat
    requires IsBase(base)
  {
    if digit == 0 then 0 else 1 + DigitsFrom(digit / base, base)
  }

  lemma {:induction false} DigitsFromBound(digit: nat, base: nat, m: nat)
    requires IsBase(base) && digit < Pow(base, m)
    ensures DigitsFrom(digit, base) <= m
    decreases m
  {
    if digit > 0 && m > 0 {
      RestIsSmaller(digit, base, Pow(base, m - 1));
      DigitsFromBound(digit / base, base, m - 1);
    }
  }

  lemma {:induction false} DigitsFromPow(base: nat, n: nat)
    requires IsBase(base)
    ensures DigitsFrom(Pow(base, n), base) == n + 1
    decreases n
  {
    hide Scale;
    if n > 0 {
      DigitsFromPow(base, n - 1);
      ScaleDivides(base, Pow(base, n - 1));
    } else {
      SmallQuotient(base);
    }
  }

  lemma ScaleDivides(base: nat, x: nat)
    requires IsBase(base)
    ensures Scale(base, x) / base == x
  {
  }

  lemma SmallQuotient(base: nat)
    requires IsBase(base)
    ensures 1 / base == 0
  {
  }

  /** The place value the 32-bit variable holds after `n` multiplications. */
  function WrappedPow(base: nat, n: nat): u32
    requires IsBase(base)
  {
    if n == 0 then 1 else Wrap32(Scale(base, WrappedPow(base, n - 1)))
  }

  /** It is the power exactly as long as that fits. */
  lemma {:induction false} WrappedPowExact(base: nat, n: nat)
    requires IsBase(base)
    ensures WrappedPow(base, n) == Pow(base, n) <==> Pow(base, n) < 0x1_0000_0000
    decreases n
  {
    if n > 0 {
      WrappedPowExact(base, n - 1);
      if Pow(base, n) < 0x1_0000_0000 {
        PowGrows(base, n - 1, n);
      }
    }
  }

  /** In base 16 a precision of nine digits or more makes the place value 0, and the code divides by it. */
  lemma {:induction false} HexPrecisionDividesByZero(numDigits: nat)
    requires numDigits >= 1
    ensures WrappedPow(16, numDigits - 1) == 0 <==> numDigits >= 9
    decreases numDigits
  {
    if numDigits <= 9 {
      HexPowers();
    } else {
      HexPrecisionDividesByZero(numDigits - 1);
    }
  }

  lemma HexPowers()
    ensures forall n | 0 <= n < 8 :: WrappedPow(16, n) > 0
    ensures WrappedPow(16, 8) == 0
  {
    assert WrappedPow(16, 1) == 0x10;
    assert WrappedPow(16, 2) == 0x100;
    assert WrappedPow(16, 3) == 0x1000;
    assert WrappedPow(16, 4) == 0x1_0000;
    assert WrappedPow(16, 5) == 0x10_0000;
    assert WrappedPow(16, 6) == 0x100_0000;
    assert WrappedPow(16, 7) == 0x1000_0000;
    assert WrappedPow(16, 8) == 0;
  }

  /**
   A precision is printed in full exactly when the place value of its first
   digit fits the 32-bit variable: with more, no 32-bit place value gives
   enough digits.
   */
  lemma PrecisionFits(base: nat, numDigits: nat)
    requires IsBase(base) && numDigits >= 1
    ensures (exists digit: u32 :: DigitsFrom(digit, base) == numDigits) <==> Pow(base, numDigits - 1) < 0x1_0000_0000
  {
    if Pow(base, numDigits - 1) < 0x1_0000_0000 {
      DigitsFromPow(base, numDigits - 1);
      var digit: u32 := Pow(base, numDigits - 1);
      assert DigitsFrom(digit, base) == numDigits;
    } else {
      forall digit: u32
        ensures DigitsFrom(digit, base) < numDigits
      {
        DigitsFromBound(digit, base, numDigits - 1);
      }
    }
  }

  // -------------------------------------------------------------------- layout

  datatype Flags = Flags(left: bool, zero: bool, sign: bool)

  /** The number of digits printed: all of the number, or as many as the precision asks for. */
  function Width(v: nat, base: nat, numDigits: nat): (r: nat)
    requires IsBase(base)
    ensures r >= 1
  {
    Max(Len(v, base), numDigits)
  }

  function Fill(c: byte, n: int): (r: seq<byte>)
    ensures |r| == if n > 0 then n else 0
    ensures forall k | 0 <= k < |r| :: r[k] == c
  {
    if n <= 0 then [] else seq(n, k => c)
  }

  /** How a signed or unsigned number is laid out in its field. */
  function Layout(sign: seq<byte>, digits: seq<byte>, fieldWidth: nat, numDigits: nat, flags: Flags): (r: seq<byte>)
    ensures |r| == Max(fieldWidth, |sign| + |digits|)
  {
    var pad := fieldWidth - |sign| - |digits|;
    if flags.left then sign + digits + Fill(SPACE, pad)
    else if flags.zero && numDigits == 0 then sign + Fill(ZERO, pad) + digits
    else Fill(SPACE, pad) + sign + digits
  }

  function Magnitude(v: int): nat {
    if v < 0 then -v else v
  }

  function Sign(v: int, flags: Flags): seq<byte> {
    if v < 0 then [MINUS] else if flags.sign then [PLUS] else []
  }

  function UnsignedText(v: nat, base: nat, numDigits: nat, fieldWidth: nat, flags: Flags): seq<byte>
    requires IsBase(base)
  {
    Layout([], Digits(v, base, Width(v, base, numDigits)), fieldWidth, numDigits, flags)
  }

  function IntText(v: int, base: nat, numDigits: nat, fieldWidth: nat, flags: Flags): seq<byte>
    requires IsBase(base)
  {
    var m := Magnitude(v);
    Layout(Sign(v, flags), Digits(m, base, Width(m, base, numDigits)), fieldWidth, numDigits, flags)
  }

  /** The digits of a printed number stand for it, whatever the precision. */
  lemma PrintedDigits(v: nat, base: nat, numDigits: nat)
    requires IsBase(base)
    ensures Value(Digits(v, base, Width(v, base, numDigits)), base) == v
  {
    hide Pow, Digits, Value;
    LenBounds(v, base);
    PowGrows(base, Len(v, base), Width(v, base, numDigits));
    DigitsEvaluate(v, base, Width(v, base, numDigits));
  }

  // ------------------------------------------------------------ reading it back

  /** What a reader finds: the spaces in front, whether there is a '+', how many digits, and the number. */
  datatype Printed = Printed(lead: nat, plus: bool, digits: nat, value: int)

  predicate IsDigit(c: byte, base: nat) {
    48 <= c <= 57 || (base == 16 && 65 <= c <= 70)
  }

  function DropSpaces(text: seq<byte>): (r: seq<byte>)
    ensures |r| <= |text|
    decreases |text|
  {
    if text != [] && text[0] == SPACE then DropSpaces(text[1..]) else text
  }

  /** How many digits the text begins with. */
  function DigitRun(text: seq<byte>, base: nat): (n: nat)
    ensures n <= |text|
    decreases |text|
  {
    if text != [] && IsDigit(text[0], base) then 1 + DigitRun(text[1..], base) else 0
  }

  function Signed(minus: bool, m: int): int {
    if minus then -m else m
  }

  /** Spaces, a sign or none, at least one digit, spaces; anything else is no number. */
  function ReadNumber(text: seq<byte>, base: nat): Option<Printed>
    requires IsBase(base)
  {
    var t := DropSpaces(text);
    var signed := t != [] && (t[0] == MINUS || t[0] == PLUS);
    var rest := if signed then t[1..] else t;
    var n := DigitRun(rest, base);
    var m := Value(rest[..n], base);
    if n == 0 || DropSpaces(rest[n..]) != [] then None
    else Some(Printed(|text| - |t|, signed && t[0] == PLUS, n, Signed(signed && t[0] == MINUS, m)))
  }

  lemma {:induction false} SpacesAreDropped(n: nat, text: seq<byte>)
    requires text == [] || text[0] != SPACE
    ensures DropSpaces(Fill(SPACE, n) + text) == text
    decreases n
  {
    if n == 0 {
      assert Fill(SPACE, n) + text == text;
    } else {
      var padded := Fill(SPACE, n) + text;
      assert padded[1..] == Fill(SPACE, n - 1) + text;
      SpacesAreDropped(n - 1, text);
    }
  }

  lemma {:induction false} DigitsAreRun(digits: seq<byte>, rest: seq<byte>, base: nat)
    requires forall k | 0 <= k < |digits| :: IsDigit(digits[k], base)
    requires rest == [] || !IsDigit(rest[0], base)
    ensures DigitRun(digits + rest, base) == |digits|
    decreases |digits|
  {
    if digits == [] {
      assert digits + rest == rest;
    } else {
      assert (digits + rest)[1..] == digits[1..] + rest;
      DigitsAreRun(digits[1..], rest, base);
    }
  }

  lemma {:induction false} AllDigits(v: nat, base: nat, n: nat)
    requires IsBase(base)
    ensures forall k | 0 <= k < n :: IsDigit(Digits(v, base, n)[k], base)
    decreases n
  {
    if n > 0 {
      AllDigits(v / base, base, n - 1);
    }
  }

  /** Zeros in front do not change a number. */
  lemma {:induction false} ZerosInFront(n: nat, digits: seq<byte>, base: nat)
    requires IsBase(base)
    ensures Value(Fill(ZERO, n) + digits, base) == Value(digits, base)
    decreases n + |digits|
  {
    var text := Fill(ZERO, n) + digits;
    if digits != [] {
      assert text[..|text| - 1] == Fill(ZERO, n) + digits[..|digits| - 1];
      ZerosInFront(n, digits[..|digits| - 1], base);
    } else if n > 0 {
      assert text[..|text| - 1] == Fill(ZERO, n - 1) + digits;
      ZerosInFront(n - 1, digits, base);
    } else {
      assert text == [];
    }
  }

  /** Spaces, sign, digits, spaces are read as what they are. */
  lemma NumberIsRead(lead: nat, sign: seq<byte>, digits: seq<byte>, trail: nat, base: nat)
    requires IsBase(base) && (sign == [] || sign == [MINUS] || sign == [PLUS])
    requires digits != [] && forall k | 0 <= k < |digits| :: IsDigit(digits[k], base)
    ensures var m := Value(digits, base);
            ReadNumber(Fill(SPACE, lead) + (sign + (digits + Fill(SPACE, trail))), base)
            == Some(Printed(lead, sign == [PLUS], |digits|, Signed(sign == [MINUS], m)))
  {
    hide Value;
    var rest := digits + Fill(SPACE, trail);
    var t := sign + rest;
    assert t[0] != SPACE && (sign != [] ==> t[1..] == rest) && (sign == [] ==> t == rest);
    SpacesAreDropped(lead, t);
    DigitsAreRun(digits, Fill(SPACE, trail), base);
    assert rest[..|digits|] == digits && rest[|digits|..] == Fill(SPACE, trail);
    SpacesAreDropped(trail, []);
    assert Fill(SPACE, trail) + [] == Fill(SPACE, trail);
  }

  /** The zeros that fill a field. */
  function ZeroFill(used: nat, fieldWidth: nat, numDigits: nat, flags: Flags): nat {
    if flags.zero && !flags.left && numDigits == 0 then Max(fieldWidth, used) - used else 0
  }

  /** The spaces in front. */
  function LeadFill(used: nat, fieldWidth: nat, numDigits: nat, flags: Flags): nat {
    if !flags.left && (!flags.zero || numDigits != 0) then Max(fieldWidth, used) - used else 0
  }

  lemma LayoutParts(sign: seq<byte>, digits: seq<byte>, fieldWidth: nat, numDigits: nat, flags: Flags)
    ensures var used := |sign| + |digits|;
            var lead := LeadFill(used, fieldWidth, numDigits, flags);
            var zeros := ZeroFill(used, fieldWidth, numDigits, flags);
            lead + zeros <= Max(fieldWidth, used) - used
            && Layout(sign, digits, fieldWidth, numDigits, flags)
               == Fill(SPACE, lead)
                  + (sign + (Fill(ZERO, zeros) + digits + Fill(SPACE, Max(fieldWidth, used) - used - lead - zeros)))
  {
    var used := |sign| + |digits|;
    var pad: int := fieldWidth - |sign| - |digits|;
    if flags.left {
      assert sign + digits + Fill(SPACE, pad) == Fill(SPACE, 0) + (sign + (Fill(ZERO, 0) + digits + Fill(SPACE, pad)));
    } else if flags.zero && numDigits == 0 {
      assert sign + Fill(ZERO, pad) + digits == Fill(SPACE, 0) + (sign + (Fill(ZERO, pad) + digits + Fill(SPACE, 0)));
    } else {
      assert Fill(SPACE, pad) + sign + digits == Fill(SPACE, pad) + (sign + (Fill(ZERO, 0) + digits + Fill(SPACE, 0)));
    }
  }

  lemma LayoutIsRead(sign: seq<byte>, digits: seq<byte>, base: nat, fieldWidth: nat, numDigits: nat, flags: Flags)
    requires IsBase(base) && (sign == [] || sign == [MINUS] || sign == [PLUS])
    requires digits != [] && forall k | 0 <= k < |digits| :: IsDigit(digits[k], base)
    ensures var used, m := |sign| + |digits|, Value(digits, base);
            ReadNumber(Layout(sign, digits, fieldWidth, numDigits, flags), base)
            == Some(Printed(LeadFill(used, fieldWidth, numDigits, flags), sign == [PLUS],
                            |digits| + ZeroFill(used, fieldWidth, numDigits, flags), Signed(sign == [MINUS], m)))
  {
    hide ReadNumber, Value, Layout, LeadFill, ZeroFill;
    var used := |sign| + |digits|;
    var lead, zeros := LeadFill(used, fieldWidth, numDigits, flags), ZeroFill(used, fieldWidth, numDigits, flags);
    LayoutParts(sign, digits, fieldWidth, numDigits, flags);
    var trail := Max(fieldWidth, used) - used - lead - zeros;
    var all := Fill(ZERO, zeros) + digits;
    ZerosInFront(zeros, digits, base);
    NumberIsRead(lead, sign, all, trail, base);
  }

  /**
   Every printed integer is read back, for all precisions, field widths and
   flags. A '+' stands there exactly when the number is not negative and one was
   asked for; the field is filled with zeros or with spaces on the side asked for.
   */
  lemma IntIsRead(v: int, base: nat, numDigits: nat, fieldWidth: nat, flags: Flags)
    requires IsBase(base)
    ensures var m := if v < 0 then -v else v;
            var used := Width(m, base, numDigits) + if v < 0 || flags.sign then 1 else 0;
            ReadNumber(IntText(v, base, numDigits, fieldWidth, flags), base)
            == Some(Printed(LeadFill(used, fieldWidth, numDigits, flags), v >= 0 && flags.sign,
                            Width(m, base, numDigits) + ZeroFill(used, fieldWidth, numDigits, flags), v))
  {
    hide Digits, Value, Layout, ReadNumber, Width;
    var m := Magnitude(v);
    AllDigits(m, base, Width(m, base, numDigits));
    PrintedDigits(m, base, numDigits);
    LayoutIsRead(Sign(v, flags), Digits(m, base, Width(m, base, numDigits)), base, fieldWidth, numDigits, flags);
  }

  lemma UnsignedIsRead(v: nat, base: nat, numDigits: nat, fieldWidth: nat, flags: Flags)
    requires IsBase(base)
    ensures var used := Width(v, base, numDigits);
            ReadNumber(UnsignedText(v, base, numDigits, fieldWidth, flags), base)
            == Some(Printed(LeadFill(used, fieldWidth, numDigits, flags), false,
                            used + ZeroFill(used, fieldWidth, numDigits, flags), v))
  {
    hide Digits, Value, Layout, ReadNumber, Width;
    AllDigits(v, base, Width(v, base, numDigits));
    PrintedDigits(v, base, numDigits);
    LayoutIsRead([], Digits(v, base, Width(v, base, numDigits)), base, fieldWidth, numDigits, flags);
  }

  // ------------------------------------------------------- the character buffer

  /** How much of a full buffer the ring may take in its mode: all or nothing, some, or all. */
  predicate Takes(mode: Mode, accepted: nat) {
    match mode
    case NoBlockSkip => accepted == 0 || accepted >= BUFFER_SIZE
    case NoBlockTrim => true
    case BlockIfFifoFull => accepted >= BUFFER_SIZE
  }

  /** The printf descriptor as a value: what the ring has taken, what waits in the buffer, and the return value. */
  datatype Sink = Sink(mode: Mode, emitted: seq<byte>, buffered: seq<byte>, rv: int)

  /** One character; of a buffer that is full the ring takes `accepted` bytes. */
  function Store(s: Sink, c: byte, accepted: nat): Sink {
    var t := if |s.buffered| < BUFFER_SIZE then s.(buffered := s.buffered + [c], rv := s.rv + 1) else s;
    if |t.buffered| == BUFFER_SIZE then
      var n := Min(accepted, BUFFER_SIZE);
      if n != BUFFER_SIZE then t.(emitted := t.emitted + t.buffered[..n], rv := -1)
      else t.(emitted := t.emitted + t.buffered, buffered := [])
    else t
  }

  /**
   Between two states the text was put out: with no error all of it is in the
   ring or the buffer; after an error the ring has a prefix of it, and in skip
   mode the buffer the next part. A blocking ring makes no errors.
   */
  predicate Emitted(s: Sink, t: Sink, text: seq<byte>) {
    && t.mode == s.mode
    && (t.rv >= 0 ==>
          && t.emitted + t.buffered == s.emitted + s.buffered + text && t.rv == s.rv + |text|
          && |t.buffered| == (|s.buffered| + |text|) % BUFFER_SIZE)
    && (t.rv < 0 ==>
          && t.emitted <= s.emitted + s.buffered + text && |t.buffered| == BUFFER_SIZE
          && !s.mode.BlockIfFifoFull?
          && (s.mode.NoBlockSkip? ==> t.emitted + t.buffered <= s.emitted + s.buffered + text))
  }

  /** After an error the ring has a prefix of the text. */
  predicate Prefixed(s: Sink, t: Sink, text: seq<byte>) {
    t.rv < 0 ==> t.emitted <= s.emitted + s.buffered + text
  }

  lemma StoreEmits(s: Sink, c: byte, accepted: nat)
    requires s.rv >= 0 && |s.buffered| < BUFFER_SIZE && Takes(s.mode, accepted)
    ensures Emitted(s, Store(s, c, accepted), [c])
  {
    assert s.emitted + (s.buffered + [c]) == s.emitted + s.buffered + [c];
  }

  lemma EmittedNothing(s: Sink)
    requires s.rv >= 0 && |s.buffered| < BUFFER_SIZE
    ensures Emitted(s, s, [])
  {
  }

  lemma EmittedTwice(s: Sink, t: Sink, u: Sink, a: seq<byte>, b: seq<byte>)
    requires Emitted(s, t, a) && t.rv >= 0 && Emitted(t, u, b)
    ensures Emitted(s, u, a + b)
  {
    assert s.emitted + s.buffered + (a + b) == s.emitted + s.buffered + a + b;
  }

  lemma EmittedStops(s: Sink, t: Sink, a: seq<byte>, b: seq<byte>)
    requires Emitted(s, t, a) && t.rv < 0
    ensures Emitted(s, t, a + b) && t.mode == s.mode && !s.mode.BlockIfFifoFull?
  {
    assert s.emitted + s.buffered + (a + b) == s.emitted + s.buffered + a + b;
  }

  lemma EmittedThenPrefixed(s: Sink, t: Sink, u: Sink, a: seq<byte>, b: seq<byte>)
    requires Emitted(s, t, a) && t.rv >= 0 && Prefixed(t, u, b)
    ensures Prefixed(s, u, a + b)
  {
    assert s.emitted + s.buffered + (a + b) == s.emitted + s.buffered + a + b;
  }

  lemma EmittedIsPrefixed(s: Sink, t: Sink, a: seq<byte>, b: seq<byte>)
    requires Emitted(s, t, a) && t.rv < 0
    ensures Prefixed(s, t, a + b)
  {
    EmittedStops(s, t, a, b);
  }

  lemma EmittedMode(s: Sink, t: Sink, text: seq<byte>)
    requires Emitted(s, t, text)
    ensures t.mode == s.mode && Prefixed(s, t, text) && (s.mode.BlockIfFifoFull? ==> t.rv >= 0)
  {
  }

  /** One character more after an error: not in trim mode, the ring still has a prefix of the text. */
  lemma StoreAfterError(s: Sink, t: Sink, text: seq<byte>, c: byte, accepted: nat)
    requires Emitted(s, t, text) && t.rv < 0 && Takes(t.mode, accepted) && !t.mode.NoBlockTrim?
    ensures Prefixed(s, Store(t, c, accepted), text)
  {
  }

  lemma ErrorStays(s: Sink, t: Sink, u: Sink, text: seq<byte>, c: byte)
    requires Emitted(s, t, text) && t.rv < 0 && exists n :: Takes(t.mode, n) && u == Store(t, c, n)
    ensures u.mode == s.mode && !s.mode.BlockIfFifoFull?
    ensures !s.mode.NoBlockTrim? ==> Prefixed(s, u, text)
  {
    var n :| Takes(t.mode, n) && u == Store(t, c, n);
    if !t.mode.NoBlockTrim? {
      StoreAfterError(s, t, text, c, n);
    }
  }

  /** A full buffer after an error, of which the ring took `taken` bytes. */
  function Stopped(mode: Mode, buffered: seq<byte>, taken: nat): Sink
    requires taken <= |buffered|
  {
    Sink(mode, buffered[..taken], buffered, -1)
  }

  function OneThenZeros(): (r: seq<byte>)
    ensures |r| == BUFFER_SIZE && r[0] == 1 && forall k | 0 < k < BUFFER_SIZE :: r[k] == 0
  {
    [1] + seq(BUFFER_SIZE - 1, k => 0)
  }

  /**
   One more character after an error writes the whole buffer again. The ring
   keeps a prefix of the text exactly when one of the two writes took nothing.
   */
  lemma SecondWriteRepeats(mode: Mode, c: byte, taken: nat, accepted: nat)
    requires taken < BUFFER_SIZE
    ensures (forall b: seq<byte> | |b| == BUFFER_SIZE :: Store(Stopped(mode, b, taken), c, accepted).emitted <= b + [c])
            <==> taken == 0 || accepted == 0
  {
    if taken == 0 || accepted == 0 {
      forall b: seq<byte> | |b| == BUFFER_SIZE
        ensures Store(Stopped(mode, b, taken), c, accepted).emitted <= b + [c]
      {
      }
    } else {
      var b := OneThenZeros();
      var emitted := Store(Stopped(mode, b, taken), c, accepted).emitted;
      assert emitted[taken] == 1;
      assert (b + [c])[taken] == 0;
    }
  }

  /** Whatever the ring takes of the two writes in its mode, it keeps a prefix. */
  ghost predicate KeepsPrefix(mode: Mode, c: byte) {
    forall b: seq<byte>, taken: nat, accepted: nat
      | |b| == BUFFER_SIZE && taken < BUFFER_SIZE && Takes(mode, taken) && Takes(mode, accepted) ::
      Store(Stopped(mode, b, taken), c, accepted).emitted <= b + [c]
  }

  /** So the ring is left with a prefix, for all data and all room, exactly when it is not in trim mode. */
  lemma PrefixByMode(mode: Mode, c: byte)
    ensures KeepsPrefix(mode, c) <==> !mode.NoBlockTrim?
  {
    if mode.NoBlockTrim? {
      SecondWriteRepeats(mode, c, 1, 1);
      var b: seq<byte> :| |b| == BUFFER_SIZE && !(Store(Stopped(mode, b, 1), c, 1).emitted <= b + [c]);
      assert Takes(mode, 1);
      assert !KeepsPrefix(mode, c);
    } else {
      forall b: seq<byte>, taken: nat, accepted: nat
        | |b| == BUFFER_SIZE && taken < BUFFER_SIZE && Takes(mode, taken) && Takes(mode, accepted)
        ensures Store(Stopped(mode, b, taken), c, accepted).emitted <= b + [c]
      {
        SecondWriteRepeats(mode, c, taken, accepted);
      }
    }
  }

  /**
   In trim mode, with 63 characters waiting: of "1" left-justified in a field of
   two, the digit fills the buffer and the ring takes one byte, the space writes
   it again, and the ring takes the same byte once more.
   */
  lemma TrimRepeats()
    ensures var s := Sink(NoBlockTrim, [], OneThenZeros()[..BUFFER_SIZE - 1], BUFFER_SIZE - 1);
            var text := UnsignedText(1, 10, 0, 2, Flags(true, false, false));
            && text == [DigitChar(1), SPACE]
            && !(Store(Store(s, text[0], 1), text[1], 1).emitted <= s.emitted + s.buffered + text)
  {
    var s := Sink(NoBlockTrim, [], OneThenZeros()[..BUFFER_SIZE - 1], BUFFER_SIZE - 1);
    var t := Store(s, DigitChar(1), 1);
    OnlyDigit(1, 10);
    assert t.emitted == [1];
    assert Store(t, SPACE, 1).emitted[1] == 1;
    assert (s.emitted + s.buffered)[1] == 0;
  }

  /** The value a formatted print returns. */
  function Returned(s: Sink): int {
    if s.rv > 0 then s.rv + |s.buffered| else s.rv
  }

  /** It is the number of characters printed exactly when that is a multiple of the buffer size. */
  lemma ReturnedExactly(s: Sink, t: Sink, text: seq<byte>)
    requires s.rv == 0 && s.buffered == [] && Emitted(s, t, text) && t.rv >= 0
    ensures Returned(t) == |text| <==> |text| % BUFFER_SIZE == 0
  {
  }

  lemma Stored(s: Sink, t: Sink, c: byte, accepted: nat)
    requires t == Store(s, c, accepted) && Takes(s.mode, accepted)
    ensures exists n :: Takes(s.mode, n) && t == Store(s, c, n)
    ensures s.rv >= 0 && |s.buffered| < BUFFER_SIZE ==> Emitted(s, t, [c])
  {
    if s.rv >= 0 && |s.buffered| < BUFFER_SIZE {
      StoreEmits(s, c, accepted);
    }
  }

  class Printer {
    const up: Ring
    const buffer: array<byte>
    var cnt: nat
    var returnValue: int

    constructor (up: Ring, buffer: array<byte>)
      requires up.Valid() && buffer.Length == BUFFER_SIZE && buffer != up.data
      ensures Valid() && this.up == up && cnt == 0 && returnValue == 0
    {
      this.up, this.buffer := up, buffer;
      cnt, returnValue := 0, 0;
    }

    ghost predicate Valid()
      reads this, up
    {
      && up.Valid() && buffer.Length == BUFFER_SIZE && buffer != up.data && cnt <= BUFFER_SIZE
      && (returnValue >= 0 ==> cnt < BUFFER_SIZE)
    }

    ghost function View(): (s: Sink)
      requires Valid()
      reads this, up, up.data, buffer
      ensures s.rv == returnValue && s.mode == up.mode && |s.buffered| == cnt
    {
      Sink(up.mode, up.History(), buffer[..cnt], returnValue)
    }

    /** The pace of the host during one write: any, but it goes on until a write that waits is done. */
    static method HostReads(n: nat) returns (host: seq<nat>)
      ensures Reads(host) >= n
    {
      host := *;
      while Reads(host) < n
        decreases n - Reads(host)
      {
        var some: nat :| some > 0;
        var longer := host + [some];
        assert longer[..|longer| - 1] == host;
        host := longer;
      }
    }

    method StoreChar(c: byte)
      requires Valid()
      modifies this, up, up.data, buffer
      ensures Valid()
      ensures exists accepted :: Takes(up.mode, accepted) && View() == Store(old(View()), c, accepted)
      ensures old(returnValue) >= 0 ==> Emitted(old(View()), View(), [c])
      ensures old(returnValue) < 0 && old(cnt) == BUFFER_SIZE ==> returnValue < 0
    {
      hide Emitted;
      if cnt + 1 <= BUFFER_SIZE {
        buffer[cnt] := c;
        cnt := cnt + 1;
        returnValue := returnValue + 1;
      }
      if cnt == BUFFER_SIZE {
        var host := HostReads(cnt);
        var written := up.WriteNoLock(buffer[..cnt], host);
        assert buffer[..BUFFER_SIZE][..written] == buffer[..written];
        assert buffer[..BUFFER_SIZE][..BUFFER_SIZE] == buffer[..BUFFER_SIZE];
        if written != cnt {
          returnValue := -1;
        } else {
          cnt := 0;
        }
        Stored(old(View()), View(), c, written);
      } else {
        Stored(old(View()), View(), c, BUFFER_SIZE);
      }
    }

    /** Fills the field up to `fieldWidth` with one character; the result is what the field width has become. */
    method Pad(c: byte, width: nat, fieldWidth: nat) returns (rest: nat)
      requires Valid() && returnValue >= 0
      modifies this, up, up.data, buffer
      ensures Valid() && Emitted(old(View()), View(), Fill(c, fieldWidth - width))
      ensures returnValue >= 0 ==> rest == Min(fieldWidth, width)
    {
      hide View;
      rest := fieldWidth;
      EmittedNothing(View());
      assert Fill(c, 0) == [];
      while rest != 0 && width < rest
        invariant Valid() && returnValue >= 0 && rest <= fieldWidth && (fieldWidth > width ==> rest >= width)
        invariant fieldWidth <= width ==> rest == fieldWidth
        invariant Emitted(old(View()), View(), Fill(c, fieldWidth - rest))
      {
        rest := rest - 1;
        ghost var sofar := View();
        StoreChar(c);
        EmittedTwice(old(View()), sofar, View(), Fill(c, fieldWidth - rest - 1), [c]);
        assert Fill(c, fieldWidth - rest - 1) + [c] == Fill(c, fieldWidth - rest);
        if returnValue < 0 {
          EmittedStops(old(View()), View(), Fill(c, fieldWidth - rest), Fill(c, rest - width));
          assert Fill(c, fieldWidth - rest) + Fill(c, rest - width) == Fill(c, fieldWidth - width);
          break;
        }
      }
    }

    /** The width loop: how many digits the number has, or the precision if that is more. */
    static method ComputeWidth(v: nat, base: nat, numDigits: nat) returns (width: nat)
      requires IsBase(base)
      ensures width == Width(v, base, numDigits)
    {
      var number: nat := v;
      width := 1;
      while number >= base
        invariant width >= 1 && width - 1 + Len(number, base) == Len(v, base)
        decreases number
      {
        number := number / base;
        width := width + 1;
      }
      if numDigits > width {
        width := numDigits;
      }
    }

    /** The place value of the highest digit, in 32-bit arithmetic: it never wraps. */
    static method PlaceValue(v: u32, base: nat, precision: nat) returns (digit: u32)
      requires IsBase(base)
      requires precision >= 1 ==> Pow(base, precision - 1) < 0x1_0000_0000
      ensures digit == Pow(base, Width(v, base, precision) - 1)
    {
      hide Pow, Len, Scale;
      PowZero(base);
      digit := 1;
      ghost var j := 0;
      var numDigits := precision;
      while true
        invariant digit == Pow(base, j) && j < Width(v, base, precision)
        invariant if numDigits > 1 then numDigits + j == precision else precision <= j + 1
        decreases Width(v, base, precision) - j
      {
        if numDigits > 1 {
          numDigits := numDigits - 1;
          PowGrows(base, j + 1, precision - 1);
        } else {
          var div := v / digit;
          DivCompares(v, digit, base);
          LenIsLeast(v, base, j + 1);
          PowNext(base, j);
          if div < base {
            break;
          }
        }
        PowNext(base, j);
        digit := Wrap32(Scale(base, digit));
        j := j + 1;
      }
    }

    /** One digit taken off: what `v / digit` and `v -= div * digit` leave. */
    static method TakeDigit(v: u32, digit: u32, base: nat, ghost k: nat) returns (div: nat, rest: u32)
      requires IsBase(base) && digit == Pow(base, k) && v < Pow(base, k + 1)
      ensures div < base && rest < Pow(base, k)
      ensures Digits(v, base, k + 1) == [DigitChar(div)] + Digits(rest, base, k)
    {
      PowNext(base, k);
      hide Pow, Digits, Scale, Times, Quotient;
      div := Quotient(v, digit);
      SplitOff(v, div, digit, base);
      rest := v - Times(div, digit);
      TopDigit(v, div, rest, base, k);
    }

    /** The digit loop. It goes on until the place value has become 0. */
    method PutDigits(v0: u32, digit0: u32, base: nat, ghost n: nat)
      requires Valid() && returnValue >= 0
      requires IsBase(base) && digit0 == Pow(base, n) && v0 < Pow(base, n + 1)
      modifies this, up, up.data, buffer
      ensures Valid() && Emitted(old(View()), View(), Digits(v0, base, n + 1))
    {
      hide Pow, Digits, Emitted, Scale, View;
      var v: u32, digit: u32 := v0, digit0;
      ghost var k, out: seq<byte> := n, [];
      EmittedNothing(View());
      assert out + Digits(v, base, k + 1) == Digits(v0, base, n + 1);
      while true
        invariant Valid() && returnValue >= 0
        invariant digit == Pow(base, k) && v < Pow(base, k + 1)
        invariant Emitted(old(View()), View(), out)
        invariant out + Digits(v, base, k + 1) == Digits(v0, base, n + 1)
        decreases k
      {
        var div, rest := TakeDigit(v, digit, base, k);
        v := rest;
        assert out + [DigitChar(div)] + Digits(v, base, k) == Digits(v0, base, n + 1);
        ghost var sofar := View();
        StoreChar(DigitChar(div));
        EmittedTwice(old(View()), sofar, View(), out, [DigitChar(div)]);
        out := out + [DigitChar(div)];
        if returnValue < 0 {
          EmittedStops(old(View()), View(), out, Digits(v, base, k));
          break;
        }
        digit := digit / base;
        PlaceBelow(base, k);
        if digit == 0 {
          NoDigits(v, base);
          assert out + [] == out;
          break;
        }
        k := k - 1;
      }
    }

    /**
     An unsigned number in its field. After an error in the digits of a
     left-justified number the padding loop still stores one character, and with
     it the full buffer is written again; only then is the ring left with more
     than a prefix.
     */
    method PrintUnsigned(v: u32, base: nat, numDigits: nat, fieldWidth: nat, flags: Flags)
      requires Valid() && returnValue >= 0 && IsBase(base)
      requires numDigits >= 1 ==> Pow(base, numDigits - 1) < 0x1_0000_0000
      modifies this, up, up.data, buffer
      ensures Valid()
      ensures returnValue >= 0 || !flags.left || fieldWidth <= Width(v, base, numDigits)
              ==> Emitted(old(View()), View(), UnsignedText(v, base, numDigits, fieldWidth, flags))
      ensures !up.mode.NoBlockTrim?
              ==> Prefixed(old(View()), View(), UnsignedText(v, base, numDigits, fieldWidth, flags))
      ensures up.mode == old(up.mode) && (up.mode.BlockIfFifoFull? ==> returnValue >= 0)
    {
      hide Emitted, Prefixed, View, Layout, Digits, Len, Pow, Fill, UnsignedText;
      var width := ComputeWidth(v, base, numDigits);
      var rest := fieldWidth;
      ghost var digits := Digits(v, base, width);
      ghost var front, back := Front(width, fieldWidth, numDigits, flags), Back(width, fieldWidth, flags);
      UnsignedTextPieces(v, base, numDigits, fieldWidth, flags);
      EmittedNothing(View());
      if !flags.left && rest != 0 {
        var c := if flags.zero && numDigits == 0 then ZERO else SPACE;
        rest := Pad(c, width, rest);
      }
      assert Emitted(old(View()), View(), front) by {
        FillNothing(SPACE, fieldWidth - width);
        FillNothing(ZERO, fieldWidth - width);
      }
      ghost var padded := View();
      if returnValue < 0 {
        EmittedStops(old(View()), padded, front, digits + back);
        EmittedIsPrefixed(old(View()), padded, front, digits + back);
        assert front + (digits + back) == front + digits + back;
        return;
      }
      var digit := PlaceValue(v, base, numDigits);
      WidthHolds(v, base, numDigits);
      PutDigits(v, digit, base, width - 1);
      EmittedTwice(old(View()), padded, View(), front, digits);
      if returnValue < 0 {
        ghost var stopped := View();
        EmittedStops(old(View()), stopped, front + digits, back);
        EmittedIsPrefixed(old(View()), stopped, front + digits, back);
        if flags.left && rest != 0 && width < rest {
          StoreChar(SPACE);
          ErrorStays(old(View()), stopped, View(), front + digits + back, SPACE);
        }
        return;
      }
      ghost var printed := View();
      EmittedNothing(View());
      if flags.left && rest != 0 {
        rest := Pad(SPACE, width, rest);
      }
      assert Emitted(printed, View(), back) by {
        FillNothing(SPACE, fieldWidth - width);
      }
      EmittedTwice(old(View()), printed, View(), front + digits, back);
      EmittedMode(old(View()), View(), front + digits + back);
    }

    /** A signed number in its field; the smallest integer is excluded, its negation does not fit. */
    method PrintInt(v: int, base: nat, numDigits: nat, fieldWidth: nat, flags: Flags)
      requires Valid() && returnValue >= 0 && IsBase(base) && -0x8000_0000 < v < 0x8000_0000
      requires numDigits >= 1 ==> Pow(base, numDigits - 1) < 0x1_0000_0000
      modifies this, up, up.data, buffer
      ensures Valid()
      ensures var width := |Sign(v, flags)| + Width(Magnitude(v), base, numDigits);
              returnValue >= 0 || !flags.left || fieldWidth <= width
              ==> Emitted(old(View()), View(), IntText(v, base, numDigits, fieldWidth, flags))
      ensures !up.mode.NoBlockTrim?
              ==> Prefixed(old(View()), View(), IntText(v, base, numDigits, fieldWidth, flags))
      ensures up.mode == old(up.mode) && (up.mode.BlockIfFifoFull? ==> returnValue >= 0)
    {
      hide Emitted, Prefixed, Layout, Digits, Len, Pow, Fill, Width, UnsignedText, Spaces, Zeros, View;
      var number := if v < 0 then -v else v;
      var width := ComputeWidth(number, base, numDigits);
      var rest := fieldWidth;
      if rest > 0 && (v < 0 || flags.sign) {
        rest := rest - 1;
      }
      ghost var inner := rest;
      ghost var lead := Lead(v, width, inner, numDigits, flags);
      IntPieces(v, base, numDigits, fieldWidth, flags, width, inner);
      rest := LeadIn(v, width, rest, numDigits, flags);
      ghost var led := View();
      EmittedMode(old(View()), led, lead);
      ghost var text := UnsignedText(number, base, numDigits, if flags.left then inner else Min(inner, width), flags);
      if returnValue < 0 {
        EmittedStops(old(View()), led, lead, text);
        EmittedIsPrefixed(old(View()), led, lead, text);
        return;
      }
      PrintUnsigned(number, base, numDigits, rest, flags);
      if !up.mode.NoBlockTrim? {
        EmittedThenPrefixed(old(View()), led, View(), lead, text);
      }
      if returnValue >= 0 || !flags.left || rest <= width {
        EmittedTwice(old(View()), led, View(), lead, text);
      }
    }

    /** What comes before the digits of a signed number; after an error nothing more is stored. */
    method LeadIn(v: int, width: nat, fieldWidth: nat, numDigits: nat, flags: Flags) returns (rest: nat)
      requires Valid() && returnValue >= 0
      modifies this, up, up.data, buffer
      ensures Valid() && Emitted(old(View()), View(), Lead(v, width, fieldWidth, numDigits, flags))
      ensures returnValue >= 0 ==> rest == if flags.left then fieldWidth else Min(fieldWidth, width)
    {
      hide Emitted, Fill, View, Spaces, Zeros, Sign;
      ghost var spaces := Spaces(width, fieldWidth, numDigits, flags);
      ghost var zeros := Zeros(width, fieldWidth, numDigits, flags);
      ghost var sign := Sign(v, flags);
      rest := LeadingSpaces(width, fieldWidth, numDigits, flags);
      ghost var padded := View();
      if returnValue < 0 {
        EmittedStops(old(View()), padded, spaces, sign + zeros);
        assert spaces + (sign + zeros) == spaces + sign + zeros;
        return;
      }
      PutSign(v, flags);
      EmittedTwice(old(View()), padded, View(), spaces, sign);
      ghost var signed := View();
      if returnValue < 0 {
        EmittedStops(old(View()), signed, spaces + sign, zeros);
        return;
      }
      rest := LeadingZeros(width, rest, numDigits, flags);
      ZerosInRest(width, fieldWidth, numDigits, flags);
      EmittedTwice(old(View()), signed, View(), spaces + sign, zeros);
    }

    /**
     The end of a formatted print: what waits in the buffer is written. The
     value returned counts these characters a second time.
     */
    method Finish() returns (r: int, ghost taken: nat)
      requires Valid()
      modifies up, up.data
      ensures Valid() && taken <= cnt
      ensures up.History() == old(up.History()) + buffer[..taken]
      ensures r == old(Returned(View()))
      // As a number of bytes stored in the ring it is right exactly when the buffer is empty.
      ensures returnValue > 0 ==> (r == returnValue - cnt + taken <==> cnt == 0)
    {
      r, taken := returnValue, 0;
      assert buffer[..0] == [];
      if returnValue > 0 {
        if cnt != 0 {
          var host := HostReads(cnt);
          var written := up.WriteNoLock(buffer[..cnt], host);
          taken := written;
          assert buffer[..cnt][..taken] == buffer[..taken];
        }
        r := r + cnt;
      }
    }

    method LeadingSpaces(width: nat, fieldWidth: nat, numDigits: nat, flags: Flags) returns (rest: nat)
      requires Valid() && returnValue >= 0
      modifies this, up, up.data, buffer
      ensures Valid() && Emitted(old(View()), View(), Spaces(width, fieldWidth, numDigits, flags))
      ensures returnValue >= 0 ==>
                rest == if (!flags.zero || numDigits != 0) && !flags.left then Min(fieldWidth, width) else fieldWidth
    {
      hide Emitted;
      rest := fieldWidth;
      EmittedNothing(View());
      if (!flags.zero || numDigits != 0) && !flags.left {
        if rest != 0 {
          rest := Pad(SPACE, width, rest);
        }
      }
    }

    method PutSign(v: int, flags: Flags)
      requires Valid() && returnValue >= 0
      modifies this, up, up.data, buffer
      ensures Valid() && Emitted(old(View()), View(), Sign(v, flags))
    {
      hide Emitted;
      EmittedNothing(View());
      if v < 0 {
        StoreChar(MINUS);
      } else if flags.sign {
        StoreChar(PLUS);
      }
    }

    method LeadingZeros(width: nat, fieldWidth: nat, numDigits: nat, flags: Flags) returns (rest: nat)
      requires Valid() && returnValue >= 0
      modifies this, up, up.data, buffer
      ensures Valid() && Emitted(old(View()), View(), Zeros(width, fieldWidth, numDigits, flags))
      ensures returnValue >= 0 ==>
                rest == if flags.zero && !flags.left && numDigits == 0 then Min(fieldWidth, width) else fieldWidth
    {
      hide Emitted;
      rest := fieldWidth;
      EmittedNothing(View());
      if flags.zero && !flags.left && numDigits == 0 {
        if rest != 0 {
          rest := Pad(ZERO, width, rest);
        }
      }
    }
  }

  function Spaces(width: nat, fieldWidth: nat, numDigits: nat, flags: Flags): seq<byte> {
    if (!flags.zero || numDigits != 0) && !flags.left then Fill(SPACE, fieldWidth - width) else []
  }

  function Zeros(width: nat, fieldWidth: nat, numDigits: nat, flags: Flags): seq<byte> {
    if flags.zero && !flags.left && numDigits == 0 then Fill(ZERO, fieldWidth - width) else []
  }

  function Lead(v: int, width: nat, fieldWidth: nat, numDigits: nat, flags: Flags): seq<byte> {
    Spaces(width, fieldWidth, numDigits, flags) + Sign(v, flags) + Zeros(width, fieldWidth, numDigits, flags)
  }

  /** Zeros are filled in only where no spaces were. */
  lemma ZerosInRest(width: nat, fieldWidth: nat, numDigits: nat, flags: Flags)
    ensures (!flags.zero || numDigits != 0) && !flags.left
            ==> Zeros(width, Min(fieldWidth, width), numDigits, flags) == Zeros(width, fieldWidth, numDigits, flags)
  {
  }

  /** Spaces, sign, zeros and the digits in what is left of the field make up the layout. */
  lemma LayoutPieces(sign: seq<byte>, digits: seq<byte>, fieldWidth: nat, numDigits: nat, flags: Flags, inner: nat)
    requires |sign| <= 1 && inner == if fieldWidth > 0 && |sign| > 0 then fieldWidth - 1 else fieldWidth
    ensures Layout(sign, digits, fieldWidth, numDigits, flags)
            == Spaces(|digits|, inner, numDigits, flags) + sign + Zeros(|digits|, inner, numDigits, flags)
               + Layout([], digits, if flags.left then inner else Min(inner, |digits|), numDigits, flags)
  {
    hide Fill;
    FillNothing(SPACE, fieldWidth - |sign| - |digits|);
    FillNothing(SPACE, inner - |digits|);
    FillNothing(SPACE, Min(inner, |digits|) - |digits|);
    FillNothing(ZERO, fieldWidth - |sign| - |digits|);
    FillNothing(ZERO, inner - |digits|);
    FillNothing(ZERO, Min(inner, |digits|) - |digits|);
  }

  lemma IntPieces(v: int, base: nat, numDigits: nat, fieldWidth: nat, flags: Flags, width: nat, inner: nat)
    requires IsBase(base) && width == Width(Magnitude(v), base, numDigits)
    requires inner == if fieldWidth > 0 && |Sign(v, flags)| > 0 then fieldWidth - 1 else fieldWidth
    ensures IntText(v, base, numDigits, fieldWidth, flags)
            == Lead(v, width, inner, numDigits, flags)
               + UnsignedText(Magnitude(v), base, numDigits, if flags.left then inner else Min(inner, width), flags)
  {
    hide Digits, Layout, Len, Spaces, Zeros;
    LayoutPieces(Sign(v, flags), Digits(Magnitude(v), base, width), fieldWidth, numDigits, flags, inner);
  }

  /** What is printed in front of the digits of an unsigned number. */
  function Front(width: nat, fieldWidth: nat, numDigits: nat, flags: Flags): seq<byte> {
    if flags.left then [] else Fill(if flags.zero && numDigits == 0 then ZERO else SPACE, fieldWidth - width)
  }

  function Back(width: nat, fieldWidth: nat, flags: Flags): seq<byte> {
    if flags.left then Fill(SPACE, fieldWidth - width) else []
  }

  lemma UnsignedTextPieces(v: nat, base: nat, numDigits: nat, fieldWidth: nat, flags: Flags)
    requires IsBase(base)
    ensures var width := Width(v, base, numDigits);
            UnsignedText(v, base, numDigits, fieldWidth, flags)
            == Front(width, fieldWidth, numDigits, flags) + Digits(v, base, width) + Back(width, fieldWidth, flags)
  {
    hide Layout, Front, Back, Len, Digits;
    UnsignedPieces(Digits(v, base, Width(v, base, numDigits)), fieldWidth, numDigits, flags);
  }

  lemma UnsignedPieces(digits: seq<byte>, fieldWidth: nat, numDigits: nat, flags: Flags)
    ensures Layout([], digits, fieldWidth, numDigits, flags)
            == Front(|digits|, fieldWidth, numDigits, flags) + digits + Back(|digits|, fieldWidth, flags)
  {
  }

  lemma FillNothing(c: byte, n: int)
    ensures n <= 0 ==> Fill(c, n) == []
  {
  }

  lemma WidthHolds(v: nat, base: nat, numDigits: nat)
    requires IsBase(base)
    ensures v < Pow(base, Width(v, base, numDigits))
  {
    hide Pow;
    LenBounds(v, base);
    PowGrows(base, Len(v, base), Width(v, base, numDigits));
  }

  lemma NoDigits(v: nat, base: nat)
    requires IsBase(base)
    ensures Digits(v, base, 0) == []
  {
  }

  /** The place value below: dividing goes down by one power, and to 0 after the last. */
  lemma PlaceBelow(base: nat, k: nat)
    requires IsBase(base)
    ensures if k == 0 then Pow(base, k) / base == 0 else Pow(base, k) / base == Pow(base, k - 1) > 0
  {
    hide Scale;
    if k == 0 {
      SmallQuotient(base);
    } else {
      ScaleDivides(base, Pow(base, k - 1));
    }
  }

  lemma PowZero(base: nat)
    requires IsBase(base)
    ensures Pow(base, 0) == 1
  {
  }

  lemma PowNext(base: nat, n: nat)
    requires IsBase(base)
    ensures Pow(base, n + 1) == Scale(base, Pow(base, n))
  {
  }
}
