/** libcflat's formatter. The output is built character by character into a bounded buffer; `out` is
    the whole output, as if the buffer were unbounded. */
module Printf {
  import opened Strings

  // ---------- fields ----------

  function Repeat(c: char, n: nat): string {
    if n == 0 then "" else [c] + Repeat(c, n - 1)
  }

  /** `strprops_t`: the padding character and the field width, negative for left-justified fields. */
  datatype Props = Props(pad: char, npad: int)

  /** A field: right-justified with the pad character, or left-justified with spaces, to the width. */
  function Padded(s: string, p: Props): string {
    if p.npad > |s| then Repeat(p.pad, p.npad - |s|) + s
    else if -p.npad > |s| then s + Repeat(' ', -p.npad - |s|)
    else s
  }

  function Abs(n: int): nat {
    if n < 0 then -n else n
  }

  const DIGITS := "0123456789abcdef"

  /** The digits of a positive number, most significant first; nothing for zero. */
  function DigitsOf(n: nat, base: nat): string
    requires 2 <= base <= 16
  {
    if n == 0 then "" else DigitsOf(n / base, base) + [DIGITS[n % base]]
  }

  function NumberText(n: int, base: nat): string
    requires 2 <= base <= 16
  {
    if n < 0 then "-" + DigitsOf(-n, base)
    else if n == 0 then "0"
    else DigitsOf(n, base)
  }

  function Reverse(s: string): string {
    if s == "" then "" else Reverse(s[1..]) + [s[0]]
  }

  lemma {:induction false} ReverseAppend(s: string, c: char)
    ensures Reverse(s + [c]) == [c] + Reverse(s)
  {
    if s == "" {
    } else {
      assert (s + [c])[1..] == s[1..] + [c];
      ReverseAppend(s[1..], c);
    }
  }

  lemma {:induction false} ReverseLength(s: string)
    ensures |Reverse(s)| == |s|
  {
    if s != "" {
      ReverseLength(s[1..]);
    }
  }

  lemma {:induction false} ReverseIndex(s: string, k: nat)
    requires k < |s|
    ensures |Reverse(s)| == |s| && Reverse(s)[k] == s[|s| - 1 - k]
  {
    ReverseLength(s);
    ReverseLength(s[1..]);
    if k < |s| - 1 {
      ReverseIndex(s[1..], k);
    }
  }

  // ---------- the stream ----------

  class PStream {
    const buffer: array<char>
    var pos: nat
    var remain: int
    var added: int
    ghost const cap: nat
    ghost const before: string
    ghost var out: string

    ghost predicate Valid()
      reads this, buffer
    {
      && pos + remain == cap < buffer.Length && remain >= 0
      && added == |out|
      && pos == (if |out| < cap then |out| else cap)
      && |before| == buffer.Length
      && buffer[..pos] == out[..pos] && buffer[pos..] == before[pos..]
    }

    constructor (buf: array<char>, size: nat)
      requires 1 <= size <= buf.Length
      ensures Valid() && fresh(this) && buffer == buf && cap == size - 1 && before == buf[..] && out == ""
    {
      buffer, pos, remain, added := buf, 0, size - 1, 0;
      cap, before, out := size - 1, buf[..], "";
    }

    method AddChar(c: char)
      requires Valid()
      modifies this, buffer
      ensures Valid() && out == old(out) + [c]
    {
      ghost var b := buffer[..];
      if remain != 0 {
        buffer[pos] := c;
        pos := pos + 1;
        remain := remain - 1;
        assert buffer[pos..] == b[pos..];
      }
      added := added + 1;
      out := out + [c];
      assert b[..old(pos)] == buffer[..old(pos)];
    }

    method PrintStr(s: string, props: Props)
      requires Valid() && CString(s)
      modifies this, buffer
      ensures Valid() && out == old(out) + Padded(s, props)
    {
      hide Valid, Repeat;
      RepeatNone(props.pad);
      RepeatNone(' ');
      ghost var out0, lead := out, 0;
      var npad := props.npad;
      if npad > 0 {
        npad := npad - |s|;
        while npad > 0
          invariant Valid() && lead + npad == props.npad - |s| && (npad >= 0 || lead == 0)
          invariant out == out0 + Repeat(props.pad, lead)
        {
          AddChar(props.pad);
          RepeatAppend(props.pad, lead);
          npad, lead := npad - 1, lead + 1;
        }
      }
      ghost var out1 := out;
      var i := 0;
      while At(s, i) != '\0'
        invariant i <= |s| && Valid() && out == out1 + s[..i]
        decreases |s| - i
      {
        assert s[..i + 1] == s[..i] + [s[i]];
        AddChar(At(s, i));
        i := i + 1;
      }
      assert s[..i] == s;
      ghost var out2 := out;
      if npad < 0 {
        npad := npad + |s|;
        ghost var short, trail := npad, 0;
        while npad < 0
          invariant Valid() && npad == short + trail && (npad <= 0 || trail == 0)
          invariant out == out2 + Repeat(' ', trail)
        {
          AddChar(' ');
          RepeatAppend(' ', trail);
          npad, trail := npad + 1, trail + 1;
        }
      }
    }

    method PrintInt(n: int, base: nat, props: Props)
      requires Valid() && 2 <= base <= 16 && |DigitsOf(Abs(n), base)| <= 24
      modifies this, buffer
      ensures Valid() && out == old(out) + Padded(NumberText(n, base), props)
    {
      hide Valid, Padded;
      var buf, p := NumberBuffer(n, base, 26);
      NumberIsCString(n, base);
      PrintStr(buf[..p], props);
    }

    /** print_unsigned has no sign to place, and a buffer of one character less. */
    method PrintUnsigned(n: nat, base: nat, props: Props)
      requires Valid() && 2 <= base <= 16 && |DigitsOf(n, base)| <= 23
      modifies this, buffer
      ensures Valid() && out == old(out) + Padded(NumberText(n, base), props)
    {
      hide Valid, Padded;
      var buf, p := NumberBuffer(n, base, 25);
      NumberIsCString(n, base);
      PrintStr(buf[..p], props);
    }
  }

  /** The digit loop of print_int: least significant digit first, then the sign, then reversed in place
      and terminated. */
  method NumberBuffer(n: int, base: nat, size: nat) returns (buf: array<char>, p: nat)
    requires 2 <= base <= 16 && size >= 2 && |DigitsOf(Abs(n), base)| + 2 <= size
    ensures fresh(buf) && buf.Length == size && p < size
    ensures buf[..p] == NumberText(n, base) && buf[p] == '\0'
  {
    buf := new char[size];
    p := 0;
    var s, m := false, n;
    if m < 0 {
      m := -m;
      s := true;
    }
    p := DigitLoop(buf, m, base);
    ghost var low := buf[..p];
    DigitsShape(m, base);
    if s {
      buf[p] := '-';
      assert buf[..p + 1] == low + ['-'];
      ReverseAppend(low, '-');
      p := p + 1;
    }
    if p == 0 {
      buf[p] := '0';
      p := p + 1;
      assert buf[..1] == ['0'];
      assert Reverse(['0']) == Reverse([]) + ['0'];
    }
    assert Reverse(buf[..p]) == NumberText(n, base);
    ReverseInPlace(buf, p);
    assert buf[..p] == NumberText(n, base);
    ghost var text := buf[..p];
    buf[p] := '\0';
    assert buf[..p] == text;
  }

  lemma ReverseNone()
    ensures Reverse("") == ""
  {
  }

  lemma DigitsStep(m: nat, base: nat)
    requires 2 <= base <= 16
    ensures m == 0 ==> DigitsOf(m, base) == ""
    ensures m > 0 ==> DigitsOf(m, base) == DigitsOf(m / base, base) + [DIGITS[m % base]]
  {
  }

  lemma Shrinks(m: nat, base: nat)
    requires base >= 2 && m > 0
    ensures m / base < m
  {
    assert m < base * m by {
      assert base * m == 2 * m + (base - 2) * m;
    }
    Quotient(m, base, m);
  }

  method DigitLoop(buf: array<char>, n: nat, base: nat) returns (p: nat)
    requires 2 <= base <= 16 && |DigitsOf(n, base)| <= buf.Length
    modifies buf
    ensures p == |DigitsOf(n, base)| && Reverse(buf[..p]) == DigitsOf(n, base)
  {
    hide DigitsOf, Reverse;
    p := 0;
    var m: nat := n;
    ghost var text := DigitsOf(n, base);
    ReverseNone();
    DigitsStep(0, base);
    while m != 0
      invariant |DigitsOf(m, base)| + p == |text| && |text| <= buf.Length
      invariant text == DigitsOf(m, base) + Reverse(buf[..p])
    {
      DigitsStep(m, base);
      Shrinks(m, base);
      ghost var low, q := buf[..p], DigitsOf(m / base, base);
      var c := DIGITS[m % base];
      buf[p] := c;
      assert buf[..p + 1] == low + [c];
      ReverseAppend(low, c);
      assert (q + [c]) + Reverse(low) == q + ([c] + Reverse(low));
      p := p + 1;
      m := m / base;
    }
  }

  method ReverseInPlace(buf: array<char>, p: nat)
    requires p <= buf.Length
    modifies buf
    ensures buf[..p] == Reverse(old(buf[..p]))
  {
    ghost var was := buf[..p];
    for i := 0 to p / 2
      invariant forall k | 0 <= k < i || p - i <= k < p :: buf[k] == was[p - 1 - k]
      invariant forall k | i <= k < p - i :: buf[k] == was[k]
    {
      var tmp := buf[i];
      buf[i] := buf[p - 1 - i];
      buf[p - 1 - i] := tmp;
    }
    ReverseLength(was);
    forall k | 0 <= k < p
      ensures buf[..p][k] == Reverse(was)[k]
    {
      ReverseIndex(was, k);
    }
  }

  lemma {:induction false} DigitsAreDigits(n: nat, base: nat)
    requires 2 <= base <= 16
    ensures forall k | 0 <= k < |DigitsOf(n, base)| :: DigitsOf(n, base)[k] != '\0'
  {
    if n > 0 {
      DigitsAreDigits(n / base, base);
    }
  }

  lemma NumberIsCString(n: int, base: nat)
    requires 2 <= base <= 16
    ensures CString(NumberText(n, base))
  {
    DigitsAreDigits(Abs(n), base);
  }

  lemma {:induction false} DigitsShape(n: nat, base: nat)
    requires 2 <= base <= 16
    ensures n > 0 ==> DigitsOf(n, base) != ""
  {
  }

  lemma RepeatNone(c: char)
    ensures Repeat(c, 0) == ""
  {
  }

  lemma {:induction false} RepeatAppend(c: char, n: nat)
    ensures Repeat(c, n + 1) == Repeat(c, n) + [c]
  {
    if n > 0 {
      RepeatAppend(c, n - 1);
    }
  }

  // ---------- formats ----------

  datatype Arg = Num(n: int) | Chr(c: char) | Str(s: string)

  /** What one format position asks for. */
  datatype Directive =
    | Literal(c: char)
    | Nothing  // the format ends after '%'
    | Character
    | Decimal(props: Props)
    | Hex(props: Props)
    | Pointer(props: Props)
    | Text(props: Props)

  /** Characters that fmtnum consumes: a minus sign and digits. */
  function FmtLen(fmt: string, i: nat): (len: nat)
    requires i <= |fmt|
    ensures i + len <= |fmt|
    ensures i < |fmt| && (IsDigit(fmt[i]) || fmt[i] == '-') ==> len > 0
  {
    var d := if At(fmt, i) == '-' then i + 1 else i;
    DigitsEnd(fmt, d) - i
  }

  const INT := 0x8000_0000
  const LONG := 0x8000_0000_0000_0000

  /** A long stored in an int: its low 32 bits, as a signed number. */
  function ToInt(x: int): (r: int)
    ensures -INT <= r < INT
    ensures -INT <= x < INT ==> r == x
  {
    (x + INT) % 0x1_0000_0000 - INT
  }

  /** Flags, widths and `l`s after '%', up to the conversion. */
  function Conversion(fmt: string, i: nat, p: Props): (r: (Directive, nat))
    requires i <= |fmt|
    ensures i <= r.1 <= |fmt|
    decreases |fmt| - i
  {
    if i == |fmt| then (Nothing, i)
    else
      var f := fmt[i];
      if f == '%' then (Literal('%'), i + 1)
      else if f == 'c' then (Character, i + 1)
      else if f == '0' then
        Conversion(fmt, i + 1 + FmtLen(fmt, i + 1), Props('0', ToInt(Denotes(fmt[i + 1..]))))
      else if IsDigit(f) || f == '-' then
        Conversion(fmt, i + FmtLen(fmt, i), Props(p.pad, ToInt(Denotes(fmt[i..]))))
      else if f == 'l' then Conversion(fmt, i + 1, p)
      else if f == 'd' then (Decimal(p), i + 1)
      else if f == 'x' then (Hex(p), i + 1)
      else if f == 'p' then (Pointer(p), i + 1)
      else if f == 's' then (Text(p), i + 1)
      else (Literal(f), i + 1)
  }

  /** Every number among the flags fits a long. */
  predicate WidthsFit(fmt: string, i: nat)
    requires i <= |fmt|
    decreases |fmt| - i
  {
    i < |fmt| ==>
      var f := fmt[i];
      if f == '0' then
        -LONG < Denotes(fmt[i + 1..]) < LONG && WidthsFit(fmt, i + 1 + FmtLen(fmt, i + 1))
      else if IsDigit(f) || f == '-' then
        -LONG < Denotes(fmt[i..]) < LONG && WidthsFit(fmt, i + FmtLen(fmt, i))
      else f == 'l' ==> WidthsFit(fmt, i + 1)
  }

  /** The directive at `i` and where the next one starts. */
  function DirectiveAt(fmt: string, i: nat): (r: (Directive, nat))
    requires i < |fmt|
    ensures i < r.1 <= |fmt|
  {
    if fmt[i] != '%' then (Literal(fmt[i]), i + 1) else Conversion(fmt, i + 1, Props(' ', 0))
  }

  predicate TakesArg(d: Directive) {
    !d.Literal? && !d.Nothing?
  }

  /** The argument has the type that the conversion reads; numbers are within long long and unsigned
      long long. */
  predicate Fits(d: Directive, a: Arg) {
    match d
    case Character => a.Chr?
    case Decimal(_) => a.Num? && -0x8000_0000_0000_0000 < a.n < 0x8000_0000_0000_0000
    case Hex(_) => a.Num? && 0 <= a.n < 0x1_0000_0000_0000_0000
    case Pointer(_) => a.Num? && 0 <= a.n < 0x1_0000_0000_0000_0000
    case Text(_) => a.Str? && CString(a.s)
    case _ => true
  }

  function Rendered(d: Directive, a: Arg): string
    requires Fits(d, a)
  {
    match d
    case Literal(c) => [c]
    case Nothing => ""
    case Character => [a.c]
    case Decimal(p) => Padded(NumberText(a.n, 10), p)
    case Hex(p) => Padded(NumberText(a.n, 16), p)
    case Pointer(p) => Padded("0x", p) + Padded(NumberText(a.n, 16), p)
    case Text(p) => Padded(a.s, p)
  }

  predicate WellTyped(fmt: string, i: nat, args: seq<Arg>)
    requires i <= |fmt|
    decreases |fmt| - i
  {
    if i == |fmt| then true
    else
      var (d, j) := DirectiveAt(fmt, i);
      && (fmt[i] == '%' ==> WidthsFit(fmt, i + 1))
      && if TakesArg(d) then |args| > 0 && Fits(d, args[0]) && WellTyped(fmt, j, args[1..])
         else WellTyped(fmt, j, args)
  }

  /** The ideal output from position `i` on. */
  function Formatted(fmt: string, i: nat, args: seq<Arg>): string
    requires i <= |fmt| && WellTyped(fmt, i, args)
    decreases |fmt| - i
  {
    if i == |fmt| then ""
    else
      var (d, j) := DirectiveAt(fmt, i);
      if TakesArg(d) then Rendered(d, args[0]) + Formatted(fmt, j, args[1..])
      else Rendered(d, Num(0)) + Formatted(fmt, j, args)
  }

  // ---------- the digits fit ----------

  function Power(b: nat, k: nat): nat {
    if k == 0 then 1 else b * Power(b, k - 1)
  }

  lemma PowerStep(b: nat, k: nat)
    ensures Power(b, k) == if k == 0 then 1 else b * Power(b, k - 1)
  {
  }

  lemma {:induction false} DigitCount(n: nat, base: nat, k: nat)
    requires 2 <= base <= 16 && n < Power(base, k)
    ensures |DigitsOf(n, base)| <= k
    decreases k
  {
    hide DigitsOf, Power;
    DigitsNone(base);
    if k == 0 {
      PowerStep(base, 0);
    } else if n > 0 {
      var q := OneDigitOff(n, base, k);
      DigitCount(q, base, k - 1);
    }
  }

  lemma DigitsNone(base: nat)
    requires 2 <= base <= 16
    ensures DigitsOf(0, base) == ""
  {
  }

  lemma OneDigitOff(n: nat, base: nat, k: nat) returns (q: nat)
    requires 2 <= base <= 16 && n > 0 && k > 0 && n < Power(base, k)
    ensures q < Power(base, k - 1) && |DigitsOf(n, base)| == |DigitsOf(q, base)| + 1
  {
    hide DigitsOf, Power;
    PowerStep(base, k);
    DigitsStep(n, base);
    Quotient(n, base, Power(base, k - 1));
    q := n / base;
  }

  lemma Quotient(n: nat, b: nat, p: nat)
    requires b >= 2 && n < b * p
    ensures n / b < p
  {
    MulCancel(b, n / b, p);
  }

  lemma MulCancel(b: nat, x: nat, y: nat)
    ensures b * x < b * y ==> x < y
  {
    if x >= y {
      assert b * x == b * y + b * (x - y);
    }
  }

  lemma PowersUsed()
    ensures Power(10, 19) == 10_000_000_000_000_000_000 && Power(16, 16) == 0x1_0000_0000_0000_0000
  {
    assert Power(10, 5) == 100_000;
    assert Power(10, 10) == 10_000_000_000;
    assert Power(10, 15) == 1_000_000_000_000_000;
    assert Power(16, 8) == 0x1_0000_0000;
  }

  lemma NumbersFit(n: int)
    requires -0x8000_0000_0000_0000 < n < 0x1_0000_0000_0000_0000
    ensures |DigitsOf(Abs(n), 16)| <= 16
    ensures n < 0x8000_0000_0000_0000 ==> |DigitsOf(Abs(n), 10)| <= 19
  {
    hide DigitsOf;
    PowersUsed();
    DigitCount(Abs(n), 16, 16);
    if n < 0x8000_0000_0000_0000 {
      DigitCount(Abs(n), 10, 19);
    }
  }

  // ---------- vsnprintf ----------

  /** fmtnum: the number at `i`, and how many characters it took. */
  method Fmtnum(fmt: string, i: nat) returns (num: int, len: nat)
    requires CString(fmt) && i <= |fmt| && -LONG < Denotes(fmt[i..]) < LONG
    ensures num == ToInt(Denotes(fmt[i..])) && len == FmtLen(fmt, i)
  {
    var f := i;
    if At(fmt, f) == '-' {
      f := f + 1;
    }
    while '0' <= At(fmt, f) <= '9'
      invariant i <= f <= |fmt| && DigitsEnd(fmt, f) == i + FmtLen(fmt, i)
      decreases |fmt| - f
    {
      f := f + 1;
    }
    var n := Atol(fmt[i..]);
    num := ToInt(n);
    len := f - i;
  }

  /** The switch's cases that print. */
  method Emit(s: PStream, d: Directive, a: Arg)
    requires s.Valid() && Fits(d, a)
    modifies s, s.buffer
    ensures s.Valid() && s.out == old(s.out) + Rendered(d, a)
  {
    hide s.Valid, Padded, DigitsOf, NumberText;
    match d
    case Literal(c) => s.AddChar(c);
    case Nothing =>
    case Character => s.AddChar(a.c);
    case Decimal(p) =>
      NumbersFit(a.n);
      s.PrintInt(a.n, 10, p);
    case Hex(p) =>
      NumbersFit(a.n);
      s.PrintUnsigned(a.n, 16, p);
    case Pointer(p) =>
      NumbersFit(a.n);
      s.PrintStr("0x", p);
      s.PrintUnsigned(a.n, 16, p);
    case Text(p) => s.PrintStr(a.s, p);
  }

  /** The `morefmt` loop: flags, widths and `l`s each consume format characters, until a conversion. */
  method MoreFmt(fmt: string, start: nat) returns (d: Directive, i: nat)
    requires CString(fmt) && start <= |fmt| && WidthsFit(fmt, start)
    ensures (d, i) == Conversion(fmt, start, Props(' ', 0))
  {
    hide FmtLen, Denotes, DigitsEnd, Blanks, Value, ToInt;
    i := start;
    var props := Props(' ', 0);
    while true
      invariant i <= |fmt| && Conversion(fmt, i, props) == Conversion(fmt, start, Props(' ', 0)) && WidthsFit(fmt, i)
      decreases |fmt| - i
    {
      var f := At(fmt, i);
      i := i + 1;
      if f == '\0' {
        return Nothing, i - 1;
      } else if f == '0' {
        var num, len := Fmtnum(fmt, i);
        props := Props('0', num);
        i := i + len;
      } else if '1' <= f <= '9' || f == '-' {
        i := i - 1;
        var num, len := Fmtnum(fmt, i);
        props := props.(npad := num);
        i := i + len;
      } else if f == 'l' {
      } else if f == 'c' {
        return Character, i;
      } else if f == 'd' {
        return Decimal(props), i;
      } else if f == 'x' {
        return Hex(props), i;
      } else if f == 'p' {
        return Pointer(props), i;
      } else if f == 's' {
        return Text(props), i;
      } else {
        return Literal(f), i;  // '%' too
      }
    }
  }

  /** The buffer holds as much of the ideal output as fits, then NUL; nothing else is written; and the
      result is one more than the ideal length, which an int must hold. */
  method Vsnprintf(buf: array<char>, size: nat, fmt: string, args: seq<Arg>) returns (r: nat)
    requires 1 <= size <= buf.Length && size < INT && CString(fmt) && WellTyped(fmt, 0, args)
    requires |Formatted(fmt, 0, args)| + 1 < INT
    modifies buf
    ensures var text := Formatted(fmt, 0, args);
            var n := if |text| < size - 1 then |text| else size - 1;
            && buf[..n] == text[..n] && buf[n] == '\0' && buf[n + 1..] == old(buf[n + 1..])
            && r == |text| + 1
  {
    hide Formatted, WellTyped;
    var s := FormatAll(buf, size, fmt, args);
    var p := s.pos;
    ghost var tail := buf[p..];
    buf[p] := '\0';
    r := s.added + 1;
    assert buf[..p] == s.out[..p];
    assert buf[p + 1..] == tail[1..] == s.before[p..][1..] == old(buf[p + 1..]);
  }

  lemma FormatStep(fmt: string, i: nat, args: seq<Arg>)
    requires i < |fmt| && WellTyped(fmt, i, args)
    ensures fmt[i] == '%' ==> WidthsFit(fmt, i + 1)
    ensures var (d, j) := DirectiveAt(fmt, i);
            if TakesArg(d) then
              |args| > 0 && Fits(d, args[0]) && WellTyped(fmt, j, args[1..]) &&
              Formatted(fmt, i, args) == Rendered(d, args[0]) + Formatted(fmt, j, args[1..])
            else
              Fits(d, Num(0)) && WellTyped(fmt, j, args) &&
                  Formatted(fmt, i, args) == Rendered(d, Num(0)) + Formatted(fmt, j, args)
  {
    hide Conversion, Rendered, WidthsFit;
  }

  /** The loop over the format. */
  method FormatAll(buf: array<char>, size: nat, fmt: string, args: seq<Arg>) returns (s: PStream)
    requires 1 <= size <= buf.Length && CString(fmt) && WellTyped(fmt, 0, args)
    modifies buf
    ensures s.Valid() && s.buffer == buf && s.cap == size - 1 && s.before == old(buf[..])
    ensures s.out == Formatted(fmt, 0, args)
  {
    hide Conversion, Rendered, Fits, WellTyped, Formatted, s.Valid, FmtLen, Denotes, TakesArg, DigitsEnd, Blanks,
         Value, WidthsFit;
    s := new PStream(buf, size);
    var i, k := 0, 0;
    ghost var text := Formatted(fmt, 0, args);
    assert args[0..] == args;
    while At(fmt, i) != '\0'
      invariant i <= |fmt| && k <= |args| && s.Valid() && fresh(s) && s.buffer == buf
      invariant WellTyped(fmt, i, args[k..]) && s.out + Formatted(fmt, i, args[k..]) == text
      decreases |fmt| - i
    {
      ghost var rest, i0 := args[k..], i;
      FormatStep(fmt, i0, rest);
      var d: Directive;
      if At(fmt, i) != '%' {
        d, i := Literal(At(fmt, i)), i + 1;
      } else {
        d, i := MoreFmt(fmt, i + 1);
      }
      assert (d, i) == DirectiveAt(fmt, i0);
      if TakesArg(d) {
        assert rest[0] == args[k] && rest[1..] == args[k + 1..];
        Emit(s, d, args[k]);
        k := k + 1;
      } else {
        Emit(s, d, Num(0));
      }
    }
    FormatEnd(fmt, args[k..]);
  }

  lemma FormatEnd(fmt: string, args: seq<Arg>)
    requires WellTyped(fmt, |fmt|, args)
    ensures Formatted(fmt, |fmt|, args) == ""
  {
  }
}
