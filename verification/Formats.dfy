/** What formats mean, apart from how the formatter reads them: a grammar of formats with the text that each
    piece stands for, and how formats compose. */
module Formats {
  import opened Strings
  import opened Printf
  import opened RoundTrip
  import V = Vmsa

  // ---------- numerals ----------

  /** The value of a digit in bases up to sixteen. */
  function DigitValue(c: char): V.Option<nat> {
    match c
    case '0' => V.Some(0) case '1' => V.Some(1) case '2' => V.Some(2) case '3' => V.Some(3)
    case '4' => V.Some(4) case '5' => V.Some(5) case '6' => V.Some(6) case '7' => V.Some(7)
    case '8' => V.Some(8) case '9' => V.Some(9) case 'a' => V.Some(10) case 'b' => V.Some(11)
    case 'c' => V.Some(12) case 'd' => V.Some(13) case 'e' => V.Some(14) case 'f' => V.Some(15)
    case _ => V.None
  }

  /** The number that a text of digits denotes, read from the left. */
  function BaseValue(s: string, base: nat): V.Option<nat> {
    if s == "" then V.Some(0)
    else
      match (BaseValue(s[..|s| - 1], base), DigitValue(s[|s| - 1]))
      case (Some(v), Some(d)) => if d < base then V.Some(base * v + d) else V.None
      case (_, _) => V.None
  }

  /** The numeral of `n`: digits that denote it, without a leading zero unless it is "0", after a minus sign if
      it is negative. */
  predicate Numeral(s: string, n: int, base: nat) {
    if n < 0 then s != "" && s[0] == '-' && Numeral(s[1..], -n, base)
    else s != "" && BaseValue(s, base) == V.Some(n) && (s[0] == '0' ==> s == "0")
  }

  lemma {:induction false} DigitsSpell(n: nat, base: nat)
    requires 2 <= base <= 16
    ensures BaseValue(DigitsOf(n, base), base) == V.Some(n)
    ensures n > 0 ==> DigitsOf(n, base) != "" && DigitsOf(n, base)[0] != '0'
    decreases n
  {
    hide DigitsOf, DigitValue, BaseValue, DIGITS;
    DigitsStep(n, base);
    if n == 0 {
      NoValue(base);
    } else {
      Shrinks(n, base);
      OneDigit(n % base);
      var q, c := DigitsOf(n / base, base), DIGITS[n % base];
      DigitsSpell(n / base, base);
      ValueMore(q, c, base);
      Divides(n, base);
      if n / base == 0 {
        DigitsStep(0, base);
      }
    }
  }

  lemma Divides(n: nat, base: nat)
    requires base >= 2
    ensures n == base * (n / base) + n % base
  {
  }

  lemma NoValue(base: nat)
    ensures BaseValue("", base) == V.Some(0)
  {
  }

  lemma OneDigit(d: nat)
    requires d < 16
    ensures |DIGITS| == 16 && DigitValue(DIGITS[d]) == V.Some(d) && (DIGITS[d] == '0' <==> d == 0)
  {
    assert DIGITS[d] == ['0', '1', '2', '3', '4', '5', '6', '7', '8', '9', 'a', 'b', 'c', 'd', 'e', 'f'][d];
  }

  lemma ValueMore(q: string, c: char, base: nat)
    requires BaseValue(q, base).Some? && DigitValue(c).Some? && DigitValue(c).value < base
    ensures BaseValue(q + [c], base) == V.Some(base * BaseValue(q, base).value + DigitValue(c).value)
  {
    assert (q + [c])[..|q|] == q;
  }

  /** What is printed for a number, in any base, is its numeral. */
  lemma NumbersSpell(n: int, base: nat)
    requires 2 <= base <= 16
    ensures Numeral(NumberText(n, base), n, base)
  {
    hide DigitsOf, BaseValue;
    DigitsSpell(Abs(n), base);
    if n == 0 {
      NoValue(base);
      OneDigit(0);
      ValueMore("", '0', base);
      assert "" + ['0'] == "0";
    } else if n < 0 {
      assert ("-" + DigitsOf(-n, base))[1..] == DigitsOf(-n, base);
    }
  }

  /** A number has one numeral. */
  lemma NumeralUnique(s: string, t: string, n: int, base: nat)
    requires 2 <= base <= 16 && Numeral(s, n, base) && Numeral(t, n, base)
    ensures s == t
  {
    hide BaseValue;
    if n < 0 {
      NumeralUnique(s[1..], t[1..], -n, base);
      assert s == [s[0]] + s[1..] && t == [t[0]] + t[1..];
    } else if s != "0" && t != "0" {
      ValueUnique(s, t, base);
    } else {
      assert BaseValue("0", base) == V.Some(0) by {
        NoValue(base);
        ValueMore("", '0', base);
        assert "" + ['0'] == "0";
      }
      if s != "0" {
        PositiveValue(s, base);
      }
      if t != "0" {
        PositiveValue(t, base);
      }
    }
  }

  predicate NoLeading(s: string) {
    s != "" ==> s[0] != '0'
  }

  /** The value of a text with a last digit, from the text before it. */
  lemma LastDigit(s: string, base: nat)
    requires s != "" && BaseValue(s, base).Some?
    ensures var q, d := BaseValue(s[..|s| - 1], base), DigitValue(s[|s| - 1]);
            q.Some? && d.Some? && d.value < base && BaseValue(s, base).value == base * q.value + d.value
  {
  }

  lemma {:induction false} PositiveValue(s: string, base: nat)
    requires base >= 2 && s != "" && NoLeading(s) && BaseValue(s, base).Some?
    ensures BaseValue(s, base).value > 0
  {
    hide BaseValue;
    LastDigit(s, base);
    if |s| > 1 {
      PositiveValue(s[..|s| - 1], base);
    }
  }

  lemma {:induction false} ValueUnique(s: string, t: string, base: nat)
    requires 2 <= base <= 16 && NoLeading(s) && NoLeading(t)
    requires BaseValue(s, base).Some? && BaseValue(s, base) == BaseValue(t, base)
    ensures s == t
  {
    hide BaseValue, DigitValue;
    NoValue(base);
    if s != "" && t != "" {
      LastDigit(s, base);
      LastDigit(t, base);
      var a, b := s[..|s| - 1], t[..|t| - 1];
      SameParts(base, BaseValue(a, base).value, DigitValue(s[|s| - 1]).value,
                BaseValue(b, base).value, DigitValue(t[|t| - 1]).value);
      SameDigit(s[|s| - 1], t[|t| - 1]);
      ValueUnique(a, b, base);
      assert s == a + [s[|s| - 1]] && t == b + [t[|t| - 1]];
    } else {
      if s != "" {
        PositiveValue(s, base);
      }
      if t != "" {
        PositiveValue(t, base);
      }
    }
  }

  lemma SameParts(base: nat, q: nat, d: nat, r: nat, e: nat)
    requires d < base && e < base && base * q + d == base * r + e
    ensures q == r && d == e
  {
    MulCancel(base, q, r + 1);
    MulCancel(base, r, q + 1);
  }

  lemma SameDigit(c: char, d: char)
    requires DigitValue(c).Some? && DigitValue(c) == DigitValue(d)
    ensures c == d
  {
  }

  /** The number parser's digits are the ten decimal ones, at their values. */
  lemma DecimalDigits(c: char)
    ensures IsDigit(c) <==> DigitValue(c).Some? && DigitValue(c).value < 10
    ensures IsDigit(c) ==> DigitOf(c) == DigitValue(c).value
  {
    if IsDigit(c) {
      assert c == '0' || c == '1' || c == '2' || c == '3' || c == '4' || c == '5' || c == '6' || c == '7' || c == '8' ||
          c == '9';
    }
  }

  /** What it makes of a run of digits is the number that they denote in base ten. */
  lemma {:induction false} ValueDenotes(s: string)
    requires AllDigits(s)
    ensures BaseValue(s, 10) == V.Some(Value(s)) && Value(s) >= 0
  {
    hide IsDigit, DigitValue, DigitOf;
    if s != "" {
      ValueDenotes(s[..|s| - 1]);
      DecimalDigits(s[|s| - 1]);
    }
  }

  // ---------- pieces of formats ----------

  /** A character that stands for itself, or a conversion: an optional flag and width, any number of `l`s, and a
      letter. */
  datatype Piece = Raw(c: char) | Conv(f: Flag, w: nat, longs: nat, letter: char, arg: Arg) {
    function Spelling(): string {
      match this
      case Raw(c) => [c]
      case Conv(f, w, longs, letter, _) => "%" + Width(f, w) + seq(longs, _ => 'l') + [letter]
    }

    /** Letters that take an argument take one of their type; others are neither flags nor modifiers. */
    predicate Legal() {
      match this
      case Raw(c) => c != '%'
      case Conv(f, w, _, letter, a) =>
        && w < INT && (w == 0 ==> f.Plain?)
        && !IsDigit(letter) && letter != '-' && letter != 'l' && letter != '\0'
        && (letter == 'd' ==> a.Num? && -LONG < a.n < LONG)
        && (letter == 'x' || letter == 'p' ==> a.Num? && 0 <= a.n < 2 * LONG)
        && (letter == 's' ==> a.Str? && CString(a.s))
        && (letter == 'c' ==> a.Chr?)
    }

    function Args(): seq<Arg> {
      if Conv? && (letter == 'd' || letter == 'x' || letter == 'p' || letter == 's' || letter == 'c') then [arg] else []
    }

    /** The text that it stands for. `p` justifies its two parts one by one; `c` and characters that are no
        conversion, `%` too, stand for one character whatever the field. */
    function Meaning(): string
      requires Legal()
    {
      match this
      case Raw(c) => [c]
      case Conv(f, w, _, letter, a) =>
        if letter == 'd' then Justified(f, w, NumberText(a.n, 10))
        else if letter == 'x' then Justified(f, w, NumberText(a.n, 16))
        else if letter == 'p' then Justified(f, w, "0x") + Justified(f, w, NumberText(a.n, 16))
        else if letter == 's' then Justified(f, w, a.s)
        else if letter == 'c' then [a.c]
        else [letter]
    }
  }

  /** A text in a field: to the right after blanks or zeros, or to the left before blanks. */
  function Justified(f: Flag, w: nat, s: string): string {
    if |s| >= w then s
    else
      match f
      case Plain => seq(w - |s|, _ => ' ') + s
      case Zero => seq(w - |s|, _ => '0') + s
      case Left => s + seq(w - |s|, _ => ' ')
  }

  lemma RepeatSeq(c: char, n: nat)
    ensures Repeat(c, n) == seq(n, _ => c)
  {
    RepeatIs(c, n);
  }

  lemma PaddedJustified(f: Flag, w: nat, s: string)
    requires w < INT
    ensures Padded(s, IntProps(f, w)) == Justified(f, w, s)
  {
    if w > |s| {
      RepeatSeq('0', w - |s|);
      RepeatSeq(' ', w - |s|);
    }
  }

  function DirectiveOf(p: Piece): Directive {
    match p
    case Raw(c) => Literal(c)
    case Conv(f, w, _, letter, _) =>
      var q := IntProps(f, w);
      if letter == 'd' then Decimal(q)
      else if letter == 'x' then Hex(q)
      else if letter == 'p' then Pointer(q)
      else if letter == 's' then Text(q)
      else if letter == 'c' then Character
      else Literal(letter)
  }

  lemma {:induction false} LongsSkipped(fmt: string, i: nat, n: nat, q: Props)
    requires i + n <= |fmt| && forall j | i <= j < i + n :: fmt[j] == 'l'
    ensures Conversion(fmt, i, q) == Conversion(fmt, i + n, q)
    ensures WidthsFit(fmt, i + n) ==> WidthsFit(fmt, i)
    decreases n
  {
    hide FmtLen, Denotes, ToInt;
    if n > 0 {
      LongsSkipped(fmt, i + 1, n - 1, q);
    }
  }

  /** Where the parts of a conversion are. */
  lemma ConversionParts(fmt: string, width: string, longs: nat, letter: char, rest: string)
    requires fmt == "%" + width + seq(longs, _ => 'l') + [letter] + rest
    ensures var post, e := seq(longs, _ => 'l') + [letter] + rest, 1 + |width|;
            && e + longs < |fmt| && fmt[0] == '%' && fmt[1..] == width + post && fmt[e..] == post
            && (forall j | e <= j < e + longs :: fmt[j] == 'l') && fmt[e + longs] == letter
            && post[0] == if longs > 0 then 'l' else letter
  {
  }

  /** A piece in front of any format is read as its directive. */
  lemma PieceRead(p: Piece, rest: string)
    requires p.Legal()
    ensures DirectiveAt(p.Spelling() + rest, 0) == (DirectiveOf(p), |p.Spelling()|)
    ensures p.Conv? ==> WidthsFit(p.Spelling() + rest, 1)
  {
    hide Conversion, WidthsFit, DirectiveOf, Width, IntProps, IsDigit;
    var fmt := p.Spelling() + rest;
    match p
    case Raw(_) => RawDirective(p);
    case Conv(f, w, longs, letter, _) =>
      ConversionParts(fmt, Width(f, w), longs, letter, rest);
      ConversionRead(fmt, p, rest);
  }

  lemma RawDirective(p: Piece)
    requires p.Raw?
    ensures DirectiveOf(p) == Literal(p.c)
  {
  }

  lemma ConversionRead(fmt: string, p: Piece, rest: string)
    requires p.Conv? && p.Legal()
    requires var post, e := seq(p.longs, _ => 'l') + [p.letter] + rest, 1 + |Width(p.f, p.w)|;
             && e + p.longs < |fmt| && fmt[1..] == Width(p.f, p.w) + post && fmt[e..] == post
             && (forall j | e <= j < e + p.longs :: fmt[j] == 'l') && fmt[e + p.longs] == p.letter
             && post[0] == if p.longs > 0 then 'l' else p.letter
    ensures Conversion(fmt, 1, Props(' ', 0)) == (DirectiveOf(p), 1 + |Width(p.f, p.w)| + p.longs + 1)
    ensures WidthsFit(fmt, 1)
  {
    hide Conversion, WidthsFit, DirectiveOf, Width, IntProps, IsDigit;
    var e := 1 + |Width(p.f, p.w)|;
    LetterL();
    LetterRead(fmt, e + p.longs, p);
    LongsSkipped(fmt, e, p.longs, IntProps(p.f, p.w));
    if p.w > 0 {
      FieldRead(fmt, 1, p.f, p.w, fmt[e..]);
    } else {
      NoWidth();
    }
  }

  lemma NoWidth()
    ensures Width(Plain, 0) == "" && IntProps(Plain, 0) == Props(' ', 0)
  {
  }

  lemma LetterL()
    ensures !IsDigit('l')
  {
  }

  lemma LetterRead(fmt: string, i: nat, p: Piece)
    requires p.Conv? && p.Legal() && i < |fmt| && fmt[i] == p.letter
    ensures Conversion(fmt, i, IntProps(p.f, p.w)) == (DirectiveOf(p), i + 1) && WidthsFit(fmt, i)
  {
    hide IntProps, FmtLen, Denotes;
  }

  lemma PieceMeans(p: Piece)
    requires p.Legal()
    ensures TakesArg(DirectiveOf(p)) <==> |p.Args()| == 1
    ensures var a := if p.Args() == [] then Num(0) else p.Args()[0];
            Fits(DirectiveOf(p), a) && Rendered(DirectiveOf(p), a) == p.Meaning()
  {
    hide Padded, IntProps, Justified, NumberText, ToInt;
    match p
    case Raw(_) =>
    case Conv(f, w, _, letter, a) =>
      if letter == 's' {
        PaddedJustified(f, w, a.s);
      } else if letter == 'd' {
        PaddedJustified(f, w, NumberText(a.n, 10));
      } else if letter == 'x' || letter == 'p' {
        PaddedJustified(f, w, NumberText(a.n, 16));
        PaddedJustified(f, w, "0x");
      }
  }

  function Spellings(ps: seq<Piece>): string {
    if ps == [] then "" else ps[0].Spelling() + Spellings(ps[1..])
  }

  function AllArgs(ps: seq<Piece>): seq<Arg> {
    if ps == [] then [] else ps[0].Args() + AllArgs(ps[1..])
  }

  predicate AllLegal(ps: seq<Piece>) {
    forall k | 0 <= k < |ps| :: ps[k].Legal()
  }

  function Meanings(ps: seq<Piece>): string
    requires AllLegal(ps)
  {
    if ps == [] then "" else ps[0].Meaning() + Meanings(ps[1..])
  }

  /** Whatever pieces a format is spelled from, in front of any other format, its output is the meanings of the
      pieces, one after another, and then the other format's. */
  lemma {:induction false} FormatMeans(ps: seq<Piece>, rest: string, args: seq<Arg>)
    requires AllLegal(ps) && WellTyped(rest, 0, args)
    ensures WellTyped(Spellings(ps) + rest, 0, AllArgs(ps) + args)
    ensures Formatted(Spellings(ps) + rest, 0, AllArgs(ps) + args) == Meanings(ps) + Formatted(rest, 0, args)
  {
    hide WellTyped, Formatted, DirectiveAt, Rendered, Fits, WidthsFit, DirectiveOf, Piece.Meaning, Piece.Spelling,
         Piece.Legal;
    if ps == [] {
      assert "" + rest == rest && [] + args == args && "" + Formatted(rest, 0, args) == Formatted(rest, 0, args);
    } else {
      var p, more := ps[0], Spellings(ps[1..]) + rest;
      var left := AllArgs(ps[1..]) + args;
      FormatMeans(ps[1..], rest, args);
      PieceThen(p, more, left);
      Assoc(p.Spelling(), Spellings(ps[1..]), rest);
      Assoc(p.Args(), AllArgs(ps[1..]), args);
      Assoc(p.Meaning(), Meanings(ps[1..]), Formatted(rest, 0, args));
    }
  }

  lemma Assoc<T>(a: seq<T>, b: seq<T>, c: seq<T>)
    ensures (a + b) + c == a + (b + c)
  {
  }

  lemma PieceThen(p: Piece, rest: string, args: seq<Arg>)
    requires p.Legal() && WellTyped(rest, 0, args)
    ensures var fmt := p.Spelling() + rest;
            && WellTyped(fmt, 0, p.Args() + args)
            && Formatted(fmt, 0, p.Args() + args) == p.Meaning() + Formatted(rest, 0, args)
  {
    hide DirectiveAt, Rendered, Fits, WidthsFit, DirectiveOf, Piece.Meaning, Piece.Legal;
    var fmt := p.Spelling() + rest;
    PieceRead(p, rest);
    PieceMeans(p);
    PercentFirst(p, rest);
    ShiftFormat(p.Spelling(), rest, 0, args);
    if p.Args() == [] {
      assert [] + args == args;
    } else {
      assert (p.Args() + args)[1..] == args;
    }
  }

  lemma PercentFirst(p: Piece, rest: string)
    requires p.Legal()
    ensures (p.Spelling() + rest)[0] == '%' <==> p.Conv?
  {
  }

  // ---------- a format behind another ----------

  lemma {:induction false} ShiftDigits(f: string, g: string, i: nat)
    requires i <= |g|
    ensures DigitsEnd(f + g, |f| + i) == |f| + DigitsEnd(g, i)
    decreases |g| - i
  {
    if i < |g| && IsDigit(g[i]) {
      ShiftDigits(f, g, i + 1);
    }
  }

  lemma ShiftLength(f: string, g: string, i: nat)
    requires i <= |g|
    ensures FmtLen(f + g, |f| + i) == FmtLen(g, i)
    ensures (f + g)[|f| + i..] == g[i..]
  {
    hide DigitsEnd;
    ShiftDigits(f, g, i);
    if At(g, i) == '-' {
      ShiftDigits(f, g, i + 1);
    }
  }

  lemma {:induction false} ShiftConversion(f: string, g: string, i: nat, p: Props)
    requires i <= |g|
    ensures var r := Conversion(g, i, p); Conversion(f + g, |f| + i, p) == (r.0, |f| + r.1)
    ensures WidthsFit(f + g, |f| + i) <==> WidthsFit(g, i)
    decreases |g| - i
  {
    hide FmtLen, Denotes, ToInt, IsDigit;
    if i < |g| {
      var c := g[i];
      ShiftLength(f, g, i);
      ShiftLength(f, g, i + 1);
      if c == '0' {
        ShiftConversion(f, g, i + 1 + FmtLen(g, i + 1), Props('0', ToInt(Denotes(g[i + 1..]))));
      } else if IsDigit(c) || c == '-' {
        ShiftConversion(f, g, i + FmtLen(g, i), Props(p.pad, ToInt(Denotes(g[i..]))));
      } else if c == 'l' {
        ShiftConversion(f, g, i + 1, p);
      }
    }
  }

  /** A format means the same behind another. */
  lemma {:induction false} ShiftFormat(f: string, g: string, i: nat, args: seq<Arg>)
    requires i <= |g|
    ensures WellTyped(f + g, |f| + i, args) <==> WellTyped(g, i, args)
    ensures WellTyped(g, i, args) ==> Formatted(f + g, |f| + i, args) == Formatted(g, i, args)
    decreases |g| - i
  {
    hide Conversion, Rendered, Fits, WidthsFit;
    if i < |g| {
      ShiftConversion(f, g, i + 1, Props(' ', 0));
      var (d, j) := DirectiveAt(g, i);
      if TakesArg(d) {
        if args != [] {
          ShiftFormat(f, g, j, args[1..]);
        }
      } else {
        ShiftFormat(f, g, j, args);
      }
    }
  }

  // ---------- any two formats ----------

  /** No conversion is cut off by the end of the format. */
  predicate Complete(fmt: string, i: nat)
    requires i <= |fmt|
    decreases |fmt| - i
  {
    i == |fmt| ||
    var (d, j) := DirectiveAt(fmt, i);
    !d.Nothing? && Complete(fmt, j)
  }

  /** How many arguments the format takes. */
  function Taken(fmt: string, i: nat): nat
    requires i <= |fmt|
    decreases |fmt| - i
  {
    if i == |fmt| then 0
    else
      var (d, j) := DirectiveAt(fmt, i);
      (if TakesArg(d) then 1 else 0) + Taken(fmt, j)
  }

  lemma {:induction false} DigitsKept(f: string, g: string, i: nat)
    requires i <= |f| && DigitsEnd(f, i) < |f|
    ensures DigitsEnd(f + g, i) == DigitsEnd(f, i)
    decreases |f| - i
  {
    if IsDigit(f[i]) {
      DigitsKept(f, g, i + 1);
    }
  }

  predicate Skipped(c: char) {
    c == ' ' || c == '\t' || c == '+'
  }

  /** A number that ends inside the format is read alike with another format behind. */
  lemma NumberKept(f: string, g: string, i: nat)
    requires i < |f| && !Skipped(f[i]) && i + FmtLen(f, i) < |f|
    ensures FmtLen(f + g, i) == FmtLen(f, i) && Denotes((f + g)[i..]) == Denotes(f[i..])
  {
    hide DigitsEnd, Value;
    var t := f[i..];
    var d := if f[i] == '-' then 1 else 0;
    DigitsKept(f, g, i + d);
    assert f[..i] + t == f && (f + g)[i..] == t + g;
    ShiftDigits(f[..i], t, d);
    DigitsKept(t, g, d);
    var e := DigitsEnd(t, d);
    assert t[d..e] == (t + g)[d..e];
  }

  /** A conversion that ends inside the format is read alike with another format behind. What fmtnum takes from
      behind blanks after a zero flag does not matter: the blank itself is the conversion. */
  lemma {:induction false} ConversionKept(f: string, g: string, i: nat, p: Props)
    requires i <= |f| && !Conversion(f, i, p).0.Nothing?
    ensures Conversion(f + g, i, p) == Conversion(f, i, p)
    decreases |f| - i
  {
    hide FmtLen, Denotes, ToInt;
    var c := f[i];
    if c == '0' {
      ZeroFlagKept(f, g, i, p);
    } else if IsDigit(c) || c == '-' {
      var j := i + FmtLen(f, i);
      NotSkipped(c);
      CutOff(f, j, Props(p.pad, ToInt(Denotes(f[i..]))));
      NumberKept(f, g, i);
      ConversionKept(f, g, j, Props(p.pad, ToInt(Denotes(f[i..]))));
    } else if c == 'l' {
      ConversionKept(f, g, i + 1, p);
    }
  }

  lemma ZeroFlagKept(f: string, g: string, i: nat, p: Props)
    requires i < |f| && f[i] == '0' && !Conversion(f, i, p).0.Nothing?
    ensures Conversion(f + g, i, p) == Conversion(f, i, p)
    decreases |f| - i, 0
  {
    hide FmtLen, Denotes, ToInt;
    var j := i + 1 + FmtLen(f, i + 1);
    var q := Props('0', ToInt(Denotes(f[i + 1..])));
    CutOff(f, j, q);
    if i + 1 < |f| && Skipped(f[i + 1]) {
      SkippedLength(f, i + 1);
      SkippedLength(f + g, i + 1);
    } else {
      NumberKept(f, g, i + 1);
      ConversionKept(f, g, j, q);
    }
  }

  lemma CutOff(f: string, j: nat, q: Props)
    requires j <= |f| && !Conversion(f, j, q).0.Nothing?
    ensures j < |f|
  {
  }

  lemma NotSkipped(c: char)
    ensures IsDigit(c) || c == '-' ==> !Skipped(c)
    ensures Skipped(c) ==> !IsDigit(c) && c != '-' && c != 'l'
  {
  }

  lemma SkippedLength(f: string, i: nat)
    requires i < |f| && Skipped(f[i])
    ensures FmtLen(f, i) == 0
  {
  }

  /** The output of one format after another is one output after the other, if the first is complete. */
  lemma {:induction false} Concatenation(f: string, g: string, i: nat, a: seq<Arg>, b: seq<Arg>)
    requires i <= |f| && Complete(f, i) && |a| == Taken(f, i)
    requires WellTyped(f, i, a) && WellTyped(g, 0, b) && WellTyped(f + g, i, a + b)
    ensures Formatted(f + g, i, a + b) == Formatted(f, i, a) + Formatted(g, 0, b)
    decreases |f| - i
  {
    hide Conversion, Rendered, Fits, WidthsFit;
    if i == |f| {
      ShiftFormat(f, g, 0, b);
      assert a + b == b;
    } else {
      var (d, j) := DirectiveAt(f, i);
      if f[i] == '%' {
        ConversionKept(f, g, i + 1, Props(' ', 0));
      }
      assert DirectiveAt(f + g, i) == (d, j);
      if TakesArg(d) {
        assert (a + b)[1..] == a[1..] + b;
        Concatenation(f, g, j, a[1..], b);
        Assoc(Rendered(d, a[0]), Formatted(f, j, a[1..]), Formatted(g, 0, b));
      } else {
        Concatenation(f, g, j, a, b);
        FormatStep(f, i, a);
        Assoc(Rendered(d, Num(0)), Formatted(f, j, a), Formatted(g, 0, b));
      }
    }
  }

  /** A format without '%' comes out as itself. */
  lemma {:induction false} NoConversions(fmt: string, i: nat)
    requires i <= |fmt| && forall j | i <= j < |fmt| :: fmt[j] != '%'
    ensures WellTyped(fmt, i, []) && Formatted(fmt, i, []) == fmt[i..]
    decreases |fmt| - i
  {
    if i < |fmt| {
      NoConversions(fmt, i + 1);
      assert fmt[i..] == [fmt[i]] + fmt[i + 1..];
    }
  }

  /** A '%' at the end prints nothing. */
  lemma LastPercent()
    ensures WellTyped("%", 0, []) && Formatted("%", 0, []) == ""
  {
    assert Conversion("%", 1, Props(' ', 0)) == (Nothing, 1);
    assert Rendered(Nothing, Num(0)) == "";
    assert Formatted("%", 1, []) == "";
  }
}
