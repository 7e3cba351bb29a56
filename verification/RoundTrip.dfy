/** Numbers printed by the formatter and parsed back by atol. */
module RoundTrip {
  import opened Strings
  import opened Printf

  lemma {:induction false} BlanksAt(s: string, k: nat, i: nat)
    requires i <= k <= |s| && (forall j | i <= j < k :: s[j] == ' ' || s[j] == '\t')
    requires k < |s| ==> s[k] != ' ' && s[k] != '\t'
    ensures Blanks(s, i) == k
    decreases k - i
  {
    if i < k {
      BlanksAt(s, k, i + 1);
    }
  }

  lemma {:induction false} DigitsEndAt(s: string, d: nat, e: nat)
    requires d <= e <= |s| && (forall j | d <= j < e :: IsDigit(s[j]))
    requires e < |s| ==> !IsDigit(s[e])
    ensures DigitsEnd(s, d) == e
    decreases e - d
  {
    if d < e {
      DigitsEndAt(s, d + 1, e);
    }
  }

  lemma {:induction false} RepeatIs(c: char, n: nat)
    ensures |Repeat(c, n)| == n && forall j | 0 <= j < n :: Repeat(c, n)[j] == c
  {
    if n > 0 {
      RepeatIs(c, n - 1);
    }
  }

  /** The digits of a number denote it. */
  lemma {:induction false} DigitsDenote(n: nat)
    ensures Value(DigitsOf(n, 10)) == n
    ensures forall j | 0 <= j < |DigitsOf(n, 10)| :: IsDigit(DigitsOf(n, 10)[j])
    ensures n > 0 ==> DigitsOf(n, 10) != ""
  {
    hide DigitsOf, Value, IsDigit, DIGITS;
    DigitsStep(n, 10);
    if n == 0 {
      ValueOfNone();
    } else {
      DigitsDenote(n / 10);
      DigitIs(n % 10);
      ValueOfMore(DigitsOf(n / 10, 10), DIGITS[n % 10]);
    }
  }

  lemma ValueOfNone()
    ensures Value("") == 0
  {
  }

  lemma ValueOfMore(q: string, c: char)
    ensures Value(q + [c]) == 10 * Value(q) + DigitOf(c)
  {
    assert (q + [c])[..|q|] == q;
  }

  lemma DigitIs(d: nat)
    requires d < 10
    ensures |DIGITS| == 16 && IsDigit(DIGITS[d]) && DigitOf(DIGITS[d]) == d
  {
    assert DIGITS[d] == ['0', '1', '2', '3', '4', '5', '6', '7', '8', '9'][d];
  }

  lemma {:induction false} LeadingZeros(k: nat, t: string)
    ensures Value(Repeat('0', k) + t) == Value(t)
  {
    if t == "" {
      assert Repeat('0', k) + t == Repeat('0', k);
      if k > 0 {
        LeadingZeros(k - 1, "");
        RepeatAppend('0', k - 1);
        assert Repeat('0', k - 1) + "" == Repeat('0', k - 1);
        assert (Repeat('0', k - 1) + ['0'])[..k - 1] == Repeat('0', k - 1) by { RepeatIs('0', k - 1); }
        RepeatIs('0', k - 1);
      }
    } else {
      var u := t[..|t| - 1];
      LeadingZeros(k, u);
      RepeatIs('0', k);
      assert (Repeat('0', k) + t)[..k + |t| - 1] == Repeat('0', k) + u;
    }
  }

  /** Where the blanks, the sign and the digits of a text are. */
  predicate Reads(s: string, b: nat, sign: string, e: nat) {
    var d := b + |sign|;
    && d <= e <= |s|
    && (forall j | 0 <= j < b :: s[j] == ' ' || s[j] == '\t')
    && (sign == "" || (|sign| == 1 && (sign[0] == '-' || sign[0] == '+') && s[b] == sign[0]))
    && (forall j | d <= j < e :: IsDigit(s[j]))
    && (e < |s| ==> !IsDigit(s[e]))
    && (sign == "" && b < |s| ==> s[b] != ' ' && s[b] != '\t' && s[b] != '-' && s[b] != '+')
  }

  lemma DenotesRead(s: string, b: nat, sign: string, e: nat)
    requires Reads(s, b, sign, e)
    ensures Denotes(s) == if sign == "-" then -Value(s[b + |sign|..e]) else Value(s[b + |sign|..e])
  {
    hide Value, Blanks, DigitsEnd;
    BlanksAt(s, b, 0);
    DigitsEndAt(s, b + |sign|, e);
  }

  predicate Sign(sign: string) {
    sign == "" || sign == "-" || sign == "+"
  }

  predicate AllBlank(s: string) {
    forall j | 0 <= j < |s| :: s[j] == ' ' || s[j] == '\t'
  }

  predicate AllDigits(s: string) {
    forall j | 0 <= j < |s| :: IsDigit(s[j])
  }

  /** What can follow the blanks, the sign and the digits: no digit, and nothing that would be read with them. */
  predicate Ends(sign: string, ds: string, post: string) {
    post != "" ==>
      && !IsDigit(post[0])
      && (sign == "" && ds == "" ==> post[0] != ' ' && post[0] != '\t' && post[0] != '-' && post[0] != '+')
  }

  /** A text of blanks and tabs, an optional sign, digits or none, and anything else after them. */
  lemma DenotesParts(blanks: string, sign: string, ds: string, post: string)
    requires AllBlank(blanks) && Sign(sign) && AllDigits(ds) && Ends(sign, ds, post)
    ensures Denotes(blanks + sign + ds + post) == if sign == "-" then -Value(ds) else Value(ds)
  {
    hide Value, Denotes;
    var s := blanks + sign + ds + post;
    var b, d := |blanks|, |blanks| + |sign|;
    forall j | 0 <= j < b
      ensures s[j] == blanks[j]
    {
    }
    forall j | d <= j < d + |ds|
      ensures s[j] == ds[j - d]
    {
    }
    assert s[d..d + |ds|] == ds;
    assert d + |ds| < |s| ==> s[d + |ds|] == post[0];
    assert sign != "" ==> s[b] == sign[0];
    assert sign == "" && b < |s| ==> s[b] == if ds == "" then post[0] else ds[0];
    DenotesRead(s, b, sign, d + |ds|);
  }

  /** Digits without sign or blanks before them. */
  lemma DenotesDigits(ds: string, post: string)
    requires ds != "" && (forall j | 0 <= j < |ds| :: IsDigit(ds[j]))
    requires post != "" ==> !IsDigit(post[0])
    ensures Denotes(ds + post) == Value(ds)
  {
    hide Value, Denotes;
    DenotesParts("", "", ds, post);
    assert "" + "" + ds + post == ds + post;
  }

  /** The text of a number, without its sign. */
  function Magnitude(n: int): string {
    if n == 0 then "0" else DigitsOf(Abs(n), 10)
  }

  lemma MagnitudeDenotes(n: int)
    ensures Magnitude(n) != "" && forall j | 0 <= j < |Magnitude(n)| :: IsDigit(Magnitude(n)[j])
    ensures Value(Magnitude(n)) == Abs(n)
    ensures NumberText(n, 10) == (if n < 0 then "-" else "") + Magnitude(n)
  {
    DigitsDenote(Abs(n));
    assert Value("0") == 10 * Value("") + DigitOf('0');
  }

  /** Printing a number in decimal with blank padding, on either side and of any width, and parsing the
      result gives the number back. With zero padding it does so if and only if the number is not
      negative or the padding does not come before it. */
  lemma PrintParse(n: int, p: Props)
    requires p.pad == ' ' || p.pad == '0'
    ensures Denotes(Padded(NumberText(n, 10), p)) == n
            <==> p.pad == ' ' || n >= 0 || p.npad <= |NumberText(n, 10)|
  {
    hide Denotes, NumberText, DigitsOf, Value, Repeat, Magnitude, IsDigit;
    var t, m := NumberText(n, 10), Magnitude(n);
    var sign := if n < 0 then "-" else "";
    MagnitudeDenotes(n);
    if p.npad > |t| && p.pad == '0' {
      var z := Repeat('0', p.npad - |t|);
      RepeatIs('0', p.npad - |t|);
      ZeroIsDigit();
      if n >= 0 {
        LeadingZeros(p.npad - |t|, m);
        assert z + t == (z + m) + "";
        DenotesDigits(z + m, "");
      } else {
        ZerosAreZero(p.npad - |t|);
        BlankNoDigit();
        assert z + t == z + (sign + m);
        DenotesDigits(z, sign + m);
      }
    } else if p.npad > |t| {
      RepeatIs(' ', p.npad - |t|);
      DenotesParts(Repeat(' ', p.npad - |t|), sign, m, "");
      assert Padded(t, p) == Repeat(' ', p.npad - |t|) + sign + m + "";
    } else if -p.npad > |t| {
      var b := Repeat(' ', -p.npad - |t|);
      RepeatIs(' ', -p.npad - |t|);
      BlankNoDigit();
      DenotesParts("", sign, m, b);
      assert Padded(t, p) == "" + sign + m + b;
    } else {
      DenotesParts("", sign, m, "");
      assert Padded(t, p) == "" + sign + m + "";
    }
  }

  lemma ZeroIsDigit()
    ensures IsDigit('0')
  {
  }

  lemma BlankNoDigit()
    ensures !IsDigit(' ') && !IsDigit('-')
  {
  }

  lemma ZerosAreZero(k: nat)
    ensures Value(Repeat('0', k)) == 0
  {
    LeadingZeros(k, "");
    assert Repeat('0', k) + "" == Repeat('0', k);
  }

  /** A padded field is as wide as its text or its width, whichever is more. */
  lemma FieldWidth(s: string, p: Props)
    ensures |Padded(s, p)| == if Abs(p.npad) > |s| then Abs(p.npad) else |s|
  {
    if p.npad > |s| {
      RepeatIs(p.pad, p.npad - |s|);
    } else if -p.npad > |s| {
      RepeatIs(' ', -p.npad - |s|);
    }
  }

  // ---------- widths in formats ----------

  datatype Flag = Plain | Zero | Left

  /** `%5d`, `%05d`, `%-5d`: the width itself is decimal text. */
  function Field(f: Flag, w: nat): string {
    "%" + Width(f, w) + "d"
  }

  function Width(f: Flag, w: nat): string {
    (if f == Zero then "0" else if f == Left then "-" else "") + DigitsOf(w, 10)
  }

  /** The field that a width asks for. */
  function FieldProps(f: Flag, w: nat): Props {
    Props(if f == Zero then '0' else ' ', if f == Left then -(w as int) else w)
  }

  /** The field that it gets: the width is kept in an int. */
  function IntProps(f: Flag, w: nat): Props {
    var p := FieldProps(f, w);
    p.(npad := ToInt(p.npad))
  }

  lemma {:induction false} NoLeadingZero(n: nat)
    requires n > 0
    ensures DigitsOf(n, 10) != "" && DigitsOf(n, 10)[0] != '0'
  {
    if n < 10 {
      assert DigitsOf(0, 10) == "";
      assert DIGITS[n] == ['0', '1', '2', '3', '4', '5', '6', '7', '8', '9'][n];
    } else {
      NoLeadingZero(n / 10);
    }
  }

  predicate DigitRun(s: string, d: nat, e: nat) {
    e <= |s| && forall j | d <= j < e :: IsDigit(s[j])
  }

  lemma LengthRead(fmt: string, i: nat, neg: bool, e: nat)
    requires var d := if neg then i + 1 else i; d < e < |fmt| && DigitRun(fmt, d, e)
    requires (fmt[i] == '-' <==> neg) && !IsDigit(fmt[e])
    ensures FmtLen(fmt, i) == e - i
  {
    hide DigitsEnd, IsDigit;
    DigitsEndAt(fmt, if neg then i + 1 else i, e);
  }

  /** Where the digits are. */
  lemma DigitsAt(fmt: string, i: nat, sign: string, ds: string, post: string)
    requires i <= |fmt| && fmt[i..] == sign + ds + post && AllDigits(ds) && post != ""
    ensures var d := i + |sign|;
            && d + |ds| < |fmt| && fmt[d + |ds|] == post[0] && fmt[d + |ds|..] == post
            && DigitRun(fmt, d, d + |ds|)
            && (sign != "" ==> fmt[i] == sign[0])
            && (sign == "" && ds != "" ==> fmt[i] == ds[0])
  {
    hide IsDigit;
    var rest, d := fmt[i..], i + |sign|;
    forall j | i <= j < |fmt|
      ensures fmt[j] == rest[j - i]
    {
    }
    forall j | d <= j < d + |ds|
      ensures IsDigit(fmt[j])
    {
      assert fmt[j] == ds[j - d];
    }
    assert fmt[d + |ds|..] == rest[|sign| + |ds|..];
  }

  /** The number that fmtnum finds: an optional minus sign and digits, in front of what is no digit. */
  lemma WidthRead(fmt: string, i: nat, neg: bool, ds: string, post: string)
    requires i <= |fmt| && fmt[i..] == (if neg then "-" else "") + ds + post
    requires ds != "" && AllDigits(ds) && post != "" && !IsDigit(post[0])
    ensures var len := |ds| + if neg then 1 else 0;
            FmtLen(fmt, i) == len && i + len < |fmt| && fmt[i + len..] == post
    ensures Denotes(fmt[i..]) == if neg then -Value(ds) else Value(ds)
  {
    var sign := if neg then "-" else "";
    SignedDigits(sign, ds, post);
    WidthLength(fmt, i, sign, ds, post);
  }

  lemma WidthLength(fmt: string, i: nat, sign: string, ds: string, post: string)
    requires i <= |fmt| && fmt[i..] == sign + ds + post && (sign == "" || sign == "-")
    requires ds != "" && AllDigits(ds) && post != "" && !IsDigit(post[0])
    ensures var e := i + |sign| + |ds|; FmtLen(fmt, i) == e - i && e < |fmt| && fmt[e..] == post
  {
    hide FmtLen, IsDigit, DigitRun;
    BlankNoDigit();
    DigitsNoSign(ds);
    DigitsAt(fmt, i, sign, ds, post);
    LengthRead(fmt, i, sign == "-", i + |sign| + |ds|);
  }

  lemma DigitsNoSign(ds: string)
    requires ds != "" && AllDigits(ds)
    ensures ds[0] != '-'
  {
  }

  lemma SignedDigits(sign: string, ds: string, post: string)
    requires Sign(sign) && ds != "" && AllDigits(ds) && (post != "" ==> !IsDigit(post[0]))
    ensures Denotes(sign + ds + post) == if sign == "-" then -Value(ds) else Value(ds)
  {
    hide Value, Denotes, IsDigit;
    DenotesParts("", sign, ds, post);
    assert "" + sign + ds + post == sign + ds + post;
  }

  /** A field's flag and width, in front of anything but a digit, become properties of the conversion. */
  lemma FieldRead(fmt: string, i: nat, f: Flag, w: nat, post: string)
    requires 0 < w < LONG && i <= |fmt| && fmt[i..] == Width(f, w) + post && post != "" && !IsDigit(post[0])
    ensures var e := i + |Width(f, w)|;
            && e < |fmt| && fmt[e..] == post
            && Conversion(fmt, i, Props(' ', 0)) == Conversion(fmt, e, IntProps(f, w))
            && (WidthsFit(fmt, e) ==> WidthsFit(fmt, i))
  {
    hide Value, Denotes, DigitsOf, FmtLen, ToInt;
    var ds := DigitsOf(w, 10);
    DigitsDenote(w);
    NoLeadingZero(w);
    var j := if f == Zero then i + 1 else i;
    assert fmt[i] == fmt[i..][0] == if f == Zero then '0' else if f == Left then '-' else ds[0];
    assert fmt[j..] == (if f == Left then "-" else "") + ds + post by {
      if f == Zero {
        assert fmt[j..] == fmt[i..][1..];
      }
    }
    WidthRead(fmt, j, f == Left, ds, post);
  }

  lemma FieldDirective(f: Flag, w: nat)
    requires 0 < w < LONG
    ensures DirectiveAt(Field(f, w), 0) == (Decimal(IntProps(f, w)), |Field(f, w)|)
    ensures WidthsFit(Field(f, w), 1)
  {
    hide Value, Denotes, DigitsOf, FmtLen, ToInt, Width, IntProps;
    var fmt := Field(f, w);
    assert fmt[1..] == Width(f, w) + "d";
    FieldRead(fmt, 1, f, w, "d");
    var p, e := IntProps(f, w), 1 + |Width(f, w)|;
    assert fmt[e] == fmt[e..][0] == 'd';
    assert Conversion(fmt, e, p) == (Decimal(p), |fmt|) && WidthsFit(fmt, e);
  }

  /** A format that is one field prints the number in the field that the width, as an int, stands for. */
  lemma FormatField(f: Flag, w: nat, n: int)
    requires 0 < w < LONG && -LONG < n < LONG
    ensures WellTyped(Field(f, w), 0, [Num(n)])
    ensures Formatted(Field(f, w), 0, [Num(n)]) == Padded(NumberText(n, 10), IntProps(f, w))
  {
    hide Conversion, Padded, NumberText, DigitsOf, WidthsFit, ToInt;
    var fmt := Field(f, w);
    FieldDirective(f, w);
    assert [Num(n)][1..] == [];
    assert WellTyped(fmt, |fmt|, []);
    FormatStep(fmt, 0, [Num(n)]);
    FormatEnd(fmt, []);
  }

  /** The output is the field asked for if and only if the width is below 2^31, or it is 2^31 itself and
      left-justified, which no int distinguishes from its negative. */
  lemma FieldAsAsked(f: Flag, w: nat, n: int)
    requires 0 < w < LONG && -LONG < n < LONG
    ensures WellTyped(Field(f, w), 0, [Num(n)])
    ensures Formatted(Field(f, w), 0, [Num(n)]) == Padded(NumberText(n, 10), FieldProps(f, w))
            <==> w < INT || (f == Left && w == INT)
  {
    hide Field, NumberText, DigitsOf, Padded, Formatted, WellTyped;
    FormatField(f, w, n);
    var t, p, q := NumberText(n, 10), FieldProps(f, w), IntProps(f, w);
    FieldWidth(t, p);
    FieldWidth(t, q);
    TextShort(n);
    if w == INT && f != Left {
      LastOfField(t, p, q, w);
    }
  }

  /** Decimal text of a long long: at most 20 characters, the last one a digit. */
  lemma TextShort(n: int)
    requires -LONG < n < LONG
    ensures 0 < |NumberText(n, 10)| <= 20 && IsDigit(NumberText(n, 10)[|NumberText(n, 10)| - 1])
  {
    hide DigitsOf, Value;
    NumbersFit(n);
    MagnitudeDenotes(n);
  }

  /** Right- and left-justified in the same width, a text ends in its own last digit or in a blank. */
  lemma LastOfField(t: string, p: Props, q: Props, w: nat)
    requires 0 < |t| < w && IsDigit(t[|t| - 1]) && p.npad == w && q.npad == -(w as int)
    ensures Padded(t, p) != Padded(t, q)
  {
    RepeatIs(p.pad, w - |t|);
    RepeatIs(' ', w - |t|);
    var a, b := Padded(t, p), Padded(t, q);
    assert a[w - 1] == t[|t| - 1] && b[w - 1] == ' ';
  }

  /** Printing through a field and parsing the result gives the number back, if and only if no zeros are
      put before a minus sign. */
  lemma FieldRoundTrip(f: Flag, w: nat, n: int)
    requires 0 < w < LONG && -LONG < n < LONG
    ensures WellTyped(Field(f, w), 0, [Num(n)])
    ensures Denotes(Formatted(Field(f, w), 0, [Num(n)])) == n
            <==> f != Zero || n >= 0 || ToInt(w) <= |NumberText(n, 10)|
  {
    hide Denotes, NumberText, Padded, Formatted, WellTyped, Field, ToInt;
    FormatField(f, w, n);
    PrintParse(n, IntProps(f, w));
  }
}
