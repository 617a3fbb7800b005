/**
 Error messages: the expansion of a format with its arguments stated on strings, and the
 hand-written expander over a C string buffer that grows by blocks.
 */
module ErrMsg {
  import opened ConfigModel
  import opened Writer
  import Probing

  // ---------------------------------------------------------------- arguments and conversions

  /** An argument in the variable list. An integer is read as 64 bits, signed or unsigned as the
      conversion says; a floating-point value is given by its printed text. */
  datatype Arg = Number(value: int) | Float(text: string) | Character(c: char) | Text(s: Option<string>)

  datatype Kind = AsSigned | AsUnsigned | AsFloat | AsCharacter | AsText

  datatype Conversion = Conversion(kind: Kind, length: nat)

  const NULL_POINTER_MESSAGE := "<null pointer>"

  /** The conversion named by the letters after a percent sign. */
  function ConversionOf(t: string): (c: Option<Conversion>)
    ensures c.Some? ==> 1 <= c.value.length <= |t|
  {
    if "d" <= t then Some(Conversion(AsSigned, 1))
    else if "ld" <= t then Some(Conversion(AsSigned, 2))
    else if "lu" <= t then Some(Conversion(AsUnsigned, 2))
    else if "lld" <= t then Some(Conversion(AsSigned, 3))
    else if "llu" <= t then Some(Conversion(AsUnsigned, 3))
    else if "f" <= t then Some(Conversion(AsFloat, 1))
    else if "lf" <= t then Some(Conversion(AsFloat, 2))
    else if "c" <= t then Some(Conversion(AsCharacter, 1))
    else if "s" <= t then Some(Conversion(AsText, 1))
    else None
  }

  function Digits(n: nat): (s: string)
    ensures s != "" && '\0' !in s
  {
    var d := ['0' + (n % 10) as char];
    if n < 10 then d else Digits(n / 10) + d
  }

  function Decimal(n: int): (s: string)
    ensures s != "" && '\0' !in s
  {
    if n < 0 then "-" + Digits(-n) else Digits(n)
  }

  predicate CString(s: string) {
    '\0' !in s
  }

  const TWO64: int := 0x1_0000_0000_0000_0000

  /** The low 64 bits of n, read without and with a sign. */
  function Unsigned64(n: int): (r: nat)
    ensures r < TWO64 && (n - r) % TWO64 == 0 && (0 <= n < TWO64 ==> r == n)
  {
    n % TWO64
  }

  function Signed64(n: int): (r: int)
    ensures -TWO64 / 2 <= r < TWO64 / 2 && (-TWO64 / 2 <= n < TWO64 / 2 ==> r == n)
    ensures Unsigned64(r) == Unsigned64(n)
  {
    if Unsigned64(n) < TWO64 / 2 then Unsigned64(n) else Unsigned64(n) - TWO64
  }

  /** The argument is of the type the conversion takes, and within the limits of the caller. */
  predicate Agrees(kind: Kind, a: Arg) {
    match kind
    case AsSigned => a.Number?
    case AsUnsigned => a.Number?
    case AsFloat => a.Float? && CString(a.text) && |a.text| <= 32
    case AsCharacter => a.Character? && a.c != '\0'
    case AsText => a.Text? && (a.s.Some? ==> CString(a.s.value))
  }

  function ArgText(kind: Kind, a: Arg): (s: string)
    requires Agrees(kind, a)
    ensures CString(s)
  {
    match kind
    case AsSigned => Decimal(Signed64(a.value))
    case AsUnsigned => Decimal(Unsigned64(a.value))
    case AsFloat => a.text
    case AsCharacter => [a.c]
    case AsText => if a.s.Some? then a.s.value else NULL_POINTER_MESSAGE
  }

  // ---------------------------------------------------------------- the expansion

  /** What becomes of one percent sign: the text, the characters of the format it uses up, and
      whether it takes an argument. */
  datatype Directive = Directive(text: string, length: nat, took: nat)

  /** `seen` percent signs came before this one and `taken` arguments have been used. A doubled
      percent sign and an unknown conversion count as seen, although they take nothing. */
  predicate TakesArgument(t: string, args: seq<Arg>, seen: nat) {
    !("%%" <= t) && seen < |args| && t != "" && ConversionOf(t[1..]).Some?
  }

  function DirectiveOf(t: string, args: seq<Arg>, seen: nat, taken: nat): (d: Directive)
    requires "%" <= t && taken <= seen
    requires TakesArgument(t, args, seen) ==> Agrees(ConversionOf(t[1..]).value.kind, args[taken])
    ensures 1 <= d.length <= |t| && d.took <= 1
  {
    if TakesArgument(t, args, seen) then
      var c := ConversionOf(t[1..]).value;
      Directive(ArgText(c.kind, args[taken]), 1 + c.length, 1)
    else
      Directive("%", if "%%" <= t then 2 else 1, 0)
  }

  /** The arguments agree with the conversions that take them. */
  predicate AllAgree(fmt: string, args: seq<Arg>, seen: nat, taken: nat)
    requires taken <= seen
    decreases |fmt|
  {
    if fmt == "" then true
    else if fmt[0] != '%' then AllAgree(fmt[1..], args, seen, taken)
    else
      && (TakesArgument(fmt, args, seen) ==> Agrees(ConversionOf(fmt[1..]).value.kind, args[taken]))
      && var d := DirectiveOf(fmt, args, seen, taken);
      AllAgree(fmt[d.length..], args, seen + 1, taken + d.took)
  }

  /** The message a format stands for. */
  function Expand(fmt: string, args: seq<Arg>, seen: nat, taken: nat): (s: string)
    requires taken <= seen && AllAgree(fmt, args, seen, taken)
    decreases |fmt|
  {
    if fmt == "" then ""
    else if fmt[0] != '%' then [fmt[0]] + Expand(fmt[1..], args, seen, taken)
    else
      var d := DirectiveOf(fmt, args, seen, taken);
      d.text + Expand(fmt[d.length..], args, seen + 1, taken + d.took)
  }

  function Header(className: string, id: int, fileName: string, line: nat): string {
    "Class: " + className + ", Code: " + Decimal(id) + ", File: " + fileName + ", Line: " + Decimal(line) + ", Msg: "
  }

  // ---------------------------------------------------------------- laws of the expansion

  /** Plain text before a percent sign, or before the end, is copied. */
  lemma {:induction false} ExpandPlain(fmt: string, n: nat, args: seq<Arg>, seen: nat, taken: nat)
    requires n <= |fmt| && '%' !in fmt[..n]
    requires taken <= seen && AllAgree(fmt, args, seen, taken)
    ensures AllAgree(fmt[n..], args, seen, taken)
    ensures Expand(fmt, args, seen, taken) == fmt[..n] + Expand(fmt[n..], args, seen, taken)
    decreases n
  {
    if n == 0 {
      assert fmt[0..] == fmt;
      assert fmt[..0] == "";
    } else {
      var tail := fmt[1..];
      PlainSlices(fmt, n);
      ExpandPlain(tail, n - 1, args, seen, taken);
      Extend([fmt[0]], tail[..n - 1], Expand(tail[n - 1..], args, seen, taken));
    }
  }

  lemma PlainSlices(fmt: string, n: nat)
    requires 0 < n <= |fmt| && '%' !in fmt[..n]
    ensures fmt[0] != '%' && '%' !in fmt[1..][..n - 1]
    ensures fmt[1..][n - 1..] == fmt[n..] && fmt[..n] == [fmt[0]] + fmt[1..][..n - 1]
  {
    assert fmt[0] == fmt[..n][0];
    assert fmt[..n][1..] == fmt[1..][..n - 1];
  }

  /** How many arguments the expansion takes. */
  function TakenBy(fmt: string, args: seq<Arg>, seen: nat): nat
    decreases |fmt|
  {
    if fmt == "" then 0
    else if fmt[0] != '%' then TakenBy(fmt[1..], args, seen)
    else if "%%" <= fmt then TakenBy(fmt[2..], args, seen + 1)
    else if TakesArgument(fmt, args, seen) then
      1 + TakenBy(fmt[1 + ConversionOf(fmt[1..]).value.length..], args, seen + 1)
    else TakenBy(fmt[1..], args, seen + 1)
  }

  /** Plain text takes nothing, and a percent sign what its directive says. */
  lemma {:induction false} TakenPlain(fmt: string, n: nat, args: seq<Arg>, seen: nat)
    requires n <= |fmt| && '%' !in fmt[..n]
    ensures TakenBy(fmt, args, seen) == TakenBy(fmt[n..], args, seen)
    decreases n
  {
    hide TakesArgument, ConversionOf;
    if n == 0 {
      assert fmt[0..] == fmt;
    } else {
      PlainSlices(fmt, n);
      TakenPlain(fmt[1..], n - 1, args, seen);
    }
  }

  lemma TakenAtSign(t: string, args: seq<Arg>, seen: nat, taken: nat)
    requires "%" <= t && taken <= seen
    requires TakesArgument(t, args, seen) ==> Agrees(ConversionOf(t[1..]).value.kind, args[taken])
    ensures var d := DirectiveOf(t, args, seen, taken);
            TakenBy(t, args, seen) == d.took + TakenBy(t[d.length..], args, seen + 1)
  {
    hide ConversionOf;
  }

  /** Whatever the mix of doubled percent signs, unknown and known conversions, no more
      arguments are taken than were announced. */
  lemma {:induction false} TakenWithinCount(fmt: string, args: seq<Arg>, seen: nat)
    ensures TakenBy(fmt, args, seen) <= if seen <= |args| then |args| - seen else 0
    decreases |fmt|
  {
    if fmt == "" {
    } else if fmt[0] != '%' {
      TakenWithinCount(fmt[1..], args, seen);
    } else if "%%" <= fmt {
      TakenWithinCount(fmt[2..], args, seen + 1);
    } else if TakesArgument(fmt, args, seen) {
      TakenWithinCount(fmt[1 + ConversionOf(fmt[1..]).value.length..], args, seen + 1);
    } else {
      TakenWithinCount(fmt[1..], args, seen + 1);
    }
  }

  /** What the caller of a printf-like function expects: a conversion takes the next argument
      while there is one, and doubled percent signs and unknown conversions use up nothing. */
  function Expected(fmt: string, args: seq<Arg>, taken: nat): nat
    decreases |fmt|
  {
    if fmt == "" then 0
    else if fmt[0] != '%' then Expected(fmt[1..], args, taken)
    else if "%%" <= fmt then Expected(fmt[2..], args, taken)
    else if taken < |args| && ConversionOf(fmt[1..]).Some? then
      1 + Expected(fmt[1 + ConversionOf(fmt[1..]).value.length..], args, taken + 1)
    else Expected(fmt[1..], args, taken)
  }

  /** Some conversion finds an argument left, but its percent sign is beyond the count. */
  predicate Starved(fmt: string, args: seq<Arg>, seen: nat, taken: nat)
    decreases |fmt|
  {
    if fmt == "" then false
    else if fmt[0] != '%' then Starved(fmt[1..], args, seen, taken)
    else if "%%" <= fmt then Starved(fmt[2..], args, seen + 1, taken)
    else if ConversionOf(fmt[1..]).None? then Starved(fmt[1..], args, seen + 1, taken)
    else if seen < |args| then
      Starved(fmt[1 + ConversionOf(fmt[1..]).value.length..], args, seen + 1, taken + 1)
    else taken < |args|
  }

  /** The expander serves every conversion that should be served exactly when none is starved;
      otherwise it takes fewer arguments than it should. */
  lemma {:induction false} ServedUnlessStarved(fmt: string, args: seq<Arg>, seen: nat, taken: nat)
    requires taken <= seen && taken <= |args|
    ensures !Starved(fmt, args, seen, taken) <==> TakenBy(fmt, args, seen) == Expected(fmt, args, taken)
    ensures TakenBy(fmt, args, seen) <= Expected(fmt, args, taken)
    decreases |fmt|
  {
    if fmt == "" {
    } else if fmt[0] != '%' {
      ServedUnlessStarved(fmt[1..], args, seen, taken);
    } else if "%%" <= fmt {
      ServedUnlessStarved(fmt[2..], args, seen + 1, taken);
    } else if ConversionOf(fmt[1..]).None? {
      ServedUnlessStarved(fmt[1..], args, seen + 1, taken);
    } else if seen < |args| {
      ServedUnlessStarved(fmt[1 + ConversionOf(fmt[1..]).value.length..], args, seen + 1, taken + 1);
    } else {
      TakenWithinCount(fmt[1..], args, seen + 1);
      if taken == |args| {
        NothingExpected(fmt[1..], args, taken);
      }
    }
  }

  lemma {:induction false} NothingExpected(fmt: string, args: seq<Arg>, taken: nat)
    requires taken >= |args|
    ensures Expected(fmt, args, taken) == 0
    decreases |fmt|
  {
    if fmt != "" {
      if "%%" <= fmt {
        NothingExpected(fmt[2..], args, taken);
      } else {
        NothingExpected(fmt[1..], args, taken);
      }
    }
  }

  /** The arguments agree with the conversions of a printf-like function. */
  predicate IdealAgree(fmt: string, args: seq<Arg>, taken: nat)
    decreases |fmt|
  {
    if fmt == "" then true
    else if fmt[0] != '%' then IdealAgree(fmt[1..], args, taken)
    else if "%%" <= fmt then IdealAgree(fmt[2..], args, taken)
    else if taken < |args| && ConversionOf(fmt[1..]).Some? then
      var c := ConversionOf(fmt[1..]).value;
      Agrees(c.kind, args[taken]) && IdealAgree(fmt[1 + c.length..], args, taken + 1)
    else IdealAgree(fmt[1..], args, taken)
  }

  /** The text a printf-like function gives; left-over and unknown conversions stay as they are. */
  function Ideal(fmt: string, args: seq<Arg>, taken: nat): (s: string)
    requires IdealAgree(fmt, args, taken)
    decreases |fmt|
  {
    if fmt == "" then ""
    else if fmt[0] != '%' then [fmt[0]] + Ideal(fmt[1..], args, taken)
    else if "%%" <= fmt then "%" + Ideal(fmt[2..], args, taken)
    else if taken < |args| && ConversionOf(fmt[1..]).Some? then
      var c := ConversionOf(fmt[1..]).value;
      ArgText(c.kind, args[taken]) + Ideal(fmt[1 + c.length..], args, taken + 1)
    else "%" + Ideal(fmt[1..], args, taken)
  }

  /** At a percent sign both forms write the same text and go on from the same place. */
  lemma IdealStep(fmt: string, args: seq<Arg>, seen: nat, taken: nat)
    requires "%" <= fmt && taken <= seen && taken <= |args|
    requires !Starved(fmt, args, seen, taken) && IdealAgree(fmt, args, taken)
    ensures TakesArgument(fmt, args, seen) ==> Agrees(ConversionOf(fmt[1..]).value.kind, args[taken])
    ensures var d := DirectiveOf(fmt, args, seen, taken);
            && taken + d.took <= |args|
            && !Starved(fmt[d.length..], args, seen + 1, taken + d.took)
            && IdealAgree(fmt[d.length..], args, taken + d.took)
            && Ideal(fmt, args, taken) == d.text + Ideal(fmt[d.length..], args, taken + d.took)
  {
    hide ConversionOf;
    if !("%%" <= fmt) && ConversionOf(fmt[1..]).Some? && seen >= |args| {
      NeverStarved(fmt[1..], args, seen + 1, taken);
    }
  }

  /** Unless a conversion is starved the message is what a printf-like function gives. */
  lemma {:induction false} IdealUnlessStarved(fmt: string, args: seq<Arg>, seen: nat, taken: nat)
    requires taken <= seen && taken <= |args| && !Starved(fmt, args, seen, taken)
    requires IdealAgree(fmt, args, taken)
    ensures AllAgree(fmt, args, seen, taken) && Expand(fmt, args, seen, taken) == Ideal(fmt, args, taken)
    decreases |fmt|
  {
    if fmt == "" {
    } else if fmt[0] != '%' {
      hide ConversionOf, TakesArgument, DirectiveOf;
      IdealUnlessStarved(fmt[1..], args, seen, taken);
    } else {
      hide ConversionOf, TakesArgument, Ideal, IdealAgree, Starved;
      IdealStep(fmt, args, seen, taken);
      var d := DirectiveOf(fmt, args, seen, taken);
      IdealUnlessStarved(fmt[d.length..], args, seen + 1, taken + d.took);
    }
  }

  lemma {:induction false} NeverStarved(fmt: string, args: seq<Arg>, seen: nat, taken: nat)
    requires taken >= |args| && seen >= |args|
    ensures !Starved(fmt, args, seen, taken)
    decreases |fmt|
  {
    if fmt == "" {
    } else if "%%" <= fmt {
      NeverStarved(fmt[2..], args, seen + 1, taken);
    } else if fmt[0] == '%' {
      NeverStarved(fmt[1..], args, seen + 1, taken);
    } else {
      NeverStarved(fmt[1..], args, seen, taken);
    }
  }

  /** A doubled percent sign before a conversion uses up the only argument's place. */
  lemma DoubledPercentStarves(a: Arg)
    requires Agrees(AsText, a)
    ensures AllAgree("%%%s", [a], 0, 0) && Expand("%%%s", [a], 0, 0) == "%%s"
    ensures Starved("%%%s", [a], 0, 0)
  {
    var fmt := "%%%s";
    assert "%%" <= fmt && fmt[2..] == "%s";
    assert fmt[2..][1..] == "s";
    assert "%s"[1] == 's' && "%%"[1] == '%';
    assert !("%%" <= "%s");
    assert AllAgree("", [a], 2, 0);
    assert AllAgree("s", [a], 2, 0) && Expand("s", [a], 2, 0) == "s" by {
      assert "s"[1..] == "";
    }
  }

  // ---------------------------------------------------------------- lengths

  function Pow10(k: nat): (r: nat)
    ensures r >= 1
  {
    if k == 0 then 1 else 10 * Pow10(k - 1)
  }

  lemma {:induction false} DigitsLength(n: nat, k: nat)
    requires k >= 1 && n < Pow10(k)
    ensures |Digits(n)| <= k
    decreases k
  {
    if n >= 10 {
      assert k > 1;
      DigitsLength(n / 10, k - 1);
    }
  }

  /** A 64-bit number fits the 33-byte scratch buffer of the conversions. */
  lemma Decimal64(n: int)
    requires -TWO64 / 2 <= n < TWO64
    ensures |Decimal(n)| <= 21
  {
    assert Pow10(20) == 100_000_000_000_000_000_000 by {
      assert Pow10(5) == 100_000;
      assert Pow10(10) == 10_000_000_000;
      assert Pow10(15) == 1_000_000_000_000_000;
    }
    DigitsLength(if n < 0 then -n else n, 20);
  }

  // ---------------------------------------------------------------- what the digits are

  lemma TenfoldQuotient(n: nat, p: nat)
    requires p >= 1
    ensures n / 10 / p == n / (10 * p)
  {
    var m := n / 10;
    var q, rest, q' := m / p, m % p, n / (10 * p);
    assert m == q * p + rest && n == 10 * m + n % 10;
    assert 10 * (q * p) == q * (10 * p);
    assert n == q' * (10 * p) + n % (10 * p);
    Probing.RemainderIsUnique(q, 10 * rest + n % 10, q', n % (10 * p), 10 * p);
  }

  /** The i-th character from the right is the digit of the i-th power of ten. */
  lemma {:induction false} DigitAt(n: nat, i: nat)
    requires i < |Digits(n)|
    ensures Digits(n)[|Digits(n)| - 1 - i] == '0' + (n / Pow10(i) % 10) as char
    decreases n
  {
    if i == 0 {
      assert n / 1 == n;
    } else {
      var t := Digits(n / 10);
      DigitAt(n / 10, i - 1);
      TenfoldQuotient(n, Pow10(i - 1));
      assert Digits(n)[|Digits(n)| - 1 - i] == t[|t| - 1 - (i - 1)];
    }
  }

  /** There are as many digits as needed, without a leading zero. */
  lemma {:induction false} DigitsCount(n: nat)
    ensures n < Pow10(|Digits(n)|)
    ensures n >= 10 ==> Pow10(|Digits(n)| - 1) <= n
    decreases n
  {
    if n < 10 {
      assert Pow10(1) == 10;
    } else {
      DigitsCount(n / 10);
      assert |Digits(n)| == |Digits(n / 10)| + 1;
    }
  }

  /** A minus sign exactly before a negative number, then the digits of the absolute value. */
  lemma DecimalIsSigned(n: int)
    ensures Decimal(n)[0] == '-' <==> n < 0
    ensures n < 0 ==> Decimal(n)[1..] == Digits(-n)
    ensures n >= 0 ==> Decimal(n) == Digits(n)
  {
    if n >= 0 {
      DigitAt(n, |Digits(n)| - 1);
    }
  }

  lemma HeaderSample()
    ensures Header("A", 12, "f", 7) == "Class: A, Code: 12, File: f, Line: 7, Msg: "
    ensures HeaderRequest("A", "f") == 72
  {
    assert Digits(1) == "1" && Digits(12) == "12" && Digits(7) == "7";
    assert "Class: " + "A" == "Class: A";
    assert "Class: A" + ", Code: " == "Class: A, Code: ";
    assert "Class: A, Code: " + "12" == "Class: A, Code: 12";
    assert "Class: A, Code: 12" + ", File: " == "Class: A, Code: 12, File: ";
    assert "Class: A, Code: 12, File: " + "f" == "Class: A, Code: 12, File: f";
    assert "Class: A, Code: 12, File: f" + ", Line: " == "Class: A, Code: 12, File: f, Line: ";
    assert "Class: A, Code: 12, File: f, Line: " + "7" == "Class: A, Code: 12, File: f, Line: 7";
  }

  /** The letters of the conversions. */
  lemma NumberNames()
    ensures ConversionOf("d") == Some(Conversion(AsSigned, 1)) && ConversionOf("ld") == Some(Conversion(AsSigned, 2))
    ensures ConversionOf("lld") == Some(Conversion(AsSigned, 3))
    ensures ConversionOf("lu") == Some(Conversion(AsUnsigned, 2)) && ConversionOf("llu") == Some(Conversion(AsUnsigned, 3))
  {
    PrefixByPeek("d");
    PrefixByPeek("ld");
    PrefixByPeek("lld");
    PrefixByPeek("lu");
    PrefixByPeek("llu");
  }

  lemma OtherNames()
    ensures ConversionOf("f") == Some(Conversion(AsFloat, 1)) && ConversionOf("lf") == Some(Conversion(AsFloat, 2))
    ensures ConversionOf("c") == Some(Conversion(AsCharacter, 1)) && ConversionOf("s") == Some(Conversion(AsText, 1))
    ensures ConversionOf("u") == None && ConversionOf("x") == None && ConversionOf("") == None
  {
    PrefixByPeek("f");
    PrefixByPeek("lf");
    PrefixByPeek("c");
    PrefixByPeek("s");
    PrefixByPeek("u");
    PrefixByPeek("x");
  }

  /** A conversion that stands alone expands to the text of its argument. */
  lemma OneConversion(fmt: string, c: Conversion, a: Arg)
    requires "%" <= fmt && !("%%" <= fmt) && ConversionOf(fmt[1..]) == Some(c) && c.length == |fmt| - 1
    requires Agrees(c.kind, a)
    ensures AllAgree(fmt, [a], 0, 0) && Expand(fmt, [a], 0, 0) == ArgText(c.kind, a)
  {
    hide ConversionOf, ArgText, Agrees;
    assert TakesArgument(fmt, [a], 0);
    assert fmt[1 + c.length..] == "";
    assert AllAgree("", [a], 1, 1) && Expand("", [a], 1, 1) == "";
    assert ArgText(c.kind, a) + "" == ArgText(c.kind, a);
  }

  /** The text of an argument, number by number. */
  lemma ArgumentTexts(n: int, c: char)
    requires -TWO64 / 2 <= n < TWO64 / 2 && c != '\0'
    ensures ArgText(AsSigned, Number(n)) == Decimal(n)
    ensures ArgText(AsUnsigned, Number(n)) == Decimal(if n < 0 then n + TWO64 else n)
    ensures ArgText(AsSigned, Number(if n < 0 then n + TWO64 else n)) == Decimal(n)
    ensures ArgText(AsCharacter, Character(c)) == [c]
    ensures ArgText(AsText, Text(Some("ab"))) == "ab" && ArgText(AsText, Text(None)) == "<null pointer>"
    ensures ArgText(AsFloat, Float("1.5")) == "1.5"
  {
  }

  const BLOCK: nat := 32

  /** The space requested for the header: 16 characters each are set aside for code and line. */
  function HeaderRequest(className: string, fileName: string): nat {
    7 + |className| + 8 + 16 + 8 + |fileName| + 8 + 16 + 7
  }

  /** Code and line number are short enough for the space the first request obtains. */
  predicate HeaderFits(className: string, id: int, fileName: string, line: nat) {
    |Decimal(id)| + |Decimal(line)| <= 31 + BLOCK - HeaderRequest(className, fileName) % BLOCK
  }

  lemma HeaderLength(className: string, id: int, fileName: string, line: nat)
    ensures |Header(className, id, fileName, line)|
         == 38 + |className| + |Decimal(id)| + |fileName| + |Decimal(line)|
  {
  }

  lemma HeaderIsCString(className: string, id: int, fileName: string, line: nat)
    requires CString(className) && CString(fileName)
    ensures CString(Header(className, id, fileName, line))
  {
  }

  /** The header stays within the block-rounded request if and only if HeaderFits; 16 digits
      each for the code and the line always fit. */
  lemma HeaderFitsExactly(className: string, id: int, fileName: string, line: nat)
    ensures HeaderFits(className, id, fileName, line)
       <==> |Header(className, id, fileName, line)| < BLOCK * (HeaderRequest(className, fileName) / BLOCK + 1)
    ensures |Decimal(id)| <= 16 && |Decimal(line)| <= 16 ==> HeaderFits(className, id, fileName, line)
  {
    HeaderLength(className, id, fileName, line);
  }

  // ---------------------------------------------------------------- the buffer

  /** The bytes of a buffer are the string s and its terminator. */
  predicate Spells(data: seq<char>, s: string) {
    |s| < |data| && data[..|s|] == s && CString(s) && data[|s|] == '\0'
  }

  method StrLen(buffer: array<char>, ghost s: string) returns (n: nat)
    requires Spells(buffer[..], s)
    ensures n == |s|
  {
    n := 0;
    assert 0 < |s| ==> buffer[0] == buffer[..][..|s|][0] == s[0];
    while buffer[n] != '\0'
      invariant n <= |s|
      invariant n < |s| ==> buffer[n] == s[n]
      decreases |s| - n
    {
      n := n + 1;
      assert n < |s| ==> buffer[n] == buffer[..][..|s|][n] == s[n];
    }
  }

  /** Copy t into the buffer from position `at` on, and terminate it (strcat, strncat, strcpy). */
  method PutAt(buffer: array<char>, at: nat, t: string, ghost s: string)
    requires Spells(buffer[..], s) && at == |s| && CString(t) && |s| + |t| < buffer.Length
    modifies buffer
    ensures Spells(buffer[..], s + t)
  {
    for i := 0 to |t|
      invariant buffer[..at] == s
      invariant buffer[at..at + i] == t[..i]
    {
      buffer[at + i] := t[i];
      assert buffer[at..at + i + 1] == buffer[at..at + i] + [t[i]];
      assert t[..i + 1] == t[..i] + [t[i]];
    }
    buffer[at + |t|] := '\0';
    assert buffer[..][..|s + t|] == buffer[..at] + buffer[at..at + |t|];
    assert t[..|t|] == t;
  }

  /** allocMemoryBlockForStringIfNecessary: room for n more characters and the terminator. A
      request that grows the buffer wastes at most 33 bytes. */
  method Reserve(blocks: nat, buffer: array<char>, ghost s: string, n: nat)
    returns (blocks': nat, buffer': array<char>)
    requires if blocks == 0 then s == "" else buffer.Length == blocks * BLOCK && Spells(buffer[..], s)
    ensures buffer'.Length == blocks' * BLOCK && Spells(buffer'[..], s)
    ensures buffer'.Length > |s| + n
    ensures blocks' >= blocks && (blocks' == blocks ==> buffer' == buffer && blocks > 0)
    ensures blocks' > blocks ==> fresh(buffer') && buffer'.Length <= |s| + n + 33
    ensures blocks == 0 ==> blocks' == n / BLOCK + 1
    ensures blocks > 0 ==> (blocks' == blocks <==> |s| + n + 1 < blocks * BLOCK)
  {
    var length := 0;
    if blocks != 0 {
      length := StrLen(buffer, s);
    }
    if blocks != 0 && length + n + 1 < blocks * BLOCK {
      return blocks, buffer;
    }
    blocks' := blocks + 1;
    while length + n >= blocks' * BLOCK
      invariant blocks' > blocks
      invariant blocks' == blocks + 1 || (blocks' - 1) * BLOCK <= length + n
      decreases length + n - blocks' * BLOCK
    {
      blocks' := blocks' + 1;
    }
    buffer' := new char[blocks' * BLOCK](_ => '\0');
    assert Spells(buffer'[..], "");
    if length != 0 {
      assert buffer[..length] == buffer[..][..length] == s;
      PutAt(buffer', 0, buffer[..length], "");
      assert "" + s == s;
    } else {
      assert s == "";
    }
  }

  // ---------------------------------------------------------------- the expander

  /** The character of the format at an offset, or its terminator. */
  function Peek(fmt: string, i: nat): char {
    if i < |fmt| then fmt[i] else '\0'
  }

  lemma PrefixByPeek(t: string)
    requires CString(t)
    ensures t == "" || t[0] == Peek(t, 0)
    ensures "d" <= t <==> Peek(t, 0) == 'd'
    ensures "f" <= t <==> Peek(t, 0) == 'f'
    ensures "c" <= t <==> Peek(t, 0) == 'c'
    ensures "s" <= t <==> Peek(t, 0) == 's'
    ensures "ld" <= t <==> Peek(t, 0) == 'l' && Peek(t, 1) == 'd'
    ensures "lu" <= t <==> Peek(t, 0) == 'l' && Peek(t, 1) == 'u'
    ensures "lf" <= t <==> Peek(t, 0) == 'l' && Peek(t, 1) == 'f'
    ensures "lld" <= t <==> Peek(t, 0) == 'l' && Peek(t, 1) == 'l' && Peek(t, 2) == 'd'
    ensures "llu" <= t <==> Peek(t, 0) == 'l' && Peek(t, 1) == 'l' && Peek(t, 2) == 'u'
  {
  }

  /** The chain of branches that recognises a conversion at position `next` of the format. */
  method Recognise(fmt: string, next: nat) returns (c: Option<Conversion>)
    requires CString(fmt) && next < |fmt|
    ensures c == ConversionOf(fmt[next + 1..])
  {
    ghost var t := fmt[next + 1..];
    assert CString(t);
    PrefixByPeek(t);
    var c1, c2, c3 := Peek(fmt, next + 1), Peek(fmt, next + 2), Peek(fmt, next + 3);
    assert c1 == Peek(t, 0) && c2 == Peek(t, 1) && c3 == Peek(t, 2);
    if c1 == 'd' || (c1 == 'l' && c2 == 'd') {
      c := Some(Conversion(AsSigned, if c1 == 'l' then 2 else 1));
    } else if c1 == 'l' && c2 == 'u' {
      c := Some(Conversion(AsUnsigned, 2));
    } else if c1 == 'l' && c2 == 'l' && c3 == 'd' {
      c := Some(Conversion(AsSigned, 3));
    } else if c1 == 'l' && c2 == 'l' && c3 == 'u' {
      c := Some(Conversion(AsUnsigned, 3));
    } else if c1 == 'f' || (c1 == 'l' && c2 == 'f') {
      c := Some(Conversion(AsFloat, if c1 == 'l' then 2 else 1));
    } else if c1 == 'c' {
      c := Some(Conversion(AsCharacter, 1));
    } else if c1 == 's' {
      c := Some(Conversion(AsText, 1));
    } else {
      c := None;
    }
  }

  /** Reserve room for t and append it; `length` is the running length of the message. */
  method AppendText(blocks: nat, buffer: array<char>, length: nat, t: string, ghost s: string)
    returns (blocks': nat, buffer': array<char>, length': nat)
    requires blocks > 0 && buffer.Length == blocks * BLOCK && Spells(buffer[..], s) && length == |s|
    requires CString(t)
    modifies buffer
    ensures blocks' > 0 && buffer'.Length == blocks' * BLOCK && Spells(buffer'[..], s + t)
    ensures length' == |s + t|
    ensures buffer' == buffer || fresh(buffer')
  {
    blocks', buffer' := Reserve(blocks, buffer, s, |t|);
    var end := StrLen(buffer', s);
    PutAt(buffer', end, t, s);
    length' := length + |t|;
  }

  /** An error or message object: where it was raised, and the text built for it. */
  class ErrMsgBase {
    const fileName: string
    const fileLineNumber: nat
    var errMsg: array?<char>

    constructor (fileName: string, fileLineNumber: nat)
      ensures this.fileName == fileName && this.fileLineNumber == fileLineNumber && errMsg == null
    {
      this.fileName := fileName;
      this.fileLineNumber := fileLineNumber;
      errMsg := null;
    }

    /** The text of an argument, as the branch of its conversion produces it. */
    static method Print(kind: Kind, a: Arg) returns (text: string)
      requires Agrees(kind, a)
      ensures text == ArgText(kind, a)
    {
      match kind {
        case AsSigned =>
          text := Decimal(Signed64(a.value));
          Decimal64(Signed64(a.value));
          assert |text| < 33;
        case AsUnsigned =>
          text := Decimal(Unsigned64(a.value));
          Decimal64(Unsigned64(a.value));
          assert |text| < 33;
        case AsFloat =>
          text := a.text;
          assert |text| < 33;
        case AsCharacter =>
          text := [a.c];
        case AsText =>
          text := if a.s.None? then NULL_POINTER_MESSAGE else a.s.value;
      }
    }

    /** One percent sign at position `next`: what is appended for it, and where to go on. */
    static method Step(fmt: string, next: nat, args: seq<Arg>, modulesCounter: nat, taken: nat)
      returns (text: string, after: nat, taken': nat)
      requires CString(fmt) && next < |fmt| && fmt[next] == '%'
      requires modulesCounter >= 1 && taken <= modulesCounter - 1
      requires AllAgree(fmt[next..], args, modulesCounter - 1, taken)
      ensures var d := DirectiveOf(fmt[next..], args, modulesCounter - 1, taken);
              text == d.text && after == next + d.length && taken' == taken + d.took
      ensures CString(text) && taken <= taken' <= modulesCounter
    {
      ghost var t := fmt[next..];
      assert t[0] == '%' && t[1..] == fmt[next + 1..];
      assert "%%" <= t <==> Peek(fmt, next + 1) == '%';
      text, after, taken' := "%", next + 1, taken;
      if Peek(fmt, next + 1) == '%' {
        after := next + 2;
      } else if modulesCounter > |args| {
      } else {
        var c := Recognise(fmt, next);
        if c.Some? {
          text := Print(c.value.kind, args[taken]);
          after, taken' := next + 1 + c.value.length, taken + 1;
        }
      }
    }

    /** buildMessage, the form with a variable argument list. */
    method BuildMessage(className: Option<string>, id: int, predefinedMessage: Option<string>, args: seq<Arg>)
      returns (failed: bool)
      requires CString(fileName) && (className.Some? ==> CString(className.value))
      requires className.Some? ==> HeaderFits(className.value, id, fileName, fileLineNumber)
      requires predefinedMessage.Some? ==> CString(predefinedMessage.value) && AllAgree(predefinedMessage.value, args, 0, 0)
      modifies this
      ensures failed <==> className.None? || predefinedMessage.None?
      ensures failed ==> errMsg == old(errMsg)
      ensures !failed ==>
                && errMsg != null && fresh(errMsg)
                && Spells(errMsg[..], Header(className.value, id, fileName, fileLineNumber)
                                      + Expand(predefinedMessage.value, args, 0, 0))
    {
      hide Header, HeaderRequest, AllAgree, Expand, HeaderFits;
      if className.None? || predefinedMessage.None? {
        return true;
      }
      var header := Header(className.value, id, fileName, fileLineNumber);
      var none := new char[0];
      var blocks, buffer := Reserve(0, none, "", HeaderRequest(className.value, fileName));
      HeaderIsCString(className.value, id, fileName, fileLineNumber);
      HeaderFitsExactly(className.value, id, fileName, fileLineNumber);
      PutAt(buffer, 0, header, "");
      assert "" + header == header;
      var length := StrLen(buffer, header);
      var result, _ := ExpandInto(blocks, buffer, length, predefinedMessage.value, args, header);
      errMsg := result;
      return false;
    }

    /** One round of the loop: the text up to the percent sign at `next`, then the directive. */
    static method Round(blocks0: nat, buffer0: array<char>, length0: nat, fmt: string, prev: nat, next: nat, args: seq<Arg>,
                        modulesCounter: nat, taken: nat, ghost s: string)
      returns (blocks: nat, buffer: array<char>, length: nat, after: nat, taken': nat, ghost s': string)
      requires blocks0 > 0 && buffer0.Length == blocks0 * BLOCK && Spells(buffer0[..], s) && length0 == |s|
      requires prev <= next < |fmt| && next == prev + IndexOf(fmt[prev..], '%')
      requires CString(fmt) && taken < modulesCounter && AllAgree(fmt[prev..], args, modulesCounter - 1, taken)
      modifies buffer0
      ensures blocks > 0 && buffer.Length == blocks * BLOCK && Spells(buffer[..], s') && length == |s'|
      ensures buffer == buffer0 || fresh(buffer)
      ensures next < after <= |fmt| && taken' <= modulesCounter && AllAgree(fmt[after..], args, modulesCounter, taken')
      ensures s' + Expand(fmt[after..], args, modulesCounter, taken') == s + Expand(fmt[prev..], args, modulesCounter - 1, taken)
      ensures taken' + TakenBy(fmt[after..], args, modulesCounter) == taken + TakenBy(fmt[prev..], args, modulesCounter - 1)
    {
      hide Expand, AllAgree, Spells, DirectiveOf, CString, TakenBy, TakesArgument, Agrees;
      ghost var d := RoundLaws(fmt, prev, next, args, modulesCounter - 1, taken, s);
      blocks, buffer, length := AppendText(blocks0, buffer0, length0, fmt[prev..next], s);
      s' := s + fmt[prev..next];
      var text;
      text, after, taken' := Step(fmt, next, args, modulesCounter, taken);
      blocks, buffer, length := AppendText(blocks, buffer, length, text, s');
      s' := s' + text;
    }

    /** The loop over the percent signs of the format. */
    static method ExpandInto(blocks0: nat, buffer0: array<char>, length0: nat, fmt: string, args: seq<Arg>, ghost header: string)
      returns (buffer: array<char>, ghost takes: nat)
      requires blocks0 > 0 && buffer0.Length == blocks0 * BLOCK && Spells(buffer0[..], header) && length0 == |header|
      requires CString(fmt) && AllAgree(fmt, args, 0, 0)
      modifies buffer0
      ensures Spells(buffer[..], header + Expand(fmt, args, 0, 0))
      ensures buffer == buffer0 || fresh(buffer)
      ensures takes == TakenBy(fmt, args, 0) <= |args|
    {
      hide Expand, AllAgree, Spells, TakenBy, CString;
      var blocks, length := blocks0, length0;
      buffer := buffer0;
      var modulesCounter: nat, taken: nat, prev: nat := 0, 0, 0;
      ghost var s := header;
      assert fmt[0..] == fmt;
      var next := IndexOf(fmt, '%');
      while next < |fmt|
        invariant prev <= next <= |fmt| && next == prev + IndexOf(fmt[prev..], '%')
        invariant taken <= modulesCounter && AllAgree(fmt[prev..], args, modulesCounter, taken)
        invariant buffer == buffer0 || fresh(buffer)
        invariant blocks > 0 && buffer.Length == blocks * BLOCK && Spells(buffer[..], s) && length == |s|
        invariant s + Expand(fmt[prev..], args, modulesCounter, taken) == header + Expand(fmt, args, 0, 0)
        invariant taken + TakenBy(fmt[prev..], args, modulesCounter) == TakenBy(fmt, args, 0)
        decreases |fmt| - prev
      {
        modulesCounter := modulesCounter + 1;
        blocks, buffer, length, prev, taken, s := Round(blocks, buffer, length, fmt, prev, next, args, modulesCounter, taken, s);
        next := prev + IndexOf(fmt[prev..], '%');
      }
      PlainPart(fmt, prev, |fmt|, args, modulesCounter, taken);
      assert fmt[prev..|fmt|] == fmt[prev..];
      blocks, buffer, length := AppendText(blocks, buffer, length, fmt[prev..], s);
      NothingLeft(fmt, prev, args, modulesCounter, taken);
      TakenWithinCount(fmt, args, 0);
      takes := taken;
    }
  }

  /** The text up to the next percent sign, then what becomes of that sign, then the rest. */
  lemma OneRound(fmt: string, prev: nat, next: nat, rest: string, d: Directive, args: seq<Arg>, seen: nat, taken: nat, s: string)
    requires prev <= next < |fmt| && fmt[next] == '%'
    requires taken <= seen && AllAgree(fmt[prev..], args, seen, taken) && AllAgree(fmt[next..], args, seen, taken)
    requires Expand(fmt[prev..], args, seen, taken) == fmt[prev..next] + Expand(fmt[next..], args, seen, taken)
    requires d == DirectiveOf(fmt[next..], args, seen, taken) && rest == fmt[next + d.length..]
    ensures AllAgree(rest, args, seen + 1, taken + d.took)
    ensures s + Expand(fmt[prev..], args, seen, taken)
         == s + fmt[prev..next] + d.text + Expand(rest, args, seen + 1, taken + d.took)
  {
    hide TakesArgument, ConversionOf;
    assert fmt[next..][d.length..] == rest;
    Extend(s, fmt[prev..next], d.text + Expand(rest, args, seen + 1, taken + d.took));
    Extend(s + fmt[prev..next], d.text, Expand(rest, args, seen + 1, taken + d.took));
  }

  /** What one round does, in the order in which it does it. */
  lemma RoundLaws(fmt: string, prev: nat, next: nat, args: seq<Arg>, seen: nat, taken: nat, s: string) returns (d: Directive)
    requires prev <= next < |fmt| && next == prev + IndexOf(fmt[prev..], '%')
    requires CString(fmt) && taken <= seen && AllAgree(fmt[prev..], args, seen, taken)
    ensures fmt[next] == '%' && "%" <= fmt[next..] && CString(fmt[prev..next]) && AllAgree(fmt[next..], args, seen, taken)
    ensures TakesArgument(fmt[next..], args, seen) ==> Agrees(ConversionOf(fmt[next..][1..]).value.kind, args[taken])
    ensures d == DirectiveOf(fmt[next..], args, seen, taken) && d.took <= 1 && next + d.length <= |fmt|
    ensures AllAgree(fmt[next + d.length..], args, seen + 1, taken + d.took)
    ensures s + Expand(fmt[prev..], args, seen, taken)
         == s + fmt[prev..next] + d.text + Expand(fmt[next + d.length..], args, seen + 1, taken + d.took)
    ensures TakenBy(fmt[prev..], args, seen) == d.took + TakenBy(fmt[next + d.length..], args, seen + 1)
  {
    hide Expand, AllAgree, DirectiveOf, CString, TakenBy, TakesArgument, Agrees, ConversionOf;
    PlainPart(fmt, prev, next, args, seen, taken);
    AgreesAtSign(fmt[next..], args, seen, taken);
    d := DirectiveOf(fmt[next..], args, seen, taken);
    OneRound(fmt, prev, next, fmt[next + d.length..], d, args, seen, taken, s);
    RoundTakes(fmt, prev, next, args, seen, taken);
  }

  lemma RoundTakes(fmt: string, prev: nat, next: nat, args: seq<Arg>, seen: nat, taken: nat)
    requires prev <= next < |fmt| && next == prev + IndexOf(fmt[prev..], '%')
    requires "%" <= fmt[next..] && taken <= seen
    requires TakesArgument(fmt[next..], args, seen) ==> Agrees(ConversionOf(fmt[next + 1..]).value.kind, args[taken])
    ensures fmt[next..][1..] == fmt[next + 1..]
    ensures var d := DirectiveOf(fmt[next..], args, seen, taken);
            TakenBy(fmt[prev..], args, seen) == d.took + TakenBy(fmt[next + d.length..], args, seen + 1)
  {
    hide TakesArgument, ConversionOf, TakenBy, Agrees, DirectiveOf;
    UpToSign(fmt, prev, next);
    TakenPlain(fmt[prev..], next - prev, args, seen);
    assert fmt[next..][1..] == fmt[next + 1..];
    TakenAtSign(fmt[next..], args, seen, taken);
    var d := DirectiveOf(fmt[next..], args, seen, taken);
    assert fmt[next..][d.length..] == fmt[next + d.length..];
  }

  /** Behind the last percent sign nothing is expanded and nothing taken. */
  lemma NothingLeft(fmt: string, prev: nat, args: seq<Arg>, seen: nat, taken: nat)
    requires prev <= |fmt| == prev + IndexOf(fmt[prev..], '%')
    requires taken <= seen && AllAgree(fmt[|fmt|..], args, seen, taken)
    ensures fmt[prev..] + Expand(fmt[|fmt|..], args, seen, taken) == fmt[prev..]
    ensures TakenBy(fmt[prev..], args, seen) == 0
  {
    UpToSign(fmt, prev, |fmt|);
    TakenPlain(fmt[prev..], |fmt| - prev, args, seen);
  }

  lemma AgreesAtSign(t: string, args: seq<Arg>, seen: nat, taken: nat)
    requires "%" <= t && taken <= seen && AllAgree(t, args, seen, taken)
    ensures TakesArgument(t, args, seen) ==> Agrees(ConversionOf(t[1..]).value.kind, args[taken])
  {
    hide TakesArgument, ConversionOf;
  }

  /** The text from prev up to the next percent sign is copied. */
  lemma PlainPart(fmt: string, prev: nat, next: nat, args: seq<Arg>, seen: nat, taken: nat)
    requires prev <= next <= |fmt| && next == prev + IndexOf(fmt[prev..], '%')
    requires CString(fmt) && taken <= seen && AllAgree(fmt[prev..], args, seen, taken)
    ensures CString(fmt[prev..next]) && AllAgree(fmt[next..], args, seen, taken)
    ensures Expand(fmt[prev..], args, seen, taken) == fmt[prev..next] + Expand(fmt[next..], args, seen, taken)
    ensures next < |fmt| ==> fmt[next] == '%'
  {
    hide Expand, AllAgree;
    UpToSign(fmt, prev, next);
    ExpandPlain(fmt[prev..], next - prev, args, seen, taken);
  }

  lemma UpToSign(fmt: string, prev: nat, next: nat)
    requires prev <= next <= |fmt| && next == prev + IndexOf(fmt[prev..], '%')
    ensures CString(fmt) ==> CString(fmt[prev..next])
    ensures fmt[prev..][..next - prev] == fmt[prev..next] && fmt[prev..][next - prev..] == fmt[next..]
    ensures '%' !in fmt[prev..][..next - prev]
    ensures next < |fmt| ==> fmt[next] == '%'
  {
    var t := fmt[prev..];
    assert forall i :: 0 <= i < next - prev ==> t[..next - prev][i] == t[i];
  }
}
