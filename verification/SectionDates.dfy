/**
 Section dates, the one part of the format that the printer cannot bring back: which dates are
 accepted, character by character, and what becomes of a text that has one.
 */
module SectionDates {
  import opened ConfigModel
  import opened Scanner
  import opened Lexer
  import opened Grammar
  import opened Reader
  import opened PrintedTokens
  import opened SavedTokens
  import Parser

  const MONTHS := ["01", "02", "03", "04", "05", "06", "07", "08", "09", "10", "11", "12"]

  const DAYS := ["01", "02", "03", "04", "05", "06", "07", "08", "09", "10",
                 "11", "12", "13", "14", "15", "16", "17", "18", "19", "20",
                 "21", "22", "23", "24", "25", "26", "27", "28", "29", "30", "31"]

  /** The year is 1900 or later, then a month, then a day. */
  predicate GoodDate(d: string)
    requires |d| == 10
  {
    && (d[0] >= '2' || (d[0] == '1' && d[1] == '9'))
    && d[5..7] in MONTHS
    && d[8..] in DAYS
  }

  lemma TwoDigits(s: string)
    requires |s| == 2 && Digit(s[0]) && Digit(s[1])
    ensures Number(s) == 10 * (s[0] as int - '0' as int) + (s[1] as int - '0' as int)
  {
    assert s[..1][..0] == [];
    assert Number(s[..1]) == s[0] as int - '0' as int;
  }

  lemma FourDigits(s: string)
    requires |s| == 4 && forall i :: 0 <= i < 4 ==> Digit(s[i])
    ensures Number(s) == 100 * Number(s[..2]) + Number(s[2..])
  {
    assert s[..3][..2] == s[..2];
    TwoDigits(s[2..]);
    assert Number(s[..3]) == 10 * Number(s[..2]) + (s[2] as int - '0' as int);
  }

  /** The names are the two-digit numbers from 1 on. */
  predicate FromOne(names: seq<string>) {
    forall i :: 0 <= i < |names| ==>
      |names[i]| == 2 && Digit(names[i][0]) && Digit(names[i][1]) && Number(names[i]) == i + 1
  }

  lemma NumberedName(names: seq<string>, s: string)
    requires FromOne(names) && |s| == 2 && Digit(s[0]) && Digit(s[1])
    ensures s in names <==> 1 <= Number(s) <= |names|
  {
    hide Number;
    var n := Number(s);
    if 1 <= n <= |names| {
      SameNumber(s, names[n - 1]);
    }
  }

  lemma MonthsFromOne()
    ensures FromOne(MONTHS) && |MONTHS| == 12
  {
    forall i | 0 <= i < |MONTHS|
      ensures |MONTHS[i]| == 2 && Digit(MONTHS[i][0]) && Digit(MONTHS[i][1]) && Number(MONTHS[i]) == i + 1
    {
      TwoDigits(MONTHS[i]);
    }
  }

  lemma DaysFromOne()
    ensures FromOne(DAYS) && |DAYS| == 31
  {
    forall i | 0 <= i < |DAYS|
      ensures |DAYS[i]| == 2 && Digit(DAYS[i][0]) && Digit(DAYS[i][1]) && Number(DAYS[i]) == i + 1
    {
      TwoDigits(DAYS[i]);
    }
  }

  lemma SameNumber(s: string, t: string)
    requires |s| == 2 == |t| && Digit(s[0]) && Digit(s[1]) && Digit(t[0]) && Digit(t[1])
    requires Number(s) == Number(t)
    ensures s == t
  {
    TwoDigits(s);
    TwoDigits(t);
  }

  /** isValidDate accepts exactly the good dates. */
  lemma GoodDateIsValid(d: string)
    requires IsDate(d)
    ensures ValidDate(d) <==> GoodDate(d)
  {
    assert forall i :: 0 <= i < 4 ==> d[..4][i] == d[i];
    FourDigits(d[..4]);
    TwoDigits(d[..4][..2]);
    TwoDigits(d[..4][2..]);
    MonthsFromOne();
    DaysFromOne();
    hide MONTHS, DAYS, Number;
    NumberedName(MONTHS, d[5..7]);
    NumberedName(DAYS, d[8..]);
  }

  function DatedTokens(name: string, d: string): seq<Token> {
    [SectionBegin, Str(name), SectionEnd, DateBegin, SectionDate(d), DateEnd]
  }

  function Answer(name: string, d: string): Option<Config>
    requires |d| == 10
  {
    if GoodDate(d) then Some([Section(name, "", Some(d), [])]) else None
  }

  lemma DateIsRead(name: string, d: string)
    requires IsDate(d)
    ensures Read(AfterHeader([], "", name), [DateBegin] + ([SectionDate(d)] + [DateEnd])) == Answer(name, d)
  {
    assert |d| == 10;
    hide Read, ValidDate, GoodDate, IsDate;
    ReadCons(AfterHeader([], "", name), DateBegin, [SectionDate(d)] + [DateEnd]);
    ReadCons(AtDate([], "", name), SectionDate(d), [DateEnd]);
    ReadCons(AfterDate([], "", name, d), DateEnd, []);
    assert [DateEnd] + [] == [DateEnd];
    GoodDateIsValid(d);
    ReadsNothing(InItems(Open([], "", name, d, [])));
    assert [] + [Section(name, "", Some(d), [])] == [Section(name, "", Some(d), [])];
  }

  /** The loader's answer to a dated section without items. */
  lemma DatedSection(name: string, d: string)
    requires IsDate(d)
    ensures Parse(DatedTokens(name, d)) == if GoodDate(d) then Some([Section(name, "", Some(d), [])]) else None
  {
    hide Read, GoodDate, IsDate;
    var date := [DateBegin] + ([SectionDate(d)] + [DateEnd]);
    assert DatedTokens(name, d) == [SectionBegin] + ([Str(name)] + ([SectionEnd] + date));
    DateIsRead(name, d);
    ReadCons(Between([]), SectionBegin, [Str(name)] + ([SectionEnd] + date));
    ReadCons(AtName([], ""), Str(name), [SectionEnd] + date);
    ReadCons(AfterName([], "", name), SectionEnd, date);
  }

  lemma ReadsNothing(p: Progress)
    ensures Read(p, []) == Finish(p)
  {
  }

  /** A date is scanned as a date when blanks keep it apart from the parentheses. */
  lemma DatedText(name: string, d: string)
    requires IsDate(d) && IsWord(name) && name[0] != '"' && WordToken(name) == Str(name)
    ensures Lex("[" + name + "] ( " + d + " )") == DatedTokens(name, d)
  {
    hide Lex, IsDate, IsWord;
    var close := [' '] + (")" + "");
    var date := [' '] + (d + close);
    var open := [']'] + ([' '] + ("(" + date));
    assert "[" + name + "] ( " + d + " )" == ['['] + (name + open);
    WordsOfDate(d);
    LexWord(")", "");
    NothingToScan();
    LexBlank(' ', ")" + "");
    LexWord(d, close);
    LexBlank(' ', d + close);
    LexWord("(", date);
    LexBlank(' ', "(" + date);
    LexMark(']', SectionEnd, [' '] + ("(" + date));
    LexWord(name, open);
    LexMark('[', SectionBegin, name + open);
  }

  lemma NothingToScan()
    ensures Lex("") == []
  {
  }

  lemma WordsOfDate(d: string)
    requires IsDate(d)
    ensures IsWord(d) && d[0] != '"' && WordToken(d) == SectionDate(d)
    ensures IsWord("(") && WordToken("(") == DateBegin && IsWord(")") && WordToken(")") == DateEnd
  {
  }

  /** From the text to the section, by the scanner and the table-driven parser. */
  method LoadDated(name: string, d: string) returns (loaded: Option<Config>)
    requires IsDate(d) && IsWord(name) && name[0] != '"' && WordToken(name) == Str(name)
    ensures loaded == if GoodDate(d) then Some([Section(name, "", Some(d), [])]) else None
  {
    DatedText(name, d);
    DatedSection(name, d);
    var tokens := Tokenize("[" + name + "] ( " + d + " )");
    loaded := Parser.YyParse(tokens);
  }
}
