/**
 The compressed automaton of the configuration scanner, entry by entry as flex laid it out,
 and the plain transition function it encodes.
 */
module ScannerTables {

  /** yy_ec: the equivalence class of a character. A NUL inside the text and characters
      beyond the 8-bit table behave like any other ordinary character. */
  function EquivalenceClass(c: char): (k: nat)
    ensures 1 <= k <= 16
  {
    match c
    case ' ' => 2
    case '\t' => 2
    case '\n' => 3
    case '\r' => 4
    case '"' => 5
    case '#' => 6
    case '(' => 7
    case ')' => 8
    case ',' => 9
    case '/' => 10
    case '=' => 12
    case '[' => 13
    case ']' => 14
    case '{' => 15
    case '}' => 16
    case _ => if '0' <= c <= '9' then 11 else 1
  }

  /** yy_accept: the rule a state accepts, 0 for none. */
  function YyAccept(i: nat): nat {
    match i
    case 0 => 0
    case 5 => 19
    case 7 => 14
    case 8 => 16
    case 9 => 15
    case 11 => 12
    case 12 => 2
    case 13 => 3
    case 14 => 13
    case 16 => 1
    case 17 => 4
    case 18 => 5
    case 19 => 6
    case 20 => 7
    case 23 => 0
    case 24 => 9
    case 25 => 12
    case 26 => 11
    case 28 => 9
    case 29 => 11
    case 37 => 8
    case 38 => 0
    case _ => 10
  }

  /** yy_meta: the class of a class, for the template states. */
  function YyMeta(i: nat): nat {
    match i
    case 0 => 0
    case 2 => 2
    case 3 => 3
    case 4 => 4
    case 6 => 5
    case 9 => 2
    case 12 => 4
    case 13 => 4
    case 14 => 4
    case 15 => 4
    case 16 => 4
    case _ => 1
  }

  /** yy_base: where a state's row starts; 49 marks the states without transitions. */
  function YyBase(i: nat): nat {
    match i
    case 0 => 0
    case 1 => 0
    case 2 => 0
    case 3 => 0
    case 4 => 0
    case 5 => 48
    case 6 => 0
    case 10 => 15
    case 11 => 41
    case 12 => 0
    case 13 => 0
    case 15 => 35
    case 21 => 0
    case 22 => 23
    case 23 => 39
    case 24 => 0
    case 25 => 31
    case 26 => 0
    case 27 => 20
    case 28 => 25
    case 29 => 0
    case 30 => 18
    case 31 => 17
    case 32 => 15
    case 33 => 12
    case 34 => 12
    case 35 => 10
    case 36 => 8
    case 37 => 0
    case 39 => 17
    case 40 => 32
    case 41 => 34
    case 42 => 39
    case 43 => 41
    case _ => 49
  }

  /** yy_def: the state whose row is used where a state has no entry of its own. */
  function YyDef(i: nat): nat {
    match i
    case 0 => 0
    case 1 => 38
    case 2 => 1
    case 3 => 1
    case 4 => 1
    case 5 => 38
    case 7 => 38
    case 8 => 38
    case 9 => 38
    case 10 => 40
    case 11 => 41
    case 14 => 38
    case 16 => 38
    case 17 => 38
    case 18 => 38
    case 19 => 38
    case 20 => 38
    case 22 => 40
    case 23 => 42
    case 24 => 22
    case 25 => 41
    case 26 => 43
    case 28 => 42
    case 29 => 43
    case 38 => 0
    case 39 => 38
    case 40 => 38
    case 41 => 38
    case 42 => 38
    case 43 => 38
    case _ => 39
  }

  /** yy_chk: the state that owns an entry of yy_nxt. */
  function YyChk(i: nat): nat {
    if 1 <= i <= 16 then 1
    else if 49 <= i then 38
    else
      match i
      case 17 => 10
      case 18 => 39
      case 19 => 36
      case 20 => 10
      case 21 => 35
      case 22 => 34
      case 23 => 33
      case 24 => 10
      case 25 => 22
      case 26 => 32
      case 27 => 31
      case 28 => 22
      case 29 => 30
      case 30 => 28
      case 31 => 27
      case 32 => 22
      case 33 => 40
      case 34 => 40
      case 35 => 41
      case 36 => 41
      case 37 => 25
      case 38 => 41
      case 39 => 41
      case 40 => 42
      case 41 => 42
      case 42 => 43
      case 43 => 43
      case 44 => 23
      case 45 => 43
      case 46 => 15
      case 47 => 11
      case 48 => 5
      case _ => 0
  }

  /** yy_nxt: the entries themselves. */
  function YyNxt(i: nat): nat {
    if 50 <= i then 38
    else
      match i
      case 0 => 0
      case 1 => 6
      case 2 => 7
      case 3 => 8
      case 4 => 9
      case 5 => 10
      case 6 => 11
      case 7 => 12
      case 8 => 13
      case 9 => 14
      case 10 => 6
      case 11 => 15
      case 12 => 16
      case 13 => 17
      case 14 => 18
      case 15 => 19
      case 16 => 20
      case 17 => 23
      case 18 => 21
      case 19 => 37
      case 20 => 24
      case 21 => 36
      case 22 => 35
      case 23 => 34
      case 24 => 23
      case 25 => 23
      case 26 => 33
      case 27 => 32
      case 28 => 24
      case 29 => 31
      case 30 => 28
      case 31 => 30
      case 32 => 23
      case 33 => 22
      case 34 => 22
      case 35 => 25
      case 36 => 25
      case 37 => 38
      case 38 => 25
      case 39 => 25
      case 40 => 23
      case 41 => 23
      case 42 => 29
      case 43 => 29
      case 44 => 28
      case 45 => 29
      case 46 => 27
      case 47 => 26
      case 48 => 38
      case 49 => 5
      case _ => 38
  }

  const JAM: nat := 38
  const JAM_BASE: nat := 49

  /** The default chain of a state gets shorter at every step. */
  function ChainLength(s: nat): nat {
    if s == JAM then 0 else if s >= 39 then 1 else if s == 24 then 3 else 2
  }

  /** The states in which the match loop can stand before it reads another character. */
  predicate Live(s: nat) {
    s == 1 || s == 6 || 10 <= s <= 13 || s == 15 || 21 <= s <= 37
  }

  /** The inner `while` loop of the scanner: follow the default chain to the owner of an entry
      (the jam state owns all of its row, see JamRow). */
  function Lookup(s: nat, c: nat): nat
    requires (Live(s) || 38 <= s <= 43) && c <= 16
    decreases ChainLength(s)
  {
    if YyChk(YyBase(s) + c) == s || s == JAM then YyNxt(YyBase(s) + c)
    else
      var d := YyDef(s);
      Lookup(d, if d >= 39 then YyMeta(c) else c)
  }

  predicate WordClass(c: nat) {
    c == 1 || c == 5 || c == 7 || c == 8 || c == 10 || c == 11
  }

  predicate QuotedClass(c: nat) {
    WordClass(c) || c == 2 || c == 9
  }

  /** The transition function, decoded. */
  function Delta(s: nat, c: nat): nat {
    var word := if WordClass(c) then 21 else JAM;
    match s
    case 1 =>
      if c == 1 || c == 10 then 6
      else if c == 11 then 15
      else if c >= 12 then c + 4
      else c + 5
    case 6 => word
    case 12 => word
    case 13 => word
    case 21 => word
    case 37 => word
    case 15 => if c == 11 then 27 else word
    case 27 => if c == 11 then 30 else word
    case 30 => if c == 11 then 31 else word
    case 31 => if c == 10 then 32 else word
    case 32 => if c == 11 then 33 else word
    case 33 => if c == 11 then 34 else word
    case 34 => if c == 10 then 35 else word
    case 35 => if c == 11 then 36 else word
    case 36 => if c == 11 then 37 else word
    case 10 => Quoting(c)
    case 22 => Quoting(c)
    case 24 => Quoting(c)
    case 23 => if c == 5 then 28 else if QuotedClass(c) then 23 else JAM
    case 28 => if c == 5 then 28 else if QuotedClass(c) then 23 else JAM
    case 11 => if c == 6 then 26 else if c == 3 then JAM else 25
    case 25 => if c == 6 || c == 3 then JAM else 25
    case 26 => if c == 6 || c == 3 then JAM else 29
    case 29 => if c == 6 || c == 3 then JAM else 29
    case _ => JAM
  }

  function Quoting(c: nat): nat {
    if c == 5 then 24 else if WordClass(c) then 22 else if QuotedClass(c) then 23 else JAM
  }

  lemma JamRow(c: nat)
    requires c <= 16
    ensures YyChk(YyBase(JAM) + c) == JAM
    ensures Lookup(JAM, c) == if c == 0 then 5 else JAM
  {
  }

  /** A template state looked up by a class of classes. */
  lemma TemplateRow(q: nat, m: nat)
    requires 39 <= q <= 43 && 1 <= m <= 5
    ensures Lookup(q, m) == if YyChk(YyBase(q) + m) == q then YyNxt(YyBase(q) + m) else JAM
  {
    if YyChk(YyBase(q) + m) != q {
      JamRow(YyMeta(m));
    }
  }

  lemma MetaRange(c: nat)
    requires 1 <= c <= 16
    ensures 1 <= YyMeta(c) <= 5
  {
  }

  /** What the five template states do with a class, by way of its class of classes. */
  lemma TemplateRows(c: nat)
    requires 1 <= c <= 16
    ensures Lookup(39, YyMeta(c)) == if WordClass(c) then 21 else JAM
    ensures Lookup(40, YyMeta(c)) == if WordClass(c) || c == 2 || c == 9 then 22 else JAM
    ensures Lookup(41, YyMeta(c)) == if c == 3 then JAM else 25
    ensures Lookup(42, YyMeta(c)) == if QuotedClass(c) then 23 else JAM
    ensures Lookup(43, YyMeta(c)) == if c == 3 || c == 6 then JAM else 29
  {
    hide Lookup;
    MetaRange(c);
    TemplateRow(39, YyMeta(c));
    TemplateRow(40, YyMeta(c));
    TemplateRow(41, YyMeta(c));
    TemplateRow(42, YyMeta(c));
    TemplateRow(43, YyMeta(c));
  }

  lemma WordStates(s: nat, c: nat)
    requires s == 6 || s == 12 || s == 13 || s == 21 || s == 37
    requires 1 <= c <= 16
    ensures Lookup(s, c) == Delta(s, c)
  {
    assert YyChk(YyBase(s) + c) == 1 && YyDef(s) == 39;
    FollowDefault(s, c);
    TemplateRows(c);
    hide Lookup, YyMeta;
  }

  /** The classes for which a state has an entry of its own. */
  predicate OwnClass(s: nat, c: nat) {
    match s
    case 10 => c == 2 || c == 5 || c == 9
    case 22 => c == 2 || c == 5 || c == 9
    case 23 => c == 5
    case 28 => c == 5
    case 11 => c == 6
    case 25 => c == 6
    case 31 => c == 10
    case 34 => c == 10
    case _ => c == 11
  }

  lemma OwnEntries(s: nat, c: nat)
    requires s == 10 || s == 11 || s == 15 || s == 22 || s == 23 || s == 25 || s == 27 || s == 28 || 30 <= s <= 36
    requires 1 <= c <= 16
    ensures YyChk(YyBase(s) + c) == s <==> OwnClass(s, c)
    ensures OwnClass(s, c) ==> YyNxt(YyBase(s) + c) == Delta(s, c)
  {
    match s
    case 10 =>
    case 11 =>
    case 15 =>
    case 22 =>
    case 23 =>
    case 25 =>
    case 27 =>
    case 28 =>
    case 30 =>
    case 31 =>
    case 32 =>
    case 33 =>
    case 34 =>
    case 35 =>
    case 36 =>
  }

  lemma FollowDefault(s: nat, c: nat)
    requires Live(s) && c <= 16 && YyChk(YyBase(s) + c) != s && YyDef(s) >= 39
    ensures Lookup(s, c) == Lookup(YyDef(s), YyMeta(c))
  {
  }

  /** States with entries of their own before they fall back on a template. */
  lemma OwnOrTemplate(s: nat, c: nat)
    requires s == 10 || s == 11 || s == 15 || s == 22 || s == 23 || s == 25 || s == 27 || s == 28 || 30 <= s <= 36
    requires 1 <= c <= 16
    ensures Lookup(s, c) == Delta(s, c)
  {
    hide Lookup, YyMeta, YyChk, YyNxt, YyBase;
    OwnEntries(s, c);
    if OwnClass(s, c) {
      LookupRound(s, c);
    } else {
      FollowDefault(s, c);
      TemplateRows(c);
    }
  }

  lemma ClosedQuoteState(c: nat)
    requires 1 <= c <= 16
    ensures Lookup(24, c) == Delta(24, c)
  {
    OwnOrTemplate(22, c);
    assert YyChk(YyBase(24) + c) == 1 && YyDef(24) == 22;
  }

  lemma ItemCommentStates(s: nat, c: nat)
    requires s == 26 || s == 29
    requires 1 <= c <= 16
    ensures Lookup(s, c) == Delta(s, c)
  {
    assert YyChk(YyBase(s) + c) == 1;
    FollowDefault(s, c);
    TemplateRows(c);
  }

  /** The compressed tables encode exactly the decoded automaton. */
  lemma TablesDecode(s: nat, c: nat)
    requires Live(s) && 1 <= c <= 16
    ensures Lookup(s, c) == Delta(s, c)
  {
    if s == 1 {
    } else if s == 6 || s == 12 || s == 13 || s == 21 || s == 37 {
      WordStates(s, c);
    } else if s == 26 || s == 29 {
      ItemCommentStates(s, c);
    } else if s == 24 {
      ClosedQuoteState(c);
    } else {
      OwnOrTemplate(s, c);
    }
  }

  predicate Row(s: nat) {
    Live(s) || 38 <= s <= 43
  }

  /** One round of the inner loop. */
  lemma LookupRound(s: nat, c: nat)
    requires Row(s) && c <= 16
    ensures YyChk(YyBase(s) + c) == s ==> Lookup(s, c) == YyNxt(YyBase(s) + c)
    ensures YyChk(YyBase(s) + c) != s ==>
              var d := YyDef(s);
              var c' := if d >= 39 then YyMeta(c) else c;
              && Row(d) && c' <= 16 && ChainLength(d) < ChainLength(s)
              && Lookup(s, c) == Lookup(d, c')
  {
    if s == JAM {
      JamRow(c);
    }
  }
}
