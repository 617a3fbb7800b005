/**
 The scanner of configuration texts: the token patterns stated on strings, and the
 table-driven match loop proved to return the longest matching token.
 */
module Scanner {
  import opened ScannerTables

  // ---------------------------------------------------------------- token patterns

  predicate Blank(c: char) {
    c == ' ' || c == '\t'
  }

  predicate Digit(c: char) {
    '0' <= c <= '9'
  }

  /** Characters that no STRING may contain, quoted or not. */
  predicate Special(c: char) {
    c == '\n' || c == '\r' || c == '#' || c == '=' || c == '[' || c == ']' || c == '{' || c == '}'
  }

  predicate WordChar(c: char) {
    !Special(c) && !Blank(c) && c != ','
  }

  predicate AllWord(s: string) {
    forall i :: 0 <= i < |s| ==> WordChar(s[i])
  }

  predicate NoSpecial(s: string) {
    forall i :: 0 <= i < |s| ==> !Special(s[i])
  }

  predicate CommentText(s: string) {
    forall i :: 0 <= i < |s| ==> s[i] != '#' && s[i] != '\n'
  }

  predicate IsWord(s: string) {
    s != [] && AllWord(s)
  }

  predicate IsQuoted(s: string) {
    |s| >= 2 && s[0] == '"' && s[|s| - 1] == '"' && NoSpecial(s)
  }

  predicate DatePrefix(s: string) {
    |s| <= 10 && forall i :: 0 <= i < |s| ==> if i == 4 || i == 7 then s[i] == '/' else Digit(s[i])
  }

  predicate IsDate(s: string) {
    |s| == 10 && DatePrefix(s)
  }

  predicate IsSectionComment(s: string) {
    |s| >= 1 && s[0] == '#' && CommentText(s[1..])
  }

  predicate IsItemComment(s: string) {
    |s| >= 2 && s[0] == '#' && s[1] == '#' && CommentText(s[2..])
  }

  predicate Only(s: string, c: char) {
    |s| == 1 && s[0] == c
  }

  /** The first of the scanner's rules that matches the whole of s, 0 if there is none. */
  function FirstRule(s: string): (r: nat)
    ensures r <= 16
  {
    if Only(s, '=') then 1
    else if Only(s, '(') then 2
    else if Only(s, ')') then 3
    else if Only(s, '[') then 4
    else if Only(s, ']') then 5
    else if Only(s, '{') then 6
    else if Only(s, '}') then 7
    else if IsDate(s) then 8
    else if IsQuoted(s) then 9
    else if IsWord(s) then 10
    else if IsItemComment(s) then 11
    else if IsSectionComment(s) then 12
    else if Only(s, ',') then 13
    else if |s| == 1 && Blank(s[0]) then 14
    else if Only(s, '\r') then 15
    else if Only(s, '\n') then 16
    else 0
  }

  // ---------------------------------------------------------------- what a state means

  /** No rule matches s, nor any extension of s. */
  ghost predicate Hopeless(s: string) {
    forall t: string :: FirstRule(s + t) == 0
  }

  lemma HopelessWord(s: string, i: nat)
    requires |s| >= 2 && s[0] != '"' && s[0] != '#' && i < |s| && !WordChar(s[i])
    ensures Hopeless(s)
  {
    forall t: string
      ensures FirstRule(s + t) == 0
    {
      assert (s + t)[i] == s[i];
      assert IsDate(s + t) ==> AllWord(s + t);
    }
  }

  lemma HopelessQuoted(s: string, i: nat)
    requires |s| >= 2 && s[0] == '"' && i < |s| && Special(s[i])
    ensures Hopeless(s)
  {
    forall t: string
      ensures FirstRule(s + t) == 0
    {
      assert (s + t)[i] == s[i];
      assert (s + t)[0] == '"';
      assert IsDate(s + t) ==> AllWord(s + t);
    }
  }

  lemma HopelessComment(s: string, i: nat)
    requires |s| >= 2 && s[0] == '#' && i < |s| && (s[i] == '#' || s[i] == '\n')
    requires if s[1] == '#' then i >= 2 else i >= 1
    ensures Hopeless(s)
  {
    forall t: string
      ensures FirstRule(s + t) == 0
    {
      var u := s + t;
      assert u[0] == '#' && u[1] == s[1] && u[i] == s[i];
      assert u[1..][i - 1] == s[i];
      assert s[1] == '#' ==> u[2..][i - 2] == s[i];
      assert s[1] == '#' ==> u[1..][0] == '#';
    }
  }

  function DateState(n: nat): nat
    requires 1 <= n <= 10
  {
    if n == 1 then 15 else if n == 2 then 27 else 27 + n
  }

  /** The strings that take the automaton from its start state to state q. */
  ghost predicate Reaches(s: string, q: nat) {
    match q
    case 1 => s == []
    case 6 => |s| == 1 && WordChar(s[0]) && s[0] != '"' && s[0] != '(' && s[0] != ')' && !Digit(s[0])
    case 7 => |s| == 1 && Blank(s[0])
    case 8 => Only(s, '\n')
    case 9 => Only(s, '\r')
    case 10 => Only(s, '"')
    case 11 => Only(s, '#')
    case 12 => Only(s, '(')
    case 13 => Only(s, ')')
    case 14 => Only(s, ',')
    case 16 => Only(s, '=')
    case 17 => Only(s, '[')
    case 18 => Only(s, ']')
    case 19 => Only(s, '{')
    case 20 => Only(s, '}')
    case 21 => |s| >= 2 && AllWord(s) && s[0] != '"' && !DatePrefix(s)
    case 22 => |s| >= 2 && s[0] == '"' && AllWord(s) && s[|s| - 1] != '"'
    case 24 => |s| >= 2 && s[0] == '"' && AllWord(s) && s[|s| - 1] == '"'
    case 23 => |s| >= 2 && s[0] == '"' && NoSpecial(s) && !AllWord(s) && s[|s| - 1] != '"'
    case 28 => |s| >= 2 && s[0] == '"' && NoSpecial(s) && !AllWord(s) && s[|s| - 1] == '"'
    case 25 => |s| >= 2 && s[0] == '#' && CommentText(s[1..])
    case 26 => |s| == 2 && s[0] == '#' && s[1] == '#'
    case 29 => |s| >= 3 && s[0] == '#' && s[1] == '#' && CommentText(s[2..])
    case 38 => Hopeless(s)
    case _ => 1 <= |s| <= 10 && DatePrefix(s) && q == DateState(|s|)
  }

  lemma ClassMeaning(c: char)
    ensures var k := EquivalenceClass(c);
            && (WordClass(k) <==> WordChar(c))
            && (QuotedClass(k) <==> !Special(c))
            && (k == 11 <==> Digit(c)) && (k == 10 <==> c == '/')
            && (k == 5 <==> c == '"') && (k == 6 <==> c == '#') && (k == 3 <==> c == '\n')
  {
  }

  /** What a state accepts is what the patterns say of every string that reaches it. */
  lemma AcceptMeaning(s: string, q: nat)
    requires Reaches(s, q) && q != 1
    ensures YyAccept(q) == FirstRule(s)
  {
    if q == JAM {
      assert s + [] == s;
    } else if q == 25 {
      assert |s| >= 2 ==> s[1..][0] == s[1];
    } else if q == 11 || q == 26 {
      assert s[1..] == if q == 11 then "" else "#";
    } else if q == 29 {
      assert s[1..][0] == '#';
    }
  }

  lemma AppendFacts(s: string, c: char)
    ensures var u := s + [c];
            && (AllWord(u) <==> AllWord(s) && WordChar(c))
            && (NoSpecial(u) <==> NoSpecial(s) && !Special(c))
            && (DatePrefix(u) <==> |s| < 10 && DatePrefix(s) && if |s| == 4 || |s| == 7 then c == '/' else Digit(c))
  {
    var u := s + [c];
    assert forall i :: 0 <= i < |s| ==> u[i] == s[i];
    assert u[|s|] == c;
    if AllWord(u) {
      assert forall i :: 0 <= i < |s| ==> WordChar(u[i]);
    }
    if NoSpecial(u) {
      assert forall i :: 0 <= i < |s| ==> !Special(u[i]);
    }
    if DatePrefix(u) {
      assert forall i :: 0 <= i < |s| ==> if i == 4 || i == 7 then u[i] == '/' else Digit(u[i]);
    }
  }

  lemma CommentAppend(s: string, k: nat, c: char)
    requires k <= |s|
    ensures (s + [c])[k..] == s[k..] + [c]
    ensures CommentText((s + [c])[k..]) <==> CommentText(s[k..]) && c != '#' && c != '\n'
  {
    var u := s[k..] + [c];
    assert (s + [c])[k..] == u;
    assert forall i :: 0 <= i < |s[k..]| ==> u[i] == s[k..][i];
    assert u[|s[k..]|] == c;
    if CommentText(u) {
      assert forall i :: 0 <= i < |s[k..]| ==> u[i] != '#' && u[i] != '\n';
    }
  }

  lemma FirstStep(c: char)
    ensures Reaches([c], Delta(1, EquivalenceClass(c)))
  {
  }

  lemma WordStep(s: string, q: nat, c: char)
    requires Reaches(s, q) && (q == 6 || q == 12 || q == 13 || q == 21)
    ensures Reaches(s + [c], Delta(q, EquivalenceClass(c)))
  {
    hide EquivalenceClass, WordClass, QuotedClass;
    ClassMeaning(c);
    AppendFacts(s, c);
    var u := s + [c];
    assert u[0] == s[0] && u[|s|] == c;
    if !WordChar(c) {
      HopelessWord(u, |s|);
    }
  }

  lemma DateStep(s: string, q: nat, c: char)
    requires Reaches(s, q) && (q == 15 || q == 27 || 30 <= q <= 37)
    ensures Reaches(s + [c], Delta(q, EquivalenceClass(c)))
  {
    hide EquivalenceClass, WordClass, QuotedClass;
    ClassMeaning(c);
    AppendFacts(s, c);
    var u := s + [c];
    assert u[0] == s[0] && u[|s|] == c;
    if !WordChar(c) {
      HopelessWord(u, |s|);
    }
  }

  lemma QuoteStep(s: string, q: nat, c: char)
    requires Reaches(s, q) && (q == 10 || q == 22 || q == 23 || q == 24 || q == 28)
    ensures Reaches(s + [c], Delta(q, EquivalenceClass(c)))
  {
    ClassMeaning(c);
    AppendFacts(s, c);
    var u := s + [c];
    assert u[0] == s[0] && u[|s|] == c;
    if Special(c) {
      HopelessQuoted(u, |s|);
    }
  }

  lemma CommentStep(s: string, q: nat, c: char)
    requires Reaches(s, q) && (q == 11 || q == 25 || q == 26 || q == 29)
    ensures Reaches(s + [c], Delta(q, EquivalenceClass(c)))
  {
    ClassMeaning(c);
    var u := s + [c];
    assert u[0] == s[0] && u[|s|] == c;
    CommentAppend(s, if q == 11 || q == 25 then 1 else 2, c);
    if q == 25 {
      assert s[1..][0] == s[1] == u[1];
    }
    if (c == '#' && q != 11) || c == '\n' {
      HopelessComment(u, |s|);
    }
  }

  /** One transition of the automaton keeps the meaning of its state. */
  lemma ReachStep(s: string, q: nat, c: char)
    requires Reaches(s, q) && Live(q)
    ensures Reaches(s + [c], Delta(q, EquivalenceClass(c)))
  {
    if q == 1 {
      FirstStep(c);
      assert s + [c] == [c];
    } else if q == 10 || q == 22 || q == 23 || q == 24 || q == 28 {
      QuoteStep(s, q, c);
    } else if q == 11 || q == 25 || q == 26 || q == 29 {
      CommentStep(s, q, c);
    } else if q == 6 || q == 12 || q == 13 || q == 21 {
      WordStep(s, q, c);
    } else {
      DateStep(s, q, c);
    }
  }

  /** A state without transitions cannot be extended to a longer token. */
  lemma DeadEnd(s: string, q: nat, t: string)
    requires Reaches(s, q) && YyBase(q) == JAM_BASE && t != []
    ensures FirstRule(s + t) == 0
  {
    if q != JAM {
      var u := s + [t[0]];
      HopelessWord(u, 0);
      assert u + t[1..] == s + t;
    }
  }

  lemma ReachedStates(s: string, q: nat)
    requires Reaches(s, q)
    ensures Live(q) <==> YyBase(q) != JAM_BASE
  {
  }

  // ---------------------------------------------------------------- the match loop

  /** No rule matches a prefix of s longer than n. */
  ghost predicate NoneLonger(s: string, n: nat) {
    forall m :: n < m <= |s| ==> FirstRule(s[..m]) == 0
  }

  /** n is the length and r the rule of the longest matching token at the front of s. */
  ghost predicate Longest(s: string, n: nat, r: nat) {
    1 <= n <= |s| && r == FirstRule(s[..n]) != 0 && NoneLonger(s, n)
  }

  /** One entry of the compressed tables: the inner loop over default states. */
  method NextState(state: nat, class_: nat) returns (next: nat)
    requires Live(state) && 1 <= class_ <= 16
    ensures next == Delta(state, class_)
  {
    TablesDecode(state, class_);
    var s, c := state, class_;
    LookupRound(s, c);
    while YyChk(YyBase(s) + c) != s
      invariant Row(s) && c <= 16
      invariant Lookup(s, c) == Delta(state, class_)
      decreases ChainLength(s)
    {
      LookupRound(s, c);
      s := YyDef(s);
      if s >= 39 {
        c := YyMeta(c);
      }
    }
    LookupRound(s, c);
    next := YyNxt(YyBase(s) + c);
  }

  /** The scan of one token: run the automaton until it jams or the text ends, remembering the
      last accepting position, and back up to it if the final state accepts nothing. */
  method MatchToken(text: string) returns (length: nat, act: nat)
    requires text != []
    ensures Longest(text, length, act)
  {
    hide FirstRule;
    var cp, state := 0, 1;
    var lastState, lastPos := 0, 0;
    var go := true;
    while go
      invariant cp <= |text| && Reaches(text[..cp], state)
      invariant go <==> cp < |text| && Live(state)
      invariant cp == 0 ==> state == 1
      invariant cp == 1 ==> YyAccept(state) != 0
      invariant lastPos <= cp && (cp >= 2 ==> lastPos >= 1)
      invariant cp >= 1 ==> lastPos < cp
      invariant lastPos >= 1 ==> YyAccept(lastState) == FirstRule(text[..lastPos]) != 0
      invariant forall m :: lastPos < m < cp ==> FirstRule(text[..m]) == 0
      decreases |text| - cp, go
    {
      if YyAccept(state) != 0 {
        lastState, lastPos := state, cp;
      }
      if cp >= 1 {
        AcceptMeaning(text[..cp], state);
      }
      ReachStep(text[..cp], state, text[cp]);
      assert text[..cp + 1] == text[..cp] + [text[cp]];
      state := NextState(state, EquivalenceClass(text[cp]));
      cp := cp + 1;
      ReachedStates(text[..cp], state);
      go := cp < |text| && YyBase(state) != JAM_BASE;
    }
    AcceptMeaning(text[..cp], state);
    forall m | cp < m <= |text|
      ensures FirstRule(text[..m]) == 0
    {
      ReachedStates(text[..cp], state);
      DeadEnd(text[..cp], state, text[cp..m]);
      assert text[..cp] + text[cp..m] == text[..m];
    }
    act := YyAccept(state);
    length := cp;
    if act == 0 {
      length := lastPos;
      act := YyAccept(lastState);
    }
  }
}
