/**
 The tables of the LALR(1) parser and the action they encode for each state and lookahead.
 */
module ParserTables {
  import opened Grammar

  const YYFINAL: nat := 3
  const YYLAST: nat := 22
  const YYNTOKENS: nat := 17
  const YYPACT_NINF: int := -8
  const YYTERROR: nat := 1

  function YyPact(state: nat): int {
    match state
    case 1 => 6
    case 2 => 11
    case 5 => 5
    case 7 => -2
    case 8 => 7
    case 9 => 3
    case 10 => 12
    case 12 => 8
    case 13 => 1
    case 16 => 10
    case 17 => 2
    case 19 => -1
    case 21 => -3
    case 25 => -7
    case 27 => 16
    case _ => YYPACT_NINF
  }

  function YyDefact(state: nat): nat {
    match state
    case 0 => 3
    case 2 => 16
    case 3 => 1
    case 4 => 4
    case 6 => 17
    case 9 => 6
    case 11 => 8
    case 13 => 5
    case 14 => 7
    case 15 => 9
    case 18 => 19
    case 20 => 11
    case 22 => 10
    case 23 => 14
    case 24 => 12
    case 26 => 13
    case 28 => 15
    case _ => 0
  }

  function YyTable(i: nat): int {
    match i
    case 0 => 23
    case 1 => 8
    case 2 => 20
    case 3 => 26
    case 4 => -18
    case 5 => -18
    case 6 => 3
    case 7 => 24
    case 8 => 21
    case 9 => 27
    case 10 => 6
    case 11 => -2
    case 12 => 7
    case 13 => 17
    case 14 => 18
    case 15 => 9
    case 16 => 10
    case 17 => 19
    case 18 => 12
    case 19 => 28
    case 22 => 14
    case _ => 0
  }

  function YyCheck(i: nat): int {
    match i
    case 0 => 3
    case 1 => 3
    case 2 => 3
    case 3 => 10
    case 4 => 3
    case 5 => 4
    case 6 => 0
    case 7 => 10
    case 8 => 9
    case 9 => 16
    case 10 => 5
    case 11 => 0
    case 12 => 7
    case 13 => 3
    case 14 => 4
    case 15 => 8
    case 16 => 13
    case 17 => 15
    case 18 => 6
    case 19 => 3
    case 22 => 14
    case _ => -1
  }

  function YyPgoto(nonterminal: nat): int {
    -8
  }

  function YyDefgoto(nonterminal: nat): int {
    match nonterminal
    case 1 => 1
    case 2 => 2
    case 3 => 4
    case 4 => 11
    case 5 => 13
    case 6 => 15
    case 7 => 22
    case 8 => 25
    case 9 => 5
    case 10 => 16
    case _ => -1
  }

  datatype Move = Shift(state: nat) | Reduce(rule: nat) | Error

  /** yydefault: the default reduction of a state. */
  function DefaultMove(state: nat): Move {
    if YyDefact(state) == 0 then Error else Reduce(YyDefact(state))
  }

  /** yybackup: what to do in a state on a lookahead symbol. */
  function Decide(state: nat, symbol: nat): Move {
    if YyPact(state) == YYPACT_NINF then DefaultMove(state)
    else
      var n := YyPact(state) + symbol;
      if n < 0 || YYLAST < n || YyCheck(n) != symbol then DefaultMove(state)
      else if YyTable(n) <= 0 then Reduce(-YyTable(n))
      else Shift(YyTable(n))
  }

  /** The state after a reduction to `symbol` uncovers `state`. */
  function Goto(state: nat, symbol: nat): int
    requires symbol >= YYNTOKENS
  {
    var n := YyPgoto(symbol - YYNTOKENS) + state;
    if 0 <= n <= YYLAST && YyCheck(n) == state then YyTable(n) else YyDefgoto(symbol - YYNTOKENS)
  }

  /** No state shifts the error token, so error recovery always unwinds the whole stack. */
  lemma ErrorTokenIsNeverShifted(state: nat)
    ensures var n := YyPact(state) + YYTERROR; 0 <= n <= YYLAST ==> YyCheck(n) != YYTERROR
  {
  }

  function On(symbol: nat, a: nat, to: nat): Move {
    if symbol == a then Shift(to) else Error
  }

  function OnEither(symbol: nat, a: nat, to: nat, a': nat, to': nat): Move {
    if symbol == a then Shift(to) else if symbol == a' then Shift(to') else Error
  }

  /** The actions, decoded. */
  function Decoded(state: nat, symbol: nat): Move {
    match state
    case 0 => Reduce(3)
    case 1 => On(symbol, 0, 3)
    case 2 => Reduce(if symbol == 0 then 2 else 16)
    case 4 => Reduce(4)
    case 5 => OnEither(symbol, 5, 6, 7, 7)
    case 6 => Reduce(17)
    case 7 => On(symbol, 3, 8)
    case 8 => On(symbol, 8, 9)
    case 9 => if symbol == 13 then Shift(10) else Reduce(6)
    case 10 => On(symbol, 6, 12)
    case 11 => Reduce(8)
    case 12 => On(symbol, 14, 14)
    case 13 => Reduce(if symbol == 3 || symbol == 4 then 18 else 5)
    case 14 => Reduce(7)
    case 15 => Reduce(9)
    case 16 => OnEither(symbol, 3, 17, 4, 18)
    case 17 => On(symbol, 15, 19)
    case 18 => Reduce(19)
    case 19 => OnEither(symbol, 3, 20, 9, 21)
    case 20 => Reduce(11)
    case 21 => OnEither(symbol, 3, 23, 10, 24)
    case 22 => Reduce(10)
    case 23 => Reduce(14)
    case 24 => Reduce(12)
    case 25 => OnEither(symbol, 10, 26, 16, 27)
    case 26 => Reduce(13)
    case 27 => On(symbol, 3, 28)
    case 28 => Reduce(15)
    case _ => Error
  }

  lemma FirstTablesDecode(state: nat, symbol: nat)
    requires state <= 9 && state != YYFINAL && symbol <= 16
    ensures Decide(state, symbol) == Decoded(state, symbol)
  {
    match state
    case 1 =>
    case 2 =>
    case 5 =>
    case 7 =>
    case 8 =>
    case 9 =>
    case _ =>
  }

  lemma LastTablesDecode(state: nat, symbol: nat)
    requires 10 <= state <= 28 && symbol <= 16
    ensures Decide(state, symbol) == Decoded(state, symbol)
  {
    match state
    case 10 =>
    case 12 =>
    case 13 =>
    case 16 =>
    case 17 =>
    case 19 =>
    case 21 =>
    case 25 =>
    case 27 =>
    case _ =>
  }

  lemma TablesDecode(state: nat, symbol: nat)
    requires state <= 28 && state != YYFINAL && symbol <= 16
    ensures Decide(state, symbol) == Decoded(state, symbol)
  {
    if state <= 9 {
      FirstTablesDecode(state, symbol);
    } else {
      LastTablesDecode(state, symbol);
    }
  }

  lemma GotoDecode(state: nat, symbol: nat)
    requires state <= 28 && CONFIGURATION <= symbol <= ITEM_COMMENTS
    ensures Goto(state, symbol) == YyDefgoto(symbol - YYNTOKENS) >= 1
  {
  }
}
