/**
 The table-driven parser: state stack, value stack, shifts, reductions and error recovery.
 It computes exactly the Parse function, never needs more than 16 stack entries, and always
 terminates.
 */
module Parser {
  import opened ConfigModel
  import opened Grammar
  import opened Reader
  import opened ParserTables

  /** The state that lies under a state: the whole stack is determined by its top. */
  function Under(state: nat): (u: nat)
    ensures state != 0 ==> u < state
  {
    match state
    case 1 => 0
    case 2 => 0
    case 3 => 1
    case 4 => 2
    case 5 => 2
    case 6 => 5
    case 7 => 5
    case 8 => 7
    case 9 => 8
    case 10 => 9
    case 11 => 9
    case 12 => 10
    case 13 => 11
    case 14 => 12
    case 15 => 13
    case 16 => 13
    case 17 => 16
    case 18 => 16
    case 19 => 17
    case 20 => 19
    case 21 => 19
    case 22 => 19
    case 23 => 21
    case 24 => 21
    case 25 => 23
    case 26 => 25
    case 27 => 25
    case 28 => 27
    case _ => 0
  }

  function Stack(state: nat): (ss: seq<nat>)
    ensures ss != [] && ss[|ss| - 1] == state
    decreases state
  {
    if state == 0 then [0] else Stack(Under(state)) + [state]
  }

  /** How many entries the stack has when `state` is on top: never more than 16, so the
      stack-growth branch is never taken. */
  function Depth(state: nat): (n: nat)
    ensures 1 <= n <= 16
  {
    if state == 0 then 1
    else if state <= 2 then 2
    else if state <= 5 then 3
    else if state <= 7 then 4
    else if state == 8 then 5
    else if state == 9 then 6
    else if state <= 11 then 7
    else if state <= 13 then 8
    else if state <= 16 then 9
    else if state <= 18 then 10
    else if state == 19 then 11
    else if state <= 22 then 12
    else if state <= 24 then 13
    else if state == 25 then 14
    else if state <= 27 then 15
    else 16
  }

  lemma UnderDepth(state: nat)
    requires 1 <= state <= 28
    ensures Depth(state) == 1 + Depth(Under(state))
  {
  }

  lemma {:induction false} StackDepth(state: nat)
    requires state <= 28
    ensures |Stack(state)| == Depth(state) <= 16
    decreases state
  {
    if state != 0 {
      UnderDepth(state);
      StackDepth(Under(state));
    }
  }

  /** The state k entries below the top. */
  function UnderBy(state: nat, k: nat): (u: nat)
    ensures u <= state
    decreases k
  {
    if k == 0 then state else UnderBy(Under(state), k - 1)
  }

  lemma StackTop(state: nat)
    requires state != 0
    ensures Stack(state) == Stack(Under(state)) + [state]
  {
  }

  lemma {:induction false} StackPop(state: nat, k: nat)
    requires state <= 28 && k < Depth(state)
    ensures |Stack(state)| == Depth(state)
    ensures Stack(state)[..Depth(state) - k] == Stack(UnderBy(state, k))
    decreases k
  {
    hide Under, Stack;
    StackDepth(state);
    if k == 0 {
      assert Stack(state)[..Depth(state)] == Stack(state);
    } else {
      UnderDepth(state);
      StackTop(state);
      StackPop(Under(state), k - 1);
      WithoutLast(Stack(Under(state)), state, Depth(state) - k);
    }
  }

  lemma WithoutLast<T>(s: seq<T>, last: T, n: nat)
    requires n <= |s|
    ensures (s + [last])[..n] == s[..n]
  {
  }

  // ---------------------------------------------------------------- what a stack means

  /** The value stack vs has the depth and the kinds of values that belong to `state`. */
  predicate Typed(state: nat, vs: seq<Val>) {
    && |vs| == Depth(state)
    && (1 <= state ==> vs[1].AConfig?)
    && (state == 4 ==> vs[2].ASection?)
    && (5 <= state ==> vs[2].Text?)
    && (state == 6 ==> vs[3].Text?)
    && (8 <= state ==> vs[4].Text?)
    && (state == 12 || state == 14 ==> vs[7].Text?)
    && (state == 11 || state == 13 || 15 <= state ==> vs[6].Text?)
    && (state == 13 || 15 <= state ==> vs[7].ASection?)
    && (state == 15 ==> vs[8].AnItem?)
    && (16 <= state ==> vs[8].Text?)
    && (17 <= state ==> vs[9].Text?)
    && (state == 20 ==> vs[11].Text?)
    && (state == 22 ==> vs[11].AnItem?)
    && (state == 23 || 25 <= state ==> vs[12].Text?)
    && (25 <= state ==> vs[13].AnItem?)
    && (state == 28 ==> vs[15].Text?)
  }

  /** The entries of the value stack that matter, once it is deep enough. */
  function ConfigIn(vs: seq<Val>): Config
  {
    if |vs| > 1 && vs[1].AConfig? then vs[1].config else []
  }

  function TextIn(vs: seq<Val>, i: nat): string
  {
    if i < |vs| && vs[i].Text? then vs[i].s else ""
  }

  function ItemsIn(vs: seq<Val>): seq<Item>
  {
    if |vs| > 7 && vs[7].ASection? then vs[7].section.items else []
  }

  function ValuesIn(vs: seq<Val>, i: nat): seq<string>
  {
    if i < |vs| && vs[i].AnItem? then vs[i].item.values else []
  }

  function OpenIn(vs: seq<Val>): Open {
    Open(ConfigIn(vs), TextIn(vs, 2), TextIn(vs, 4), TextIn(vs, 6), ItemsIn(vs))
  }

  function NewItem(vs: seq<Val>, values: seq<string>): Progress {
    InItems(OpenIn(vs).Add(Item(TextIn(vs, 9), TextIn(vs, 8), values)))
  }

  /** What a stack stands for: the progress of the reading. */
  function Meaning(state: nat, vs: seq<Val>): Progress {
    var config := ConfigIn(vs);
    match state
    case 0 => Between([])
    case 1 => Done(config)
    case 2 => Between(config)
    case 3 => Done(config)
    case 4 => Between(if |vs| > 2 && vs[2].ASection? then config + [vs[2].section] else config)
    case 5 => InComments(config, TextIn(vs, 2))
    case 6 => InComments(config, Join(TextIn(vs, 2), TextIn(vs, 3)))
    case 7 => AtName(config, TextIn(vs, 2))
    case 8 => AfterName(config, TextIn(vs, 2), TextIn(vs, 4))
    case 9 => AfterHeader(config, TextIn(vs, 2), TextIn(vs, 4))
    case 10 => AtDate(config, TextIn(vs, 2), TextIn(vs, 4))
    case 11 => InItems(OpenIn(vs))
    case 12 => AfterDate(config, TextIn(vs, 2), TextIn(vs, 4), TextIn(vs, 7))
    case 13 => InItems(OpenIn(vs))
    case 14 => InItems(Open(config, TextIn(vs, 2), TextIn(vs, 4), TextIn(vs, 7), []))
    case 15 => if |vs| > 8 && vs[8].AnItem? then InItems(OpenIn(vs).Add(vs[8].item)) else Between([])
    case 16 => InItemComments(OpenIn(vs), TextIn(vs, 8))
    case 17 => AfterItemName(OpenIn(vs), TextIn(vs, 8), TextIn(vs, 9))
    case 18 => InItemComments(OpenIn(vs), Join(TextIn(vs, 8), TextIn(vs, 9)))
    case 19 => AtValue(OpenIn(vs), TextIn(vs, 8), TextIn(vs, 9))
    case 20 => NewItem(vs, [TextIn(vs, 11)])
    case 21 => AtList(OpenIn(vs), TextIn(vs, 8), TextIn(vs, 9))
    case 22 => NewItem(vs, ValuesIn(vs, 11))
    case 23 => InList(OpenIn(vs), TextIn(vs, 8), TextIn(vs, 9), [TextIn(vs, 12)])
    case 24 => NewItem(vs, [])
    case 25 => InList(OpenIn(vs), TextIn(vs, 8), TextIn(vs, 9), [TextIn(vs, 12)] + ValuesIn(vs, 13))
    case 26 => NewItem(vs, [TextIn(vs, 12)] + ValuesIn(vs, 13))
    case 27 => AfterComma(OpenIn(vs), TextIn(vs, 8), TextIn(vs, 9), [TextIn(vs, 12)] + ValuesIn(vs, 13))
    case 28 => InList(OpenIn(vs), TextIn(vs, 8), TextIn(vs, 9), [TextIn(vs, 12)] + ValuesIn(vs, 13) + [TextIn(vs, 15)])
    case _ => Between([])
  }

  function LookaheadSymbol(rest: seq<Token>): nat {
    if rest == [] then 0 else Symbol(rest[0])
  }

  /** A shift is the effect of one token. */
  lemma HeaderShift(state: nat, vs: seq<Val>, t: Token, n: nat)
    requires state <= 12 && Typed(state, vs) && Decoded(state, Symbol(t)) == Shift(n)
    ensures n <= 28 && n != YYFINAL && Under(n) == state && Typed(n, vs + [TokenValue(t)])
    ensures Advance(Meaning(state, vs), t) == Some(Meaning(n, vs + [TokenValue(t)]))
  {
  }

  lemma ItemShift(state: nat, vs: seq<Val>, t: Token, n: nat)
    requires 13 <= state <= 20 && Typed(state, vs) && Decoded(state, Symbol(t)) == Shift(n)
    ensures n <= 28 && n != YYFINAL && Under(n) == state && Typed(n, vs + [TokenValue(t)])
    ensures Advance(Meaning(state, vs), t) == Some(Meaning(n, vs + [TokenValue(t)]))
  {
  }

  lemma ListShift(state: nat, vs: seq<Val>, t: Token, n: nat)
    requires 21 <= state <= 28 && Typed(state, vs) && Decoded(state, Symbol(t)) == Shift(n)
    ensures n <= 28 && n != YYFINAL && Under(n) == state && Typed(n, vs + [TokenValue(t)])
    ensures Advance(Meaning(state, vs), t) == Some(Meaning(n, vs + [TokenValue(t)]))
  {
  }

  lemma ErrorAdvance(state: nat, vs: seq<Val>, t: Token)
    requires state <= 28 && Typed(state, vs) && state != YYFINAL
    requires Decoded(state, Symbol(t)) == Error
    ensures Advance(Meaning(state, vs), t) == None
  {
    if state <= 10 {
      HeaderErrorAdvance(state, vs, t);
    } else {
      ItemErrorAdvance(state, vs, t);
    }
  }

  lemma HeaderErrorAdvance(state: nat, vs: seq<Val>, t: Token)
    requires state <= 10 && Typed(state, vs) && state != YYFINAL
    requires Decoded(state, Symbol(t)) == Error
    ensures Advance(Meaning(state, vs), t) == None
  {
  }

  lemma ItemErrorAdvance(state: nat, vs: seq<Val>, t: Token)
    requires 11 <= state <= 28 && Typed(state, vs)
    requires Decoded(state, Symbol(t)) == Error
    ensures Advance(Meaning(state, vs), t) == None
  {
  }

  lemma ErrorFinish(state: nat, vs: seq<Val>)
    requires state <= 28 && Typed(state, vs) && state != YYFINAL
    requires Decoded(state, 0) == Error
    ensures Finish(Meaning(state, vs)) == None
  {
  }

  // ---------------------------------------------------------------- reductions

  /** How many reductions can still happen before the next token is needed. */
  function Rank(state: nat): nat {
    match state
    case 0 => 3
    case 1 => 1
    case 2 => 2
    case 4 => 3
    case 6 => 1
    case 9 => 6
    case 11 => 5
    case 13 => 4
    case 14 => 6
    case 15 => 5
    case 18 => 1
    case 20 => 7
    case 22 => 6
    case 23 => 1
    case 24 => 7
    case 26 => 7
    case 28 => 1
    case _ => 0
  }

  /** The state entered by a reduction. */
  function Target(rule: nat): nat {
    var n := YyDefgoto(LeftSide(rule) - YYNTOKENS);
    if n >= 0 then n else 0
  }

  function Args(vs: seq<Val>, rule: nat): seq<Val>
    requires |RightSide(rule)| <= |vs|
  {
    vs[|vs| - |RightSide(rule)|..]
  }

  function Rest(vs: seq<Val>, rule: nat): seq<Val>
    requires |RightSide(rule)| <= |vs|
  {
    vs[..|vs| - |RightSide(rule)|]
  }

  /** The rules a state may reduce by. */
  predicate ReducesBy(state: nat, rule: nat) {
    match state
    case 0 => rule == 3
    case 2 => rule == 2 || rule == 16
    case 4 => rule == 4
    case 6 => rule == 17
    case 9 => rule == 6
    case 11 => rule == 8
    case 13 => rule == 18 || rule == 5
    case 14 => rule == 7
    case 15 => rule == 9
    case 18 => rule == 19
    case 20 => rule == 11
    case 22 => rule == 10
    case 23 => rule == 14
    case 24 => rule == 12
    case 26 => rule == 13
    case 28 => rule == 15
    case _ => false
  }

  lemma ReduceFacts(state: nat, rule: nat)
    requires state <= 28 && ReducesBy(state, rule)
    ensures 2 <= rule <= 19 && |RightSide(rule)| < Depth(state)
    ensures 1 <= Target(rule) <= 28 && Target(rule) != YYFINAL
    ensures Rank(Target(rule)) < Rank(state)
  {
  }

  lemma UnderFour(state: nat)
    ensures UnderBy(state, 0) == state
    ensures UnderBy(state, 1) == Under(state)
    ensures UnderBy(state, 2) == Under(Under(state))
    ensures UnderBy(state, 3) == Under(Under(Under(state)))
    ensures UnderBy(state, 4) == Under(Under(Under(Under(state))))
  {
    assert UnderBy(Under(state), 1) == Under(Under(state));
    assert UnderBy(Under(state), 2) == Under(Under(Under(state)));
    assert UnderBy(Under(Under(state)), 2) == Under(Under(Under(Under(state))));
    assert UnderBy(Under(state), 3) == UnderBy(Under(Under(state)), 2);
  }

  lemma SectionUncovers(rule: nat)
    requires ReducesBy(13, rule)
    ensures Under(Target(rule)) == UnderBy(13, |RightSide(rule)|)
  {
    UnderFour(9);
    assert UnderBy(13, 6) == UnderBy(11, 5) == UnderBy(9, 4);
  }

  lemma HeaderUncovers(state: nat, rule: nat)
    requires state <= 14 && ReducesBy(state, rule)
    ensures Under(Target(rule)) == UnderBy(state, |RightSide(rule)|)
  {
    match state
    case 13 => SectionUncovers(rule);
    case 0 =>
    case 2 => UnderFour(2);
    case 4 => UnderFour(4);
    case 6 => UnderFour(6);
    case 9 =>
    case 11 =>
    case 14 => UnderFour(14);
  }

  lemma ItemUncovers(state: nat, rule: nat)
    requires 15 <= state <= 22 && ReducesBy(state, rule)
    ensures Under(Target(rule)) == UnderBy(state, |RightSide(rule)|)
  {
    match state
    case 15 => UnderFour(15);
    case 18 => UnderFour(18);
    case 20 => UnderFour(20);
    case 22 => UnderFour(22);
  }

  lemma ListUncovers(state: nat, rule: nat)
    requires 23 <= state <= 28 && ReducesBy(state, rule)
    ensures Under(Target(rule)) == UnderBy(state, |RightSide(rule)|)
  {
    UnderFour(state);
    match state
    case 23 =>
    case 24 =>
    case 26 =>
    case 28 =>
  }

  /** A reduction uncovers the state from which its target is entered. */
  lemma ReduceUncovers(state: nat, rule: nat)
    requires state <= 28 && ReducesBy(state, rule)
    ensures Under(Target(rule)) == UnderBy(state, |RightSide(rule)|)
  {
    if state <= 14 {
      HeaderUncovers(state, rule);
    } else if state <= 22 {
      ItemUncovers(state, rule);
    } else {
      ListUncovers(state, rule);
    }
  }

  /** A reduction changes the stack but not what it stands for. */
  predicate KeepsMeaning(state: nat, vs: seq<Val>, rule: nat)
    requires |RightSide(rule)| <= |vs|
  {
    match Action(rule, Args(vs, rule))
    case None => false
    case Some(v) =>
      var vs' := Rest(vs, rule) + [v];
      Typed(Target(rule), vs') && Meaning(Target(rule), vs') == Meaning(state, vs)
  }

  lemma ListEndReduction(vs: seq<Val>, rule: nat)
    requires Typed(26, vs) && ReducesBy(26, rule) && |RightSide(rule)| < |vs|
    ensures KeepsMeaning(26, vs, rule)
  {
    assert Args(vs, rule) == [vs[11], vs[12], vs[13], vs[14]];
  }

  lemma ListGrowthReduction(vs: seq<Val>, rule: nat)
    requires Typed(28, vs) && ReducesBy(28, rule) && |RightSide(rule)| < |vs|
    ensures KeepsMeaning(28, vs, rule)
  {
    assert Args(vs, rule) == [vs[13], vs[14], vs[15]];
    assert [TextIn(vs, 12)] + ValuesIn(vs, 13) + [TextIn(vs, 15)]
        == [TextIn(vs, 12)] + (ValuesIn(vs, 13) + [TextIn(vs, 15)]);
  }

  lemma ListReductions(state: nat, vs: seq<Val>, rule: nat)
    requires 20 <= state <= 28 && Typed(state, vs) && ReducesBy(state, rule) && state != 22
    requires |RightSide(rule)| < |vs|
    ensures KeepsMeaning(state, vs, rule)
  {
    if state == 26 {
      ListEndReduction(vs, rule);
    } else if state == 28 {
      ListGrowthReduction(vs, rule);
    } else if state == 20 {
      assert Args(vs, rule) == [vs[11]];
    }
  }

  lemma ItemReductions(state: nat, vs: seq<Val>, rule: nat)
    requires state == 15 || state == 18 || state == 22
    requires Typed(state, vs) && ReducesBy(state, rule) && |RightSide(rule)| < |vs|
    ensures KeepsMeaning(state, vs, rule)
  {
    if state == 15 {
      assert Args(vs, rule) == [vs[7], vs[8]];
    } else if state == 18 {
      assert Args(vs, rule) == [vs[8], vs[9]];
    } else {
      assert Args(vs, rule) == [vs[8], vs[9], vs[10], vs[11]];
    }
  }

  lemma HeaderReductions(state: nat, vs: seq<Val>, rule: nat)
    requires state == 0 || state == 4 || state == 6 || state == 11 || state == 14
    requires Typed(state, vs) && ReducesBy(state, rule) && |RightSide(rule)| < |vs|
    ensures KeepsMeaning(state, vs, rule)
  {
    if state == 4 {
      assert Args(vs, rule) == [vs[1], vs[2]];
    } else if state == 6 {
      assert Args(vs, rule) == [vs[2], vs[3]];
    } else if state == 14 {
      assert Args(vs, rule) == [vs[6], vs[7], vs[8]];
    }
  }

  /** The outcome of a reduction, given the tokens still to be read. */
  predicate ReduceKeepsRead(state: nat, vs: seq<Val>, rule: nat, rest: seq<Token>)
    requires |RightSide(rule)| <= |vs|
  {
    match Action(rule, Args(vs, rule))
    case None => Read(Meaning(state, vs), rest) == None
    case Some(v) =>
      var vs' := Rest(vs, rule) + [v];
      Typed(Target(rule), vs') && Read(Meaning(Target(rule), vs'), rest) == Read(Meaning(state, vs), rest)
  }

  /** The reductions that depend on the lookahead: the end of the text or of a section, and
      the start of an item. */
  lemma LookaheadReductions(state: nat, vs: seq<Val>, rule: nat, rest: seq<Token>)
    requires state == 2 || state == 9
    requires Typed(state, vs) && Decoded(state, LookaheadSymbol(rest)) == Reduce(rule)
    requires |RightSide(rule)| < |vs|
    ensures ReduceKeepsRead(state, vs, rule, rest)
  {
    if state == 2 && rule == 2 {
      assert Args(vs, rule) == [vs[1]];
    }
  }

  lemma ItemStartReduction(vs: seq<Val>, rest: seq<Token>)
    requires Typed(13, vs) && Decoded(13, LookaheadSymbol(rest)) == Reduce(18)
    ensures ReduceKeepsRead(13, vs, 18, rest)
  {
    assert Rest(vs, 18) == vs;
  }

  lemma SectionReduction(vs: seq<Val>, rest: seq<Token>)
    requires Typed(13, vs) && Decoded(13, LookaheadSymbol(rest)) == Reduce(5)
    requires |RightSide(5)| < |vs|
    ensures ReduceKeepsRead(13, vs, 5, rest)
  {
    assert Args(vs, 5) == [vs[2], vs[3], vs[4], vs[5], vs[6], vs[7]];
    assert Action(5, Args(vs, 5)) == match Complete(ItemsIn(vs), TextIn(vs, 4), TextIn(vs, 2), TextIn(vs, 6)) {
        case Some(section) => Some(ASection(section))
        case None => None
      };
  }

  lemma ReduceStep(state: nat, vs: seq<Val>, rule: nat, rest: seq<Token>)
    requires state <= 28 && Typed(state, vs) && Decoded(state, LookaheadSymbol(rest)) == Reduce(rule)
    ensures ReducesBy(state, rule) && |RightSide(rule)| < |vs|
    ensures ReduceKeepsRead(state, vs, rule, rest)
  {
    ReduceFacts(state, rule);
    if state == 2 || state == 9 {
      LookaheadReductions(state, vs, rule, rest);
    } else if state == 13 {
      if rule == 18 {
        ItemStartReduction(vs, rest);
      } else {
        SectionReduction(vs, rest);
      }
    } else if state == 15 || state == 18 || state == 22 {
      ItemReductions(state, vs, rule);
    } else if state < 15 {
      HeaderReductions(state, vs, rule);
    } else {
      ListReductions(state, vs, rule);
    }
  }

  lemma ShiftStep(state: nat, vs: seq<Val>, t: Token, n: nat)
    requires state <= 28 && Typed(state, vs) && Decoded(state, Symbol(t)) == Shift(n)
    ensures n <= 28 && n != YYFINAL && Under(n) == state && Typed(n, vs + [TokenValue(t)])
    ensures Advance(Meaning(state, vs), t) == Some(Meaning(n, vs + [TokenValue(t)]))
  {
    if state <= 12 {
      HeaderShift(state, vs, t, n);
    } else if state <= 20 {
      ItemShift(state, vs, t, n);
    } else {
      ListShift(state, vs, t, n);
    }
  }

  // ---------------------------------------------------------------- the parser

  /** yyerrlab1: pop states until one shifts the error token. None does, so all are popped. */
  method Recover(yyss: seq<nat>) returns (left: seq<nat>)
    requires yyss != []
    ensures left == yyss[..1]
  {
    left := yyss;
    while |left| > 1
      invariant left != [] && left == yyss[..|left|]
    {
      var yyn := YyPact(left[|left| - 1]) + YYTERROR;
      ErrorTokenIsNeverShifted(left[|left| - 1]);
      if YyPact(left[|left| - 1]) != YYPACT_NINF && 0 <= yyn <= YYLAST && YyCheck(yyn) == YYTERROR {
        assert false;
      }
      left := left[..|left| - 1];
    }
  }

  /** The two stacks belong together and stand for a reading that ends in `outcome`. */
  ghost predicate Consistent(yyss: seq<nat>, yyvs: seq<Val>, rest: seq<Token>, outcome: Option<Config>) {
    && yyss != []
    && var state := yyss[|yyss| - 1];
    && state <= 28
    && yyss == Stack(state)
    && Typed(state, yyvs)
    && (state == YYFINAL ==> rest == [])
    && Read(Meaning(state, yyvs), rest) == outcome
  }

  lemma Landed(u: nat, n: nat, vs: seq<Val>, rest: seq<Token>, outcome: Option<Config>)
    requires 1 <= n <= 28 && n != YYFINAL && Under(n) == u && Typed(n, vs)
    requires Read(Meaning(n, vs), rest) == outcome
    ensures Consistent(Stack(u) + [n], vs, rest, outcome)
  {
  }

  /** yyreduce: run the action, pop the right side and go to the next state. */
  method ReduceBy(rule: nat, yyss: seq<nat>, yyvs: seq<Val>, ghost rest: seq<Token>, ghost outcome: Option<Config>)
    returns (abort: bool, ss: seq<nat>, vs: seq<Val>)
    requires Consistent(yyss, yyvs, rest, outcome)
    requires Decoded(yyss[|yyss| - 1], LookaheadSymbol(rest)) == Reduce(rule)
    ensures abort ==> outcome == None
    ensures !abort ==> Consistent(ss, vs, rest, outcome) && Rank(ss[|ss| - 1]) < Rank(yyss[|yyss| - 1])
  {
    hide Meaning, Typed, Decoded, Stack, Depth, ReducesBy, Action, RightSide, Read, Under, UnderBy, YyDefgoto, Goto, Rank;
    var yystate := yyss[|yyss| - 1];
    ReduceStep(yystate, yyvs, rule, rest);
    ReduceFacts(yystate, rule);
    var yylen := |RightSide(rule)|;
    StackPop(yystate, yylen);
    ReduceUncovers(yystate, rule);
    var yyval := Action(rule, Args(yyvs, rule));
    if yyval.None? {
      return true, yyss, yyvs;
    }
    ss, vs := yyss[..|yyss| - yylen], Rest(yyvs, rule);
    GotoDecode(ss[|ss| - 1], LeftSide(rule));
    var next := Goto(ss[|ss| - 1], LeftSide(rule));
    Landed(ss[|ss| - 1], next, vs + [yyval.value], rest, outcome);
    return false, ss + [next], vs + [yyval.value];
  }

  /** Shift the lookahead token, or the end of the text. */
  method ShiftTo(n: nat, yyss: seq<nat>, yyvs: seq<Val>, rest: seq<Token>, ghost outcome: Option<Config>)
    returns (ss: seq<nat>, vs: seq<Val>)
    requires Consistent(yyss, yyvs, rest, outcome)
    requires Decoded(yyss[|yyss| - 1], LookaheadSymbol(rest)) == Shift(n)
    ensures rest != [] ==> Consistent(ss, vs, rest[1..], outcome)
    ensures rest == [] ==> Consistent(ss, vs, rest, outcome) && Rank(ss[|ss| - 1]) < Rank(yyss[|yyss| - 1])
  {
    if rest != [] {
      ShiftStep(yyss[|yyss| - 1], yyvs, rest[0], n);
      Landed(yyss[|yyss| - 1], n, yyvs + [TokenValue(rest[0])], rest[1..], outcome);
      ss, vs := yyss + [n], yyvs + [TokenValue(rest[0])];
    } else {
      ShiftEnd(yyss, yyvs, n, outcome);
      ss, vs := yyss + [n], yyvs + [Nothing];
    }
  }

  lemma ShiftEnd(yyss: seq<nat>, yyvs: seq<Val>, n: nat, outcome: Option<Config>)
    requires Consistent(yyss, yyvs, [], outcome) && Decoded(yyss[|yyss| - 1], 0) == Shift(n)
    ensures n == YYFINAL && yyss[|yyss| - 1] == 1
    ensures Consistent(yyss + [n], yyvs + [Nothing], [], outcome)
  {
    EndIsShiftedOnce(yyss[|yyss| - 1], n);
    FinalMeaning(yyvs);
    assert Stack(YYFINAL) == Stack(1) + [YYFINAL];
    hide Read, Typed, Meaning, Decoded;
  }

  lemma EndIsShiftedOnce(state: nat, n: nat)
    requires state <= 28 && Decoded(state, 0) == Shift(n)
    ensures state == 1 && n == YYFINAL
  {
  }

  lemma FinalMeaning(vs: seq<Val>)
    requires Typed(1, vs)
    ensures Typed(YYFINAL, vs + [Nothing]) && Meaning(YYFINAL, vs + [Nothing]) == Meaning(1, vs)
  {
  }

  /** yyparse: None is YYABORT, after a syntax error or an invalid section date. */
  method YyParse(tokens: seq<Token>) returns (result: Option<Config>)
    ensures result == Parse(tokens)
  {
    var yyss: seq<nat>, yyvs := [0], [Nothing];
    var rest := tokens;
    while true
      invariant Consistent(yyss, yyvs, rest, Parse(tokens))
      decreases |rest|, Rank(yyss[|yyss| - 1])
    {
      var yystate := yyss[|yyss| - 1];
      StackDepth(yystate);
      assert |yyss| <= 16;
      if yystate == YYFINAL {
        return Some(yyvs[1].config);
      }
      var yytoken := LookaheadSymbol(rest);
      TablesDecode(yystate, yytoken);
      match Decide(yystate, yytoken) {
        case Error =>
          ErrorStep(yystate, yyvs, rest);
          var left := Recover(yyss);
          return None;
        case Shift(n) =>
          yyss, yyvs := ShiftTo(n, yyss, yyvs, rest, Parse(tokens));
          rest := if rest != [] then rest[1..] else rest;
        case Reduce(rule) =>
          var abort;
          abort, yyss, yyvs := ReduceBy(rule, yyss, yyvs, rest, Parse(tokens));
          if abort {
            return None;
          }
      }
    }
  }

  lemma ErrorStep(state: nat, vs: seq<Val>, rest: seq<Token>)
    requires state <= 28 && Typed(state, vs) && state != YYFINAL
    requires Decoded(state, LookaheadSymbol(rest)) == Error
    ensures Read(Meaning(state, vs), rest) == None
  {
    if rest == [] {
      ErrorFinish(state, vs);
    } else {
      ErrorAdvance(state, vs, rest[0]);
    }
  }
}
