/**
 The grammar of configuration texts, as the parser generator recorded it (rule numbers,
 left-hand sides and right-hand sides), parse trees over it, and the semantic actions.
 */
module Grammar {
  import opened ConfigModel
  import Scanner

  // Symbol numbers of the terminals; nonterminals follow from 18 on.
  function Symbol(t: Token): (n: nat)
    ensures 3 <= n <= 16
  {
    match t
    case Str(_) => 3
    case ItemComment(_) => 4
    case SectionComment(_) => 5
    case SectionDate(_) => 6
    case SectionBegin => 7
    case SectionEnd => 8
    case ListBegin => 9
    case ListEnd => 10
    case DateBegin => 13
    case DateEnd => 14
    case Equals => 15
    case Comma => 16
  }

  const CONFIGURATION: nat := 18
  const SECTIONS: nat := 19
  const SECTION: nat := 20
  const SECTION_DATE: nat := 21
  const ITEMS: nat := 22
  const ITEM: nat := 23
  const VALUE: nat := 24
  const VALUES_LIST: nat := 25
  const SECTION_COMMENTS: nat := 26
  const ITEM_COMMENTS: nat := 27

  /** yyr1: the symbol a rule derives. */
  function LeftSide(rule: nat): nat {
    match rule
    case 2 => CONFIGURATION
    case 3 => SECTIONS
    case 4 => SECTIONS
    case 5 => SECTION
    case 6 => SECTION_DATE
    case 7 => SECTION_DATE
    case 8 => ITEMS
    case 9 => ITEMS
    case 10 => ITEM
    case 11 => VALUE
    case 12 => VALUE
    case 13 => VALUE
    case 14 => VALUES_LIST
    case 15 => VALUES_LIST
    case 16 => SECTION_COMMENTS
    case 17 => SECTION_COMMENTS
    case 18 => ITEM_COMMENTS
    case 19 => ITEM_COMMENTS
    case _ => 17
  }

  /** yyprhs and yyrhs: the symbols on the right of a rule. */
  function RightSide(rule: nat): seq<nat> {
    match rule
    case 2 => [19]
    case 4 => [19, 20]
    case 5 => [26, 7, 3, 8, 21, 22]
    case 7 => [13, 6, 14]
    case 9 => [22, 23]
    case 10 => [27, 3, 15, 24]
    case 11 => [3]
    case 12 => [9, 10]
    case 13 => [9, 3, 25, 10]
    case 15 => [25, 16, 3]
    case 17 => [26, 5]
    case 19 => [27, 4]
    case _ => []
  }

  // ---------------------------------------------------------------- semantic actions

  /** The semantic values (YYSTYPE). */
  datatype Val = Nothing | Text(s: string) | AnItem(item: Item) | ASection(section: Section) | AConfig(config: Config)

  /** The value the scanner attaches to a token. */
  function TokenValue(t: Token): Val {
    match t
    case Str(s) => Text(s)
    case ItemComment(s) => Text(s)
    case SectionComment(s) => Text(s)
    case SectionDate(s) => Text(s)
    case _ => Nothing
  }

  /** Comment lines accumulate with a line feed between them, but not after an empty start. */
  function Join(comment: string, line: string): string {
    if comment == "" then line else comment + "\n" + line
  }

  function Number(s: string): int {
    if s == [] then 0 else 10 * Number(s[..|s| - 1]) + (s[|s| - 1] as int - '0' as int)
  }

  /** isValidDate on the dddd/dd/dd texts the scanner produces. */
  predicate ValidDate(s: string) {
    && Scanner.IsDate(s)
    && 1900 <= Number(s[..4])
    && 1 <= Number(s[5..7]) <= 12
    && 1 <= Number(s[8..]) <= 31
  }

  /** Giving the section under construction its name, comment and date; it fails on a bad date. */
  function Complete(items: seq<Item>, name: string, comment: string, date: string): Option<Section> {
    if date == "" then Some(Section(name, comment, None, items))
    else if ValidDate(date) then Some(Section(name, comment, Some(date), items))
    else None
  }

  /** The action of a rule on the values of its right side; None is YYABORT. */
  function Action(rule: nat, a: seq<Val>): Option<Val>
    requires |a| == |RightSide(rule)|
  {
    match rule
    case 2 => Some(a[0])
    case 3 => Some(AConfig([]))
    case 4 =>
      if a[0].AConfig? && a[1].ASection? then Some(AConfig(a[0].config + [a[1].section])) else None
    case 5 =>
      if a[0].Text? && a[2].Text? && a[4].Text? && a[5].ASection? then
        match Complete(a[5].section.items, a[2].s, a[0].s, a[4].s) {
          case Some(section) => Some(ASection(section))
          case None => None
        }
      else None
    case 6 => Some(Text(""))
    case 7 => Some(a[1])
    case 8 => Some(ASection(Section("", "", None, [])))
    case 9 =>
      if a[0].ASection? && a[1].AnItem? then
        Some(ASection(a[0].section.(items := a[0].section.items + [a[1].item])))
      else None
    case 10 =>
      if a[0].Text? && a[1].Text? && a[3].AnItem? then
        Some(AnItem(Item(a[1].s, a[0].s, a[3].item.values)))
      else None
    case 11 => if a[0].Text? then Some(AnItem(Item("", "", [a[0].s]))) else None
    case 12 => Some(AnItem(Item("", "", [])))
    case 13 =>
      if a[1].Text? && a[2].AnItem? then
        Some(AnItem(a[2].item.(values := [a[1].s] + a[2].item.values)))
      else None
    case 14 => Some(AnItem(Item("", "", [])))
    case 15 =>
      if a[0].AnItem? && a[2].Text? then
        Some(AnItem(a[0].item.(values := a[0].item.values + [a[2].s])))
      else None
    case 16 => Some(Text(""))
    case 17 => if a[0].Text? && a[1].Text? then Some(Text(Join(a[0].s, a[1].s))) else None
    case 18 => Some(Text(""))
    case 19 => if a[0].Text? && a[1].Text? then Some(Text(Join(a[0].s, a[1].s))) else None
    case _ => None
  }

  // ---------------------------------------------------------------- parse trees

  datatype Tree = Leaf(token: Token) | Node(rule: nat, kids: seq<Tree>)

  function Root(t: Tree): nat {
    match t
    case Leaf(token) => Symbol(token)
    case Node(rule, _) => LeftSide(rule)
  }

  /** Every inner node is an instance of a rule of the grammar. */
  predicate WellFormed(t: Tree) {
    match t
    case Leaf(_) => true
    case Node(rule, kids) =>
      && 2 <= rule <= 19
      && |kids| == |RightSide(rule)|
      && forall i :: 0 <= i < |kids| ==> Root(kids[i]) == RightSide(rule)[i] && WellFormed(kids[i])
  }

  function Yield(t: Tree): seq<Token> {
    match t
    case Leaf(token) => [token]
    case Node(_, kids) => YieldAll(kids)
  }

  function YieldAll(ts: seq<Tree>): seq<Token> {
    if ts == [] then [] else Yield(ts[0]) + YieldAll(ts[1..])
  }

  /** The recursive reading of a derivation: the actions applied bottom up. */
  function Value(t: Tree): Option<Val> {
    match t
    case Leaf(token) => Some(TokenValue(token))
    case Node(rule, kids) =>
      match Values(kids)
      case None => None
      case Some(vs) => if |vs| == |RightSide(rule)| then Action(rule, vs) else None
  }

  function Values(ts: seq<Tree>): (r: Option<seq<Val>>)
    ensures r.Some? ==> |r.value| == |ts|
  {
    if ts == [] then Some([])
    else
      match (Value(ts[0]), Values(ts[1..]))
      case (Some(v), Some(vs)) => Some([v] + vs)
      case _ => None
  }

  /** t derives `tokens` from the start symbol. */
  predicate Derives(t: Tree, tokens: seq<Token>) {
    WellFormed(t) && Root(t) == CONFIGURATION && Yield(t) == tokens
  }
}
