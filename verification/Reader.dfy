/**
 A left-to-right reading of the grammar: what is known after each token. It is the bridge
 between parse trees and the table-driven parser, and it is proved equivalent to the trees.
 */
module Reader {
  import opened ConfigModel
  import opened Grammar

  /** The sections already closed, and the section being read. */
  datatype Open = Open(config: Config, comment: string, name: string, date: string, items: seq<Item>) {
    function Add(item: Item): Open {
      this.(items := items + [item])
    }
  }

  datatype Progress =
    | Between(config: Config)
    | InComments(config: Config, comment: string)
    | AtName(config: Config, comment: string)
    | AfterName(config: Config, comment: string, name: string)
    | AfterHeader(config: Config, comment: string, name: string)
    | AtDate(config: Config, comment: string, name: string)
    | AfterDate(config: Config, comment: string, name: string, date: string)
    | InItems(open: Open)
    | InItemComments(open: Open, itemComment: string)
    | AfterItemName(open: Open, itemComment: string, itemName: string)
    | AtValue(open: Open, itemComment: string, itemName: string)
    | AtList(open: Open, itemComment: string, itemName: string)
    | InList(open: Open, itemComment: string, itemName: string, values: seq<string>)
    | AfterComma(open: Open, itemComment: string, itemName: string, values: seq<string>)
    | Done(config: Config)

  function Close(o: Open): Option<Config> {
    match Complete(o.items, o.name, o.comment, o.date)
    case Some(section) => Some(o.config + [section])
    case None => None
  }

  function AdvanceComments(config: Config, comment: string, t: Token): Option<Progress> {
    match t
    case SectionComment(line) => Some(InComments(config, Join(comment, line)))
    case SectionBegin => Some(AtName(config, comment))
    case _ => None
  }

  function AdvanceItemComments(o: Open, comment: string, t: Token): Option<Progress> {
    match t
    case ItemComment(line) => Some(InItemComments(o, Join(comment, line)))
    case Str(name) => Some(AfterItemName(o, comment, name))
    case _ => None
  }

  function AdvanceItems(o: Open, t: Token): Option<Progress> {
    if t.Str? || t.ItemComment? then AdvanceItemComments(o, "", t)
    else
      match Close(o)
      case Some(config) => AdvanceComments(config, "", t)
      case None => None
  }

  /** The effect of one token. */
  function Advance(p: Progress, t: Token): Option<Progress> {
    match p
    case Between(c) => AdvanceComments(c, "", t)
    case InComments(c, comment) => AdvanceComments(c, comment, t)
    case AtName(c, comment) => if t.Str? then Some(AfterName(c, comment, t.text)) else None
    case AfterName(c, comment, name) => if t.SectionEnd? then Some(AfterHeader(c, comment, name)) else None
    case AfterHeader(c, comment, name) =>
      if t.DateBegin? then Some(AtDate(c, comment, name))
      else AdvanceItems(Open(c, comment, name, "", []), t)
    case AtDate(c, comment, name) =>
      if t.SectionDate? then Some(AfterDate(c, comment, name, t.text)) else None
    case AfterDate(c, comment, name, date) =>
      if t.DateEnd? then Some(InItems(Open(c, comment, name, date, []))) else None
    case InItems(o) => AdvanceItems(o, t)
    case InItemComments(o, comment) => AdvanceItemComments(o, comment, t)
    case AfterItemName(o, comment, name) => if t.Equals? then Some(AtValue(o, comment, name)) else None
    case AtValue(o, comment, name) =>
      if t.Str? then Some(InItems(o.Add(Item(name, comment, [t.text]))))
      else if t.ListBegin? then Some(AtList(o, comment, name))
      else None
    case AtList(o, comment, name) =>
      if t.ListEnd? then Some(InItems(o.Add(Item(name, comment, []))))
      else if t.Str? then Some(InList(o, comment, name, [t.text]))
      else None
    case InList(o, comment, name, values) =>
      if t.ListEnd? then Some(InItems(o.Add(Item(name, comment, values))))
      else if t.Comma? then Some(AfterComma(o, comment, name, values))
      else None
    case AfterComma(o, comment, name, values) =>
      if t.Str? then Some(InList(o, comment, name, values + [t.text])) else None
    case Done(_) => None
  }

  /** The configuration read when the text ends here. */
  function Finish(p: Progress): Option<Config> {
    match p
    case Between(c) => Some(c)
    case AfterHeader(c, comment, name) => Close(Open(c, comment, name, "", []))
    case InItems(o) => Close(o)
    case Done(c) => Some(c)
    case _ => None
  }

  function Read(p: Progress, ts: seq<Token>): Option<Config>
    decreases |ts|
  {
    if ts == [] then Finish(p)
    else
      match Advance(p, ts[0])
      case None => None
      case Some(q) => Read(q, ts[1..])
  }

  /** Parsing as a function: None is a syntax error or an invalid date. */
  function Parse(ts: seq<Token>): (r: Option<Config>) {
    Read(Between([]), ts)
  }

  lemma ReadCons(p: Progress, t: Token, ts: seq<Token>)
    ensures Read(p, [t] + ts) == match Advance(p, t) { case None => None case Some(q) => Read(q, ts) }
  {
    assert ([t] + ts)[1..] == ts;
  }

  // ---------------------------------------------------------------- yields and values of nodes

  lemma {:induction false} YieldCons(a: Tree, rest: seq<Tree>)
    ensures YieldAll([a] + rest) == Yield(a) + YieldAll(rest)
  {
    assert ([a] + rest)[1..] == rest;
  }

  lemma {:induction false} YieldOne(a: Tree)
    ensures YieldAll([a]) == Yield(a)
  {
    YieldCons(a, []);
    assert [a] == [a] + [];
  }

  lemma {:induction false} YieldTwo(a: Tree, b: Tree)
    ensures YieldAll([a, b]) == Yield(a) + Yield(b)
  {
    YieldOne(b);
    YieldCons(a, [b]);
    assert [a, b] == [a] + [b];
  }

  lemma {:induction false} YieldThree(a: Tree, b: Tree, c: Tree)
    ensures YieldAll([a, b, c]) == Yield(a) + (Yield(b) + Yield(c))
  {
    YieldTwo(b, c);
    YieldCons(a, [b, c]);
    assert [a, b, c] == [a] + [b, c];
  }

  lemma {:induction false} YieldFour(a: Tree, b: Tree, c: Tree, d: Tree)
    ensures YieldAll([a, b, c, d]) == Yield(a) + (Yield(b) + (Yield(c) + Yield(d)))
  {
    YieldThree(b, c, d);
    YieldCons(a, [b, c, d]);
    assert [a, b, c, d] == [a] + [b, c, d];
  }

  lemma {:induction false} YieldSix(a: Tree, b: Tree, c: Tree, d: Tree, e: Tree, f: Tree)
    ensures YieldAll([a, b, c, d, e, f]) == Yield(a) + (Yield(b) + (Yield(c) + (Yield(d) + (Yield(e) + Yield(f)))))
  {
    YieldFour(c, d, e, f);
    YieldCons(b, [c, d, e, f]);
    YieldCons(a, [b] + [c, d, e, f]);
    assert [a, b, c, d, e, f] == [a] + ([b] + [c, d, e, f]);
  }

  lemma {:induction false} ValuesCons(a: Tree, rest: seq<Tree>, va: Val, vs: seq<Val>)
    requires Value(a) == Some(va) && Values(rest) == Some(vs)
    ensures Values([a] + rest) == Some([va] + vs)
  {
    assert ([a] + rest)[1..] == rest;
  }

  lemma {:induction false} ValuesOne(a: Tree, va: Val)
    requires Value(a) == Some(va)
    ensures Values([a]) == Some([va])
  {
    ValuesCons(a, [], va, []);
    assert [a] == [a] + [] && [va] == [va] + [];
  }

  lemma {:induction false} ValuesTwo(a: Tree, b: Tree, va: Val, vb: Val)
    requires Value(a) == Some(va) && Value(b) == Some(vb)
    ensures Values([a, b]) == Some([va, vb])
  {
    ValuesOne(b, vb);
    ValuesCons(a, [b], va, [vb]);
    assert [a, b] == [a] + [b] && [va, vb] == [va] + [vb];
  }

  lemma {:induction false} ValuesThree(a: Tree, b: Tree, c: Tree, va: Val, vb: Val, vc: Val)
    requires Value(a) == Some(va) && Value(b) == Some(vb) && Value(c) == Some(vc)
    ensures Values([a, b, c]) == Some([va, vb, vc])
  {
    ValuesTwo(b, c, vb, vc);
    ValuesCons(a, [b, c], va, [vb, vc]);
    assert [a, b, c] == [a] + [b, c] && [va, vb, vc] == [va] + [vb, vc];
  }

  lemma {:induction false} ValuesFour(a: Tree, b: Tree, c: Tree, d: Tree, va: Val, vb: Val, vc: Val, vd: Val)
    requires Value(a) == Some(va) && Value(b) == Some(vb) && Value(c) == Some(vc) && Value(d) == Some(vd)
    ensures Values([a, b, c, d]) == Some([va, vb, vc, vd])
  {
    ValuesThree(b, c, d, vb, vc, vd);
    ValuesCons(a, [b, c, d], va, [vb, vc, vd]);
    assert [a, b, c, d] == [a] + [b, c, d] && [va, vb, vc, vd] == [va] + [vb, vc, vd];
  }

  lemma {:induction false} ValuesSix(a: Tree, b: Tree, c: Tree, d: Tree, e: Tree, f: Tree,
                  va: Val, vb: Val, vc: Val, vd: Val, ve: Val, vf: Val)
    requires Value(a) == Some(va) && Value(b) == Some(vb) && Value(c) == Some(vc)
    requires Value(d) == Some(vd) && Value(e) == Some(ve) && Value(f) == Some(vf)
    ensures Values([a, b, c, d, e, f]) == Some([va, vb, vc, vd, ve, vf])
  {
    hide Value, Values;
    ValuesFour(c, d, e, f, vc, vd, ve, vf);
    ValuesCons(b, [c, d, e, f], vb, [vc, vd, ve, vf]);
    ValuesCons(a, [b] + [c, d, e, f], va, [vb] + [vc, vd, ve, vf]);
    assert [a, b, c, d, e, f] == [a] + ([b] + [c, d, e, f]);
    assert [va, vb, vc, vd, ve, vf] == [va] + ([vb] + [vc, vd, ve, vf]);
  }

  lemma {:induction false} LeafOf(t: Tree, symbol: nat)
    requires WellFormed(t) && Root(t) == symbol && symbol <= 16
    ensures t.Leaf? && Symbol(t.token) == symbol && Yield(t) == [t.token]
    ensures Value(t) == Some(TokenValue(t.token))
  {
  }
}
