/** A canonical printing of template syntax trees, which the parser undoes, and where the parser places
    intermediate statements. */
module TemplatePrinter {
  import opened Bytes
  import opened TemplateAst
  import opened TemplateParser

  function Tag(opener: string, contents: string): string {
    opener + " " + contents + " " + ClosingTag(opener)
  }

  function Opener(n: Node): string {
    if n.Expression? && !n.raw then "{{" else "{%"
  }

  /** What stands between the braces of a directive. */
  function Contents(n: Node): string {
    match n
    case Text(value) => value
    case Expression(e, raw) => if raw then "raw " + e else e
    case Statement(s) => "set " + s
    case Intermediate(s) => s
    case Control(s, _) => s
    case Apply(filter, _) => "apply " + filter
    case NamedBlock(name, _) => "block " + name
    case Include(name) => "include " + name
    case Extends(name) => "extends " + name
  }

  function Print(nodes: seq<Node>): string {
    if nodes == [] then "" else PrintNode(nodes[0]) + Print(nodes[1..])
  }

  function PrintNode(n: Node): string {
    match n
    case Text(value) => value
    case Control(_, body) => Tag("{%", Contents(n)) + (Print(body) + Tag("{%", "end"))
    case Apply(_, body) => Tag("{%", Contents(n)) + (Print(body) + Tag("{%", "end"))
    case NamedBlock(_, body) => Tag("{%", Contents(n)) + (Print(body) + Tag("{%", "end"))
    case _ => Tag(Opener(n), Contents(n))
  }

  function PrintTemplate(t: Template): string {
    Tag("{%", "autoescape " + if t.autoescape.Some? then t.autoescape.value else "None") + Print(t.body)
  }

  predicate Trimmed(s: string) {
    s != "" && !IsSpace(s[0]) && !IsSpace(s[|s| - 1])
  }

  ghost predicate Inside(contents: string, opener: string) {
    Trimmed(contents) && forall j: nat :: !OccursAt(ClosingTag(opener), contents, j)
  }

  /** The contents of every directive are trimmed and do not hold its closing tag, text holds no opening brace,
      and two texts do not stand side by side. */
  ghost predicate Printable(nodes: seq<Node>, inBlock: Option<string>) {
    && (forall n :: n in nodes ==> PrintableNode(n, inBlock))
    && forall i :: 0 <= i < |nodes| - 1 ==> !(nodes[i].Text? && nodes[i + 1].Text?)
  }

  ghost predicate PrintableNode(n: Node, inBlock: Option<string>) {
    && (!n.Text? ==> Inside(Contents(n), Opener(n)))
    && match n
       case Text(value) => value != "" && '{' !in value
       case Expression(e, _) => Trimmed(e)
       case Statement(s) => Trimmed(s)
       case Intermediate(s) => StartsClause(s) && inBlock.Some? && MayFollow(FirstWord(s), inBlock.value)
       case Control(s, body) => StartsBlock(s) && Printable(body, Some(FirstWord(s)))
       case Apply(filter, body) => Trimmed(filter) && Printable(body, Some("apply"))
       case NamedBlock(name, body) => Trimmed(name) && Printable(body, Some("block"))
       case Include(name) => Trimmed(name) && Unquoted(name)
       case Extends(name) => Trimmed(name) && Unquoted(name)
  }

  predicate Unquoted(name: string) {
    StripQuote(StripQuote(name, '"'), '\'') == name
  }

  /** The parser always ends a template with a text chunk, possibly an empty one. */
  ghost predicate PrintableTemplate(t: Template) {
    && |t.body| > 0
    && var front, last := t.body[..|t.body| - 1], t.body[|t.body| - 1];
    && last.Text? && '{' !in last.value
    && Printable(front, None) && (front != [] ==> !front[|front| - 1].Text?)
    && (t.autoescape.Some? ==>
          t.autoescape.value != "None" && Trimmed(t.autoescape.value)
          && Inside("autoescape " + t.autoescape.value, "{%"))
  }

  // ----- one directive -----

  lemma StripPadded(c: string)
    requires Trimmed(c)
    ensures Strip(" " + c + " ") == c && Strip(c) == c
  {
    var s := " " + c + " ";
    assert s[1..] == c + " ";
    assert StripLeft(s) == c + " ";
    assert (c + " ")[..|c|] == c;
    assert StripRight(c) == c;
  }

  lemma {:induction false} FirstWordOf(word: string, rest: string)
    requires ' ' !in word
    ensures FirstWord(word + " " + rest) == word && FirstWord(word) == word
  {
    if word != "" {
      assert (word + " " + rest)[1..] == word[1..] + " " + rest;
      FirstWordOf(word[1..], rest);
    }
  }

  lemma SuffixOf(word: string, rest: string)
    requires ' ' !in word && Trimmed(rest)
    ensures FirstWord(word + " " + rest) == word && Suffix(word + " " + rest) == rest
  {
    FirstWordOf(word, rest);
    var s := word + " " + rest;
    assert s[|word| + 1..] == rest;
    StripPadded(rest);
  }

  /** The closing tag that is found is the printed one. */
  lemma ClosingFound(opener: string, contents: string, after: string)
    requires opener == "{{" || opener == "{%" || opener == "{#"
    requires Inside(contents, opener)
    ensures FindFrom(ClosingTag(opener), " " + contents + " " + ClosingTag(opener) + after, 0) == Some(|contents| + 2)
  {
    var close := ClosingTag(opener);
    var s := " " + contents + " " + close + after;
    var end := |contents| + 2;
    assert s[end..end + 2] == close;
    forall j: nat | j < end
      ensures !OccursAt(close, s, j)
    {
      assert !OccursAt(close, contents, if j > 0 then j - 1 else 0);
      OccursMeans(close, s, j, 0);
      OccursMeans(close, s, j, 1);
      assert 0 < j < |contents| ==> contents[j - 1..j + 1] == s[j..j + 2];
    }
    FindFromUnique(close, s, 0, end);
  }

  /** A printed directive is one token. */
  lemma TagToken(opener: string, contents: string, after: string, inBlock: Option<string>, inLoop: bool)
    requires opener == "{{" || opener == "{%" || opener == "{#"
    requires Inside(contents, opener)
    ensures IsTag(Tag(opener, contents) + after, 0)
    ensures NextTag(Tag(opener, contents) + after, 0) == Some(0)
    ensures ReadToken(Tag(opener, contents) + after, 0, inBlock, inLoop)
            == Token([], Tagged(opener, contents, inBlock, inLoop), after)
  {
    hide Classify, Strip, FindFrom;
    var s := Tag(opener, contents) + after;
    var inner := " " + contents + " " + ClosingTag(opener) + after;
    assert s == opener + inner;
    assert s[..2] == opener && s[2..] == inner;
    assert IsTag(s, 0);
    ClosingFound(opener, contents, after);
    assert inner[..|contents| + 2] == " " + contents + " ";
    StripPadded(contents);
    assert inner[|contents| + 4..] == after;
  }

  lemma ParseTag(opener: string, contents: string, after: string, autoescape: Option<string>, inBlock: Option<string>,
                 inLoop: bool)
    requires opener == "{{" || opener == "{%" || opener == "{#"
    requires Inside(contents, opener)
    ensures var s := Tag(opener, contents) + after;
            |after| < |s|
            && Parse(s, autoescape, inBlock, inLoop)
               == ParseAfter(Token([], Tagged(opener, contents, inBlock, inLoop), after), autoescape, inBlock, inLoop,
                             |s|)
  {
    hide Tagged, NextTag, IsTag, ReadToken;
    TagToken(opener, contents, after, inBlock, inLoop);
  }

  /** How the parser classifies a directive that starts with one of its words. */
  lemma ClassifyWord(word: string, argument: string, inBlock: Option<string>, inLoop: bool)
    requires word in {"raw", "set", "include", "extends", "apply", "block"} && Trimmed(argument)
    ensures ' ' !in word
    ensures Classify(word + " " + argument, inBlock, inLoop) ==
            match word
            case "raw" => Leaf(Expression(argument, true))
            case "set" => Leaf(Statement(argument))
            case "include" =>
              var name := StripQuote(StripQuote(argument, '"'), '\'');
              if name == "" then Bad else Leaf(Include(name))
            case "extends" =>
              var name := StripQuote(StripQuote(argument, '"'), '\'');
              if name == "" then Bad else Leaf(Extends(name))
            case _ => Open(word, argument)
  {
    hide StripQuote, Strip, Suffix, FirstWord;
    SuffixOf(word, argument);
  }

  /** What the parser makes of each kind of directive. */
  lemma TaggedLeaf(n: Node, inBlock: Option<string>, inLoop: bool)
    requires PrintableNode(n, inBlock)
    requires !n.Text? && !n.Control? && !n.Apply? && !n.NamedBlock?
    ensures Tagged(Opener(n), Contents(n), inBlock, inLoop) == Leaf(n)
  {
    hide StripQuote, Strip, FirstWord, Classify, Inside, IsSpace;
    InsideNotEmpty(Contents(n), Opener(n));
    match n
    case Expression(e, raw) =>
      if raw {
        ClassifyWord("raw", e, inBlock, inLoop);
        assert Contents(n) == "raw" + " " + e;
      }
    case Statement(s) =>
      ClassifyWord("set", s, inBlock, inLoop);
      assert Contents(n) == "set" + " " + s;
    case Include(name) =>
      ClassifyWord("include", name, inBlock, inLoop);
      assert Contents(n) == "include" + " " + name;
    case Extends(name) =>
      ClassifyWord("extends", name, inBlock, inLoop);
      assert Contents(n) == "extends" + " " + name;
    case Intermediate(s) =>
      ClassifyIntermediate(s, inBlock.value, inLoop);
  }

  lemma InsideNotEmpty(contents: string, opener: string)
    requires Inside(contents, opener)
    ensures contents != ""
  {
  }

  lemma ClassifyIntermediate(s: string, inBlock: string, inLoop: bool)
    requires StartsClause(s) && MayFollow(FirstWord(s), inBlock)
    ensures Classify(s, Some(inBlock), inLoop) == Leaf(Intermediate(s))
  {
    hide Strip, FirstWord, MayFollow;
  }

  function BlockOperator(n: Node): string
    requires n.Control? || n.Apply? || n.NamedBlock?
  {
    if n.Control? then FirstWord(n.statement) else if n.Apply? then "apply" else "block"
  }

  lemma TaggedBlock(n: Node, inBlock: Option<string>, inLoop: bool)
    requires PrintableNode(n, inBlock)
    requires n.Control? || n.Apply? || n.NamedBlock?
    ensures var d := Tagged("{%", Contents(n), inBlock, inLoop);
            d.Open? && d.operator == BlockOperator(n) && Close(d.operator, d.suffix, n.body) == n
    ensures Printable(n.body, Some(BlockOperator(n)))
  {
    hide StripQuote, Strip, FirstWord, Classify;
    match n
    case Apply(filter, _) =>
      ClassifyWord("apply", filter, inBlock, inLoop);
      assert Contents(n) == "apply" + " " + filter;
    case NamedBlock(name, _) =>
      ClassifyWord("block", name, inBlock, inLoop);
      assert Contents(n) == "block" + " " + name;
    case Control(s, _) =>
      ClassifyControl(s, inBlock, inLoop);
  }

  lemma ClassifyControl(statement: string, inBlock: Option<string>, inLoop: bool)
    requires StartsBlock(statement)
    ensures Classify(statement, inBlock, inLoop) == Open(FirstWord(statement), statement)
  {
    hide StripQuote, Strip, FirstWord;
  }

  /** Text before a directive becomes a chunk of its own. */
  lemma TextBefore(v: string, t: string, autoescape: Option<string>, inBlock: Option<string>, inLoop: bool)
    requires v != "" && '{' !in v && IsTag(t, 0)
    ensures Parse(v + t, autoescape, inBlock, inLoop) == Prepend([Text(v)], Parse(t, autoescape, inBlock, inLoop))
  {
    hide Tagged, FindFrom, Strip;
    var s := v + t;
    assert IsTag(s, |v|);
    assert forall j: nat :: j < |v| ==> s[j] == v[j];
    NextTagUnique(s, |v|);
    NextTagUnique(t, 0);
    assert s[..|v|] == v;
    assert s[|v|..|v| + 2] == t[..2];
    assert s[|v| + 2..] == t[2..];
    if |t| > 2 {
      assert s[|v| + 3..] == t[3..];
      assert s[|v| + 2] == t[2];
    }
    var a, b := ReadToken(s, |v|, inBlock, inLoop), ReadToken(t, 0, inBlock, inLoop);
    assert a == Token([Text(v)], b.directive, b.after) && b.before == [];
    BeforeGrows([Text(v)], b, autoescape, inBlock, inLoop, |s|, |t|);
  }

  lemma BeforeGrows(before: seq<Node>, t: Token, autoescape: Option<string>, inBlock: Option<string>, inLoop: bool,
                    m: nat, n: nat)
    requires t.before == [] && |t.after| < m && |t.after| < n
    ensures ParseAfter(t.(before := before), autoescape, inBlock, inLoop, m)
            == Prepend(before, ParseAfter(t, autoescape, inBlock, inLoop, n))
  {
    hide Parse;
    if t.directive.Leaf? {
      Regroup(before, [], [t.directive.node]);
      assert before + [] + [t.directive.node] == before + [t.directive.node];
    } else if t.directive.Open? {
      var d := t.directive;
      var inner := Parse(t.after, autoescape, Some(d.operator), LoopInside(d.operator, inLoop));
      if inner.Chunks? {
        var node := Close(d.operator, d.suffix, inner.nodes);
        Regroup(before, [], [node]);
        assert before + [] + [node] == before + [node];
      }
    }
  }

  // ----- the round trip -----

  /** A text needs a directive after it; anything else may be followed by any text. */
  predicate Followed(nodes: seq<Node>, post: string) {
    nodes != [] && nodes[|nodes| - 1].Text? ==> IsTag(post, 0)
  }

  lemma PrintStartsWithTag(nodes: seq<Node>, post: string, inBlock: Option<string>)
    requires Printable(nodes, inBlock) && nodes != [] && !nodes[0].Text?
    ensures IsTag(Print(nodes) + post, 0)
  {
    hide Printable;
    var n := nodes[0];
    var s := Print(nodes) + post;
    assert |PrintNode(n)| >= 3 && PrintNode(n)[..3] == Opener(n) + " ";
    assert s[0] == PrintNode(n)[..3][0] && s[1] == PrintNode(n)[..3][1] && s[2] == PrintNode(n)[..3][2];
  }

  lemma PrintableTail(nodes: seq<Node>, inBlock: Option<string>)
    requires Printable(nodes, inBlock) && nodes != []
    ensures PrintableNode(nodes[0], inBlock) && Printable(nodes[1..], inBlock)
    ensures nodes[0].Text? && |nodes| > 1 ==> !nodes[1].Text?
  {
    hide PrintableNode;
    assert nodes[0] in nodes;
    assert forall m :: m in nodes[1..] ==> m in nodes;
    assert forall i :: 0 <= i < |nodes[1..]| ==> nodes[1..][i] == nodes[i + 1];
  }

  lemma PrintableText(n: Node, inBlock: Option<string>)
    requires PrintableNode(n, inBlock) && n.Text?
    ensures n.value != "" && '{' !in n.value && PrintNode(n) == n.value
  {
  }

  lemma EndIsTag(after: string)
    ensures IsTag(Tag("{%", "end") + after, 0)
  {
    var s := Tag("{%", "end") + after;
    assert s[0] == '{' && s[1] == '%';
  }

  lemma EndCloses(after: string, autoescape: Option<string>, inBlock: string, inLoop: bool)
    ensures Parse(Tag("{%", "end") + after, autoescape, Some(inBlock), inLoop) == Chunks([], after, autoescape)
  {
    hide Parse, Strip;
    assert Inside("end", "{%");
    ParseTag("{%", "end", after, autoescape, Some(inBlock), inLoop);
    FirstWordOf("end", "");
  }

  lemma ParseLeaf(n: Node, after: string, autoescape: Option<string>, inBlock: Option<string>, inLoop: bool)
    requires PrintableNode(n, inBlock)
    requires !n.Text? && !n.Control? && !n.Apply? && !n.NamedBlock?
    ensures Parse(PrintNode(n) + after, autoescape, inBlock, inLoop)
            == Prepend([n], Parse(after, autoescape, inBlock, inLoop))
  {
    hide Parse, Tagged, Tag;
    ParseTag(Opener(n), Contents(n), after, autoescape, inBlock, inLoop);
    TaggedLeaf(n, inBlock, inLoop);
    assert [] + [n] == [n];
  }

  lemma ParseBlock(n: Node, after: string, autoescape: Option<string>, inBlock: Option<string>, inLoop: bool)
    requires PrintableNode(n, inBlock)
    requires n.Control? || n.Apply? || n.NamedBlock?
    requires var inside, loop := Some(BlockOperator(n)), LoopInside(BlockOperator(n), inLoop);
             var end := Tag("{%", "end") + after;
             Parse(Print(n.body) + end, autoescape, inside, loop)
             == Prepend(n.body, Parse(end, autoescape, inside, loop))
    ensures Parse(PrintNode(n) + after, autoescape, inBlock, inLoop)
            == Prepend([n], Parse(after, autoescape, inBlock, inLoop))
  {
    hide Parse, Tagged, Tag, Close, PrintableNode, Print;
    var end := Tag("{%", "end") + after;
    EndCloses(after, autoescape, BlockOperator(n), LoopInside(BlockOperator(n), inLoop));
    assert n.body + [] == n.body;
    TaggedBlock(n, inBlock, inLoop);
    var inner := Print(n.body) + end;
    assert PrintNode(n) + after == Tag("{%", Contents(n)) + inner by {
      Associate(Tag("{%", Contents(n)), Print(n.body), Tag("{%", "end"), after);
    }
    assert Inside(Contents(n), "{%") by {
      BlockInside(n, inBlock);
    }
    ParseTag("{%", Contents(n), inner, autoescape, inBlock, inLoop);
    assert [] + [n] == [n];
  }

  lemma BlockInside(n: Node, inBlock: Option<string>)
    requires PrintableNode(n, inBlock)
    requires n.Control? || n.Apply? || n.NamedBlock?
    ensures Inside(Contents(n), "{%")
  {
  }

  lemma Associate(a: string, b: string, c: string, d: string)
    ensures (a + (b + c)) + d == a + (b + (c + d))
  {
  }

  /** Parsing what was printed gives the nodes back, and goes on with what follows. */
  lemma {:induction false} ParsePrint(nodes: seq<Node>, post: string, autoescape: Option<string>,
                                      inBlock: Option<string>, inLoop: bool)
    requires Printable(nodes, inBlock) && Followed(nodes, post)
    ensures Parse(Print(nodes) + post, autoescape, inBlock, inLoop)
            == Prepend(nodes, Parse(post, autoescape, inBlock, inLoop))
    decreases nodes
  {
    hide Parse, IsTag, PrintableNode, Printable, PrintNode, Tag;
    if nodes == [] {
      assert Print(nodes) + post == post;
      return;
    }
    var n, rest := nodes[0], nodes[1..];
    var after := Print(rest) + post;
    PrintableTail(nodes, inBlock);
    assert Print(nodes) + post == PrintNode(n) + after;
    assert Followed(rest, post);
    ParsePrint(rest, post, autoescape, inBlock, inLoop);
    if n.Text? {
      assert IsTag(after, 0) by {
        if rest == [] {
          assert after == post;
        } else {
          PrintStartsWithTag(rest, post, inBlock);
        }
      }
      PrintableText(n, inBlock);
      TextBefore(n.value, after, autoescape, inBlock, inLoop);
    } else if n.Control? || n.Apply? || n.NamedBlock? {
      var end := Tag("{%", "end") + after;
      EndIsTag(after);
      TaggedBlock(n, inBlock, inLoop);
      ParsePrint(n.body, end, autoescape, Some(BlockOperator(n)), LoopInside(BlockOperator(n), inLoop));
      ParseBlock(n, after, autoescape, inBlock, inLoop);
    } else {
      ParseLeaf(n, after, autoescape, inBlock, inLoop);
    }
    Regroup([n], [], rest);
    assert [] + rest == rest && [n] + [] + rest == nodes;
    var final := Parse(post, autoescape, inBlock, inLoop);
    assert Prepend([n], Prepend([] + rest, final)) == Prepend(nodes, final);
  }

  /** Parsing a printed template gives its chunks and its autoescape setting, whatever the loader's default. */
  lemma RoundTrip(t: Template, default: Option<string>)
    requires PrintableTemplate(t)
    ensures Parse(PrintTemplate(t), default, None, false) == Chunks(t.body, "", t.autoescape)
  {
    hide Parse, Printable, Inside, Tag, Print, Tagged, Trimmed, ClosingTag;
    var n := |t.body| - 1;
    var front, last := t.body[..n], t.body[n];
    var setting := if t.autoescape.Some? then t.autoescape.value else "None";
    var contents := "autoescape" + " " + setting;
    assert contents == "autoescape " + setting;
    SettingInside(t);
    SettingTagged(setting, t.autoescape);
    ParseTag("{%", contents, Print(t.body), default, None, false);
    LastText(last.value, t.autoescape);
    ParsePrint(front, last.value, t.autoescape, None, false);
    assert front + [last] == t.body;
    PrintConcat(front, [last]);
    PrintOne(last);
    var s := PrintTemplate(t);
    assert Parse(s, default, None, false)
           == ParseAfter(Token([], SetAutoescape(t.autoescape), Print(t.body)), default, None, false, |s|);
  }

  lemma SettingTagged(setting: string, autoescape: Option<string>)
    requires Trimmed(setting)
    requires setting == (if autoescape.Some? then autoescape.value else "None")
    requires autoescape.Some? ==> setting != "None"
    ensures Tagged("{%", "autoescape" + " " + setting, None, false) == SetAutoescape(autoescape)
  {
    hide Suffix, FirstWord, StripQuote;
    SuffixOf("autoescape", setting);
  }

  lemma SettingInside(t: Template)
    requires PrintableTemplate(t)
    ensures var setting := if t.autoescape.Some? then t.autoescape.value else "None";
            Trimmed(setting) && Inside("autoescape " + setting, "{%")
  {
    hide Printable;
    assert "autoescape " + "None" == "autoescape None";
    forall j: nat
      ensures !OccursAt("%}", "autoescape None", j)
    {
      OccursMeans("%}", "autoescape None", j, 0);
    }
  }

  lemma PrintOne(n: Node)
    requires n.Text?
    ensures Print([n]) == n.value
  {
    assert [n][1..] == [];
  }

  lemma LastText(v: string, autoescape: Option<string>)
    requires '{' !in v
    ensures Parse(v, autoescape, None, false) == Chunks([Text(v)], "", autoescape)
  {
  }

  lemma {:induction false} PrintConcat(a: seq<Node>, b: seq<Node>)
    ensures Print(a + b) == Print(a) + Print(b)
  {
    if a == [] {
      assert a + b == b;
    } else {
      assert (a + b)[1..] == a[1..] + b;
      PrintConcat(a[1..], b);
    }
  }

  // ----- escaping -----

  /** Text with a `!` after each pair of characters that would open a directive. */
  function Escape(v: string): string
    decreases |v|
  {
    match NextTag(v, 0)
    case None => v
    case Some(c) => v[..c + 2] + "!" + Escape(v[c + 2..])
  }

  /** The text of a list of text chunks. */
  function TextOf(nodes: seq<Node>): string {
    if nodes == [] then "" else (if nodes[0].Text? then nodes[0].value else "") + TextOf(nodes[1..])
  }

  lemma {:induction false} TextOfConcat(a: seq<Node>, b: seq<Node>)
    ensures TextOf(a + b) == TextOf(a) + TextOf(b)
  {
    if a == [] {
      assert a + b == b;
    } else {
      assert (a + b)[1..] == a[1..] + b;
      TextOfConcat(a[1..], b);
    }
  }

  /** Only text chunks, which together are this text. */
  ghost predicate Literal(p: Parsed, v: string, autoescape: Option<string>) {
    && p.Chunks? && p.rest == "" && p.autoescape == autoescape
    && (forall n :: n in p.nodes ==> n.Text?) && TextOf(p.nodes) == v
  }

  lemma LiteralPrepend(first: seq<Node>, p: Parsed, v: string, w: string, autoescape: Option<string>)
    requires Literal(p, w, autoescape) && (forall n :: n in first ==> n.Text?) && TextOf(first) == v
    ensures Literal(Prepend(first, p), v + w, autoescape)
  {
    hide TextOf;
    TextOfConcat(first, p.nodes);
  }

  lemma LiteralAlone(v: string, autoescape: Option<string>)
    ensures Literal(Chunks([Text(v)], "", autoescape), v, autoescape)
  {
    assert [Text(v)][1..] == [];
  }

  /** Escaped text parses to text chunks that together are the text. */
  lemma {:induction false} EscapedIsLiteral(v: string, autoescape: Option<string>)
    ensures Literal(Parse(Escape(v), autoescape, None, false), v, autoescape)
    decreases |v|
  {
    hide Parse, Literal, TextOf;
    match NextTag(v, 0)
    case None =>
      ParseUnfold(v, autoescape, None, false);
      LiteralAlone(v, autoescape);
    case Some(c) =>
      var tail := v[c + 2..];
      EscapedIsLiteral(tail, autoescape);
      assert Escape(v) == v[..c + 2] + "!" + Escape(tail);
      EscapedTag(v, c, Escape(tail), autoescape);
      var first := (if c > 0 then [Text(v[..c])] else []) + [Text(v[c..c + 2])];
      FirstTexts(v, c);
      LiteralPrepend(first, Parse(Escape(tail), autoescape, None, false), v[..c + 2], tail, autoescape);
      assert v[..c + 2] + tail == v;
  }

  lemma FirstTexts(v: string, c: nat)
    requires c + 2 <= |v|
    ensures TextOf((if c > 0 then [Text(v[..c])] else []) + [Text(v[c..c + 2])]) == v[..c + 2]
  {
    TextOfConcat(if c > 0 then [Text(v[..c])] else [], [Text(v[c..c + 2])]);
    assert v[..c] + v[c..c + 2] == v[..c + 2];
    assert [Text(v[c..c + 2])][1..] == [] && [Text(v[..c])][1..] == [];
  }

  lemma EscapedTag(v: string, c: nat, more: string, autoescape: Option<string>)
    requires NextTag(v, 0) == Some(c)
    ensures Parse(v[..c + 2] + "!" + more, autoescape, None, false)
            == Prepend((if c > 0 then [Text(v[..c])] else []) + [Text(v[c..c + 2])],
                       Parse(more, autoescape, None, false))
  {
    hide FindFrom, Tagged, ReadTag;
    var s := v[..c + 2] + "!" + more;
    assert forall j: nat :: j < c + 2 ==> s[j] == v[j];
    assert IsTag(s, c);
    forall j: nat | j < c
      ensures !IsTag(s, j)
    {
      assert !IsTag(v, j);
    }
    NextTagUnique(s, c);
    assert s[..c] == v[..c] && s[c..c + 2] == v[c..c + 2] && s[c + 3..] == more;
  }

  // ----- what the parser guarantees about its output -----

  /** Each intermediate statement stands directly inside a control block that may have it. */
  ghost predicate Placed(nodes: seq<Node>, inBlock: Option<string>) {
    forall n :: n in nodes ==> PlacedNode(n, inBlock)
  }

  ghost predicate PlacedNode(n: Node, inBlock: Option<string>) {
    match n
    case Intermediate(s) => StartsClause(s) && inBlock.Some? && MayFollow(FirstWord(s), inBlock.value)
    case Control(s, body) => StartsBlock(s) && Placed(body, Some(FirstWord(s)))
    case Apply(_, body) => Placed(body, Some("apply"))
    case NamedBlock(_, body) => Placed(body, Some("block"))
    case _ => true
  }

  ghost predicate PlacedResult(p: Parsed, inBlock: Option<string>) {
    p.Chunks? ==> Placed(p.nodes, inBlock)
  }

  lemma PlacedPrepend(before: seq<Node>, node: Node, p: Parsed, inBlock: Option<string>)
    requires Placed(before, inBlock) && PlacedResult(p, inBlock)
    ensures PlacedResult(Prepend(before, p), inBlock)
    ensures PlacedNode(node, inBlock) ==> PlacedResult(Prepend(before + [node], p), inBlock)
  {
    hide PlacedNode;
  }

  /** Every tree that the parser returns is placed. */
  lemma {:induction false} ParsedIsPlaced(s: string, autoescape: Option<string>, inBlock: Option<string>, inLoop: bool)
    ensures PlacedResult(Parse(s, autoescape, inBlock, inLoop), inBlock)
    decreases |s|
  {
    hide Parse, Close, NextTag, ReadToken, StartsBlock, FirstWord, PlacedNode, Placed, PlacedResult, Prepend;
    ParseUnfold(s, autoescape, inBlock, inLoop);
    match NextTag(s, 0)
    case None => LastPlaced(s, autoescape, inBlock);
    case Some(c) =>
      var t := ReadToken(s, c, inBlock, inLoop);
      DirectivePlaced(s, c, inBlock, inLoop);
      match t.directive
      case SetAutoescape(name) =>
        ParsedIsPlaced(t.after, name, inBlock, inLoop);
        PlacedPrepend(t.before, Text(""), Parse(t.after, name, inBlock, inLoop), inBlock);
      case Open(operator, suffix) =>
        var inside := LoopInside(operator, inLoop);
        ParsedIsPlaced(t.after, autoescape, Some(operator), inside);
        var body := Parse(t.after, autoescape, Some(operator), inside);
        if body.Chunks? {
          ParsedIsPlaced(body.rest, body.autoescape, inBlock, inLoop);
          ClosePlaced(operator, suffix, body, inBlock);
          PlacedPrepend(t.before, Close(operator, suffix, body.nodes),
                        Parse(body.rest, body.autoescape, inBlock, inLoop), inBlock);
        } else {
          LastPlaced(s, autoescape, inBlock);
        }
      case Leaf(node) =>
        ParsedIsPlaced(t.after, autoescape, inBlock, inLoop);
        PlacedPrepend(t.before, node, Parse(t.after, autoescape, inBlock, inLoop), inBlock);
      case Skip =>
        ParsedIsPlaced(t.after, autoescape, inBlock, inLoop);
        PlacedPrepend(t.before, Text(""), Parse(t.after, autoescape, inBlock, inLoop), inBlock);
      case Bad => LastPlaced(s, autoescape, inBlock);
      case End => EndPlaced(t, autoescape, inBlock);
  }

  lemma LastPlaced(s: string, autoescape: Option<string>, inBlock: Option<string>)
    ensures PlacedResult(Chunks([Text(s)], "", autoescape), inBlock) && PlacedResult(Error, inBlock)
  {
  }

  lemma EndPlaced(t: Token, autoescape: Option<string>, inBlock: Option<string>)
    requires Placed(t.before, inBlock)
    ensures PlacedResult(Chunks(t.before, t.after, autoescape), inBlock)
  {
  }

  lemma ParseUnfold(s: string, autoescape: Option<string>, inBlock: Option<string>, inLoop: bool)
    ensures Parse(s, autoescape, inBlock, inLoop) ==
            match NextTag(s, 0)
            case None => if inBlock.Some? then Error else Chunks([Text(s)], "", autoescape)
            case Some(c) => ParseAfter(ReadToken(s, c, inBlock, inLoop), autoescape, inBlock, inLoop, |s|)
  {
  }

  lemma DirectivePlaced(s: string, c: nat, inBlock: Option<string>, inLoop: bool)
    requires c + 2 <= |s|
    ensures var t := ReadToken(s, c, inBlock, inLoop);
            && Placed(t.before, inBlock)
            && (t.directive.Leaf? ==> PlacedNode(t.directive.node, inBlock))
            && (t.directive.Open? ==>
                  (t.directive.operator == "apply" || t.directive.operator == "block")
                  || (StartsBlock(t.directive.suffix) && FirstWord(t.directive.suffix) == t.directive.operator))
  {
    hide Strip, StripQuote, FindFrom, Suffix, MayFollow, FirstWord;
  }

  lemma ClosePlaced(operator: string, suffix: string, body: Parsed, inBlock: Option<string>)
    requires body.Chunks? && PlacedResult(body, Some(operator))
    requires operator == "apply" || operator == "block"
             || (StartsBlock(suffix) && FirstWord(suffix) == operator)
    ensures PlacedNode(Close(operator, suffix, body.nodes), inBlock)
  {
  }

  /** The clauses of every control block come in an order that Python accepts. */
  ghost predicate Ordered(nodes: seq<Node>) {
    forall n :: n in nodes ==> OrderedNode(n)
  }

  ghost predicate OrderedNode(n: Node) {
    match n
    case Control(s, body) => LegalClauses(Statements(Split(s, body))) && Ordered(body)
    case Apply(_, body) => Ordered(body)
    case NamedBlock(_, body) => Ordered(body)
    case _ => true
  }

  /** A tree without misplaced clauses is well formed exactly when its clauses are in order. */
  lemma {:induction false} PlacedWellFormed(n: Node, inBlock: Option<string>)
    requires PlacedNode(n, inBlock)
    ensures WellFormedNode(n) <==> OrderedNode(n)
  {
    match n
    case Control(s, body) =>
      forall c | c in body ensures WellFormedNode(c) <==> OrderedNode(c) {
        PlacedWellFormed(c, Some(FirstWord(s)));
      }
    case Apply(_, body) =>
      forall c | c in body ensures !c.Intermediate? && (WellFormedNode(c) <==> OrderedNode(c)) {
        PlacedWellFormed(c, Some("apply"));
      }
    case NamedBlock(_, body) =>
      forall c | c in body ensures !c.Intermediate? && (WellFormedNode(c) <==> OrderedNode(c)) {
        PlacedWellFormed(c, Some("block"));
      }
    case _ =>
  }

  /** What the parser returns for a whole template is well formed exactly when its clauses are in order. */
  lemma ParsedIsWellFormed(s: string, autoescape: Option<string>)
    ensures var r := Parse(s, autoescape, None, false); r.Chunks? ==> (WellFormed(r.nodes) <==> Ordered(r.nodes))
  {
    hide Parse;
    var r := Parse(s, autoescape, None, false);
    if r.Chunks? {
      ParsedIsPlaced(s, autoescape, None, false);
      forall n | n in r.nodes ensures !n.Intermediate? && (WellFormedNode(n) <==> OrderedNode(n)) {
        PlacedWellFormed(n, None);
      }
    }
  }

  // ----- jumps that the parser lets pass -----

  lemma PlainInside(contents: string)
    requires Trimmed(contents) && '%' !in contents
    ensures Inside(contents, "{%")
  {
    forall j: nat
      ensures !OccursAt("%}", contents, j)
    {
      OccursMeans("%}", contents, j, 0);
    }
  }

  lemma JumpWords(inBlock: Option<string>)
    ensures Inside("break", "{%") && Tagged("{%", "break", inBlock, true) == Leaf(Statement("break"))
  {
    hide Strip;
    PlainInside("break");
    FirstWordOf("break", "");
  }

  lemma ElseWord()
    ensures Inside("else", "{%") && Tagged("{%", "else", Some("for"), true) == Leaf(Intermediate("else"))
  {
    hide Strip;
    PlainInside("else");
    FirstWordOf("else", "");
  }

  lemma BlockWords()
    ensures Inside("block b", "{%") && Tagged("{%", "block b", Some("for"), true) == Open("block", "b")
  {
    hide Strip, Classify;
    PlainInside("block b");
    assert "block" + " " + "b" == "block b";
    ClassifyWord("block", "b", Some("for"), true);
  }

  lemma ForWords()
    ensures Inside("for x in y", "{%") && Tagged("{%", "for x in y", None, false) == Open("for", "for x in y")
  {
    hide Strip;
    PlainInside("for x in y");
    assert "for" + " " + "x in y" == "for x in y";
    FirstWordOf("for", "x in y");
  }

  /** A break inside a loop of the text, in whatever block it stands there. */
  lemma ParseBreak(after: string, autoescape: Option<string>, inBlock: Option<string>)
    ensures Parse(Tag("{%", "break") + after, autoescape, inBlock, true) ==
            Prepend([Statement("break")], Parse(after, autoescape, inBlock, true))
  {
    hide Parse, Tag, Tagged, Inside;
    JumpWords(inBlock);
    ParseTag("{%", "break", after, autoescape, inBlock, true);
    assert [] + [Statement("break")] == [Statement("break")];
  }

  /** The parser takes the else clause of a loop to be inside that loop. */
  lemma BreakInElseParses(after: string, autoescape: Option<string>)
    ensures Parse(Tag("{%", "for x in y") + (Tag("{%", "else") + (Tag("{%", "break") + (Tag("{%", "end") + after))),
                  autoescape, None, false) ==
            Prepend([Control("for x in y", [Intermediate("else"), Statement("break")])],
                    Parse(after, autoescape, None, false))
  {
    hide Parse, Tag, Tagged, Inside;
    var end := Tag("{%", "end") + after;
    var jump := Tag("{%", "break") + end;
    EndCloses(after, autoescape, "for", true);
    ParseBreak(end, autoescape, Some("for"));
    ElseWord();
    ParseTag("{%", "else", jump, autoescape, Some("for"), true);
    assert [Statement("break")] + [] == [Statement("break")];
    assert [] + [Intermediate("else")] == [Intermediate("else")];
    assert [Intermediate("else")] + [Statement("break")] == [Intermediate("else"), Statement("break")];
    ParseFor(Tag("{%", "else") + jump, after, autoescape, [Intermediate("else"), Statement("break")]);
  }

  /** A block inside a loop of the text may hold a break, wherever the block is put later. */
  lemma BreakInBlockParses(after: string, autoescape: Option<string>)
    ensures var end := Tag("{%", "end") + after;
            Parse(Tag("{%", "for x in y") + (Tag("{%", "block b") + (Tag("{%", "break") + (Tag("{%", "end") + end))),
                  autoescape, None, false) ==
            Prepend([Control("for x in y", [NamedBlock("b", [Statement("break")])])],
                    Parse(after, autoescape, None, false))
  {
    hide Parse, Tag, Tagged, Inside;
    var end := Tag("{%", "end") + after;
    var jump := Tag("{%", "break") + (Tag("{%", "end") + end);
    EndCloses(after, autoescape, "for", true);
    EndCloses(end, autoescape, "block", true);
    ParseBreak(Tag("{%", "end") + end, autoescape, Some("block"));
    BlockWords();
    ParseTag("{%", "block b", jump, autoescape, Some("for"), true);
    var block := NamedBlock("b", [Statement("break")]);
    assert [Statement("break")] + [] == [Statement("break")];
    assert [] + [block] == [block] && [block] + [] == [block];
    ParseFor(Tag("{%", "block b") + jump, after, autoescape, [block]);
  }

  lemma ParseFor(inner: string, after: string, autoescape: Option<string>, body: seq<Node>)
    requires Parse(inner, autoescape, Some("for"), true) == Chunks(body, after, autoescape)
    ensures Parse(Tag("{%", "for x in y") + inner, autoescape, None, false) ==
            Prepend([Control("for x in y", body)], Parse(after, autoescape, None, false))
  {
    hide Parse, Tag, Tagged, Inside;
    ForWords();
    ParseTag("{%", "for x in y", inner, autoescape, None, false);
    assert [] + [Control("for x in y", body)] == [Control("for x in y", body)];
  }
}
