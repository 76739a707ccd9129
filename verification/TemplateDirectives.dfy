/** What each directive of a template's text means to the parser, word by word. */
module TemplateDirectives {
  import opened Bytes
  import opened TemplateAst
  import opened TemplateParser
  import opened TemplatePrinter

  /** Which clauses may stand in which block. */
  const ATTACHED: set<(string, string)> :=
    {("else", "if"), ("else", "for"), ("else", "while"), ("else", "try"), ("elif", "if"), ("except", "try"),
     ("finally", "try")}

  predicate Attaches(word: string, inBlock: Option<string>) {
    inBlock.Some? && (word, inBlock.value) in ATTACHED
  }

  /** The contents of a directive: a word, and perhaps something after it. */
  function Words(word: string, argument: string): string {
    if argument == "" then word else word + " " + argument
  }

  ghost predicate OneDirective(word: string, argument: string) {
    ' ' !in word && (argument == "" || Trimmed(argument)) && Inside(Words(word, argument), "{%")
  }

  lemma WordsRead(word: string, argument: string)
    requires OneDirective(word, argument)
    ensures FirstWord(Words(word, argument)) == word && Suffix(Words(word, argument)) == argument
  {
    FirstWordOf(word, argument);
    if argument != "" {
      SuffixOf(word, argument);
    }
  }

  /** A directive that holds no block, with what comes before and after it in the tree. */
  lemma LeafDirective(word: string, argument: string, after: string, autoescape: Option<string>,
                      inBlock: Option<string>, inLoop: bool)
    requires OneDirective(word, argument)
    ensures var contents := Words(word, argument);
            var p := Parse(Tag("{%", contents) + after, autoescape, inBlock, inLoop);
            var rest := Parse(after, autoescape, inBlock, inLoop);
            && (word in {"else", "elif", "except", "finally"} ==>
                  p == if Attaches(word, inBlock) then Prepend([Intermediate(contents)], rest) else Error)
            && (word == "end" ==> p == if inBlock.Some? then Chunks([], after, autoescape) else Error)
            && (word == "comment" ==> p == rest)
            && (word in {"import", "from"} ==>
                  p == if argument != "" then Prepend([Statement(contents)], rest) else Error)
            && (word == "set" ==> p == if argument != "" then Prepend([Statement(argument)], rest) else Error)
            && (word == "raw" ==> p == Prepend([Expression(argument, true)], rest))
            && (word == "module" ==> p == Prepend([Expression("_tt_modules." + argument, true)], rest))
            && (word in {"break", "continue"} ==>
                  p == if inLoop then Prepend([Statement(contents)], rest) else Error)
  {
    hide Inside, Strip, FirstWord, Suffix, Parse, StripQuote;
    var contents := Words(word, argument);
    WordsRead(word, argument);
    ParseTag("{%", contents, after, autoescape, inBlock, inLoop);
    InsideNotEmpty(contents, "{%");
    PrependNothing(Parse(after, autoescape, inBlock, inLoop));
    assert forall node: Node :: [] + [node] == [node];
  }

  lemma PrependNothing(p: Parsed)
    ensures Prepend([], p) == p
  {
    if p.Chunks? {
      assert [] + p.nodes == p.nodes;
    }
  }

  /** A reference to another template, in quotes or not. */
  lemma NamingDirective(word: string, argument: string, after: string, autoescape: Option<string>,
                        inBlock: Option<string>, inLoop: bool)
    requires OneDirective(word, argument) && word in {"include", "extends"}
    ensures var p := Parse(Tag("{%", Words(word, argument)) + after, autoescape, inBlock, inLoop);
            var rest := Parse(after, autoescape, inBlock, inLoop);
            && (argument == "" ==> p == Error)
            && (Bare(argument) ==>
                  p == Prepend([if word == "include" then Include(argument) else Extends(argument)], rest))
            && forall name :: (argument == "\"" + name + "\"" || argument == "'" + name + "'") && Bare(name) ==>
                 p == Prepend([if word == "include" then Include(name) else Extends(name)], rest)
  {
    hide Inside, Strip, FirstWord, Suffix, Parse;
    var contents := Words(word, argument);
    WordsRead(word, argument);
    ParseTag("{%", contents, after, autoescape, inBlock, inLoop);
    InsideNotEmpty(contents, "{%");
    assert forall node: Node :: [] + [node] == [node];
    if Bare(argument) {
      BareStays(argument);
    }
    forall name | (argument == "\"" + name + "\"" || argument == "'" + name + "'") && Bare(name)
      ensures StripQuote(StripQuote(argument, '"'), '\'') == name
    {
      QuotesGo(name);
    }
  }

  predicate Bare(name: string) {
    name != "" && name[0] !in "\"'" && name[|name| - 1] !in "\"'"
  }

  lemma BareStays(name: string)
    requires Bare(name)
    ensures StripQuote(name, '"') == name && StripQuote(name, '\'') == name
  {
  }

  lemma QuotesGo(name: string)
    requires Bare(name)
    ensures StripQuote(StripQuote("\"" + name + "\"", '"'), '\'') == name
    ensures StripQuote(StripQuote("'" + name + "'", '"'), '\'') == name
  {
    BareStays(name);
    OneQuote(name, '"');
    OneQuote(name, '\'');
    var s := "'" + name + "'";
    assert s[0] == '\'' && s[|s| - 1] == '\'';
    assert StripQuote(s, '"') == s;
  }

  lemma OneQuote(name: string, q: char)
    requires name != "" && name[0] != q && name[|name| - 1] != q
    ensures StripQuote([q] + name + [q], q) == name
  {
    var s := [q] + name + [q];
    assert s[1..] == name + [q];
    assert (name + [q])[..|name|] == name;
    assert StripQuote(name, q) == name;
    assert StripQuote(name + [q], q) == name;
  }

  /** A directive that opens a block: its body up to the end tag, parsed for what may stand in it. Loops allow break
      and continue in their bodies, an apply block does not. */
  lemma BlockDirective(word: string, argument: string, after: string, autoescape: Option<string>,
                       inBlock: Option<string>, inLoop: bool)
    requires OneDirective(word, argument) && word in {"apply", "block", "try", "if", "for", "while"}
    ensures var contents := Words(word, argument);
            var p := Parse(Tag("{%", contents) + after, autoescape, inBlock, inLoop);
            if argument == "" && word in {"apply", "block"} then p == Error
            else
              match Parse(after, autoescape, Some(word), word in {"for", "while"} || (word != "apply" && inLoop))
              case Error => p == Error
              case Chunks(body, rest, autoescape') =>
                var node := if word == "apply" then Apply(argument, body)
                            else if word == "block" then NamedBlock(argument, body)
                            else Control(contents, body);
                p == Prepend([node], Parse(rest, autoescape', inBlock, inLoop))
  {
    hide Inside, Strip, FirstWord, Suffix, Parse, StripQuote;
    var contents := Words(word, argument);
    WordsRead(word, argument);
    ParseTag("{%", contents, after, autoescape, inBlock, inLoop);
    InsideNotEmpty(contents, "{%");
    assert forall node: Node :: [] + [node] == [node];
  }

  /** The setting applies to the template from wherever it stands. */
  lemma AutoescapeDirective(argument: string, after: string, autoescape: Option<string>, inBlock: Option<string>,
                            inLoop: bool)
    requires OneDirective("autoescape", argument)
    ensures Parse(Tag("{%", Words("autoescape", argument)) + after, autoescape, inBlock, inLoop)
         == Parse(after, if argument == "None" then None else Some(argument), inBlock, inLoop)
  {
    hide Inside, Strip, FirstWord, Suffix, Parse, StripQuote;
    var contents := Words("autoescape", argument);
    WordsRead("autoescape", argument);
    ParseTag("{%", contents, after, autoescape, inBlock, inLoop);
    InsideNotEmpty(contents, "{%");
    PrependNothing(Parse(after, if argument == "None" then None else Some(argument), inBlock, inLoop));
  }

  /** Any other word is an error. */
  lemma UnknownDirective(word: string, argument: string, after: string, autoescape: Option<string>,
                         inBlock: Option<string>, inLoop: bool)
    requires OneDirective(word, argument)
    requires word !in {"else", "elif", "except", "finally", "end", "comment", "import", "from", "set", "raw", "module",
                       "break", "continue", "include", "extends", "autoescape", "apply", "block", "try", "if", "for",
                       "while"}
    ensures Parse(Tag("{%", Words(word, argument)) + after, autoescape, inBlock, inLoop) == Error
  {
    hide Inside, Strip, FirstWord, Suffix, Parse, StripQuote;
    WordsRead(word, argument);
    ParseTag("{%", Words(word, argument), after, autoescape, inBlock, inLoop);
    InsideNotEmpty(Words(word, argument), "{%");
  }

  /** A comment is left out; an expression is kept, to be escaped. */
  lemma CommentAndExpression(contents: string, after: string, autoescape: Option<string>, inBlock: Option<string>,
                             inLoop: bool)
    ensures var rest := Parse(after, autoescape, inBlock, inLoop);
            && (Inside(contents, "{#") ==> Parse(Tag("{#", contents) + after, autoescape, inBlock, inLoop) == rest)
            && (Inside(contents, "{{") ==>
                  Parse(Tag("{{", contents) + after, autoescape, inBlock, inLoop)
                  == Prepend([Expression(contents, false)], rest))
  {
    hide Inside, Strip, FirstWord, Suffix, Parse, StripQuote;
    PrependNothing(Parse(after, autoescape, inBlock, inLoop));
    if Inside(contents, "{#") {
      ParseTag("{#", contents, after, autoescape, inBlock, inLoop);
    }
    if Inside(contents, "{{") {
      ParseTag("{{", contents, after, autoescape, inBlock, inLoop);
      InsideNotEmpty(contents, "{{");
      assert [] + [Expression(contents, false)] == [Expression(contents, false)];
    }
  }
}
