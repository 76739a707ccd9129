/** The template parser (`_TemplateReader` and `_parse` in tornado/template.py). */
module TemplateParser {
  import opened Bytes
  import opened TemplateAst

  predicate IsSpace(c: char) {
    c == ' ' || '\t' <= c <= '\r'
  }

  function StripLeft(s: string): (r: string)
    ensures |r| <= |s|
  {
    if s != "" && IsSpace(s[0]) then StripLeft(s[1..]) else s
  }

  function StripRight(s: string): (r: string)
    ensures |r| <= |s|
  {
    if s != "" && IsSpace(s[|s| - 1]) then StripRight(s[..|s| - 1]) else s
  }

  function Strip(s: string): string {
    StripRight(StripLeft(s))
  }

  /** `s.strip(q)` for a one-character argument */
  function StripQuote(s: string, q: char): (r: string)
    decreases |s|
  {
    if s != "" && s[0] == q then StripQuote(s[1..], q)
    else if s != "" && s[|s| - 1] == q then StripQuote(s[..|s| - 1], q)
    else s
  }

  /** The part after the first word, stripped. */
  function Suffix(contents: string): string {
    var n := |FirstWord(contents)|;
    if n < |contents| then Strip(contents[n + 1..]) else ""
  }

  /** A directive starts at an opening brace followed by a second brace, a percent sign or a hash; of several
      braces in a row the last two count. */
  predicate IsTag(s: string, i: nat) {
    && i + 1 < |s| && s[i] == '{' && (s[i + 1] == '{' || s[i + 1] == '%' || s[i + 1] == '#')
    && !(s[i + 1] == '{' && i + 2 < |s| && s[i + 2] == '{')
  }

  /** The first directive at or after `i`. */
  function NextTag(s: string, i: nat): (r: Option<nat>)
    ensures r.Some? ==> i <= r.value && IsTag(s, r.value) && forall j: nat :: i <= j < r.value ==> !IsTag(s, j)
    ensures r.None? ==> forall j: nat :: i <= j ==> !IsTag(s, j)
    decreases |s| - i
  {
    if i >= |s| then None else if IsTag(s, i) then Some(i) else NextTag(s, i + 1)
  }

  lemma NextTagUnique(s: string, i: nat)
    requires IsTag(s, i) && forall j: nat :: j < i ==> !IsTag(s, j)
    ensures NextTag(s, 0) == Some(i)
  {
  }

  /** What a `{% %}` directive asks for. */
  datatype Directive =
    | Bad
    | End
    | Skip
    | Leaf(node: Node)
    | SetAutoescape(name: Option<string>)
    | Open(operator: string, suffix: string)

  predicate MayFollow(operator: string, inBlock: string) {
    match operator
    case "else" => inBlock == "if" || inBlock == "for" || inBlock == "while" || inBlock == "try"
    case "elif" => inBlock == "if"
    case _ => inBlock == "try"
  }

  function Classify(contents: string, inBlock: Option<string>, inLoop: bool): Directive {
    var operator := FirstWord(contents);
    var suffix := Suffix(contents);
    if StartsClause(contents) then
      if inBlock.None? || !MayFollow(operator, inBlock.value) then Bad else Leaf(Intermediate(contents))
    else if operator == "end" then if inBlock.None? then Bad else End
    else if operator == "comment" then Skip
    else if operator == "extends" || operator == "include" then
      var name := StripQuote(StripQuote(suffix, '"'), '\'');
      if name == "" then Bad else if operator == "extends" then Leaf(Extends(name)) else Leaf(Include(name))
    else if operator == "import" || operator == "from" then
      if suffix == "" then Bad else Leaf(Statement(contents))
    else if operator == "set" then
      if suffix == "" then Bad else Leaf(Statement(suffix))
    else if operator == "autoescape" then SetAutoescape(if suffix == "None" then None else Some(suffix))
    else if operator == "raw" then Leaf(Expression(suffix, true))
    else if operator == "module" then Leaf(Expression("_tt_modules." + suffix, true))
    else if operator == "apply" || operator == "block" then if suffix == "" then Bad else Open(operator, suffix)
    else if StartsBlock(contents) then Open(operator, contents)
    else if operator == "break" || operator == "continue" then
      if inLoop then Leaf(Statement(contents)) else Bad
    else Bad
  }

  /** Inside loops, break and continue are allowed; not in the function that an apply block becomes. */
  function LoopInside(operator: string, inLoop: bool): bool {
    if operator == "for" || operator == "while" then true else if operator == "apply" then false else inLoop
  }

  function Close(operator: string, suffix: string, body: seq<Node>): Node {
    match operator
    case "apply" => Apply(suffix, body)
    case "block" => NamedBlock(suffix, body)
    case _ => Control(suffix, body)
  }

  /** The chunks parsed, the text after the end tag, and the template's autoescape setting; or a ParseError. */
  datatype Parsed = Chunks(nodes: seq<Node>, rest: string, autoescape: Option<string>) | Error

  function Prepend(first: seq<Node>, p: Parsed): Parsed {
    if p.Error? then Error else p.(nodes := first + p.nodes)
  }

  /** One directive: the text before it, what it asks for, and what is left after it. */
  datatype Token = Token(before: seq<Node>, directive: Directive, after: string)

  /** The directive whose opening tag is at `c`. */
  function ReadToken(s: string, c: nat, inBlock: Option<string>, inLoop: bool): (t: Token)
    requires c + 2 <= |s|
    ensures |t.after| <= |s| - 2
  {
    var before := if c > 0 then [Text(s[..c])] else [];
    if c + 2 < |s| && s[c + 2] == '!' then Token(before, Leaf(Text(s[c..c + 2])), s[c + 3..])
    else ReadTag(before, s[c..c + 2], s[c + 2..], inBlock, inLoop)
  }

  function ClosingTag(opener: string): string {
    if opener == "{#" then "#}" else if opener == "{{" then "}}" else "%}"
  }

  /** The rest of a directive, after its opening tag. */
  function ReadTag(before: seq<Node>, opener: string, s: string, inBlock: Option<string>, inLoop: bool): (t: Token)
    ensures |t.after| <= |s|
  {
    match FindFrom(ClosingTag(opener), s, 0)
    case None => Token(before, Bad, "")
    case Some(end) =>
      FindFromIsFirst(ClosingTag(opener), s, 0);
      var contents := Strip(s[..end]);
      Token(before, Tagged(opener, contents, inBlock, inLoop), s[end + 2..])
  }

  function Tagged(opener: string, contents: string, inBlock: Option<string>, inLoop: bool): Directive {
    if opener == "{#" then Skip
    else if contents == "" then Bad
    else if opener == "{{" then Leaf(Expression(contents, false))
    else Classify(contents, inBlock, inLoop)
  }

  /** The grammar, by what is left of the text. */
  function Parse(s: string, autoescape: Option<string>, inBlock: Option<string>, inLoop: bool): (r: Parsed)
    ensures r.Chunks? ==> |r.rest| <= |s|
    decreases |s|, 1
  {
    match NextTag(s, 0)
    case None => if inBlock.Some? then Error else Chunks([Text(s)], "", autoescape)
    case Some(c) => ParseAfter(ReadToken(s, c, inBlock, inLoop), autoescape, inBlock, inLoop, |s|)
  }

  /** What follows a directive; the bound says that parsing ends. */
  function ParseAfter(t: Token, autoescape: Option<string>, inBlock: Option<string>, inLoop: bool, bound: nat):
    (r: Parsed)
    requires |t.after| < bound
    ensures r.Chunks? ==> |r.rest| <= bound
    decreases bound, 0
  {
    match t.directive
    case Bad => Error
    case End => Chunks(t.before, t.after, autoescape)
    case Skip => Prepend(t.before, Parse(t.after, autoescape, inBlock, inLoop))
    case Leaf(node) => Prepend(t.before + [node], Parse(t.after, autoescape, inBlock, inLoop))
    case SetAutoescape(name) => Prepend(t.before, Parse(t.after, name, inBlock, inLoop))
    case Open(operator, suffix) =>
      match Parse(t.after, autoescape, Some(operator), LoopInside(operator, inLoop))
      case Error => Error
      case Chunks(body, rest, autoescape') =>
        Prepend(t.before + [Close(operator, suffix, body)], Parse(rest, autoescape', inBlock, inLoop))
  }

  function Newlines(s: string): nat {
    if s == "" then 0 else (if s[0] == '\n' then 1 else 0) + Newlines(s[1..])
  }

  lemma {:induction false} NewlinesConcat(a: string, b: string)
    ensures Newlines(a + b) == Newlines(a) + Newlines(b)
  {
    if a == "" {
      assert a + b == b;
    } else {
      assert (a + b)[1..] == a[1..] + b;
      NewlinesConcat(a[1..], b);
    }
  }

  class TemplateReader {
    const text: string
    var pos: nat
    var line: nat
    /** The `autoescape` attribute of the template being parsed. */
    var autoescape: Option<string>

    ghost predicate Valid()
      reads this
    {
      pos <= |text| && line == 1 + Newlines(text[..pos])
    }

    ghost function Rest(): string
      requires Valid()
      reads this
    {
      text[pos..]
    }

    constructor (text: string, autoescape: Option<string>)
      ensures Valid() && Rest() == text && this.autoescape == autoescape && pos == 0 && this.text == text
    {
      this.text, this.autoescape := text, autoescape;
      pos, line := 0, 1;
      new;
      assert text[..0] == "";
    }

    /** `find(needle, start)`, relative to the current position. */
    method Find(needle: string, start: nat) returns (index: Option<nat>)
      requires Valid() && start <= |Rest()|
      ensures index == FindFrom(needle, Rest(), start)
    {
      ShiftFind(needle, text, pos, start);
      var i := FindFrom(needle, text, pos + start);
      FindFromIsFirst(needle, text, pos + start);
      return if i.None? then None else Some(i.value - pos);
    }

    /** `consume(count)`: advances, counting the newlines passed. */
    method Consume(count: nat) returns (s: string)
      requires Valid() && count <= |Rest()|
      modifies `pos, `line
      ensures Valid() && s == old(Rest())[..count] && Rest() == old(Rest())[count..]
      ensures pos == old(pos) + count
    {
      var newpos := pos + count;
      s := text[pos..newpos];
      assert text[..newpos] == text[..pos] + s;
      NewlinesConcat(text[..pos], s);
      assert s == Rest()[..count] && text[newpos..] == Rest()[count..];
      line := line + Newlines(s);
      pos := newpos;
    }

    /** `_parse`: the loop over directives. The position never goes back, and moves past the opening tag of
        every block before its body is parsed. */
    method ParseChunks(inBlock: Option<string>, inLoop: bool) returns (r: Parsed)
      requires Valid()
      modifies this
      ensures Valid() && pos >= old(pos)
      ensures r == Parse(old(Rest()), old(autoescape), inBlock, inLoop)
      ensures r.Chunks? ==> Rest() == r.rest && autoescape == r.autoescape
      decreases |text| - pos, 1
    {
      hide Classify, FindFrom, Strip;
      var chunks: seq<Node> := [];
      ghost var whole := Parse(Rest(), autoescape, inBlock, inLoop);
      while true
        invariant Valid() && pos >= old(pos)
        invariant whole == Prepend(chunks, Parse(Rest(), autoescape, inBlock, inLoop))
        decreases |text| - pos
      {
        ghost var rest := Rest();
        var c := SeekTag();
        if c.None? {
          if inBlock.Some? {
            return Error;
          }
          var last := Consume(|text| - pos);
          assert last == rest;
          return Chunks(chunks + [Text(last)], "", autoescape);
        }
        var done;
        chunks, done := ParseDirective(chunks, c.value, inBlock, inLoop);
        if done.Some? {
          return done.value;
        }
      }
    }

    /** The body of the loop of `_parse`, for the directive found `c` characters ahead; `done` says that the
        loop ends. */
    method ParseDirective(chunks: seq<Node>, c: nat, inBlock: Option<string>, inLoop: bool)
      returns (chunks': seq<Node>, done: Option<Parsed>)
      requires Valid() && NextTag(Rest(), 0) == Some(c)
      modifies this
      ensures Valid() && pos > old(pos)
      ensures var whole := Prepend(chunks, Parse(old(Rest()), old(autoescape), inBlock, inLoop));
              match done
              case None => whole == Prepend(chunks', Parse(Rest(), autoescape, inBlock, inLoop))
              case Some(r) => whole == r && (r.Chunks? ==> Rest() == r.rest && autoescape == r.autoescape)
      decreases |text| - pos, 0
    {
      hide NextTag, ReadToken, Close, LoopInside;
      ghost var bound := |Rest()|;
      var before, directive := ReadDirective(c, inBlock, inLoop);
      ghost var token := Token(before, directive, Rest());
      assert Parse(old(Rest()), autoescape, inBlock, inLoop) == ParseAfter(token, autoescape, inBlock, inLoop, bound);
      chunks', done := chunks + before, None;
      match directive
      case Bad =>
        return chunks', Some(Error);
      case End =>
        return chunks', Some(Chunks(chunks', text[pos..], autoescape));
      case Skip =>
        Regroup(chunks, before, []);
      case Leaf(node) =>
        Regroup(chunks, before, [node]);
        chunks' := chunks' + [node];
      case SetAutoescape(name) =>
        Regroup(chunks, before, []);
        autoescape := name;
      case Open(operator, suffix) =>
        var body := ParseChunks(Some(operator), LoopInside(operator, inLoop));
        if body.Error? {
          return chunks', Some(Error);
        }
        var block := Close(operator, suffix, body.nodes);
        Regroup(chunks, before, [block]);
        chunks' := chunks' + [block];
    }

    /** Reads one directive. */
    method ReadDirective(c: nat, inBlock: Option<string>, inLoop: bool) returns (before: seq<Node>, d: Directive)
      requires Valid() && c + 2 <= |Rest()|
      modifies `pos, `line
      ensures Valid() && pos > old(pos)
      ensures var t := ReadToken(old(Rest()), c, inBlock, inLoop);
              before == t.before && d == t.directive && (d.Bad? || Rest() == t.after)
    {
      hide Classify, FindFrom, Strip;
      ghost var s := Rest();
      before := [];
      if c > 0 {
        var cons := Consume(c);
        before := [Text(cons)];
      }
      var opener := Consume(2);
      assert opener == s[c..c + 2] && Rest() == s[c + 2..];
      if |text| - pos > 0 && text[pos] == '!' {
        var _ := Consume(1);
        return before, Leaf(Text(opener));
      }
      d := ReadContents(before, opener, inBlock, inLoop);
    }

    method ReadContents(ghost before: seq<Node>, opener: string, inBlock: Option<string>, inLoop: bool)
      returns (d: Directive)
      requires Valid()
      modifies `pos, `line
      ensures Valid() && pos >= old(pos)
      ensures var t := ReadTag(before, opener, old(Rest()), inBlock, inLoop);
              d == t.directive && (d.Bad? || Rest() == t.after)
    {
      hide Classify, FindFrom, Strip;
      ghost var s := Rest();
      var end := Find(ClosingTag(opener), 0);
      if end.None? {
        return Bad;
      }
      FindFromIsFirst(ClosingTag(opener), s, 0);
      var contents := Consume(end.value);
      contents := Strip(contents);
      var _ := Consume(2);
      assert Rest() == s[end.value + 2..];
      if opener == "{#" {
        return Skip;
      }
      if contents == "" {
        return Bad;
      }
      if opener == "{{" {
        return Leaf(Expression(contents, false));
      }
      d := Classify(contents, inBlock, inLoop);
    }

    /** The inner loop of `_parse`: the next brace that starts a directive. */
    method SeekTag() returns (curly: Option<nat>)
      requires Valid()
      ensures curly == NextTag(Rest(), 0)
    {
      hide FindFrom;
      var at := 0;
      while true
        invariant at <= |Rest()| && forall j: nat :: j < at ==> !IsTag(Rest(), j)
        decreases |Rest()| - at
      {
        var found := Find("{", at);
        FindFromIsFirst("{", Rest(), at);
        BraceBefore(Rest(), at, found);
        if found.None? || found.value + 1 == |text| - pos {
          return None;
        }
        at := found.value;
        if !(text[pos + at + 1] == '{' || text[pos + at + 1] == '%' || text[pos + at + 1] == '#') {
          at := at + 1;
        } else if at + 2 < |text| - pos && text[pos + at + 1] == '{' && text[pos + at + 2] == '{' {
          at := at + 1;
        } else {
          NextTagUnique(Rest(), at);
          return Some(at);
        }
      }
    }
  }

  lemma Regroup(a: seq<Node>, b: seq<Node>, c: seq<Node>)
    ensures forall p {:trigger Prepend(b + c, p)} :: Prepend(a, Prepend(b + c, p)) == Prepend(a + b + c, p)
  {
    forall p
      ensures Prepend(a, Prepend(b + c, p)) == Prepend(a + b + c, p)
    {
      if p.Chunks? {
        assert a + (b + c + p.nodes) == a + b + c + p.nodes;
      }
    }
  }

  lemma TagIsBrace(s: string, j: nat)
    ensures IsTag(s, j) ==> OccursAt("{", s, j)
  {
    if IsTag(s, j) {
      assert s[j..j + 1] == "{";
    }
  }

  lemma BraceBefore(s: string, start: nat, found: Option<nat>)
    requires found.Some? ==> IsFirst("{", s, start, found.value)
    requires found.None? ==> forall j: nat :: start <= j ==> !OccursAt("{", s, j)
    ensures forall j: nat :: start <= j && (found.Some? ==> j < found.value) ==> !IsTag(s, j)
  {
    forall j: nat | start <= j && (found.Some? ==> j < found.value)
      ensures !IsTag(s, j)
    {
      TagIsBrace(s, j);
    }
  }

  lemma {:induction false} ShiftFind(needle: string, text: string, pos: nat, start: nat)
    requires pos + start <= |text|
    ensures FindFrom(needle, text[pos..], start) ==
            match FindFrom(needle, text, pos + start) case None => None case Some(i) => Some(i - pos)
    decreases |text| - start
  {
    FindFromIsFirst(needle, text, pos + start);
    if pos + start + |needle| <= |text| {
      assert text[pos..][start..start + |needle|] == text[pos + start..pos + start + |needle|];
      if !OccursAt(needle, text, pos + start) && pos + start < |text| {
        ShiftFind(needle, text, pos, start + 1);
      }
    }
  }
}
