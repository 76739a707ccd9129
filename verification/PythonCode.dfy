/** The Python that templates are compiled to: lines with an indentation, the statements they stand for, and
    the indentation grammar that takes one to the other. */
module PythonCode {
  import opened Bytes
  import opened TemplateAst

  /** Functions are named `_tt_execute` and `_tt_apply<n>`. */
  datatype Name = Execute | ApplyNumber(n: nat)

  datatype Code =
    | Pass
    | AppendText(text: string)             // _tt_append('...')
    | Assign(expression: string)           // _tt_tmp = ...
    | CoerceIf                             // if isinstance(_tt_tmp, _tt_string_types): ...
    | CoerceElse                           // else: _tt_tmp = _tt_utf8(str(_tt_tmp))
    | Escape(filter: string)             // _tt_tmp = _tt_utf8(f(_tt_tmp))
    | AppendTmp                            // _tt_append(_tt_tmp)
    | Exec(statement: string)
    | NewBuffer                            // _tt_buffer = []
    | BindAppend                           // _tt_append = _tt_buffer.append
    | ReturnJoin                           // return _tt_utf8('').join(_tt_buffer)
    | AppendCall(filter: string, name: Name)  // _tt_append(_tt_utf8(f(name())))
    | Head(statement: string)              // ...:
    | Def(name: Name)                      // def name():

  datatype Line = Line(indent: nat, code: Code)

  datatype Stmt =
    | Simple(code: Code)
    | Coerce
    | Function(name: Name, body: seq<Stmt>)
    | Compound(clauses: seq<Clause>)
  datatype Clause = Clause(statement: string, body: seq<Stmt>)

  function Heads(clauses: seq<Clause>): (r: seq<string>)
    ensures |r| == |clauses| && forall i :: 0 <= i < |clauses| ==> r[i] == clauses[i].statement
  {
    seq(|clauses|, i requires 0 <= i < |clauses| => clauses[i].statement)
  }

  predicate IsSimple(c: Code) {
    !c.Head? && !c.Def? && !c.CoerceIf? && !c.CoerceElse?
  }

  predicate Legal(suite: seq<Stmt>) {
    forall s :: s in suite ==> LegalStmt(s)
  }

  predicate LegalStmt(s: Stmt) {
    match s
    case Simple(code) => IsSimple(code)
    case Coerce => true
    case Function(_, body) => body != [] && Legal(body)
    case Compound(clauses) =>
      LegalClauses(Heads(clauses)) && forall c :: c in clauses ==> c.body != [] && Legal(c.body)
  }

  predicate IsJump(statement: string) {
    statement == "break" || statement == "continue"
  }

  predicate OpensLoop(statement: string) {
    FirstWord(statement) in {"for", "while"}
  }

  /** Python's rule for `break` and `continue`: they stand in the body of a loop, with no function in between. The
      else clause of a loop is outside of it. */
  predicate LoopsLegal(suite: seq<Stmt>, inLoop: bool) {
    suite == [] || (LoopLegal(suite[0], inLoop) && LoopsLegal(suite[1..], inLoop))
  }

  predicate LoopLegal(s: Stmt, inLoop: bool) {
    match s
    case Simple(Exec(statement)) => inLoop || !IsJump(statement)
    case Function(_, body) => LoopsLegal(body, false)
    case Compound(clauses) =>
      LoopsLegalIn(clauses, inLoop || (clauses != [] && OpensLoop(clauses[0].statement)), inLoop)
    case _ => true
  }

  predicate LoopsLegalIn(clauses: seq<Clause>, first: bool, others: bool) {
    clauses == [] || (LoopsLegal(clauses[0].body, first) && LoopsLegalIn(clauses[1..], others, others))
  }

  // Printing.

  function Layout(suite: seq<Stmt>, indent: nat): seq<Line> {
    if suite == [] then [] else LayoutStmt(suite[0], indent) + Layout(suite[1..], indent)
  }

  function LayoutStmt(s: Stmt, indent: nat): (r: seq<Line>)
    ensures !s.Compound? ==> r != [] && r[0].indent == indent
  {
    match s
    case Simple(code) => [Line(indent, code)]
    case Coerce => [Line(indent, CoerceIf), Line(indent, CoerceElse)]
    case Function(name, body) => [Line(indent, Def(name))] + Layout(body, indent + 1)
    case Compound(clauses) => LayoutClauses(clauses, indent)
  }

  function LayoutClauses(clauses: seq<Clause>, indent: nat): seq<Line> {
    if clauses == [] then [] else
    [Line(indent, Head(clauses[0].statement))] + Layout(clauses[0].body, indent + 1)
    + LayoutClauses(clauses[1..], indent)
  }

  lemma {:induction false} LayoutConcat(a: seq<Stmt>, b: seq<Stmt>, indent: nat)
    ensures Layout(a + b, indent) == Layout(a, indent) + Layout(b, indent)
  {
    if a == [] {
      assert a + b == b;
    } else {
      assert (a + b)[1..] == a[1..] + b;
      LayoutConcat(a[1..], b, indent);
    }
  }

  // Parsing, by indentation alone.

  /** The statements at exactly this indentation, up to the first line that is indented less. */
  function ParseSuite(lines: seq<Line>, indent: nat): (r: Option<(seq<Stmt>, seq<Line>)>)
    ensures r.Some? ==> |r.value.1| <= |lines|
    decreases |lines|, 2
  {
    if lines == [] || lines[0].indent < indent then Some(([], lines))
    else if lines[0].indent > indent then None
    else
      match ParseStmt(lines, indent)
      case None => None
      case Some((s, rest)) =>
        match ParseSuite(rest, indent)
        case None => None
        case Some((suite, last)) => Some(([s] + suite, last))
  }

  function ParseStmt(lines: seq<Line>, indent: nat): (r: Option<(Stmt, seq<Line>)>)
    requires lines != []
    ensures r.Some? ==> |r.value.1| < |lines|
    decreases |lines|, 1
  {
    match lines[0].code
    case Def(name) =>
      (match ParseBlock(lines[1..], indent)
       case None => None
       case Some((body, rest)) => Some((Function(name, body), rest)))
    case Head(statement) =>
      (match ParseClauses(lines, indent)
       case None => None
       case Some((clauses, rest)) =>
         if LegalClauses(Heads(clauses)) then Some((Compound(clauses), rest)) else None)
    case CoerceIf =>
      if |lines| > 1 && lines[1] == Line(indent, CoerceElse) then Some((Coerce, lines[2..])) else None
    case CoerceElse => None
    case code => Some((Simple(code), lines[1..]))
  }

  /** The suite under a header: at least one line, indented more than the header. */
  function ParseBlock(lines: seq<Line>, indent: nat): (r: Option<(seq<Stmt>, seq<Line>)>)
    ensures r.Some? ==> |r.value.1| <= |lines|
    decreases |lines|, 3
  {
    if lines == [] || lines[0].indent <= indent then None
    else
      match ParseSuite(lines, lines[0].indent)
      case None => None
      case Some((body, rest)) => if rest != [] && rest[0].indent > indent then None else Some((body, rest))
  }

  /** A header, its suite, and every clause that follows at the same indentation. */
  function ParseClauses(lines: seq<Line>, indent: nat): (r: Option<(seq<Clause>, seq<Line>)>)
    requires lines != [] && lines[0].code.Head?
    ensures r.Some? ==> |r.value.1| < |lines|
    decreases |lines|, 0
  {
    match ParseBlock(lines[1..], indent)
    case None => None
    case Some((body, rest)) =>
      var clause := Clause(lines[0].code.statement, body);
      if Continues(rest, indent) then
        match ParseClauses(rest, indent)
        case None => None
        case Some((clauses, last)) => Some(([clause] + clauses, last))
      else
        Some(([clause], rest))
  }

  predicate Continues(lines: seq<Line>, indent: nat) {
    lines != [] && lines[0].indent == indent && lines[0].code.Head? && StartsClause(lines[0].code.statement)
  }

  // Indentation means what the statements mean.

  lemma {:induction false} LayoutStarts(suite: seq<Stmt>, indent: nat)
    requires suite != [] && Legal(suite)
    ensures Layout(suite, indent) != [] && Layout(suite, indent)[0].indent == indent
            && !Continues(Layout(suite, indent), indent)
  {
    var s := suite[0];
    assert LegalStmt(s);
    assert Layout(suite, indent) == LayoutStmt(s, indent) + Layout(suite[1..], indent);
    if s.Compound? {
      assert Heads(s.clauses)[0] == s.clauses[0].statement;
      assert LayoutClauses(s.clauses, indent)[0] == Line(indent, Head(s.clauses[0].statement));
    }
  }

  /** Parsing the layout of legal statements gives the statements back and stops where they end. */
  lemma {:induction false} ParseLayout(suite: seq<Stmt>, indent: nat, rest: seq<Line>)
    requires Legal(suite)
    requires rest == [] || rest[0].indent < indent
    ensures ParseSuite(Layout(suite, indent) + rest, indent) == Some((suite, rest))
    decreases suite, 0
  {
    hide LegalClauses, FirstWord;
    if suite == [] {
      assert Layout(suite, indent) + rest == rest;
    } else {
      var tail := Layout(suite[1..], indent) + rest;
      assert Layout(suite, indent) + rest == LayoutStmt(suite[0], indent) + tail;
      assert LegalStmt(suite[0]);
      assert tail == [] || (tail[0].indent <= indent && !Continues(tail, indent)) by {
        if suite[1..] != [] {
          LayoutStarts(suite[1..], indent);
        } else {
          assert tail == rest;
        }
      }
      ParseLayoutStmt(suite[0], indent, tail);
      LayoutStarts([suite[0]], indent);
      assert Layout([suite[0]], indent) == LayoutStmt(suite[0], indent);
      ParseLayout(suite[1..], indent, rest);
      assert suite == [suite[0]] + suite[1..];
    }
  }

  lemma {:induction false} ParseLayoutStmt(s: Stmt, indent: nat, rest: seq<Line>)
    requires LegalStmt(s)
    requires rest == [] || (rest[0].indent <= indent && !Continues(rest, indent))
    ensures LayoutStmt(s, indent) != []
    ensures ParseStmt(LayoutStmt(s, indent) + rest, indent) == Some((s, rest))
    decreases s
  {
    hide FirstWord, ParseBlock, ParseClauses, Layout, LayoutClauses, Legal, ElifTail, TryTail;
    var lines := LayoutStmt(s, indent) + rest;
    match s
    case Simple(code) =>
      assert lines[1..] == rest;
    case Coerce =>
      assert lines[2..] == rest;
    case Function(name, body) =>
      assert lines[1..] == Layout(body, indent + 1) + rest;
      ParseLayoutBlock(body, indent, rest);
    case Compound(clauses) =>
      ParseLayoutClauses(clauses, indent, rest);
  }

  lemma {:induction false} ParseLayoutBlock(body: seq<Stmt>, indent: nat, rest: seq<Line>)
    requires body != [] && Legal(body)
    requires rest == [] || rest[0].indent <= indent
    ensures ParseBlock(Layout(body, indent + 1) + rest, indent) == Some((body, rest))
    decreases body, 1
  {
    LayoutStarts(body, indent + 1);
    ParseLayout(body, indent + 1, rest);
  }

  lemma ClausesShape(clauses: seq<Clause>, indent: nat, rest: seq<Line>)
    requires clauses != []
    ensures var lines := LayoutClauses(clauses, indent) + rest;
            lines != [] && lines[0] == Line(indent, Head(clauses[0].statement)) &&
            lines[1..] == Layout(clauses[0].body, indent + 1) + (LayoutClauses(clauses[1..], indent) + rest)
  {
    hide Layout;
    var body, tail := Layout(clauses[0].body, indent + 1), LayoutClauses(clauses[1..], indent);
    assert LayoutClauses(clauses, indent) == [Line(indent, Head(clauses[0].statement))] + body + tail;
  }

  lemma {:induction false} ParseLayoutClauses(clauses: seq<Clause>, indent: nat, rest: seq<Line>)
    requires clauses != [] && forall c :: c in clauses ==> c.body != [] && Legal(c.body)
    requires forall i :: 1 <= i < |clauses| ==> StartsClause(clauses[i].statement)
    requires rest == [] || (rest[0].indent <= indent && !Continues(rest, indent))
    ensures var lines := LayoutClauses(clauses, indent) + rest;
            lines != [] && lines[0] == Line(indent, Head(clauses[0].statement)) &&
            ParseClauses(lines, indent) == Some((clauses, rest))
    decreases clauses
  {
    hide LegalClauses, FirstWord, StartsClause, Layout, LayoutClauses, ParseBlock, ParseStmt, ParseSuite, Legal;
    ClausesShape(clauses, indent, rest);
    var after := LayoutClauses(clauses[1..], indent) + rest;
    if |clauses| == 1 {
      EmptyClauses(indent);
      assert clauses[1..] == [];
      assert after == rest;
      ParseLayoutBlock(clauses[0].body, indent, rest);
      assert clauses == [clauses[0]];
    } else {
      ParseLayoutClauses(clauses[1..], indent, rest);
      ParseLayoutBlock(clauses[0].body, indent, after);
      assert clauses == [clauses[0]] + clauses[1..];
    }
  }

  lemma EmptyClauses(indent: nat)
    ensures LayoutClauses([], indent) == []
  {
  }
}
