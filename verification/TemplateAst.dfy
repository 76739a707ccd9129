/** The syntax tree of a template (the `_Node` classes of tornado/template.py), and the set of templates a
    loader can find. */
module TemplateAst {
  import opened Bytes

  datatype Node =
    | Text(value: string)
    | Expression(expression: string, raw: bool)
    | Statement(statement: string)
    | Intermediate(statement: string)
    | Control(statement: string, body: seq<Node>)
    | Apply(filter: string, body: seq<Node>)
    | NamedBlock(name: string, body: seq<Node>)
    | Include(name: string)
    | Extends(name: string)

  datatype Template = Template(body: seq<Node>, autoescape: Option<string>)

  /** The loader: every template that exists, by resolved name. */
  type World = map<string, Template>

  /** `s.partition(" ")[0]` */
  function FirstWord(s: string): string {
    if s == "" || s[0] == ' ' then "" else [s[0]] + FirstWord(s[1..])
  }

  predicate StartsClause(statement: string) {
    FirstWord(statement) in {"else", "elif", "except", "finally"}
  }

  predicate StartsBlock(statement: string) {
    FirstWord(statement) in {"if", "for", "while", "try"}
  }

  /** The orders of clauses that Python accepts in one compound statement. */
  predicate LegalClauses(statements: seq<string>) {
    && statements != [] && StartsBlock(statements[0])
    && (forall i :: 1 <= i < |statements| ==> StartsClause(statements[i]))
    && match FirstWord(statements[0])
       case "if" => ElifTail(statements[1..])
       case "try" => TryTail(statements[1..], false)
       case _ => |statements| == 1 || (|statements| == 2 && FirstWord(statements[1]) == "else")
  }

  predicate ElifTail(statements: seq<string>) {
    statements == [] || (|statements| == 1 && FirstWord(statements[0]) == "else") ||
    (FirstWord(statements[0]) == "elif" && ElifTail(statements[1..]))
  }

  /** except clauses, then at most one else, then at most one finally; `caught` says that a clause came before. */
  predicate TryTail(statements: seq<string>, caught: bool) {
    if statements == [] then caught
    else if FirstWord(statements[0]) == "except" then TryTail(statements[1..], true)
    else if FirstWord(statements[0]) == "else" then
      caught && (|statements| == 1 || (|statements| == 2 && FirstWord(statements[1]) == "finally"))
    else |statements| == 1 && FirstWord(statements[0]) == "finally"
  }

  /** A clause of a control block: its statement and the chunks up to the next intermediate statement. */
  datatype Part = Part(statement: string, nodes: seq<Node>)

  function Size(nodes: seq<Node>): nat {
    if nodes == [] then 0 else NodeSize(nodes[0]) + Size(nodes[1..])
  }

  function NodeSize(n: Node): nat {
    1 + match n
    case Control(_, body) => Size(body)
    case Apply(_, body) => Size(body)
    case NamedBlock(_, body) => Size(body)
    case _ => 0
  }

  /** The clauses of a control block with the given opening statement. */
  function Split(statement: string, body: seq<Node>): (parts: seq<Part>)
    ensures parts != [] && parts[0].statement == statement
    ensures forall i :: 0 <= i < |parts| ==> Size(parts[i].nodes) <= Size(body)
    ensures forall i, n :: 0 <= i < |parts| && n in parts[i].nodes ==> n in body && !n.Intermediate?
    decreases body
  {
    assert forall n :: n in body[if body == [] then 0 else 1..] ==> n in body;
    if body == [] then [Part(statement, [])]
    else if body[0].Intermediate? then [Part(statement, [])] + Split(body[0].statement, body[1..])
    else
      var rest := Split(statement, body[1..]);
      assert ([body[0]] + rest[0].nodes)[1..] == rest[0].nodes;
      [Part(statement, [body[0]] + rest[0].nodes)] + rest[1..]
  }

  function Statements(parts: seq<Part>): (r: seq<string>)
    ensures |r| == |parts| && forall i :: 0 <= i < |parts| ==> r[i] == parts[i].statement
  {
    seq(|parts|, i requires 0 <= i < |parts| => parts[i].statement)
  }

  /** Intermediate statements stand only directly inside control blocks, in an order Python accepts, and
      directives that replace the whole template only at the top level. */
  predicate WellFormed(nodes: seq<Node>) {
    forall n :: n in nodes ==> !n.Intermediate? && WellFormedNode(n)
  }

  predicate WellFormedNode(n: Node) {
    match n
    case Control(statement, body) =>
      LegalClauses(Statements(Split(statement, body))) && forall c :: c in body ==> WellFormedNode(c)
    case Apply(_, body) => WellFormed(body)
    case NamedBlock(_, body) => WellFormed(body)
    case _ => true
  }
}
