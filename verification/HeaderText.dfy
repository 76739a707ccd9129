/** Strings of header text: the case of names, white space, lines (tornado/httputil.py). */
module HeaderText {
  import opened Bytes

  // ----- the case of names; only ASCII letters have case here -----

  function Upper(c: char): char {
    if 'a' <= c <= 'z' then (c as int - 32) as char else c
  }

  function Lower(c: char): char {
    if 'A' <= c <= 'Z' then (c as int + 32) as char else c
  }

  function LowerAll(s: string): (r: string)
    ensures |r| == |s|
  {
    seq(|s|, i requires 0 <= i < |s| => Lower(s[i]))
  }

  /** `w.capitalize()` */
  function Capitalize(w: string): string {
    if w == "" then "" else [Upper(w[0])] + LowerAll(w[1..])
  }

  /** `s.split(c)` */
  function Split(s: string, c: char): (r: seq<string>)
    ensures r != []
  {
    if s == "" then [""]
    else if s[0] == c then [""] + Split(s[1..], c)
    else
      var rest := Split(s[1..], c);
      [[s[0]] + rest[0]] + rest[1..]
  }

  /** `glue.join(parts)` */
  function Join(glue: string, parts: seq<string>): string {
    if parts == [] then "" else if |parts| == 1 then parts[0] else parts[0] + glue + Join(glue, parts[1..])
  }

  function CapitalizeAll(parts: seq<string>): (r: seq<string>)
    ensures |r| == |parts|
  {
    if parts == [] then [] else [Capitalize(parts[0])] + CapitalizeAll(parts[1..])
  }

  /** `"-".join([w.capitalize() for w in key.split("-")])` */
  function Normalized(name: string): string {
    Join("-", CapitalizeAll(Split(name, '-')))
  }

  /** The same, one character after the other: a letter is upper case at the start of a word. */
  function Cased(s: string, start: bool): (r: string)
    ensures |r| == |s|
  {
    if s == "" then "" else [if start then Upper(s[0]) else Lower(s[0])] + Cased(s[1..], s[0] == '-')
  }

  /** A word as it is, and the words after it with capital letters. */
  function Words(first: string, rest: seq<string>): string {
    Join("-", [first] + CapitalizeAll(rest))
  }

  lemma WordsCons(first: string, rest: seq<string>)
    ensures Words(first, rest) == if rest == [] then first else first + ("-" + Words(Capitalize(rest[0]), rest[1..]))
  {
    var all := [first] + CapitalizeAll(rest);
    assert all[1..] == CapitalizeAll(rest);
    if rest != [] {
      assert first + "-" + Join("-", all[1..]) == first + ("-" + Join("-", all[1..]));
    }
  }

  lemma WordsPrefix(c: char, first: string, rest: seq<string>)
    ensures Words([c] + first, rest) == [c] + Words(first, rest)
  {
    hide Words;
    WordsCons([c] + first, rest);
    WordsCons(first, rest);
    if rest != [] {
      var more := "-" + Words(Capitalize(rest[0]), rest[1..]);
      assert ([c] + first) + more == [c] + (first + more);
    }
  }

  lemma NormalizedIsWords(s: string)
    ensures Normalized(s) == Words(Capitalize(Split(s, '-')[0]), Split(s, '-')[1..])
  {
    var parts := Split(s, '-');
    assert CapitalizeAll(parts) == [Capitalize(parts[0])] + CapitalizeAll(parts[1..]);
  }

  lemma {:induction false} NormalizedIsCased(s: string)
    ensures Normalized(s) == Cased(s, true)
    ensures Words(LowerAll(Split(s, '-')[0]), Split(s, '-')[1..]) == Cased(s, false)
  {
    hide Upper, Lower, Words, Normalized;
    NormalizedIsWords(s);
    if s == "" {
      assert [""][1..] == [];
      WordsCons("", []);
    } else {
      NormalizedIsCased(s[1..]);
      NormalizedIsWords(s[1..]);
      var rest := Split(s[1..], '-');
      if s[0] == '-' {
        DashHasNoCase();
        assert ([""] + rest)[1..] == rest;
        WordsCons("", rest);
        assert "" + ("-" + Cased(s[1..], true)) == "-" + Cased(s[1..], true);
      } else {
        SplitLetter(s);
        WordsPrefix(Upper(s[0]), LowerAll(rest[0]), rest[1..]);
        WordsPrefix(Lower(s[0]), LowerAll(rest[0]), rest[1..]);
      }
    }
  }

  lemma SplitLetter(s: string)
    requires s != "" && s[0] != '-'
    ensures var parts, rest := Split(s, '-'), Split(s[1..], '-');
            && parts[1..] == rest[1..]
            && Capitalize(parts[0]) == [Upper(s[0])] + LowerAll(rest[0])
            && LowerAll(parts[0]) == [Lower(s[0])] + LowerAll(rest[0])
  {
    hide Upper, Lower;
    var rest := Split(s[1..], '-');
    assert ([s[0]] + rest[0])[1..] == rest[0];
    assert ([[s[0]] + rest[0]] + rest[1..])[1..] == rest[1..];
  }

  lemma DashHasNoCase()
    ensures Upper('-') == '-' && Lower('-') == '-' && LowerAll("") == ""
  {
  }

  lemma {:induction false} CasedTwice(s: string, start: bool)
    ensures Cased(Cased(s, start), start) == Cased(s, start)
  {
    if s != "" {
      CasedTwice(s[1..], s[0] == '-');
      var c := if start then Upper(s[0]) else Lower(s[0]);
      assert ([c] + Cased(s[1..], s[0] == '-'))[1..] == Cased(s[1..], s[0] == '-');
      assert c == '-' <==> s[0] == '-';
    }
  }

  lemma {:induction false} CasedIgnoresCase(s: string, t: string, start: bool)
    requires LowerAll(s) == LowerAll(t)
    ensures Cased(s, start) == Cased(t, start)
  {
    if s != "" {
      assert |s| == |LowerAll(t)| == |t|;
      assert Lower(s[0]) == LowerAll(s)[0] == LowerAll(t)[0] == Lower(t[0]);
      assert LowerAll(s[1..]) == LowerAll(s)[1..] == LowerAll(t)[1..] == LowerAll(t[1..]);
      CasedIgnoresCase(s[1..], t[1..], s[0] == '-');
    }
  }

  lemma NameExample()
    ensures Normalized("xy-dA") == "Xy-Da"
  {
    NormalizedIsCased("xy-dA");
    assert "xy-dA"[1..] == "y-dA" && "y-dA"[1..] == "-dA" && "-dA"[1..] == "dA" && "dA"[1..] == "A" && "A"[1..] == "";
    assert Cased("", false) == "" && Cased("A", false) == "a" && Cased("dA", true) == "Da";
    assert Cased("-dA", false) == "-Da" && Cased("y-dA", false) == "y-Da";
  }


  /** Normalizing twice is normalizing once. */
  lemma NormalizedTwice(s: string)
    ensures Normalized(Normalized(s)) == Normalized(s)
  {
    NormalizedIsCased(s);
    NormalizedIsCased(Normalized(s));
    CasedTwice(s, true);
  }

  /** Names that differ only in case have the same normal form. */
  lemma NormalizedIgnoresCase(s: string, t: string)
    requires LowerAll(s) == LowerAll(t)
    ensures Normalized(s) == Normalized(t)
  {
    NormalizedIsCased(s);
    NormalizedIsCased(t);
    CasedIgnoresCase(s, t, true);
  }

  // ----- white space and lines -----

  predicate IsBreak(c: char) {
    '\n' <= c <= '\r' || '\U{1c}' <= c <= '\U{1e}' || c == '\U{85}' || c == '\U{2028}' || c == '\U{2029}'
  }

  predicate IsSpace(c: char) {
    || IsBreak(c) || c == ' ' || c == '\t' || c == '\U{1f}' || c == '\U{a0}' || c == '\U{1680}'
    || '\U{2000}' <= c <= '\U{200a}' || c == '\U{202f}' || c == '\U{205f}' || c == '\U{3000}'
  }

  function StripLeft(s: string): string {
    if s != "" && IsSpace(s[0]) then StripLeft(s[1..]) else s
  }

  function StripRight(s: string): string {
    if s != "" && IsSpace(s[|s| - 1]) then StripRight(s[..|s| - 1]) else s
  }

  function Strip(s: string): string {
    StripRight(StripLeft(s))
  }

  predicate Trimmed(s: string) {
    s == "" || (!IsSpace(s[0]) && !IsSpace(s[|s| - 1]))
  }

  lemma StripAfterSpace(s: string)
    requires Trimmed(s)
    ensures Strip(" " + s) == s
  {
    hide IsBreak;
    assert (" " + s)[1..] == s;
    assert StripLeft(" " + s) == StripLeft(s) == s;
  }

  function LineEnd(s: string): (n: nat)
    ensures n <= |s|
  {
    if s == "" || IsBreak(s[0]) then 0 else 1 + LineEnd(s[1..])
  }

  /** `s.splitlines()` */
  function SplitLines(s: string): seq<string>
    decreases |s|
  {
    if s == "" then []
    else
      var n := LineEnd(s);
      if n == |s| then [s]
      else if s[n] == '\r' && n + 1 < |s| && s[n + 1] == '\n' then [s[..n]] + SplitLines(s[n + 2..])
      else [s[..n]] + SplitLines(s[n + 1..])
  }

  predicate OneLine(s: string) {
    forall c :: c in s ==> !IsBreak(c)
  }

  lemma {:induction false} LineEndIs(line: string, rest: string)
    requires OneLine(line)
    ensures LineEnd(line + "\r\n" + rest) == |line|
  {
    if line != "" {
      assert (line + "\r\n" + rest)[1..] == line[1..] + "\r\n" + rest;
      assert line[0] in line && forall c :: c in line[1..] ==> c in line;
      LineEndIs(line[1..], rest);
    }
  }

  lemma SplitFirst(line: string, rest: string)
    requires OneLine(line)
    ensures SplitLines(line + "\r\n" + rest) == [line] + SplitLines(rest)
  {
    hide IsBreak;
    var s := line + "\r\n" + rest;
    LineEndIs(line, rest);
    assert s[|line|] == '\r' && s[|line| + 1] == '\n' && s[..|line|] == line && s[|line| + 2..] == rest;
  }
}
