/** Escaping for HTML (tornado/escape.py). */
module Entities {
  import opened Bytes

  /** `xhtml_escape` */
  function Escape(s: string): string {
    if s == "" then "" else EscapeChar(s[0]) + Escape(s[1..])
  }

  function EscapeChar(c: char): string {
    match c
    case '&' => "&amp;"
    case '<' => "&lt;"
    case '>' => "&gt;"
    case '"' => "&quot;"
    case _ => [c]
  }

  /** A character that `\\w` matches, as far as ASCII goes; beyond it any choice will do. */
  predicate IsWord(c: char, other: char -> bool) {
    'a' <= c <= 'z' || 'A' <= c <= 'Z' || '0' <= c <= '9' || c == '_' || (c >= '\U{80}' && other(c))
  }

  function WordEnd(s: string, i: nat, other: char -> bool): (n: nat)
    requires i <= |s|
    ensures i <= n <= |s|
    decreases |s| - i
  {
    if i < |s| && IsWord(s[i], other) then WordEnd(s, i + 1, other) else i
  }

  /** What the table of named characters and `unichr(int(digits))` give. */
  datatype Tables = Tables(named: map<string, char>, numbered: string -> Option<char>, word: char -> bool)

  ghost predicate Standard(t: Tables) {
    && "amp" in t.named && t.named["amp"] == '&' && "lt" in t.named && t.named["lt"] == '<'
    && "gt" in t.named && t.named["gt"] == '>' && "quot" in t.named && t.named["quot"] == '"'
  }

  /** `_convert_entity`: what stands for a reference; an unknown one stays as it is. */
  function Convert(t: Tables, number: bool, name: string): string {
    if number then
      match t.numbered(name)
      case Some(c) => [c]
      case None => "&#" + name + ";"
    else if name in t.named then [t.named[name]]
    else "&" + name + ";"
  }

  /** Where the name of a reference at the start of `s` begins and ends, if there is one: an ampersand, perhaps a
      number sign, a word, a semicolon. */
  function Reference(t: Tables, s: string): (r: Option<(nat, nat)>)
    ensures r.Some? ==> 1 <= r.value.0 < r.value.1 < |s|
  {
    if s == "" || s[0] != '&' then None
    else
      var start := if |s| > 1 && s[1] == '#' then 2 else 1;
      var end := WordEnd(s, start, t.word);
      if start < end < |s| && s[end] == ';' then Some((start, end)) else None
  }

  /** `xhtml_unescape`: from left to right, what is put in is not looked at again. */
  function Unescape(t: Tables, s: string): string
    decreases |s|
  {
    if s == "" then ""
    else
      match Reference(t, s)
      case None => [s[0]] + Unescape(t, s[1..])
      case Some(r) => Convert(t, r.0 == 2, s[r.0..r.1]) + Unescape(t, s[r.1 + 1..])
  }

  lemma {:induction false} WordEndIs(s: string, i: nat, j: nat, other: char -> bool)
    requires i <= j < |s| && (forall k :: i <= k < j ==> IsWord(s[k], other)) && !IsWord(s[j], other)
    ensures WordEnd(s, i, other) == j
    decreases j - i
  {
    if i < j {
      WordEndIs(s, i + 1, j, other);
    }
  }

  /** Where the name of a reference is found. */
  lemma Referenced(t: Tables, before: string, name: string, rest: string)
    requires before == "&" || before == "&#"
    requires name != "" && forall c :: c in name ==> IsWord(c, t.word)
    ensures var s, start := before + name + ";" + rest, |before|;
            && s[0] == '&' && Reference(t, s) == Some((start, start + |name|))
            && s[start..start + |name|] == name && s[start + |name| + 1..] == rest
  {
    hide IsWord;
    NoWords(t);
    var s, start := before + name + ";" + rest, |before|;
    forall k | start <= k < start + |name| ensures IsWord(s[k], t.word) {
      assert s[k] == name[k - start] && name[k - start] in name;
    }
    assert s[start + |name|] == ';' && name[0] in name && s[start] == name[0];
    WordEndIs(s, start, start + |name|, t.word);
  }

  lemma NoWords(t: Tables)
    ensures !IsWord(';', t.word) && !IsWord('#', t.word)
  {
  }

  /** Any reference, by number or by name, gives its character; one that stands for none is left as it is. */
  lemma ReferenceReads(t: Tables, number: bool, name: string, rest: string)
    requires name != "" && (forall c :: c in name ==> IsWord(c, t.word))
    ensures var whole := (if number then "&#" else "&") + name + ";";
            Unescape(t, whole + rest) ==
              (if number && t.numbered(name).Some? then [t.numbered(name).value]
               else if !number && name in t.named then [t.named[name]]
               else whole) + Unescape(t, rest)
  {
    hide IsWord, Reference;
    Referenced(t, if number then "&#" else "&", name, rest);
  }

  lemma UnescapeNamed(t: Tables, name: string, rest: string)
    requires name != "" && name in t.named && (forall c :: c in name ==> IsWord(c, t.word))
    ensures Unescape(t, "&" + name + ";" + rest) == [t.named[name]] + Unescape(t, rest)
  {
    hide IsWord, Unescape;
    ReferenceReads(t, false, name, rest);
  }

  lemma UnescapeChar(t: Tables, c: char, rest: string)
    requires Standard(t)
    ensures Unescape(t, EscapeChar(c) + rest) == [c] + Unescape(t, rest)
  {
    hide Unescape, Reference, IsWord;
    Letters(t);
    if c == '&' {
      UnescapeNamed(t, "amp", rest);
      assert "&amp;" == "&" + "amp" + ";";
    } else if c == '<' {
      UnescapeNamed(t, "lt", rest);
      assert "&lt;" == "&" + "lt" + ";";
    } else if c == '>' {
      UnescapeNamed(t, "gt", rest);
      assert "&gt;" == "&" + "gt" + ";";
    } else if c == '"' {
      UnescapeNamed(t, "quot", rest);
      assert "&quot;" == "&" + "quot" + ";";
    } else {
      UnescapePlain(t, c, rest);
    }
  }

  lemma Letters(t: Tables)
    ensures forall c :: 'a' <= c <= 'z' ==> IsWord(c, t.word)
  {
  }

  lemma UnescapePlain(t: Tables, c: char, rest: string)
    requires c != '&'
    ensures Unescape(t, [c] + rest) == [c] + Unescape(t, rest)
  {
    assert ([c] + rest)[1..] == rest;
  }

  /** Unescaping undoes escaping, for every string. */
  lemma {:induction false} RoundTrip(t: Tables, s: string)
    requires Standard(t)
    ensures Unescape(t, Escape(s)) == s
  {
    hide Unescape, EscapeChar;
    if s == "" {
      UnescapeNothing(t);
    } else {
      RoundTrip(t, s[1..]);
      UnescapeChar(t, s[0], Escape(s[1..]));
      assert s == [s[0]] + s[1..];
    }
  }

  lemma UnescapeNothing(t: Tables)
    ensures Unescape(t, "") == ""
  {
  }

  // ----- what escaped text looks like -----

  predicate StartsReference(s: string, i: nat) {
    OccursAt("&amp;", s, i) || OccursAt("&lt;", s, i) || OccursAt("&gt;", s, i) || OccursAt("&quot;", s, i)
  }

  /** No markup is left in it: no angle bracket, no double quote, and no ampersand but the first character of one of
      the four references. */
  lemma {:induction false} EscapedIsInert(s: string)
    ensures var e := Escape(s);
            '<' !in e && '>' !in e && '"' !in e
            && forall i :: 0 <= i < |e| && e[i] == '&' ==> StartsReference(e, i)
  {
    if s != "" {
      var first, rest := EscapeChar(s[0]), Escape(s[1..]);
      var e := first + rest;
      EscapedIsInert(s[1..]);
      EscapedChar(s[0], rest);
      forall i | 0 <= i < |e| && e[i] == '&'
        ensures StartsReference(e, i)
      {
        if i >= |first| {
          assert rest[i - |first|] == e[i];
          ReferenceShifts(first, rest, i - |first|);
        }
      }
    }
  }

  lemma EscapedChar(c: char, rest: string)
    ensures var first := EscapeChar(c);
            '<' !in first && '>' !in first && '"' !in first && |first| > 0
            && forall i :: 0 <= i < |first| && first[i] == '&' ==> i == 0 && StartsReference(first + rest, i)
  {
    var e := EscapeChar(c) + rest;
    assert e[0..|EscapeChar(c)|] == EscapeChar(c);
  }

  lemma ReferenceShifts(first: string, rest: string, i: nat)
    requires StartsReference(rest, i)
    ensures StartsReference(first + rest, |first| + i)
  {
    var needle := if OccursAt("&amp;", rest, i) then "&amp;" else if OccursAt("&lt;", rest, i) then "&lt;"
                  else if OccursAt("&gt;", rest, i) then "&gt;" else "&quot;";
    assert OccursAt(needle, rest, i);
    assert (first + rest)[|first| + i..|first| + i + |needle|] == rest[i..i + |needle|];
  }

  /** Text without these four characters stays as it is, and each of them becomes its reference. */
  lemma {:induction false} EscapedPieces(a: string, b: string)
    ensures Escape(a + b) == Escape(a) + Escape(b)
    ensures (forall c :: c in a ==> !Marks(c)) ==> Escape(a) == a
    decreases |a|
  {
    hide EscapeChar, Marks;
    if a == "" {
      assert a + b == b;
    } else {
      assert (a + b)[1..] == a[1..] + b;
      EscapedPieces(a[1..], b);
      assert EscapeChar(a[0]) + (Escape(a[1..]) + Escape(b)) == (EscapeChar(a[0]) + Escape(a[1..])) + Escape(b);
      EscapedMark(a[0]);
      assert a == [a[0]] + a[1..];
    }
  }

  predicate Marks(c: char) {
    c == '&' || c == '<' || c == '>' || c == '"'
  }

  lemma EscapedMark(c: char)
    ensures Escape("&") == "&amp;" && Escape("<") == "&lt;" && Escape(">") == "&gt;" && Escape("\"") == "&quot;"
    ensures !Marks(c) ==> EscapeChar(c) == [c]
  {
    assert forall d: char :: [d][1..] == "";
    assert forall d: char :: Escape([d]) == EscapeChar(d) + Escape("");
  }
}
