/** The header store (`HTTPHeaders` and its cache of names in tornado/httputil.py). */
module Headers {
  import opened Bytes
  import opened HeaderText

  type Lists = map<string, seq<string>>

  /** `_NormalizedHeaderCache`: it never holds anything but normal forms. */
  class NormalizedHeaderCache {
    const size: nat
    var entries: map<string, string>
    var queue: seq<string>

    ghost predicate Valid()
      reads this
    {
      && (forall k :: k in entries ==> entries[k] == Normalized(k))
      && (forall k :: k in entries <==> k in queue)
      && (forall i, j :: 0 <= i < j < |queue| ==> queue[i] != queue[j])
      && |queue| <= size
    }

    constructor (size: nat)
      ensures Valid() && this.size == size
    {
      this.size, entries, queue := size, map[], [];
    }

    /** `cache[key]` */
    method Get(key: string) returns (normalized: string)
      requires Valid()
      modifies `entries, `queue
      ensures Valid() && normalized == Normalized(key)
    {
      hide Normalized;
      if key in entries {
        return entries[key];
      }
      normalized := Normalized(key);
      entries := entries[key := normalized];
      queue := queue + [key];
      if |queue| > size {
        var oldKey := queue[0];
        RestOfQueue(queue);
        queue := queue[1..];
        entries := entries - {oldKey};
      }
    }
  }

  lemma RestOfQueue(q: seq<string>)
    requires q != [] && forall i, j :: 0 <= i < j < |q| ==> q[i] != q[j]
    ensures forall k :: k in q[1..] <==> k in q && k != q[0]
    ensures forall i, j :: 0 <= i < j < |q| - 1 ==> q[1..][i] != q[1..][j]
  {
    assert q == [q[0]] + q[1..];
  }

  // ----- what the store means -----

  /** One more value for a name. */
  function AddTo(lists: Lists, name: string, value: string): Lists {
    var k := Normalized(name);
    lists[k := (if k in lists then lists[k] else []) + [value]]
  }

  /** The effect of a line on the lists and on the name that a continuation line goes on with; None for an error. */
  function AddLine(lists: Lists, last: Option<string>, line: string): Option<(Lists, Option<string>)>
    requires line != ""
  {
    if IsSpace(line[0]) then
      if last.None? || last.value !in lists || lists[last.value] == [] then None
      else
        var values := lists[last.value];
        var n := |values| - 1;
        Some((lists[last.value := values[n := values[n] + " " + StripLeft(line)]], last))
    else
      match Find(":", line)
      case None => None
      case Some(i) =>
        FindFromIsFirst(":", line, 0);
        Some((AddTo(lists, line[..i], Strip(line[i + 1..])), Some(Normalized(line[..i]))))
  }

  function AddLines(lists: Lists, last: Option<string>, lines: seq<string>): Option<Lists>
    decreases lines
  {
    if lines == [] then Some(lists)
    else if lines[0] == "" then AddLines(lists, last, lines[1..])
    else
      match AddLine(lists, last, lines[0])
      case None => None
      case Some(next) => AddLines(next.0, next.1, lines[1..])
  }

  lemma {:induction false} JoinSnoc(glue: string, parts: seq<string>, last: string)
    requires parts != []
    ensures Join(glue, parts + [last]) == Join(glue, parts) + glue + last
  {
    assert (parts + [last])[1..] == parts[1..] + [last];
    if |parts| > 1 {
      JoinSnoc(glue, parts[1..], last);
    }
  }

  lemma {:induction false} JoinExtendLast(glue: string, parts: seq<string>, more: string)
    requires parts != []
    ensures var n := |parts| - 1; Join(glue, parts[n := parts[n] + more]) == Join(glue, parts) + more
  {
    var n := |parts| - 1;
    if n > 0 {
      assert parts[n := parts[n] + more][1..] == parts[1..][n - 1 := parts[1..][n - 1] + more];
      JoinExtendLast(glue, parts[1..], more);
    }
  }

  class HTTPHeaders {
    const cache: NormalizedHeaderCache
    /** The dict itself: the values of each name, joined. */
    var joined: map<string, string>
    var asList: Lists
    var lastKey: Option<string>

    /** Both maps have the same names, in normal form, and each joined value is the join of its list. */
    ghost predicate InStep()
      reads `joined, `asList
    {
      && joined.Keys == asList.Keys
      && forall k :: k in asList ==> k == Normalized(k) && asList[k] != [] && joined[k] == Join(",", asList[k])
    }

    ghost predicate Valid()
      reads this, cache
    {
      cache.Valid() && InStep()
    }

    constructor (cache: NormalizedHeaderCache)
      requires cache.Valid()
      ensures Valid() && asList == map[] && lastKey.None? && this.cache == cache
    {
      this.cache, joined, asList, lastKey := cache, map[], map[], None;
    }

    /** `add` */
    method Add(name: string, value: string)
      requires Valid()
      modifies this, cache
      ensures Valid() && asList == AddTo(old(asList), name, value) && lastKey == Some(Normalized(name))
    {
      hide Normalized;
      var norm := cache.Get(name);
      lastKey := Some(norm);
      NormalizedTwice(name);
      if norm in joined {
        JoinSnoc(",", asList[norm], value);
        joined := joined[norm := joined[norm] + "," + value];
        asList := asList[norm := asList[norm] + [value]];
      } else {
        assert [] + [value] == [value];
        SetItem(norm, value);
      }
    }

    /** `headers[name] = value` */
    method SetItem(name: string, value: string)
      requires Valid()
      modifies `joined, `asList, cache
      ensures Valid() && asList == old(asList)[Normalized(name) := [value]]
    {
      hide Normalized;
      var norm := cache.Get(name);
      NormalizedTwice(name);
      joined := joined[norm := value];
      asList := asList[norm := [value]];
    }

    /** `del headers[name]`; an unknown name raises. */
    method DelItem(name: string) returns (raised: bool)
      requires Valid()
      modifies `joined, `asList, cache
      ensures Valid() && raised == (Normalized(name) !in old(asList))
      ensures asList == old(asList) - {Normalized(name)}
    {
      hide Normalized;
      var norm := cache.Get(name);
      if norm !in joined {
        assert asList - {norm} == asList;
        return true;
      }
      joined := joined - {norm};
      asList := asList - {norm};
      return false;
    }

    /** `headers[name]`, in whatever case; an unknown name raises. */
    method GetItem(name: string) returns (value: Option<string>)
      requires Valid()
      modifies cache
      ensures Valid() && value.Some? == (Normalized(name) in asList)
      ensures value.Some? ==> value.value == Join(",", asList[Normalized(name)])
    {
      hide Normalized;
      var norm := cache.Get(name);
      return if norm in joined then Some(joined[norm]) else None;
    }

    /** `get_list` */
    method GetList(name: string) returns (values: seq<string>)
      requires Valid()
      modifies cache
      ensures Valid() && values == if Normalized(name) in asList then asList[Normalized(name)] else []
    {
      hide Normalized;
      var norm := cache.Get(name);
      return if norm in asList then asList[norm] else [];
    }

    /** `parse_line` */
    method ParseLine(line: string) returns (raised: bool)
      requires Valid() && line != ""
      modifies this, cache
      ensures Valid()
      ensures match AddLine(old(asList), old(lastKey), line)
              case None => raised && asList == old(asList)
              case Some(next) => !raised && (asList, lastKey) == next
    {
      hide Normalized, FindFrom, IsSpace;
      if IsSpace(line[0]) {
        if lastKey.None? || lastKey.value !in asList {
          return true;
        }
        var key := lastKey.value;
        var newPart := " " + StripLeft(line);
        var values := asList[key];
        JoinExtendLast(",", values, newPart);
        assert values[|values| - 1] + newPart == values[|values| - 1] + " " + StripLeft(line);
        asList := asList[key := values[|values| - 1 := values[|values| - 1] + newPart]];
        joined := joined[key := joined[key] + newPart];
        return false;
      }
      var colon := Find(":", line);
      if colon.None? {
        return true;
      }
      FindFromIsFirst(":", line, 0);
      Add(line[..colon.value], Strip(line[colon.value + 1..]));
      return false;
    }

    /** `parse` */
    static method Parse(text: string, cache: NormalizedHeaderCache) returns (h: HTTPHeaders, raised: bool)
      requires cache.Valid()
      modifies cache
      ensures fresh(h) && h.cache == cache && h.Valid()
      ensures match AddLines(map[], None, SplitLines(text))
              case None => raised
              case Some(lists) => !raised && h.asList == lists
    {
      hide AddLine, SplitLines;
      h := new HTTPHeaders(cache);
      var lines := SplitLines(text);
      for i := 0 to |lines|
        invariant h.Valid() && fresh(h) && h.cache == cache
        invariant AddLines(h.asList, h.lastKey, lines[i..]) == AddLines(map[], None, lines)
      {
        assert lines[i..][0] == lines[i] && lines[i..][1..] == lines[i + 1..];
        if lines[i] != "" {
          raised := h.ParseLine(lines[i]);
          if raised {
            return;
          }
        }
      }
      raised := false;
    }
  }

  // ----- printing and reading back -----

  /** The lines of one name, as `get_all` yields its values. */
  function PrintValues(name: string, values: seq<string>): string {
    if values == [] then "" else name + ": " + values[0] + "\r\n" + PrintValues(name, values[1..])
  }

  function Print(order: seq<string>, lists: Lists): string
    requires forall k :: k in order ==> k in lists
  {
    if order == [] then "" else PrintValues(order[0], lists[order[0]]) + Print(order[1..], lists)
  }

  /** A name or value that fits on a line and is read back as it is. */
  predicate PlainName(name: string) {
    name != "" && !IsSpace(name[0]) && ':' !in name && OneLine(name)
  }

  predicate PlainValue(value: string) {
    Trimmed(value) && OneLine(value)
  }

  ghost predicate Plain(lists: Lists) {
    forall k :: k in lists ==>
      k == Normalized(k) && PlainName(k) && lists[k] != [] && forall v :: v in lists[k] ==> PlainValue(v)
  }

  lemma AddPrinted(lists: Lists, last: Option<string>, name: string, value: string)
    requires PlainName(name) && PlainValue(value)
    ensures AddLine(lists, last, name + ": " + value) == Some((AddTo(lists, name, value), Some(Normalized(name))))
  {
    hide IsSpace, IsBreak, Normalized, AddTo, Strip;
    var line := name + ": " + value;
    assert line[0] == name[0];
    assert line[|name|..|name| + 1] == ":";
    forall j: nat | j < |name| ensures !OccursAt(":", line, j) {
      OccursMeans(":", line, j, 0);
      assert line[j] == name[j] && name[j] in name;
    }
    FindUnique(":", line, |name|);
    assert line[..|name|] == name && line[|name| + 1..] == " " + value;
    StripAfterSpace(value);
  }

  lemma LineIsOne(name: string, value: string)
    requires PlainName(name) && PlainValue(value)
    ensures OneLine(name + ": " + value)
  {
    assert !IsBreak(':') && !IsBreak(' ');
    hide IsBreak;
    forall c | c in name + ": " + value
      ensures !IsBreak(c)
    {
      assert c in name || c in ": " || c in value;
    }
  }

  /** Reading the lines of one name. */
  lemma {:induction false} ReadValues(lists: Lists, last: Option<string>, name: string, values: seq<string>,
                                      rest: string)
    requires PlainName(name) && name == Normalized(name) && forall v :: v in values ==> PlainValue(v)
    ensures values == [] ==> AddLines(lists, last, SplitLines(PrintValues(name, values) + rest))
                             == AddLines(lists, last, SplitLines(rest))
    ensures values != [] ==>
              AddLines(lists, last, SplitLines(PrintValues(name, values) + rest))
              == AddLines(lists[name := (if name in lists then lists[name] else []) + values], Some(name),
                          SplitLines(rest))
    decreases values
  {
    hide AddLine, SplitLines, Normalized, PlainValue, PlainName;
    if values == [] {
      assert PrintValues(name, values) + rest == rest;
    } else {
      var v := values[0];
      assert v in values && forall w :: w in values[1..] ==> w in values;
      var line, more := name + ": " + v, PrintValues(name, values[1..]) + rest;
      assert PrintValues(name, values) + rest == line + "\r\n" + more;
      LineIsOne(name, v);
      SplitFirst(line, more);
      AddPrinted(lists, last, name, v);
      var next := AddTo(lists, name, v);
      assert ([line] + SplitLines(more))[1..] == SplitLines(more);
      ReadValues(next, Some(name), name, values[1..], rest);
      var before := if name in lists then lists[name] else [];
      assert (before + [v]) + values[1..] == before + values;
      if values[1..] == [] {
        assert before + [v] == before + values;
      } else {
        assert next[name := before + values] == lists[name := before + values];
      }
    }
  }

  /** The lists of these names. */
  function Pick(order: seq<string>, lists: Lists): Lists
    requires forall k :: k in order ==> k in lists
  {
    map k | k in order :: lists[k]
  }

  lemma PickCons(done: Lists, order: seq<string>, lists: Lists)
    requires order != [] && forall k :: k in order ==> k in lists
    ensures done[order[0] := lists[order[0]]] + Pick(order[1..], lists) == done + Pick(order, lists)
  {
  }

  lemma PickAll(order: seq<string>, lists: Lists)
    requires forall k :: k in order <==> k in lists
    ensures map[] + Pick(order, lists) == lists
  {
  }

  /** Reading what was printed, in any order of the names, adds every list. */
  lemma {:induction false} ReadPrinted(done: Lists, last: Option<string>, order: seq<string>, lists: Lists)
    requires Plain(lists) && (forall k :: k in order ==> k in lists && k !in done)
    requires forall i, j :: 0 <= i < j < |order| ==> order[i] != order[j]
    ensures AddLines(done, last, SplitLines(Print(order, lists)))
            == Some(done + Pick(order, lists))
    decreases order
  {
    hide AddLine, SplitLines, Normalized, PlainValue, PlainName;
    if order == [] {
      EmptyText();
      assert done + Pick(order, lists) == done;
    } else {
      var k := order[0];
      assert k in order && forall j :: j in order[1..] ==> j in order && j != k;
      ReadValues(done, last, k, lists[k], Print(order[1..], lists));
      assert [] + lists[k] == lists[k];
      hide Pick, PrintValues;
      ReadPrinted(done[k := lists[k]], Some(k), order[1..], lists);
      PickCons(done, order, lists);
    }
  }

  /** A line that starts with white space goes on with the value of the line before, after one space. */
  lemma ContinuationLine(name: string, value: string, more: string)
    requires PlainName(name) && PlainValue(value) && PlainValue(more)
    ensures AddLines(map[], None, SplitLines(name + ": " + value + "\r\n" + ("\t " + more + "\r\n")))
         == Some(map[Normalized(name) := [value + " " + more]])
  {
    assert !IsBreak('\t') && !IsBreak(' ');
    hide SplitLines, Normalized, PlainName, IsBreak;
    var first, second := name + ": " + value, "\t " + more;
    LineIsOne(name, value);
    assert OneLine(second) by {
      assert forall c :: c in second ==> c in "\t " || c in more;
    }
    assert second + "\r\n" + "" == "\t " + more + "\r\n";
    SplitFirst(first, "\t " + more + "\r\n");
    SplitFirst(second, "");
    EmptyText();
    var lines := SplitLines(first + "\r\n" + ("\t " + more + "\r\n"));
    var nothing: seq<string> := [];
    assert lines == [first, second] && lines[1..] == [second] && [second][1..] == nothing;
    AddPrinted(map[], None, name, value);
    var k := Normalized(name);
    var lists := AddTo(map[], name, value);
    assert nothing + [value] == [value] && lists == map[k := [value]];
    AddContinued(lists, k, value, more);
    hide AddLine, AddTo;
    var longer := map[k := [value + " " + more]];
    assert AddLines(longer, Some(k), nothing) == Some(longer);
    assert AddLines(lists, Some(k), [second]) == Some(longer);
  }

  lemma AddContinued(lists: Lists, k: string, value: string, more: string)
    requires lists == map[k := [value]] && PlainValue(more)
    ensures AddLine(lists, Some(k), "\t " + more) == Some((map[k := [value + " " + more]], Some(k)))
  {
    var line := "\t " + more;
    assert line[1..] == " " + more && (" " + more)[1..] == more;
    assert StripLeft(line) == StripLeft(" " + more) == StripLeft(more) == more;
    var longer := [value + " " + more];
    assert [value][0 := value + " " + more] == longer;
    assert lists[k := longer] == map[k := longer];
  }

  /** A first line that starts with white space, and a line without a colon, are errors. */
  lemma BadLines(lists: Lists, last: Option<string>, line: string)
    requires line != ""
    ensures IsSpace(line[0]) ==> AddLine(map[], None, line) == None
    ensures !IsSpace(line[0]) && ':' !in line ==> AddLine(lists, last, line) == None
  {
    FindFromIsFirst(":", line, 0);
    if Find(":", line).Some? {
      assert line[Find(":", line).value] == ':' by {
        OccursMeans(":", line, Find(":", line).value, 0);
      }
    }
  }

  /** What `headers[name]` puts between the values. */
  lemma JoinedValues(values: seq<string>, value: string)
    ensures Join(",", [value]) == value
    ensures values != [] ==> Join(",", values + [value]) == Join(",", values) + "," + value
  {
    if values != [] {
      JoinSnoc(",", values, value);
    }
  }

  lemma EmptyText()
    ensures SplitLines("") == []
  {
  }

  /** Printing a store by `get_all`, in whatever order it yields the names, and parsing that restores every list. */
  lemma RoundTrip(h: HTTPHeaders, order: seq<string>)
    requires h.Valid() && Plain(h.asList)
    requires forall k :: k in order <==> k in h.asList
    requires forall i, j :: 0 <= i < j < |order| ==> order[i] != order[j]
    ensures AddLines(map[], None, SplitLines(Print(order, h.asList))) == Some(h.asList)
  {
    hide AddLines, SplitLines, Print, Plain, Pick;
    ReadPrinted(map[], None, order, h.asList);
    PickAll(order, h.asList);
  }
}
