/** Byte strings, option values and the few sequence functions the other modules share. */
module Bytes {
  type Bytes = seq<bv8>

  datatype Option<+T> = None | Some(value: T)

  /** Some number: how often, or which way, the environment acts. */
  method Any() returns (n: nat) {
    n := *;
  }

  function Min(a: int, b: int): int {
    if a < b then a else b
  }

  /** `b"".join(parts)` */
  function Flatten<T>(parts: seq<seq<T>>): seq<T> {
    if parts == [] then [] else parts[0] + Flatten(parts[1..])
  }

  lemma {:induction false} FlattenConcat<T>(a: seq<seq<T>>, b: seq<seq<T>>)
    ensures Flatten(a + b) == Flatten(a) + Flatten(b)
  {
    if a == [] {
      assert a + b == b;
    } else {
      assert (a + b)[1..] == a[1..] + b;
      FlattenConcat(a[1..], b);
    }
  }

  lemma FlattenOne<T>(a: seq<T>)
    ensures Flatten([a]) == a
  {
    assert [a][1..] == [];
  }

  lemma FlattenSnoc<T>(a: seq<seq<T>>, b: seq<T>)
    ensures Flatten(a + [b]) == Flatten(a) + b
  {
    FlattenConcat(a, [b]);
    FlattenOne(b);
  }

  predicate OccursAt<T(==)>(needle: seq<T>, hay: seq<T>, i: nat) {
    i + |needle| <= |hay| && hay[i..i + |needle|] == needle
  }

  lemma OccursMeans<T>(needle: seq<T>, hay: seq<T>, i: nat, k: nat)
    ensures OccursAt(needle, hay, i) && k < |needle| ==> hay[i + k] == needle[k]
  {
    if OccursAt(needle, hay, i) && k < |needle| {
      assert hay[i..i + |needle|][k] == hay[i + k];
    }
  }

  /** `hay.find(needle, i)`, by trying one position after the other. */
  function FindFrom<T(==)>(needle: seq<T>, hay: seq<T>, i: nat): Option<nat>
    decreases |hay| - i
  {
    if i + |needle| > |hay| then None
    else if OccursAt(needle, hay, i) then Some(i)
    else FindFrom(needle, hay, i + 1)
  }

  /** `hay.find(needle)` */
  function Find<T(==)>(needle: seq<T>, hay: seq<T>): Option<nat> {
    FindFrom(needle, hay, 0)
  }

  ghost predicate IsFirst<T>(needle: seq<T>, hay: seq<T>, start: nat, i: nat) {
    start <= i && OccursAt(needle, hay, i) && forall j: nat :: start <= j < i ==> !OccursAt(needle, hay, j)
  }

  lemma {:induction false} FindFromIsFirst<T>(needle: seq<T>, hay: seq<T>, start: nat)
    ensures var r := FindFrom(needle, hay, start);
            match r
            case Some(i) => IsFirst(needle, hay, start, i)
            case None => forall j: nat :: start <= j ==> !OccursAt(needle, hay, j)
    decreases |hay| - start
  {
    if start + |needle| <= |hay| && !OccursAt(needle, hay, start) {
      FindFromIsFirst(needle, hay, start + 1);
    }
  }

  /** The first occurrence, from `start` on, is the only position that `FindFrom` can return. */
  lemma FindFromUnique<T>(needle: seq<T>, hay: seq<T>, start: nat, i: nat)
    requires IsFirst(needle, hay, start, i)
    ensures FindFrom(needle, hay, start) == Some(i)
  {
    FindFromIsFirst(needle, hay, start);
  }

  lemma FindUnique<T>(needle: seq<T>, hay: seq<T>, i: nat)
    requires IsFirst(needle, hay, 0, i)
    ensures Find(needle, hay) == Some(i)
  {
    FindFromUnique(needle, hay, 0, i);
  }

  /** An occurrence found in a prefix is the one found in the whole. */
  lemma FindInPrefix<T>(needle: seq<T>, hay: seq<T>, more: seq<T>)
    requires Find(needle, hay).Some?
    ensures Find(needle, hay + more) == Find(needle, hay)
  {
    FindFromIsFirst(needle, hay, 0);
    var i := Find(needle, hay).value;
    assert (hay + more)[i..i + |needle|] == hay[i..i + |needle|];
    forall j: nat | j < i
      ensures !OccursAt(needle, hay + more, j)
    {
      assert !OccursAt(needle, hay, j);
      assert (hay + more)[j..j + |needle|] == hay[j..j + |needle|];
    }
    FindUnique(needle, hay + more, i);
  }

  lemma SliceOfTail<T>(s: seq<T>, k: nat, tail: seq<T>, i: nat, j: nat)
    requires k <= |s| && s[k..] == tail && i <= j <= |tail|
    ensures s[k + i..k + j] == tail[i..j] && s[k + j..] == tail[j..]
  {
    assert s[k..][i..j] == s[k + i..k + j];
    assert s[k..][j..] == s[k + j..];
  }

  function Byte(n: nat): bv8
    requires n < 256
  {
    n as bv8
  }

  lemma ByteValue(n: nat)
    requires n < 256
    ensures Byte(n) as nat == n
  {
    var b := WithValue(n);
    SameByte(b);
  }

  lemma SameByte(b: bv8)
    ensures (b as nat) as bv8 == b
  {
  }

  lemma {:induction false} WithValue(n: nat) returns (b: bv8)
    requires n < 256
    ensures b as nat == n
  {
    if n == 0 {
      b := 0;
    } else {
      var c := WithValue(n - 1);
      Successor(c);
      b := c + 1;
    }
  }

  lemma Successor(b: bv8)
    requires b as nat < 255
    ensures (b + 1) as nat == b as nat + 1
  {
  }
}
