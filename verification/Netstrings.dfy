/** Length-prefixed items and hexadecimal names: text from which every part can be told again. */
module Netstrings {
  import opened Decimals

  /** The length in bytes, a colon, the bytes, a semicolon. */
  function Item(value: string): (item: string)
    ensures item != ""
  {
    ToString(|value|) + ":" + value + ";"
  }

  function Join(items: seq<string>): string {
    if items == [] then "" else Item(items[0]) + Join(items[1..])
  }

  lemma {:induction false} JoinConcat(a: seq<string>, b: seq<string>)
    ensures Join(a + b) == Join(a) + Join(b)
    decreases |a|
  {
    if a == [] {
      assert a + b == b;
    } else {
      assert (a + b)[1..] == a[1..] + b;
      JoinConcat(a[1..], b);
    }
  }

  /** Text up to the first separator can be told from what follows. */
  lemma PartEnds(a: string, x: string, b: string, y: string, separator: char)
    requires separator !in a && separator !in b && a + [separator] + x == b + [separator] + y
    ensures a == b && x == y
  {
    var s := a + [separator] + x;
    assert s == b + [separator] + y;
    assert s[|a|] == separator && s[|b|] == separator;
    assert forall i :: 0 <= i < |a| ==> s[i] == a[i];
    assert forall i :: 0 <= i < |b| ==> s[i] == b[i];
    assert |a| == |b|;
    assert a == s[..|a|] && b == s[..|b|];
    assert x == s[|a| + 1..] && y == s[|b| + 1..];
  }

  /** No item is the beginning of another, so what follows it can be told too. */
  lemma ItemEnds(a: string, x: string, b: string, y: string)
    requires Item(a) + x == Item(b) + y
    ensures a == b && x == y
  {
    var da, db := ToString(|a|), ToString(|b|);
    assert Item(a) + x == da + ":" + (a + ";" + x);
    assert Item(b) + y == db + ":" + (b + ";" + y);
    PartEnds(da, a + ";" + x, db, b + ";" + y, ':');
    ToStringIsInjective(|a|, |b|);
    var rest := a + ";" + x;
    assert a == rest[..|a|] && b == rest[..|b|];
    assert x == rest[|a| + 1..] && y == rest[|b| + 1..];
  }

  /** Joined items are uniquely decodable. */
  lemma {:induction false} JoinIsInjective(a: seq<string>, b: seq<string>)
    requires Join(a) == Join(b)
    ensures a == b
    decreases |a|
  {
    if a != [] && b != [] {
      ItemEnds(a[0], Join(a[1..]), b[0], Join(b[1..]));
      JoinIsInjective(a[1..], b[1..]);
    }
  }

  lemma JoinNone()
    ensures Join([]) == ""
  {
  }

  lemma JoinOne(item: string)
    ensures Join([item]) == Item(item)
  {
    assert Join([item]) == Item(item) + Join([]);
  }

  /** Writes one item behind the output: both contracts are written so. */
  method Append(output: string, value: string) returns (next: string)
    ensures next == output + Item(value)
  {
    next := output + ToString(|value|) + ":" + value + ";";
  }

  method AppendAll(output: string, items: seq<string>) returns (next: string)
    ensures next == output + Join(items)
  {
    next := output;
    assert items[..0] == [];
    for i := 0 to |items|
      invariant next == output + Join(items[..i])
    {
      assert items[..i + 1] == items[..i] + [items[i]];
      JoinConcat(items[..i], [items[i]]);
      JoinOne(items[i]);
      next := Append(next, items[i]);
    }
    assert items[..|items|] == items;
  }

  // Hexadecimal

  predicate IsHexDigit(c: char) {
    '0' <= c <= '9' || 'a' <= c <= 'f'
  }

  function HexDigit(n: nat): (c: char)
    requires n < 16
    ensures IsHexDigit(c)
  {
    "0123456789abcdef"[n]
  }

  function HexValue(c: char): (n: nat)
    requires IsHexDigit(c)
    ensures n < 16 && HexDigit(n) == c
  {
    if c <= '9' then c as nat - '0' as nat else c as nat - 'a' as nat + 10
  }

  lemma HexValueOfDigit(n: nat)
    requires n < 16
    ensures HexValue(HexDigit(n)) == n
  {
  }

  /** A C++ string: every character is a byte. */
  predicate IsNarrow(s: string) {
    forall i :: 0 <= i < |s| ==> s[i] as nat < 256
  }

  function Hex(s: string): (h: string)
    requires IsNarrow(s)
    ensures |h| == 2 * |s| && forall i :: 0 <= i < |h| ==> IsHexDigit(h[i])
  {
    if s == "" then "" else [HexDigit(s[0] as nat / 16), HexDigit(s[0] as nat % 16)] + Hex(s[1..])
  }

  lemma {:induction false} HexIsInjective(a: string, b: string)
    requires IsNarrow(a) && IsNarrow(b) && Hex(a) == Hex(b)
    ensures a == b
    decreases |a|
  {
    if a != "" {
      var x, y := a[0] as nat, b[0] as nat;
      assert Hex(a)[0] == Hex(b)[0] && Hex(a)[1] == Hex(b)[1];
      HexValueOfDigit(x / 16);
      HexValueOfDigit(x % 16);
      HexValueOfDigit(y / 16);
      HexValueOfDigit(y % 16);
      assert x == y;
      assert Hex(a[1..]) == Hex(a)[2..] == Hex(b)[2..] == Hex(b[1..]);
      HexIsInjective(a[1..], b[1..]);
    }
  }

  lemma HexHasNoUnderscore(s: string)
    requires IsNarrow(s)
    ensures '_' !in Hex(s)
  {
  }
}
