/** Identifiers, qualified names, and the order of strings. */
module Names {

  predicate IsLetter(c: char) {
    'A' <= c <= 'Z' || 'a' <= c <= 'z' || c == '_'
  }

  predicate IsIdentifier(name: string) {
    name != "" && IsLetter(name[0]) && forall i :: 0 <= i < |name| ==> IsLetter(name[i]) || '0' <= name[i] <= '9'
  }

  /** Where `separator` first occurs, or the length of the name. */
  function Find(name: string, separator: string, pos: nat): (at: nat)
    requires pos <= |name|
    ensures pos <= at <= |name|
    ensures at < |name| ==> at + |separator| <= |name|
    decreases |name| - pos
  {
    if pos + |separator| > |name| || pos == |name| then |name|
    else if name[pos..pos + |separator|] == separator then pos
    else Find(name, separator, pos + 1)
  }

  /** Identifiers joined by the separator. */
  predicate IsQualified(name: string, separator: string)
    requires separator != ""
    decreases |name|
  {
    var next := Find(name, separator, 0);
    IsIdentifier(name[..next]) && (next == |name| || IsQualified(name[next + |separator|..], separator))
  }

  /** The name with one underscore for each separator: a part of a generated name. */
  function Flatten(name: string): string
    decreases |name|
  {
    if |name| < 2 then name
    else if name[0] == ':' && name[1] == ':' then "_" + Flatten(name[2..])
    else [name[0]] + Flatten(name[1..])
  }

  predicate StartsWith(s: string, prefix: string) {
    |prefix| <= |s| && s[..|prefix|] == prefix
  }

  /** The order of `std::string`. */
  predicate Less(a: string, b: string)
    decreases |a|
  {
    if b == "" then false
    else if a == "" then true
    else a[0] < b[0] || (a[0] == b[0] && Less(a[1..], b[1..]))
  }

  lemma {:induction false} LessIsTotal(a: string, b: string)
    ensures Less(a, b) || Less(b, a) || a == b
    ensures !(Less(a, b) && Less(b, a)) && !Less(a, a)
    decreases |a|
  {
    if a != "" && b != "" && a[0] == b[0] {
      LessIsTotal(a[1..], b[1..]);
      assert a == [a[0]] + a[1..] && b == [b[0]] + b[1..];
    }
    if a != "" {
      LessIsTotal(a[1..], a[1..]);
    }
  }

  lemma {:induction false} LessIsTransitive(a: string, b: string, c: string)
    requires Less(a, b) && Less(b, c)
    ensures Less(a, c)
    decreases |a|
  {
    if a != "" && a[0] == b[0] == c[0] {
      LessIsTransitive(a[1..], b[1..], c[1..]);
    }
  }
}
