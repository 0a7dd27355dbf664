/** Qualified names are identifiers joined by a separator, and a flattened name joins them by underscores. */
module NameParts {
  import opened Names

  function JoinedBy(parts: seq<string>, separator: string): string {
    if parts == [] then ""
    else if |parts| == 1 then parts[0]
    else parts[0] + separator + JoinedBy(parts[1..], separator)
  }

  predicate AreIdentifiers(parts: seq<string>) {
    parts != [] && forall i :: 0 <= i < |parts| ==> IsIdentifier(parts[i])
  }

  predicate IsSeparator(separator: string) {
    separator == "::" || separator == "."
  }

  /** The separator is found behind the identifier, and nowhere in it. */
  lemma {:induction false} FindBehind(part: string, rest: string, separator: string, pos: nat)
    requires IsIdentifier(part) && IsSeparator(separator) && pos <= |part|
    requires rest == "" || StartsWith(rest, separator)
    ensures Find(part + rest, separator, pos) == |part|
    decreases |part| - pos
  {
    var name := part + rest;
    if pos < |part| {
      FindBehind(part, rest, separator, pos + 1);
      assert name[pos] == part[pos];
      if pos + |separator| <= |name| {
        assert name[pos..pos + |separator|][0] == name[pos];
      }
    } else if rest != "" {
      assert name[pos..pos + |separator|] == rest[..|separator|];
    }
  }

  lemma {:induction false} JoinedIsQualified(parts: seq<string>, separator: string)
    requires AreIdentifiers(parts) && IsSeparator(separator)
    ensures IsQualified(JoinedBy(parts, separator), separator)
    decreases |parts|
  {
    hide Find, IsIdentifier;
    if |parts| == 1 {
      FindBehind(parts[0], "", separator, 0);
      assert parts[0] + "" == parts[0] && parts[0][..|parts[0]|] == parts[0];
    } else {
      var others := JoinedBy(parts[1..], separator);
      var rest := separator + others;
      var name := parts[0] + rest;
      assert JoinedBy(parts, separator) == name;
      FindBehind(parts[0], rest, separator, 0);
      assert name[..|parts[0]|] == parts[0];
      assert name[|parts[0]| + |separator|..] == others;
      JoinedIsQualified(parts[1..], separator);
    }
  }

  lemma {:induction false} PartsOfQualified(name: string, separator: string) returns (parts: seq<string>)
    requires IsSeparator(separator) && IsQualified(name, separator)
    ensures AreIdentifiers(parts) && name == JoinedBy(parts, separator)
    decreases |name|
  {
    hide IsIdentifier;
    var next := Find(name, separator, 0);
    if next == |name| {
      parts := [name];
      assert name[..next] == name;
    } else {
      var others := PartsOfQualified(name[next + |separator|..], separator);
      parts := [name[..next]] + others;
      assert parts[1..] == others;
      FoundThere(name, separator, 0);
      assert name == name[..next] + separator + name[next + |separator|..];
    }
  }

  lemma {:induction false} FoundThere(name: string, separator: string, pos: nat)
    requires pos <= |name| && Find(name, separator, pos) < |name|
    ensures var at := Find(name, separator, pos); name[at..at + |separator|] == separator
    decreases |name| - pos
  {
    if pos + |separator| <= |name| && name[pos..pos + |separator|] != separator {
      FoundThere(name, separator, pos + 1);
    }
  }

  /** A name is qualified exactly if it joins identifiers. */
  lemma QualifiedExactly(name: string, separator: string)
    requires IsSeparator(separator)
    ensures IsQualified(name, separator) <==> exists parts :: AreIdentifiers(parts) && name == JoinedBy(parts, separator)
  {
    hide IsQualified;
    if IsQualified(name, separator) {
      var parts := PartsOfQualified(name, separator);
    }
    if parts :| AreIdentifiers(parts) && name == JoinedBy(parts, separator) {
      JoinedIsQualified(parts, separator);
    }
  }

  // Flattening

  lemma {:induction false} FlattenBehind(part: string, rest: string)
    requires forall i :: 0 <= i < |part| ==> part[i] != ':'
    ensures Flatten(part + rest) == part + Flatten(rest)
  {
    if part == "" {
      assert part + rest == rest;
    } else {
      FlattenBehind(part[1..], rest);
      assert (part + rest)[1..] == part[1..] + rest;
      assert Flatten(part + rest) == [part[0]] + Flatten(part[1..] + rest) by {
        FlattenFirst(part + rest);
      }
    }
  }

  lemma FlattenFirst(name: string)
    requires name != "" && name[0] != ':'
    ensures Flatten(name) == [name[0]] + Flatten(name[1..])
  {
    if |name| == 1 {
      assert name == [name[0]] && Flatten(name[1..]) == "";
    }
  }

  /** The identifiers of a qualified name, joined by underscores, are an identifier. */
  lemma {:induction false} FlattenJoins(parts: seq<string>)
    requires AreIdentifiers(parts)
    ensures Flatten(JoinedBy(parts, "::")) == JoinedBy(parts, "_")
    ensures IsIdentifier(JoinedBy(parts, "_"))
    decreases |parts|
  {
    var part := parts[0];
    if |parts| == 1 {
      FlattenBehind(part, "");
      assert part + "" == part;
    } else {
      var others := JoinedBy(parts[1..], "::");
      FlattenJoins(parts[1..]);
      FlattenBehind(part, "::" + others);
      assert JoinedBy(parts, "::") == part + ("::" + others);
      assert ("::" + others)[2..] == others;
      assert Flatten("::" + others) == "_" + Flatten(others);
      JoinedIdentifiers(part, JoinedBy(parts[1..], "_"));
      assert JoinedBy(parts, "_") == part + ("_" + JoinedBy(parts[1..], "_"));
    }
  }

  lemma JoinedIdentifiers(a: string, b: string)
    requires IsIdentifier(a) && IsIdentifier(b)
    ensures IsIdentifier(a + ("_" + b))
  {
    var name := a + ("_" + b);
    assert name[0] == a[0];
    forall i | 0 <= i < |name|
      ensures IsLetter(name[i]) || '0' <= name[i] <= '9'
    {
      if i < |a| {
        assert name[i] == a[i];
      } else if i > |a| {
        assert name[i] == b[i - |a| - 1];
      }
    }
  }
}
