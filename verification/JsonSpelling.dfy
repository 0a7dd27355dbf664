/** How a text is quoted: in no more bytes than any other spelling of it takes. */
module JsonSpelling {
  import opened Bytes
  import opened JsonNumber
  import opened JsonText
  import opened JsonSyntax
  import Utf8

  lemma {:induction false} EscapedInParts(a: seq<Byte>, b: seq<Byte>, k: nat)
    requires k <= |a|
    ensures |EscapedFrom(a + b, k)| == |EscapedFrom(a, k)| + |EscapedFrom(b, 0)|
    decreases |a| - k
  {
    if k == |a| {
      EscapedBehind(a, b, 0);
    } else {
      assert (a + b)[k] == a[k];
      EscapedInParts(a, b, k + 1);
    }
  }

  lemma {:induction false} EscapedBehind(a: seq<Byte>, b: seq<Byte>, k: nat)
    requires k <= |b|
    ensures EscapedFrom(a + b, |a| + k) == EscapedFrom(b, k)
    decreases |b| - k
  {
    if k < |b| {
      assert (a + b)[|a| + k] == b[k];
      EscapedBehind(a, b, k + 1);
    }
  }

  /** No spelling of a character is shorter than the one the writer chooses. */
  lemma SpellingIsNoShorter(c: Character)
    ensures |EscapedFrom(Utf8.Append(c.Scalar()), 0)| <= |c.Spelling()|
  {
    var v := c.Scalar();
    var text := Utf8.Append(v);
    if v < 0x80 {
      assert text == [v];
      assert EscapedFrom(text, 1) == [];
      assert EscapedFrom(text, 0) == Escaped(v) + EscapedFrom(text, 1);
      LowSpelling(c);
    } else {
      forall i | 0 <= i < |text|
        ensures text[i] >= 0x80
      {
        HighBytes(v, i);
      }
      EscapedHigh(text, 0, |text|);
    }
  }

  lemma LowSpelling(c: Character)
    requires c.Scalar() < 0x80
    ensures |Escaped(c.Scalar())| <= |c.Spelling()|
  {
  }

  lemma {:induction false} EscapedIsNoLonger(characters: seq<Character>)
    ensures |EscapedFrom(Meaning(characters), 0)| <= |Body(characters)|
  {
    if characters != [] {
      SpellingIsNoShorter(characters[0]);
      EscapedIsNoLonger(characters[1..]);
      EscapedInParts(Utf8.Append(characters[0].Scalar()), Meaning(characters[1..]), 0);
    }
  }

  /** A text is quoted as short as the grammar lets it be spelled. */
  lemma QuotedIsShortest(input: seq<Byte>, pos: nat, text: seq<Byte>, end: nat)
    requires Current(input, pos) == QUOTE && ParseString(input, pos) == Ok((text, end))
    ensures pos + |Quoted(text)| <= end
  {
    hide At, Body;
    ParsedExactlySpelled(input, pos, text, end);
    var characters :| At(input, pos, StringText(characters)) && Meaning(characters) == text
                      && end == pos + |StringText(characters)|;
    EscapedIsNoLonger(characters);
  }

  /** Only what has to be is escaped: quotes, backslashes and control characters. */
  lemma OnlyTheseAreEscaped(b: Byte)
    ensures Escaped(b) == [b] <==> b >= 0x20 && b != 0x22 && b != 0x5C
    ensures forall c :: c in Escaped(b) && c != b ==> c == 0x5C || 0x30 <= c <= 0x39 || 0x61 <= c <= 0x75
  {
  }
}
