/** The refused call that leaves its mark: a text that a complete writer holds and no reader accepts. */
module JsonCounterexample {
  import opened Bytes
  import opened Serial
  import opened JsonNumber
  import opened JsonText
  import opened JsonGrammar
  import W = JsonWriter
  import opened JsonProtocol
  import opened JsonRuns
  import opened JsonLayout
  import opened JsonRuins
  import opened JsonReadability
  import Utf8

  /** An object of two entries, and between them an attempt at a key that is not UTF-8. */
  function BadKeyCalls(): JsonCalls {
    [BeginObject(2), WriteKey([0x61]), WriteLeaf(Unsigned(1)), WriteKey([0xFF]),
     WriteKey([0x62]), WriteLeaf(Unsigned(2)), EndObject]
  }

  /** `{"a":1,,"b":2}` */
  const TWO_COMMAS: Text := [0x7B, 0x22, 0x61, 0x22, 0x3A, 0x31, 0x2C, 0x2C, 0x22, 0x62, 0x22, 0x3A, 0x32, 0x7D]

  lemma QuotedLetter(b: Byte)
    requires 0x61 <= b <= 0x7A
    ensures Quoted([b]) == [QUOTE, b, QUOTE] && Utf8.Valid([b])
  {
    assert EscapedFrom([b], 1) == [];
    assert EscapedFrom([b], 0) == [b] + [];
    Utf8.ValidOne(b);
  }

  lemma DigitText(v: nat)
    requires v < 10
    ensures IntegerNumber(v).Text() == [ZERO + v]
  {
    assert Decimal(v) == [ZERO + v];
  }

  lemma RunStep(s: W.State, indent: nat, max: nat, calls: JsonCalls, last: Call<FloatText>)
    ensures Run(s, indent, max, calls + [last]) == W.Step(Run(s, indent, max, calls), indent, max, last).state
  {
    assert (calls + [last])[..|calls|] == calls;
  }

  /** A writer inside one object on one line. */
  function Inside(output: seq<Byte>, hasItems: bool, awaiting: bool): W.State {
    W.State(output, [W.Frame(true, hasItems, awaiting, false)], true, false)
  }

  lemma KeyStep(output: seq<Byte>, hasItems: bool, b: Byte, max: nat)
    requires 0x61 <= b <= 0x7A
    ensures W.Step(Inside(output, hasItems, false), 0, max, WriteKey([b]))
         == W.Outcome(Inside(output + (if hasItems then [COMMA] else []) + [QUOTE, b, QUOTE, COLON], true, true), None)
  {
    QuotedLetter(b);
    var s := Inside(output, hasItems, false);
    var comma: seq<Byte> := if hasItems then [COMMA] else [];
    assert W.Separator(W.Top(s.stack), 1, 0) == comma + [];
    assert output + comma + [QUOTE, b, QUOTE] + [COLON] == output + comma + [QUOTE, b, QUOTE, COLON];
    assert comma + [] == comma;
  }

  lemma BadKeyStep(output: seq<Byte>, max: nat)
    ensures W.Step(Inside(output, true, false), 0, max, WriteKey([0xFF]))
         == W.Outcome(Inside(output + [COMMA], true, false), Some(W.NotUtf8))
  {
    var s := Inside(output, true, false);
    assert W.Separator(W.Top(s.stack), 1, 0) == [COMMA] + [];
    assert [COMMA] + [] == [COMMA];
    assert Utf8.Decode([0xFF], 0).Err?;
    assert !Utf8.ValidFrom([0xFF], 0);
  }

  lemma ValueStep(output: seq<Byte>, v: nat, max: nat)
    requires v < 10
    ensures W.Step(Inside(output, true, true), 0, max, WriteLeaf(Unsigned(v)))
         == W.Outcome(Inside(output + [ZERO + v], true, false), None)
  {
    DigitText(v);
  }

  /** The first entry is written as it should be. */
  lemma FirstEntry(max: nat)
    requires max > 0
    ensures Run(Fresh([]), 0, max, BadKeyCalls()[..3]) == Inside([0x7B, 0x22, 0x61, 0x22, 0x3A, 0x31], true, false)
  {
    hide W.Keyed, W.Written, W.Closed;
    var c := BadKeyCalls();
    assert c[..0] == [] && c[..1] == [] + [c[0]] && c[..2] == c[..1] + [c[1]] && c[..3] == c[..2] + [c[2]];
    RunStep(Fresh([]), 0, max, [], c[0]);
    assert Run(Fresh([]), 0, max, c[..1]) == Inside([0x7B], false, false);
    RunStep(Fresh([]), 0, max, c[..1], c[1]);
    KeyStep([0x7B], false, 0x61, max);
    assert [0x7B] + [] + [QUOTE, 0x61, QUOTE, COLON] == [0x7B, 0x22, 0x61, 0x22, 0x3A];
    RunStep(Fresh([]), 0, max, c[..2], c[2]);
    ValueStep([0x7B, 0x22, 0x61, 0x22, 0x3A], 1, max);
    assert [0x7B, 0x22, 0x61, 0x22, 0x3A] + [ZERO + 1] == [0x7B, 0x22, 0x61, 0x22, 0x3A, 0x31];
  }

  /** The bad key is refused, but its comma stays. */
  lemma BadKey(max: nat)
    requires max > 0
    ensures Run(Fresh([]), 0, max, BadKeyCalls()[..4])
         == Inside([0x7B, 0x22, 0x61, 0x22, 0x3A, 0x31, 0x2C], true, false)
    ensures W.Step(Run(Fresh([]), 0, max, BadKeyCalls()[..3]), 0, max, BadKeyCalls()[3]).refusal == Some(W.NotUtf8)
  {
    hide W.Step;
    var c := BadKeyCalls();
    assert c[..4] == c[..3] + [c[3]];
    FirstEntry(max);
    RunStep(Fresh([]), 0, max, c[..3], c[3]);
    BadKeyStep([0x7B, 0x22, 0x61, 0x22, 0x3A, 0x31], max);
  }

  lemma SecondEntry(max: nat)
    requires max > 0
    ensures Run(Fresh([]), 0, max, BadKeyCalls()) == W.State(TWO_COMMAS, [], true, false)
  {
    hide W.Keyed, W.Written, W.Opened;
    var c := BadKeyCalls();
    assert c[..5] == c[..4] + [c[4]] && c[..6] == c[..5] + [c[5]] && c == c[..6] + [c[6]];
    BadKey(max);
    RunStep(Fresh([]), 0, max, c[..4], c[4]);
    KeyStep([0x7B, 0x22, 0x61, 0x22, 0x3A, 0x31, 0x2C], true, 0x62, max);
    assert [0x7B, 0x22, 0x61, 0x22, 0x3A, 0x31, 0x2C] + [COMMA] + [QUOTE, 0x62, QUOTE, COLON]
        == [0x7B, 0x22, 0x61, 0x22, 0x3A, 0x31, 0x2C, 0x2C, 0x22, 0x62, 0x22, 0x3A];
    RunStep(Fresh([]), 0, max, c[..5], c[5]);
    ValueStep([0x7B, 0x22, 0x61, 0x22, 0x3A, 0x31, 0x2C, 0x2C, 0x22, 0x62, 0x22, 0x3A], 2, max);
    RunStep(Fresh([]), 0, max, c[..6], c[6]);
  }

  /** The bad key comes behind an entry. */
  lemma BadKeyRuins(max: nat)
    requires max > 0
    ensures IsRuined(Fresh([]), 0, max, BadKeyCalls())
  {
    hide W.Step, Run;
    var c := BadKeyCalls();
    FirstEntry(max);
    assert !Utf8.ValidFrom([0xFF], 0) by {
      assert Utf8.Decode([0xFF], 0).Err?;
    }
    assert c[..4][..3] == c[..3] && c[..5][..4] == c[..4] && c[..6][..5] == c[..5] && c[..6] == c[..|c| - 1];
    assert IsRuined(Fresh([]), 0, max, c[..4]);
    assert IsRuined(Fresh([]), 0, max, c[..5]);
    assert IsRuined(Fresh([]), 0, max, c[..6]);
  }

  /**
   A caller that carries on after a refused key ends with a writer that says it is complete and holds a
   text that no consumer reads, whatever types it asks for.
   */
  lemma CompleteButUnreadable(max: nat, limit: nat, shape: Shape, inRange: FloatText -> bool)
    requires max > 0
    ensures W.Complete(Run(Fresh([]), 0, max, BadKeyCalls()))
    ensures Run(Fresh([]), 0, max, BadKeyCalls()).output == TWO_COMMAS
    ensures PullAt(TWO_COMMAS, 0, 0, limit, shape, inRange).Err?
  {
    hide PullAt, IsRuined;
    SecondEntry(max);
    BadKeyRuins(max);
    AnyIsInRange(BadKeyCalls());
    ReadableExactlyWhenNotRuined([], 0, max, BadKeyCalls(), AnyFloat());
  }
}
