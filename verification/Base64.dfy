/** Base64 with padding (section 4 of RFC 4648), in which JSON text carries byte strings. */
module Base64 {
  import opened Bytes

  datatype Error = BadLength | BadCharacter

  /** Six bits. */
  type Six = v: int | 0 <= v < 0x40

  const PAD: Byte := 0x3D

  /** The alphabet. */
  function Symbol(v: Six): Byte {
    if v < 26 then 0x41 + v
    else if v < 52 then 0x61 + (v - 26)
    else if v < 62 then 0x30 + (v - 52)
    else if v == 62 then 0x2B
    else 0x2F
  }

  function Value(c: Byte): (r: Option<Six>)
    ensures r.Some? ==> Symbol(r.value) == c
  {
    if 0x41 <= c <= 0x5A then Some(c - 0x41)
    else if 0x61 <= c <= 0x7A then Some(c - 0x61 + 26)
    else if 0x30 <= c <= 0x39 then Some(c - 0x30 + 52)
    else if c == 0x2B then Some(62)
    else if c == 0x2F then Some(63)
    else None
  }

  lemma ValueOfSymbol(v: Six)
    ensures Value(Symbol(v)) == Some(v) && Symbol(v) != PAD
  {
  }

  function Spell(sixes: seq<Six>): (symbols: seq<Byte>)
    ensures |symbols| == |sixes|
  {
    if sixes == [] then [] else [Symbol(sixes[0])] + Spell(sixes[1..])
  }

  /** The values of `count` symbols, unless one of them is outside the alphabet. */
  function TakeSixes(text: seq<Byte>, i: nat, count: nat): (r: Option<seq<Six>>)
    requires i + count <= |text|
    ensures r.Some? ==> |r.value| == count
    decreases |text| - i
  {
    if count == 0 then Some([])
    else
      var first, rest := Value(text[i]), TakeSixes(text, i + 1, count - 1);
      if first.None? || rest.None? then None else Some([first.value] + rest.value)
  }

  lemma {:induction false} SixesOfSpelling(text: seq<Byte>, i: nat, sixes: seq<Six>)
    requires i + |sixes| <= |text|
    ensures TakeSixes(text, i, |sixes|) == Some(sixes) <==> At(text, i, Spell(sixes))
    decreases |sixes|
  {
    if sixes != [] {
      AtConcat(text, i, [Symbol(sixes[0])], Spell(sixes[1..]));
      AtByte(text, i, Symbol(sixes[0]));
      ValueOfSymbol(sixes[0]);
      assert sixes == [sixes[0]] + sixes[1..];
      SixesOfSpelling(text, i + 1, sixes[1..]);
    }
  }

  // Blocks

  /** One to three bytes cut into sixes. */
  function SixesOf(block: seq<Byte>): (sixes: seq<Six>)
    requires 1 <= |block| <= 3
    ensures |sixes| == |block| + 1
  {
    if |block| == 1 then [block[0] / 4, block[0] % 4 * 0x10]
    else if |block| == 2 then [block[0] / 4, block[0] % 4 * 0x10 + block[1] / 0x10, block[1] % 0x10 * 4]
    else
      [block[0] / 4, block[0] % 4 * 0x10 + block[1] / 0x10, block[1] % 0x10 * 4 + block[2] / 0x40, block[2] % 0x40]
  }

  /** The bytes that four sixes hold. */
  function First(p: nat, q: nat): Byte
    requires p < 0x40 && q < 0x40
  {
    p * 4 + q / 0x10
  }

  function Second(q: nat, r: nat): Byte
    requires q < 0x40 && r < 0x40
  {
    q % 0x10 * 0x10 + r / 4
  }

  function Third(r: nat, s: nat): Byte
    requires r < 0x40 && s < 0x40
  {
    r % 4 * 0x40 + s
  }

  /** Two to four sixes made into bytes; the bits left over are dropped. */
  function BytesOf(sixes: seq<Six>): (block: seq<Byte>)
    requires 2 <= |sixes| <= 4
    ensures |block| == |sixes| - 1
  {
    if |sixes| == 2 then [First(sixes[0], sixes[1])]
    else if |sixes| == 3 then [First(sixes[0], sixes[1]), Second(sixes[1], sixes[2])]
    else [First(sixes[0], sixes[1]), Second(sixes[1], sixes[2]), Third(sixes[2], sixes[3])]
  }

  lemma BytesOfSixes(block: seq<Byte>)
    requires 1 <= |block| <= 3
    ensures BytesOf(SixesOf(block)) == block
  {
    var b, c := if |block| > 1 then block[1] else 0, if |block| > 2 then block[2] else 0;
    Recombined(block[0], b, c);
  }

  lemma Recombined(a: Byte, b: Byte, c: Byte)
    ensures a / 4 * 4 + (a % 4 * 0x10 + b / 0x10) / 0x10 == a
    ensures (a % 4 * 0x10 + b / 0x10) % 0x10 * 0x10 + (b % 0x10 * 4 + c / 0x40) / 4 == b
    ensures (b % 0x10 * 4 + c / 0x40) % 4 * 0x40 + c % 0x40 == c
  {
  }

  /** The sixes with the bits that no byte uses cleared. */
  function Cleared(sixes: seq<Six>): (cleared: seq<Six>)
    requires 2 <= |sixes| <= 4
    ensures |cleared| == |sixes|
  {
    var last := sixes[|sixes| - 1];
    sixes[|sixes| - 1 := if |sixes| == 2 then last - last % 0x10 else if |sixes| == 3 then last - last % 4 else last]
  }

  lemma SixesOfBytes(sixes: seq<Six>)
    requires 2 <= |sixes| <= 4
    ensures SixesOf(BytesOf(sixes)) == Cleared(sixes)
  {
    var r, s := if |sixes| > 2 then sixes[2] else 0, if |sixes| > 3 then sixes[3] else 0;
    CutAgain(sixes[0], sixes[1], r, s);
  }

  lemma CutAgain(p: Six, q: Six, r: Six, s: Six)
    ensures var a, b, c := p * 4 + q / 0x10, q % 0x10 * 0x10 + r / 4, r % 4 * 0x40 + s;
            && a / 4 == p && a % 4 * 0x10 + b / 0x10 == q && b % 0x10 * 4 + c / 0x40 == r && c % 0x40 == s
            && a % 4 * 0x10 == q - q % 0x10 && b % 0x10 * 4 == r - r % 4
  {
  }

  function Pads(count: nat): (pads: seq<Byte>)
    ensures |pads| == count
    ensures forall k :: 0 <= k < count ==> pads[k] == PAD
  {
    if count == 0 then [] else [PAD] + Pads(count - 1)
  }

  // Encoding

  /** Four symbols, the missing ones as padding. */
  function EncodeBlock(block: seq<Byte>): (symbols: seq<Byte>)
    requires 1 <= |block| <= 3
    ensures |symbols| == 4
  {
    Spell(SixesOf(block)) + Pads(3 - |block|)
  }

  function Encode(bytes: seq<Byte>): seq<Byte> {
    if bytes == [] then []
    else if |bytes| < 3 then EncodeBlock(bytes)
    else EncodeBlock(bytes[..3]) + Encode(bytes[3..])
  }

  lemma {:induction false} EncodedLength(bytes: seq<Byte>)
    ensures |Encode(bytes)| == (|bytes| + 2) / 3 * 4
    ensures |Encode(bytes)| % 4 == 0
  {
    if |bytes| >= 3 {
      EncodedLength(bytes[3..]);
    }
  }

  /** The loop over whole blocks and the rest after it, with the 24-bit register they go through. */
  method EncodeBytes(bytes: seq<Byte>) returns (result: seq<Byte>)
    ensures result == Encode(bytes)
  {
    result := [];
    var i := 0;
    while i + 3 <= |bytes|
      invariant i <= |bytes|
      invariant result + Encode(bytes[i..]) == Encode(bytes)
    {
      var chunk := Chunk(bytes[i], bytes[i + 1], bytes[i + 2]);
      assert bytes[i..][..3] == [bytes[i], bytes[i + 1], bytes[i + 2]];
      assert bytes[i..][3..] == bytes[i + 3..];
      var symbols := [Symbol(chunk / 0x40000), Symbol(chunk / 0x1000 % 0x40),
                      Symbol(chunk / 0x40 % 0x40), Symbol(chunk % 0x40)];
      assert EncodeBlock(bytes[i..][..3]) == symbols by {
        WholeBlock(bytes[i], bytes[i + 1], bytes[i + 2]);
      }
      ConcatAssociative(result, symbols, Encode(bytes[i + 3..]));
      result := result + symbols;
      i := i + 3;
    }
    var rest := |bytes| - i;
    if rest > 0 {
      var second := if rest == 2 then bytes[i + 1] else 0;
      var chunk := Chunk(bytes[i], second, 0);
      assert bytes[i..] == if rest == 2 then [bytes[i], second] else [bytes[i]];
      var symbols := [Symbol(chunk / 0x40000), Symbol(chunk / 0x1000 % 0x40),
                      if rest == 2 then Symbol(chunk / 0x40 % 0x40) else PAD, PAD];
      assert EncodeBlock(bytes[i..]) == symbols by {
        LastBlock(bytes[i], second, rest);
      }
      result := result + symbols;
    }
  }

  /** `a << 16 | b << 8 | c` */
  function Chunk(a: Byte, b: Byte, c: Byte): nat {
    a * 0x10000 + b * 0x100 + c
  }

  /** A register read off six bits at a time. */
  lemma SixBitParts(a: Byte, b: Byte, c: Byte)
    ensures var chunk := Chunk(a, b, c);
            && chunk / 0x40000 == a / 4
            && chunk / 0x1000 % 0x40 == a % 4 * 0x10 + b / 0x10
            && chunk / 0x40 % 0x40 == b % 0x10 * 4 + c / 0x40
            && chunk % 0x40 == c % 0x40
  {
    var p: nat, q: nat, r: nat, s: nat := a / 4, a % 4 * 0x10 + b / 0x10, b % 0x10 * 4 + c / 0x40, c % 0x40;
    assert Chunk(a, b, c) == ((p * 0x40 + q) * 0x40 + r) * 0x40 + s;
    FourSixBitDigits(p, q, r, s);
  }

  lemma WholeBlock(a: Byte, b: Byte, c: Byte)
    ensures var chunk := Chunk(a, b, c);
            chunk / 0x40000 < 0x40 &&
            EncodeBlock([a, b, c])
            == [Symbol(chunk / 0x40000), Symbol(chunk / 0x1000 % 0x40),
                Symbol(chunk / 0x40 % 0x40), Symbol(chunk % 0x40)]
  {
    var p, q, r, s := a / 4, a % 4 * 0x10 + b / 0x10, b % 0x10 * 4 + c / 0x40, c % 0x40;
    SixBitParts(a, b, c);
    SpellFour(p, q, r, s);
    assert SixesOf([a, b, c]) == [p, q, r, s];
    assert EncodeBlock([a, b, c]) == [Symbol(p), Symbol(q), Symbol(r), Symbol(s)];
  }

  lemma LastBlock(a: Byte, b: Byte, rest: nat)
    requires rest == 2 || (rest == 1 && b == 0)
    ensures var chunk := Chunk(a, b, 0);
            chunk / 0x40000 < 0x40 &&
            EncodeBlock(if rest == 2 then [a, b] else [a])
            == [Symbol(chunk / 0x40000), Symbol(chunk / 0x1000 % 0x40),
                if rest == 2 then Symbol(chunk / 0x40 % 0x40) else PAD, PAD]
  {
    var p, q, r := a / 4, a % 4 * 0x10 + b / 0x10, b % 0x10 * 4;
    SixBitParts(a, b, 0);
    SpellFour(p, q, r, 0);
    if rest == 2 {
      assert SixesOf([a, b]) == [p, q, r];
      assert EncodeBlock([a, b]) == [Symbol(p), Symbol(q), Symbol(r), PAD];
    } else {
      assert SixesOf([a]) == [p, q];
      assert EncodeBlock([a]) == [Symbol(p), Symbol(q), PAD, PAD];
    }
  }

  lemma SpellFour(p: Six, q: Six, r: Six, s: Six)
    ensures Spell([p, q, r, s]) == [Symbol(p), Symbol(q), Symbol(r), Symbol(s)]
    ensures Spell([p, q, r]) == [Symbol(p), Symbol(q), Symbol(r)]
    ensures Spell([p, q]) == [Symbol(p), Symbol(q)]
  {
    assert Spell([s]) == [Symbol(s)];
    assert [r, s][1..] == [s] && [r][1..] == [];
    assert Spell([r, s]) == [Symbol(r), Symbol(s)];
    assert [q, r, s][1..] == [r, s] && [q, r][1..] == [r] && [q][1..] == [];
    assert Spell([q, r, s]) == [Symbol(q), Symbol(r), Symbol(s)];
    assert Spell([q, r]) == [Symbol(q), Symbol(r)];
    assert [p, q, r, s][1..] == [q, r, s] && [p, q, r][1..] == [q, r] && [p, q][1..] == [q];
  }

  // Decoding

  /** How many symbols at the end of the block at `i` are padding: only the last block may have any. */
  function Padding(text: seq<Byte>, i: nat): (padding: nat)
    requires i + 4 <= |text|
    ensures padding <= 2
  {
    if i + 4 != |text| || text[i + 3] != PAD then 0
    else if text[i + 2] == PAD then 2
    else 1
  }

  /** The last `blocks` blocks of the text. */
  function DecodeFrom(text: seq<Byte>, i: nat, blocks: nat): Result<seq<Byte>, Error>
    requires i + 4 * blocks == |text|
    decreases blocks
  {
    if blocks == 0 then Ok([])
    else
      match TakeSixes(text, i, 4 - Padding(text, i))
      case None => Err(BadCharacter)
      case Some(sixes) =>
        var rest :- DecodeFrom(text, i + 4, blocks - 1);
        Ok(BytesOf(sixes) + rest)
  }

  function Decode(text: seq<Byte>): Result<seq<Byte>, Error> {
    if |text| % 4 != 0 then Err(BadLength) else DecodeFrom(text, 0, |text| / 4)
  }

  method DecodeText(text: seq<Byte>) returns (r: Result<seq<Byte>, Error>)
    ensures r == Decode(text)
  {
    if |text| % 4 != 0 {
      return Err(BadLength);
    }
    var result: seq<Byte> := [];
    var i := 0;
    ghost var whole := DecodeFrom(text, 0, |text| / 4);
    ghost var blocks: nat := |text| / 4;
    StartDecoding(whole);
    while i < |text|
      invariant i + 4 * blocks == |text|
      invariant Continues(whole, result, DecodeFrom(text, i, blocks))
    {
      var last := i + 4 == |text|;
      var padding := if last then (if text[i + 3] == PAD then (if text[i + 2] == PAD then 2 else 1) else 0) else 0;
      var taken := TakeChunk(text, i, padding);
      if taken.None? {
        return Err(BadCharacter);
      }
      ghost var sixes := TakeSixes(text, i, 4 - padding).value;
      DecodeStep(whole, result, text, i, blocks);
      result := PutChunk(result, taken.value, padding, sixes);
      i := i + 4;
      blocks := blocks - 1;
    }
    assert result + [] == result;
    return Ok(result);
  }

  /** `rest` is what is still to come after `done`. */
  predicate Continues(whole: Result<seq<Byte>, Error>, done: seq<Byte>, rest: Result<seq<Byte>, Error>) {
    match rest
    case Ok(bytes) => whole == Ok(done + bytes)
    case Err(error) => whole == Err(error)
  }

  lemma StartDecoding(whole: Result<seq<Byte>, Error>)
    ensures Continues(whole, [], whole)
  {
    if whole.Ok? {
      assert [] + whole.value == whole.value;
    }
  }

  lemma DecodeStep(whole: Result<seq<Byte>, Error>, done: seq<Byte>, text: seq<Byte>, i: nat, blocks: nat)
    requires blocks > 0 && i + 4 * blocks == |text|
    requires TakeSixes(text, i, 4 - Padding(text, i)).Some?
    requires Continues(whole, done, DecodeFrom(text, i, blocks))
    ensures Continues(whole, done + BytesOf(TakeSixes(text, i, 4 - Padding(text, i)).value),
                      DecodeFrom(text, i + 4, blocks - 1))
  {
    var block := BytesOf(TakeSixes(text, i, 4 - Padding(text, i)).value);
    var rest := DecodeFrom(text, i + 4, blocks - 1);
    if rest.Ok? {
      assert DecodeFrom(text, i, blocks) == Ok(block + rest.value);
      ConcatAssociative(done, block, rest.value);
    }
  }

  /** The bytes of a register, as many as the padding leaves. */
  method PutChunk(result: seq<Byte>, chunk: nat, padding: nat, ghost sixes: seq<Six>) returns (next: seq<Byte>)
    requires padding <= 2 && |sixes| == 4 - padding && chunk == Register(sixes, 4)
    ensures next == result + BytesOf(sixes)
  {
    RegisterBytes(sixes);
    next := result + [chunk / 0x10000 % 0x100];
    if padding < 2 {
      next := next + [chunk / 0x100 % 0x100];
    }
    if padding < 1 {
      next := next + [chunk % 0x100];
    }
  }

  /** The inner loop: the symbols of one block in a register, the padding as zeros. */
  method TakeChunk(text: seq<Byte>, i: nat, padding: nat) returns (r: Option<nat>)
    requires i + 4 <= |text| && padding <= 2
    ensures r == match TakeSixes(text, i, 4 - padding)
                 case None => None
                 case Some(sixes) => Some(Register(sixes, 4))
  {
    ghost var count := 4 - padding;
    ghost var done: seq<Six> := [];
    var chunk: nat := 0;
    for j := 0 to 4
      invariant |done| == if j <= count then j else count
      invariant chunk == Register(done, j)
      invariant TakeSixes(text, i, |done|) == Some(done)
    {
      if j >= 4 - padding {
        chunk := chunk * 0x40;
        continue;
      }
      var value := Value(text[i + j]);
      TakeOneMore(text, i, done, count);
      if value.None? {
        return None;
      }
      RegisterAppend(done, value.value);
      chunk := chunk * 0x40 + value.value;
      done := done + [value.value];
    }
    return Some(chunk);
  }

  /** One more symbol after those already taken; a bad one spoils any longer run. */
  lemma {:induction false} TakeOneMore(text: seq<Byte>, i: nat, done: seq<Six>, count: nat)
    requires |done| < count && i + count <= |text| && TakeSixes(text, i, |done|) == Some(done)
    ensures match Value(text[i + |done|])
            case None => TakeSixes(text, i, count) == None
            case Some(v) => TakeSixes(text, i, |done| + 1) == Some(done + [v])
    decreases done
  {
    if done == [] {
      assert TakeSixes(text, i + 1, 0) == Some([]);
      if Value(text[i]).Some? {
        assert [] + [Value(text[i]).value] == [Value(text[i]).value] + [];
      }
    } else {
      assert done == [done[0]] + done[1..];
      TakeOneMore(text, i + 1, done[1..], count - 1);
      if Value(text[i + |done|]).Some? {
        ConcatSixes(done[0], done[1..], Value(text[i + |done|]).value);
      }
    }
  }

  lemma ConcatSixes(first: Six, rest: seq<Six>, last: Six)
    ensures [first] + (rest + [last]) == [first] + rest + [last]
  {
  }

  /** Sixes in a register, first one highest, as if there were `count` of them. */
  function Register(sixes: seq<Six>, count: nat): nat
    requires |sixes| <= count
    decreases count
  {
    if count == 0 then 0
    else if |sixes| < count then Register(sixes, count - 1) * 0x40
    else Register(sixes[..count - 1], count - 1) * 0x40 + sixes[count - 1]
  }

  lemma RegisterAppend(sixes: seq<Six>, v: Six)
    ensures Register(sixes + [v], |sixes| + 1) == Register(sixes, |sixes|) * 0x40 + v
  {
    assert (sixes + [v])[..|sixes|] == sixes;
  }

  lemma RegisterBytes(sixes: seq<Six>)
    requires 2 <= |sixes| <= 4
    ensures var chunk := Register(sixes, 4);
            && chunk / 0x10000 % 0x100 == BytesOf(sixes)[0]
            && (|sixes| > 2 ==> chunk / 0x100 % 0x100 == BytesOf(sixes)[1])
            && (|sixes| > 3 ==> chunk % 0x100 == BytesOf(sixes)[2])
  {
    hide Register;
    var r, s := if |sixes| > 2 then sixes[2] else 0, if |sixes| > 3 then sixes[3] else 0;
    RegisterOfFour(sixes, sixes[0], sixes[1], r, s);
    ChunkBytes(Register(sixes, 4), sixes[0], sixes[1], r, s);
  }

  lemma RegisterOfFour(sixes: seq<Six>, p: Six, q: Six, r: Six, s: Six)
    requires 2 <= |sixes| <= 4 && sixes == [p, q, r, s][..|sixes|]
    requires (|sixes| < 3 ==> r == 0) && (|sixes| < 4 ==> s == 0)
    ensures Register(sixes, 4) == ((p * 0x40 + q) * 0x40 + r) * 0x40 + s
  {
    RegisterAppend([], p);
    RegisterAppend([p], q);
    RegisterAppend([p, q], r);
    RegisterAppend([p, q, r], s);
    assert [] + [p] == [p];
    assert [p] + [q] == [p, q];
    assert [p, q] + [r] == [p, q, r];
    assert [p, q, r] + [s] == [p, q, r, s];
    assert Register([p, q], 3) == (p * 0x40 + q) * 0x40;
    assert sixes == if |sixes| == 2 then [p, q] else if |sixes| == 3 then [p, q, r] else [p, q, r, s];
  }

  lemma ChunkBytes(chunk: nat, p: nat, q: nat, r: nat, s: nat)
    requires p < 0x40 && q < 0x40 && r < 0x40 && s < 0x40
    requires chunk == ((p * 0x40 + q) * 0x40 + r) * 0x40 + s
    ensures chunk / 0x10000 % 0x100 == First(p, q)
    ensures chunk / 0x100 % 0x100 == Second(q, r)
    ensures chunk % 0x100 == Third(r, s)
  {
    ThreeBytes(p * 4 + q / 0x10, q % 0x10 * 0x10 + r / 4, r % 4 * 0x40 + s);
  }

  // Decoding undoes encoding

  /** The block at `i` is the encoding of `block`. */
  lemma TakeSixesOfBlock(text: seq<Byte>, i: nat, block: seq<Byte>)
    requires 1 <= |block| <= 3 && At(text, i, EncodeBlock(block))
    requires |block| < 3 ==> i + 4 == |text|
    ensures Padding(text, i) == 3 - |block|
    ensures TakeSixes(text, i, |block| + 1) == Some(SixesOf(block))
  {
    var sixes := SixesOf(block);
    AtConcat(text, i, Spell(sixes), Pads(3 - |block|));
    SixesOfSpelling(text, i, sixes);
    SpelledIsNotPad(text, i, sixes, |sixes| - 1);
    if |block| < 3 {
      assert text[i + |sixes| + 0] == Pads(3 - |block|)[0];
    }
    if |block| < 2 {
      assert text[i + |sixes| + 1] == Pads(3 - |block|)[1];
    }
  }

  lemma {:induction false} SpelledIsNotPad(text: seq<Byte>, i: nat, sixes: seq<Six>, k: nat)
    requires i + |sixes| <= |text| && k < |sixes|
    requires TakeSixes(text, i, |sixes|) == Some(sixes)
    ensures Value(text[i + k]) == Some(sixes[k]) && text[i + k] != PAD
    decreases k
  {
    ValueOfSymbol(sixes[0]);
    if k > 0 {
      assert TakeSixes(text, i + 1, |sixes| - 1) == Some(sixes[1..]);
      SpelledIsNotPad(text, i + 1, sixes[1..], k - 1);
    }
  }

  lemma {:induction false} DecodeFromOfEncode(text: seq<Byte>, i: nat, blocks: nat, bytes: seq<Byte>)
    requires At(text, i, Encode(bytes)) && i + |Encode(bytes)| == |text|
    requires i + 4 * blocks == |text|
    ensures DecodeFrom(text, i, blocks) == Ok(bytes)
    decreases |bytes|
  {
    if 0 < |bytes| < 3 {
      TakeSixesOfBlock(text, i, bytes);
      BytesOfSixes(bytes);
      assert bytes + [] == bytes;
    } else if |bytes| >= 3 {
      AtConcat(text, i, EncodeBlock(bytes[..3]), Encode(bytes[3..]));
      TakeSixesOfBlock(text, i, bytes[..3]);
      BytesOfSixes(bytes[..3]);
      DecodeFromOfEncode(text, i + 4, blocks - 1, bytes[3..]);
      assert bytes[..3] + bytes[3..] == bytes;
    }
  }

  lemma DecodeOfEncode(bytes: seq<Byte>)
    ensures Decode(Encode(bytes)) == Ok(bytes)
  {
    EncodedLength(bytes);
    DecodeFromOfEncode(Encode(bytes), 0, |Encode(bytes)| / 4, bytes);
  }

  // Encoding what was decoded

  /** The text with the bits of its last symbol before the padding that no byte uses cleared. */
  function Canonical(text: seq<Byte>): (canonical: seq<Byte>)
    ensures |canonical| == |text|
  {
    if |text| < 4 then text
    else
      var padding := Padding(text, |text| - 4);
      var k := |text| - 1 - padding;
      match Value(text[k])
      case None => text
      case Some(v) => text[k := Symbol(v - v % (if padding == 0 then 1 else if padding == 1 then 4 else 0x10))]
  }

  lemma EncodeOfTaken(text: seq<Byte>, i: nat, blocks: nat)
    requires blocks > 0 && i + 4 * blocks == |text|
    requires TakeSixes(text, i, 4 - Padding(text, i)).Some?
    ensures At(Canonical(text), i, EncodeBlock(BytesOf(TakeSixes(text, i, 4 - Padding(text, i)).value)))
  {
    hide BytesOf, TakeSixes;
    var padding := Padding(text, i);
    var sixes := TakeSixes(text, i, 4 - padding).value;
    SixesOfBytes(sixes);
    forall k | 0 <= k < 4
      ensures EncodeBlock(BytesOf(sixes))[k] == Canonical(text)[i + k]
    {
      if k < |sixes| {
        SpelledIsNotPad(text, i, sixes, k);
        SpelledAt(Cleared(sixes), k);
      }
    }
  }

  lemma {:induction false} SpelledAt(sixes: seq<Six>, k: nat)
    requires k < |sixes|
    ensures Spell(sixes)[k] == Symbol(sixes[k])
  {
    if k > 0 {
      SpelledAt(sixes[1..], k - 1);
    }
  }

  lemma {:induction false} EncodeOfDecodeFrom(text: seq<Byte>, i: nat, blocks: nat)
    requires i + 4 * blocks == |text|
    requires DecodeFrom(text, i, blocks).Ok?
    ensures At(Canonical(text), i, Encode(DecodeFrom(text, i, blocks).value))
    ensures i + |Encode(DecodeFrom(text, i, blocks).value)| == |text|
    decreases blocks
  {
    if blocks > 0 {
      var block := BytesOf(TakeSixes(text, i, 4 - Padding(text, i)).value);
      var rest := DecodeFrom(text, i + 4, blocks - 1).value;
      EncodeOfTaken(text, i, blocks);
      EncodeOfDecodeFrom(text, i + 4, blocks - 1);
      EncodeAppend(text, i, block, rest);
      AtConcat(Canonical(text), i, EncodeBlock(block), Encode(rest));
    }
  }

  lemma EncodeAppend(text: seq<Byte>, i: nat, block: seq<Byte>, rest: seq<Byte>)
    requires 1 <= |block| <= 3 && (|block| < 3 ==> rest == [])
    ensures Encode(block + rest) == EncodeBlock(block) + Encode(rest)
  {
    if |block| == 3 {
      assert (block + rest)[..3] == block && (block + rest)[3..] == rest;
    } else {
      assert block + rest == block;
    }
  }

  /** Re-encoding an accepted text gives it back but for the unused bits of the last symbol before the padding. */
  lemma EncodeOfDecode(text: seq<Byte>)
    requires Decode(text).Ok?
    ensures Encode(Decode(text).value) == Canonical(text)
  {
    EncodeOfDecodeFrom(text, 0, |text| / 4);
    AtWhole(Canonical(text), Encode(Decode(text).value));
  }

  lemma {:induction false} DecodedFromIsShorter(text: seq<Byte>, i: nat, blocks: nat)
    requires i + 4 * blocks == |text| && DecodeFrom(text, i, blocks).Ok?
    ensures |DecodeFrom(text, i, blocks).value| <= |text| - i
    decreases blocks
  {
    if blocks > 0 {
      DecodedFromIsShorter(text, i + 4, blocks - 1);
    }
  }

  lemma DecodedIsShorter(text: seq<Byte>)
    requires Decode(text).Ok?
    ensures |Decode(text).value| <= |text|
  {
    DecodedFromIsShorter(text, 0, |text| / 4);
  }

  // What is accepted

  /** Whole blocks of the alphabet, the last one with at most two padding symbols at its end. */
  predicate WellFormed(text: seq<Byte>) {
    && |text| % 4 == 0
    && forall k :: 0 <= k < |text| - Ending(text) ==> Value(text[k]).Some?
  }

  function Ending(text: seq<Byte>): (padding: nat)
    ensures padding <= |text|
  {
    if |text| < 4 then 0 else Padding(text, |text| - 4)
  }

  lemma {:induction false} TakesSixes(text: seq<Byte>, i: nat, count: nat)
    requires i + count <= |text|
    ensures TakeSixes(text, i, count).Some? <==> forall k :: i <= k < i + count ==> Value(text[k]).Some?
    decreases count
  {
    if count > 0 {
      TakesSixes(text, i + 1, count - 1);
    }
  }

  lemma {:induction false} DecodesFrom(text: seq<Byte>, i: nat, blocks: nat)
    requires i + 4 * blocks == |text|
    ensures DecodeFrom(text, i, blocks).Ok? <==> forall k :: i <= k < |text| - Ending(text) ==> Value(text[k]).Some?
    ensures DecodeFrom(text, i, blocks) != Err(BadLength)
    decreases blocks
  {
    if blocks > 0 {
      TakesSixes(text, i, 4 - Padding(text, i));
      DecodesFrom(text, i + 4, blocks - 1);
    }
  }

  lemma DecodesExactlyWellFormed(text: seq<Byte>)
    ensures Decode(text).Ok? <==> WellFormed(text)
    ensures Decode(text) == Err(BadLength) <==> |text| % 4 != 0
  {
    if |text| % 4 == 0 {
      DecodesFrom(text, 0, |text| / 4);
    }
  }

  /** The symbols of an encoding: letters, digits, `+`, `/` and `=`. */
  predicate Plain(b: Byte) {
    Value(b).Some? || b == PAD
  }

  lemma EncodeIsPlain(bytes: seq<Byte>, k: nat)
    requires k < |Encode(bytes)|
    ensures Plain(Encode(bytes)[k])
  {
    EncodedLength(bytes);
    DecodeOfEncode(bytes);
    DecodesExactlyWellFormed(Encode(bytes));
  }
}
