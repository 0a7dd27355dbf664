/**
 Answers that are fixed outside the program: the exact encodings and faults that its tests ask for, the vectors of
 the standards it follows, and the fields of descriptors in the order that its ABI documents.
 */
module KnownAnswers {
  import opened Bytes
  import opened Serial
  import B = BinaryFormat
  import G = BinaryGrammar
  import Base64
  import Utf8
  import J = JsonGrammar
  import JsonText
  import JsonNumber
  import Netstrings
  import opened Decimals
  import opened PrsmModel
  import D = PrsmDescriptor
  import T = PrsmTable
  import I = InteropContract

  // The binary format

  lemma BinaryEncodings()
    ensures B.Encode(Tree.Leaf(Null)) == [0x00] && B.Encode(Tree.Leaf(Bool(false))) == [0x01]
    ensures B.Encode(Tree.Leaf(Bool(true))) == [0x02] && B.Encode(Tree.Leaf(Signed(-1))) == [0x03, 0x01]
    ensures B.Encode(Tree.Leaf(Signed(1))) == [0x03, 0x02]
    ensures B.Encode(Tree.Leaf(Unsigned(300))) == [0x04, 0xAC, 0x02]
    ensures B.Encode(Tree.Leaf(Str([0x68, 0x69]))) == [0x06, 0x02, 0x68, 0x69]
    ensures B.Encode(Tree.Leaf(Blob([9]))) == [0x07, 0x01, 0x09]
    ensures B.Encode(Tree.Array([Tree.Leaf(Signed(1))])) == [0x08, 0x01, 0x03, 0x02]
  {
    assert B.Varint(300) == [0xAC] + B.Varint(2);
    assert B.EncodeItems([Tree.Leaf(Signed(1))]) == B.Encode(Tree.Leaf(Signed(1))) + [];
  }

  /** The number one, lowest byte first. */
  lemma BinaryFloat()
    ensures B.Encode(Tree.Leaf(Float(0x3FF0_0000_0000_0000))) == [0x05, 0, 0, 0, 0, 0, 0, 0xF0, 0x3F]
  {
    assert B.LittleBytes(0x3FF0, 2) == [0xF0] + B.LittleBytes(0x3F, 1);
    assert B.LittleBytes(0x3FF0_0000, 4) == [0] + ([0] + B.LittleBytes(0x3FF0, 2));
    assert B.LittleBytes(0x3FF0_0000_0000, 6) == [0] + ([0] + B.LittleBytes(0x3FF0_0000, 4));
    assert B.LittleBytes(0x3FF0_0000_0000_0000, 8) == [0] + ([0] + B.LittleBytes(0x3FF0_0000_0000, 6));
  }

  /** An integer may be read with a sign or without, as long as it is in range. */
  lemma BinaryCrossReads()
    ensures G.UintAt([0x03, 0x0A], 0) == Ok((5, 2)) && G.IntAt([0x04, 0x05], 0) == Ok((5, 2))
    ensures G.UintAt([0x03, 0x01], 0) == Err(G.Fault(G.IntegerOutOfRange, 0))
    ensures G.IntAt([0x06, 0x00], 0) == Err(G.Fault(G.UnexpectedTag, 0)) == G.UintAt([0x06, 0x00], 0)
    ensures G.BoolAt([0x03, 0x02], 0) == Err(G.Fault(G.UnexpectedTag, 0))
  {
    assert G.TakeGroups([0x03, 0x0A], 1, 0, 0) == Ok((10, 2));
    assert G.TakeGroups([0x04, 0x05], 1, 0, 0) == Ok((5, 2));
    assert G.TakeGroups([0x03, 0x01], 1, 0, 0) == Ok((1, 2));
  }

  lemma BinaryRefusals(toDouble: int -> U64)
    ensures G.IntAt([], 0) == Err(G.Fault(G.UnexpectedEnd, 0)) && G.IntAt([0x7F], 0) == Err(G.Fault(G.UnknownTag, 0))
    ensures G.StrAt([0x06, 0x05, 0x61], 0) == Err(G.Fault(G.LengthExceedsInput, 1))
    ensures G.FloatAt([0x05, 0x00], 0, toDouble) == Err(G.Fault(G.UnexpectedEnd, 1))
    ensures G.ExpectTag([0x01], 0, 0x00) == Err(G.Fault(G.UnexpectedTag, 0))
  {
    assert G.TakeGroups([0x06, 0x05, 0x61], 1, 0, 0) == Ok((5, 2));
  }

  // Texts in bytes

  lemma Utf8Vectors()
    ensures Utf8.AppendAll([0x41, 0x2262, 0x391, 0x2E]) == [0x41, 0xE2, 0x89, 0xA2, 0xCE, 0x91, 0x2E]
    ensures Utf8.AppendAll([0xD55C, 0xAD6D, 0xC5B4]) == [0xED, 0x95, 0x9C, 0xEA, 0xB5, 0xAD, 0xEC, 0x96, 0xB4]
    ensures Utf8.Append(0x233B4) == [0xF0, 0xA3, 0x8E, 0xB4] && Utf8.FromPair(0xD834, 0xDD1E) == 0x1D11E
  {
    assert Utf8.Append(0x2262) == [0xE2, 0x89, 0xA2] && Utf8.Append(0x391) == [0xCE, 0x91];
    assert Utf8.AppendAll([0x41, 0x2262, 0x391, 0x2E])
        == [0x41] + (Utf8.Append(0x2262) + (Utf8.Append(0x391) + ([0x2E] + [])));
    assert Utf8.AppendAll([0xD55C, 0xAD6D, 0xC5B4])
        == Utf8.Append(0xD55C) + (Utf8.Append(0xAD6D) + (Utf8.Append(0xC5B4) + []));
  }

  lemma Base64Alphabet(v: Base64.Six)
    ensures Base64.Symbol(0) as char == 'A' && Base64.Symbol(26) as char == 'a' && Base64.Symbol(52) as char == '0'
    ensures Base64.Symbol(62) as char == '+' && Base64.Symbol(63) as char == '/'
    ensures v !in {25, 51, 61, 62, 63} ==> Base64.Symbol(v + 1) == Base64.Symbol(v) + 1
  {
  }

  lemma Base64Vectors()
    ensures Base64.Encode([]) == [] && Base64.Encode([0x66]) == [0x5A, 0x67, 0x3D, 0x3D]
    ensures Base64.Encode([0x66, 0x6F]) == [0x5A, 0x6D, 0x38, 0x3D]
    ensures Base64.Encode([0x66, 0x6F, 0x6F]) == [0x5A, 0x6D, 0x39, 0x76]
  {
    Base64OfTwo();
    Base64OfThree();
  }

  lemma Base64OfTwo()
    ensures Base64.Encode([0x66, 0x6F]) == [0x5A, 0x6D, 0x38, 0x3D]
  {
  }

  lemma Base64OfThree()
    ensures Base64.Encode([0x66, 0x6F, 0x6F]) == [0x5A, 0x6D, 0x39, 0x76]
  {
    var foo := [0x66, 0x6F, 0x6F];
    assert foo[..3] == foo && foo[3..] == [];
    assert Base64.SixesOf(foo) == [25, 38, 61, 47];
    assert Base64.Spell([25, 38, 61, 47]) == [0x5A] + ([0x6D] + ([0x39] + ([0x76] + [])));
  }

  lemma JsonTokens()
    ensures J.NULL_TEXT == Ascii("null") && J.TRUE_TEXT == Ascii("true") && J.FALSE_TEXT == Ascii("false")
    ensures [J.OPEN_BRACKET, J.CLOSE_BRACKET, J.OPEN_BRACE, J.CLOSE_BRACE, J.COMMA, J.COLON] == Ascii("[]{},:")
    ensures forall b: Byte :: J.IsSpace(b) <==> b as char in " \t\n\r"
    ensures JsonText.Escaped(0x1F) == Ascii("\\u001f") && JsonText.Escaped(0x0A) == Ascii("\\n")
    ensures JsonText.Escaped(0x2F) == Ascii("/") && JsonText.Escaped(0x7F) == [0x7F]
    ensures JsonNumber.DecimalValue(Ascii("907")) == 907
  {
    var d := Ascii("907");
    assert d[..2] == [0x39, 0x30] && d[..2][..1] == [0x39] && [0x39 as Byte][..0] == [];
    assert JsonNumber.DecimalValue(d[..2]) == 90;
  }

  function Ascii(s: string): seq<Byte>
    requires forall i :: 0 <= i < |s| ==> s[i] as nat < 0x80
  {
    seq(|s|, i requires 0 <= i < |s| => s[i] as Byte)
  }

  // Descriptors

  /** A field is its length in bytes, a colon, itself, and a semicolon; an empty one has its length too. */
  lemma DescriptorFields()
    ensures Netstrings.Item("cdecl") == "5:cdecl;" && Netstrings.Item("") == "0:;"
    ensures Netstrings.Join(["cdecl", "", "0"]) == "5:cdecl;0:;1:0;"
  {
    assert Netstrings.Join(["cdecl", "", "0"]) == "5:cdecl;" + ("0:;" + ("1:0;" + ""));
  }

  /** The fields of the call that reads a count, in order. */
  lemma GetterDescriptor()
    ensures var f := D.Facts(Handle, "engine", "x86_64-pc-windows-msvc", 64, "ce_prsm_bind_actor_get", Getter,
                             "engine::Actor", "GetCount", "int () const", Read, D.ScalarSlot(Int32), [], []);
            && D.Preamble(f.receiverKind)
               == ["reflgen.prsm.call.v1", "cdecl", "int32", "0", "typed_out_pointer", "no_out_pointer",
                   "generational_u64", "domain_generation_nominal_type", "borrowed_call_guard", "game_thread",
                   "caught_to_status", "u8_nonzero_in_normalized_out", "untouched", "synchronous"]
            && D.Signature(f)
               == ["engine", "x86_64-pc-windows-msvc", "64", "ce_prsm_bind_actor_get", "getter", "engine::Actor",
                   "GetCount", "int () const", "read", "int32", "0"]
            && D.Items(f) == D.Preamble(f.receiverKind) + D.Signature(f)
  {
    assert ToString(64) == "64" && ToString(0) == "0";
  }

  lemma TwoDefinitions(a: D.Definition, b: D.Definition)
    ensures D.AllDefinitionItems([a, b]) == D.DefinitionItems(a) + D.DefinitionItems(b)
  {
    hide D.DefinitionItems;
    assert [a, b][1..] == [b];
    assert D.AllDefinitionItems([b]) == D.DefinitionItems(b) + [];
  }

  /** Behind the preamble and the signature: parameters, then each definition, in the order of appearance. */
  lemma ValueDescriptor(f: D.Facts)
    requires f.parameters == [D.RecordSlot("math::vec2"), D.ScalarSlot(Float32)]
    requires f.values == [D.EnumDefinition("engine::Mode", Int8, [ValueCase("Low", "-128"), ValueCase("High", "127")]),
                          D.RecordDefinition("math::vec2", 8, 4, [ValueField("x", Float32, 0), ValueField("y", Float32, 4)])]
    ensures D.Items(f)
         == D.Preamble(f.receiverKind) + D.Signature(f) + ["value:math::vec2", "float32"]
            + (["enum", "engine::Mode", "int8", "2", "Low", "-128", "High", "127"]
               + ["record", "math::vec2", "8", "4", "2", "x", "float32", "0", "y", "float32", "4"])
  {
    hide D.Preamble, D.Signature, D.DefinitionItems;
    var mode, vector := f.values[0], f.values[1];
    assert "value:" + "math::vec2" == "value:math::vec2";
    assert f.parameters[1..] == [D.ScalarSlot(Float32)];
    assert D.Tokens(f.parameters) == ["value:math::vec2"] + (["float32"] + []);
    EnumItems(mode);
    RecordItems(vector);
    TwoDefinitions(mode, vector);
    assert f.values == [mode, vector];
  }

  lemma EnumItems(d: D.Definition)
    requires d == D.EnumDefinition("engine::Mode", Int8, [ValueCase("Low", "-128"), ValueCase("High", "127")])
    ensures D.DefinitionItems(d) == ["enum", "engine::Mode", "int8", "2", "Low", "-128", "High", "127"]
  {
    assert ToString(2) == "2";
    assert D.CaseItems(d.cases) == ["Low", "-128"] + (["High", "127"] + []);
  }

  lemma RecordItems(d: D.Definition)
    requires d == D.RecordDefinition("math::vec2", 8, 4, [ValueField("x", Float32, 0), ValueField("y", Float32, 4)])
    ensures D.DefinitionItems(d)
         == ["record", "math::vec2", "8", "4", "2", "x", "float32", "0", "y", "float32", "4"]
  {
    assert ToString(2) == "2" && ToString(8) == "8" && ToString(4) == "4" && ToString(0) == "0";
    assert D.FieldItems(d.fields) == ["x", "float32", "0"] + (["y", "float32", "4"] + []);
  }

  /** A symbol spells module, type and member in hexadecimal, in this order; owner ingress is a member of its own. */
  lemma SymbolText()
    ensures T.Symbol("e", "A", T.MethodNamed("f")) == "ce_prsm_bind_65_41_66"
    ensures T.Symbol("e", "A", T.OwnerIngress) == "ce_prsm_bind_65_41_owner"
  {
    assert Netstrings.Hex("e") == "65" && Netstrings.Hex("A") == "41" && Netstrings.Hex("f") == "66";
    assert "ce_prsm_bind_" + "65" + "_" + "41" + "_" == "ce_prsm_bind_65_41_";
  }

  // The contract of the wrappers

  /** A method says what it is called and how, then its result, the number of its parameters, and each of them. */
  lemma MethodFields(m: I.Method, t: I.Lowered)
    requires m == I.Method("Add", "native_add", I.CSharp, "int (int)", true, "c", "noexcept", t, [t])
    requires t == I.Lowered("int", 4, "int32_t", "int", I.Numeric)
    ensures I.MethodHead(m) == ["method", "native_add", "csharp", "int (int)", "const", "c", "noexcept"]
    ensures I.LoweredItems(t) == ["int", "4", "int32_t", "int", "numeric-value"]
    ensures I.MethodItems(m) == I.MethodHead(m) + I.LoweredItems(t) + ["1"] + I.LoweredItems(t)
  {
    assert ToString(4) == "4" && ToString(1) == "1";
    assert [t][1..] == [];
    assert I.LoweredListItems([t]) == I.LoweredItems(t) + [];
  }

  /** Classes come with their methods, layouts with their fields; the words that say how a value is passed. */
  lemma ContractWords(c: I.Class, l: I.Layout, f: I.LayoutField)
    requires c.target == I.FSharp && c.owned && f.offset == 4
    ensures I.ClassHead(c) == ["class", c.name, "fsharp", "owned-unique-delete-exact-type-v1"]
    ensures I.ClassHead(c.(target := I.C, owned := false)) == ["class", c.name, "c", "borrowed"]
    ensures I.LayoutHead(l.(size := 8, align := 4)) == ["fsharp-value-layout-v1", l.name, l.declaration, "8", "4"]
    ensures I.FieldItems(f) == [f.name, "4"] + I.LoweredItems(f.lowered)
    ensures I.PassingWord(I.OwnedArgument) == "unique-owned-native-argument-v1"
    ensures I.PassingWord(I.OwnedResult) == "unique-owned-native-result-v1"
    ensures I.PassingWord(I.RecordValue) == "fsharp-record-value-bytes-v1"
    ensures I.PassingWord(I.Callback) == "cdecl-i32-i32-synchronous-same-thread"
    ensures I.PassingWord(I.ObjectPointer) == "borrowed-object-pointer"
    ensures I.PassingWord(I.Boolean) == "bool:nonzero-input:zero-or-one-output"
    ensures I.ConstWord(false) == "mutable"
  {
    hide I.LoweredItems;
    assert ToString(8) == "8" && ToString(4) == "4";
  }

  /** The fields in front of all classes. */
  lemma OptionFields(o: I.Options)
    requires o.pointerWidth == 64
    ensures I.OptionItems(o)
         == ["reflgen-primitive-interop-v1", o.moduleName, o.library, o.csharpNamespace, o.triple, "64", "cdecl",
             "borrowed-exact-live-object-address-no-destruction",
             "status-int32:ok=0:null=1:exception=2:wrapper-writes-output-only-on-success"]
  {
    assert ToString(64) == "64";
  }
}
