/**
 Instruction decoding of the RandomX analysis scripts: the weight table that becomes
 the opcode dictionary, the packed instruction layout, and the operand fields each
 instruction class keeps.
 */
module RandomxDecode {
  import opened Bytes
  import opened Wrappers

  datatype Mnemonic =
    | IADD_RS | IADD_M | ISUB_R | ISUB_M | IMUL_R | IMUL_M | IMULH_R | IMULH_M
    | ISMULH_R | ISMULH_M | IMUL_RCP | INEG_R | IXOR_R | IXOR_M | IROR_R | IROL_R
    | ISWAP_R | FSWAP_R | FADD_R | FADD_M | FSUB_R | FSUB_M | FSCAL_R | FMUL_R
    | FDIV_M | FSQRT_R | CBRANCH | CFROUND | ISTORE | NOP

  datatype Weight = Weight(name: Mnemonic, weight: nat)

  const INSTRUCTION_WEIGHTS: seq<Weight> := [
    Weight(IADD_RS, 16), Weight(IADD_M, 7), Weight(ISUB_R, 16), Weight(ISUB_M, 7),
    Weight(IMUL_R, 16), Weight(IMUL_M, 4), Weight(IMULH_R, 4), Weight(IMULH_M, 1),
    Weight(ISMULH_R, 4), Weight(ISMULH_M, 1), Weight(IMUL_RCP, 8), Weight(INEG_R, 2),
    Weight(IXOR_R, 15), Weight(IXOR_M, 5), Weight(IROR_R, 8), Weight(IROL_R, 2),
    Weight(ISWAP_R, 4), Weight(FSWAP_R, 4), Weight(FADD_R, 16), Weight(FADD_M, 5),
    Weight(FSUB_R, 16), Weight(FSUB_M, 5), Weight(FSCAL_R, 6), Weight(FMUL_R, 32),
    Weight(FDIV_M, 4), Weight(FSQRT_R, 6), Weight(CBRANCH, 25), Weight(CFROUND, 1),
    Weight(ISTORE, 16), Weight(NOP, 0)]

  const REGISTERS_COUNT: nat := 8

  // ---------------------------------------------------------------------------
  // The opcode dictionary
  // ---------------------------------------------------------------------------

  /** The first code given to entry i: the weights before it, summed. */
  function Start(table: seq<Weight>, i: nat): nat
    requires i <= |table|
  {
    if i == 0 then 0 else Start(table, i - 1) + table[i - 1].weight
  }

  ghost predicate DistinctNames(table: seq<Weight>) {
    forall i, j :: 0 <= i < j < |table| ==> table[i].name != table[j].name
  }

  lemma {:induction false} StartMonotonic(table: seq<Weight>, i: nat, j: nat)
    requires i <= j <= |table|
    ensures Start(table, i) <= Start(table, j)
  {
    if i < j {
      StartMonotonic(table, i, j - 1);
    }
  }

  /** Code c lies in the interval given to entry i. */
  ghost predicate Owns(table: seq<Weight>, i: int, c: nat) {
    0 <= i < |table| && Start(table, i) <= c < Start(table, i) + table[i].weight
  }

  /** The dictionary holds the codes of the first k entries and no other code. */
  ghost predicate Decodes(table: seq<Weight>, k: nat, dict: map<nat, Mnemonic>)
    requires k <= |table|
  {
    && (forall c: nat :: c in dict <==> c < Start(table, k))
    && (forall i, c: nat :: i < k && Owns(table, i, c) && c in dict ==> dict[c] == table[i].name)
  }

  /**
   The dictionary built by walking the table: entry i receives the consecutive codes
   from Start(i) up to Start(i + 1), and there are no other codes.
   */
  method BuildDecoderDict(table: seq<Weight>) returns (dict: map<nat, Mnemonic>)
    ensures Decodes(table, |table|, dict)
  {
    dict := map[];
    var cumulCode := 0;
    for k := 0 to |table|
      invariant cumulCode == Start(table, k)
      invariant Decodes(table, k, dict)
    {
      ghost var before := dict;
      for code := cumulCode to cumulCode + table[k].weight
        invariant forall c: nat :: c in dict <==> c < code
        invariant forall c :: c in before ==> c in dict && dict[c] == before[c]
        invariant forall c :: cumulCode <= c < code ==> c in dict && dict[c] == table[k].name
      {
        dict := dict[code := table[k].name];
      }
      cumulCode := cumulCode + table[k].weight;
      forall i, c: nat | i < k && Owns(table, i, c) ensures c in before {
        StartMonotonic(table, i + 1, k);
      }
    }
  }

  /** Every code below the total belongs to the interval of some entry. */
  lemma {:induction false} EntryOf(table: seq<Weight>, k: nat, c: nat) returns (i: nat)
    requires k <= |table| && c < Start(table, k)
    ensures i < k && Owns(table, i, c)
  {
    if c < Start(table, k - 1) {
      i := EntryOf(table, k - 1, c);
    } else {
      i := k - 1;
    }
  }

  /**
   With distinct names, the codes that decode to the name of entry i are exactly the
   interval of weight(i) codes given to it: the frequency check of the decoder.
   */
  lemma CodesOfEntry(table: seq<Weight>, dict: map<nat, Mnemonic>, i: nat, c: nat)
    requires DistinctNames(table) && Decodes(table, |table|, dict)
    requires i < |table|
    ensures c in dict && dict[c] == table[i].name <==> Owns(table, i, c)
  {
    if c in dict && dict[c] == table[i].name {
      var j := EntryOf(table, |table|, c);
    }
    if Owns(table, i, c) {
      StartMonotonic(table, i + 1, |table|);
    }
  }

  /** Position of a mnemonic in its declaration, which is its position in the table. */
  function Rank(m: Mnemonic): nat {
    match m
    case IADD_RS => 0 case IADD_M => 1 case ISUB_R => 2 case ISUB_M => 3 case IMUL_R => 4
    case IMUL_M => 5 case IMULH_R => 6 case IMULH_M => 7 case ISMULH_R => 8 case ISMULH_M => 9
    case IMUL_RCP => 10 case INEG_R => 11 case IXOR_R => 12 case IXOR_M => 13 case IROR_R => 14
    case IROL_R => 15 case ISWAP_R => 16 case FSWAP_R => 17 case FADD_R => 18 case FADD_M => 19
    case FSUB_R => 20 case FSUB_M => 21 case FSCAL_R => 22 case FMUL_R => 23 case FDIV_M => 24
    case FSQRT_R => 25 case CBRANCH => 26 case CFROUND => 27 case ISTORE => 28 case NOP => 29
  }

  lemma RankAt(i: nat)
    requires i < |INSTRUCTION_WEIGHTS|
    ensures Rank(INSTRUCTION_WEIGHTS[i].name) == i
  {
  }

  lemma TableNamesDistinct()
    ensures DistinctNames(INSTRUCTION_WEIGHTS)
  {
    var t := INSTRUCTION_WEIGHTS;
    forall i, j | 0 <= i < j < |t| ensures t[i].name != t[j].name {
      RankAt(i);
      RankAt(j);
    }
  }

  /** The first codes of the entries, and the total. */
  const FIRST_CODES: seq<nat> := [
    0, 16, 23, 39, 46, 62, 66, 70, 71, 75, 76, 84, 86, 101, 106, 114,
    116, 120, 124, 140, 145, 161, 166, 172, 204, 208, 214, 239, 240, 256, 256]

  lemma FirstCodeAt(i: nat)
    requires i < |INSTRUCTION_WEIGHTS|
    ensures i + 1 < |FIRST_CODES| && FIRST_CODES[i] + INSTRUCTION_WEIGHTS[i].weight == FIRST_CODES[i + 1]
  {
  }

  lemma {:induction false} StartIsSum(table: seq<Weight>, sums: seq<nat>, i: nat)
    requires |sums| == |table| + 1 && sums[0] == 0
    requires forall k :: 0 <= k < |table| ==> sums[k] + table[k].weight == sums[k + 1]
    requires i <= |table|
    ensures Start(table, i) == sums[i]
  {
    if i > 0 {
      StartIsSum(table, sums, i - 1);
    }
  }

  /** The table in use has distinct names and covers exactly the 256 opcode bytes. */
  lemma TableIsComplete()
    ensures DistinctNames(INSTRUCTION_WEIGHTS)
    ensures Start(INSTRUCTION_WEIGHTS, |INSTRUCTION_WEIGHTS|) == 256
  {
    TableNamesDistinct();
    var table, sums := INSTRUCTION_WEIGHTS, FIRST_CODES;
    forall k | 0 <= k < |table| ensures sums[k] + table[k].weight == sums[k + 1] {
      FirstCodeAt(k);
    }
    StartIsSum(table, sums, |table|);
  }

  /** The decoder dictionary knows every opcode byte and nothing else. */
  method GetDecoderDict() returns (dict: map<nat, Mnemonic>)
    ensures Decodes(INSTRUCTION_WEIGHTS, |INSTRUCTION_WEIGHTS|, dict)
    ensures forall c: nat :: c in dict <==> c < 256
  {
    TableIsComplete();
    dict := BuildDecoderDict(INSTRUCTION_WEIGHTS);
  }

  // ---------------------------------------------------------------------------
  // Instruction layout and operand decoding
  // ---------------------------------------------------------------------------

  type Register = r: nat | r < REGISTERS_COUNT

  /** The packed eight-byte structure; the immediate comes first, little-endian. */
  datatype InstructionStruct =
    InstructionStruct(imm32: nat, mod: Byte, src: Byte, dst: Byte, opcode: Byte)

  /** What an instruction object keeps; the floating-point fields are never set. */
  datatype Inst = Inst(name: Mnemonic, idst: Option<Register>, isrc: Option<Register>, cacheLevel: Option<nat>)

  datatype DecodeError = BufferTooSmall

  /** Copies a structure out of a buffer; extra bytes are ignored, missing ones are an error. */
  function FromBufferCopy(bytes: seq<Byte>): (r: Result<InstructionStruct, DecodeError>)
  {
    if |bytes| < 8 then
      Err(BufferTooSmall)
    else
      Ok(InstructionStruct(LittleEndian(bytes[..4]), bytes[4], bytes[5], bytes[6], bytes[7]))
  }

  /** The packed layout of a structure. */
  function ToBytes(s: InstructionStruct): (bytes: seq<Byte>)
    ensures |bytes| == 8
  {
    LittleEndianBytes(s.imm32, 4) + [s.mod, s.src, s.dst, s.opcode]
  }

  /** A buffer is decoded exactly when it holds eight bytes, and its layout is then kept. */
  lemma DecodedLayout(bytes: seq<Byte>)
    ensures FromBufferCopy(bytes).Ok? <==> |bytes| >= 8
    ensures FromBufferCopy(bytes).Ok? ==> ToBytes(FromBufferCopy(bytes).value) == bytes[..8]
  {
    if |bytes| >= 8 {
      LittleEndianOfBytes(bytes[..4]);
      assert bytes[..8] == bytes[..4] + [bytes[4], bytes[5], bytes[6], bytes[7]];
    }
  }

  /** Every encodable structure survives being written as bytes and copied back. */
  lemma StructRoundTrip(s: InstructionStruct)
    requires s.imm32 < 0x1_0000_0000
    ensures FromBufferCopy(ToBytes(s)) == Ok(s)
  {
    assert Pow256(4) == 0x1_0000_0000;
    BytesOfLittleEndian(s.imm32, 4);
    assert ToBytes(s)[..4] == LittleEndianBytes(s.imm32, 4);
  }

  function ReadSpLevel(s: InstructionStruct, regCount: nat): (level: nat)
    requires regCount > 0
  {
    if s.src % regCount == s.dst % regCount then 3
    else if s.mod % 4 == 0 then 2
    else 1
  }

  /** The instruction object of the class registered for a mnemonic. */
  function Decode(name: Mnemonic, s: InstructionStruct): (inst: Inst)
    ensures inst.isrc.Some? ==> inst.idst.Some?
  {
    var d: Option<Register> := Some(s.dst % REGISTERS_COUNT);
    var r: Option<Register> := Some(s.src % REGISTERS_COUNT);
    match name
    case IADD_RS | ISUB_R | IMUL_R | IMULH_R | ISMULH_R | IXOR_R | IROR_R | IROL_R | ISWAP_R =>
      Inst(name, d, r, None)
    case IADD_M | ISUB_M | IMUL_M | IMULH_M | ISMULH_M | IXOR_M =>
      Inst(name, d, r, Some(ReadSpLevel(s, REGISTERS_COUNT)))
    case IMUL_RCP | INEG_R =>
      Inst(name, d, None, None)
    case _ =>
      Inst(NOP, None, None, None)
  }

  /** The instruction an encoding stands for: its opcode byte selects a table entry. */
  ghost predicate IsInst(table: seq<Weight>, bytes: seq<Byte>, inst: Inst) {
    && |bytes| >= 8
    && exists i ::
         && Owns(table, i, bytes[7])
         && inst == Decode(table[i].name, FromBufferCopy(bytes).value)
  }

  ghost predicate IsProgram(table: seq<Weight>, instBytes: seq<seq<Byte>>, insts: seq<Inst>) {
    && |insts| == |instBytes|
    && forall k :: 0 <= k < |insts| ==> IsInst(table, instBytes[k], insts[k])
  }

  lemma LookupIsInst(table: seq<Weight>, dict: map<nat, Mnemonic>, bytes: seq<Byte>)
    requires Decodes(table, |table|, dict) && |bytes| >= 8 && bytes[7] < Start(table, |table|)
    ensures bytes[7] in dict
    ensures IsInst(table, bytes, Decode(dict[bytes[7]], FromBufferCopy(bytes).value))
  {
    var i := EntryOf(table, |table|, bytes[7]);
  }

  /** Copies the structures; fails on the first encoding that is too short. */
  method CopyStructs(instBytes: seq<seq<Byte>>) returns (r: Result<seq<InstructionStruct>, DecodeError>)
    ensures r.Err? <==> exists k :: 0 <= k < |instBytes| && |instBytes[k]| < 8
    ensures r.Ok? ==> |r.value| == |instBytes|
    ensures r.Ok? ==> forall k :: 0 <= k < |instBytes| ==> FromBufferCopy(instBytes[k]) == Ok(r.value[k])
  {
    var instStructs: seq<InstructionStruct> := [];
    for k := 0 to |instBytes|
      invariant |instStructs| == k
      invariant forall j :: 0 <= j < k ==> FromBufferCopy(instBytes[j]) == Ok(instStructs[j])
    {
      var s := FromBufferCopy(instBytes[k]);
      if s.Err? {
        return Err(s.error);
      }
      instStructs := instStructs + [s.value];
    }
    r := Ok(instStructs);
  }

  /** Builds the instruction objects; with all 256 opcodes assigned, every look-up succeeds. */
  method BuildInsts(ghost table: seq<Weight>, decoderDict: map<nat, Mnemonic>, ghost instBytes: seq<seq<Byte>>, instStructs: seq<InstructionStruct>)
    returns (insts: seq<Inst>)
    requires Decodes(table, |table|, decoderDict) && Start(table, |table|) == 256
    requires |instStructs| == |instBytes|
    requires forall k :: 0 <= k < |instBytes| ==> FromBufferCopy(instBytes[k]) == Ok(instStructs[k])
    ensures IsProgram(table, instBytes, insts)
  {
    insts := [];
    for k := 0 to |instStructs|
      invariant |insts| == k
      invariant forall j :: 0 <= j < k ==> IsInst(table, instBytes[j], insts[j])
    {
      LookupIsInst(table, decoderDict, instBytes[k]);
      insts := insts + [Decode(decoderDict[instStructs[k].opcode], instStructs[k])];
    }
  }

  /**
   Decodes a whole program: it fails exactly when some encoding is too short, and every
   opcode byte finds its class.
   */
  method ProgramInit(instBytes: seq<seq<Byte>>) returns (r: Result<seq<Inst>, DecodeError>)
    ensures r.Err? <==> exists k :: 0 <= k < |instBytes| && |instBytes[k]| < 8
    ensures r.Ok? ==> IsProgram(INSTRUCTION_WEIGHTS, instBytes, r.value)
  {
    var instStructs := CopyStructs(instBytes);
    if instStructs.Err? {
      return Err(instStructs.error);
    }
    TableIsComplete();
    var decoderDict := GetDecoderDict();
    var insts := BuildInsts(INSTRUCTION_WEIGHTS, decoderDict, instBytes, instStructs.value);
    r := Ok(insts);
  }
}
