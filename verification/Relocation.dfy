/** The meaning of a PEF relocation stream (`apply_relocations` in src/cwhost/pef.py).

    An instruction is decoded to an `Instr`; what it does is a short list of
    primitive `Op`s; a whole stream means the left fold of its ops, with every
    repeat written out in full. `RelocationMachine.dfy` runs the stream the way
    the source does, with a history that repeats replay, and is proved equal. */
module Relocation {

  type Word = w: int | 0 <= w < 0x1_0000

  datatype Error =
    | OddStream
    | UnknownOpcode
    | Truncated
    | OutOfRange
    | NoSection
    | NoImport
    | NestedRepeat
    | SplitsInstruction
    | NoCompleteBlock
    | UnknownSubop

  datatype Kind =
    | KSkip | KByC | KByD | KTVector12 | KTVector8 | KVTable8 | KImportRun
    | KSmImport | KSmC | KSmD | KSmSection
    | KIncr | KSmRepeat
    | KSetPosition | KLgImport | KLgRepeat | KLgSection

  /** A decoded instruction in the stream: where it starts, how many words it takes. */
  datatype Token = Token(offset: nat, length: nat, kind: Kind)

  predicate IsRepeat(kind: Kind) {
    kind.KSmRepeat? || kind.KLgRepeat?
  }

  datatype Decoded = Decoded(kind: Kind, length: nat) | BadOpcode

  /** The opcode table. */
  function Opcode(word: Word): (r: Decoded)
    ensures r.Decoded? ==> 1 <= r.length <= 2
  {
    var top2, top4, top6, top7 := word / 0x4000, word / 0x1000, word / 0x400, word / 0x200;
    if top2 == 0 then Decoded(KSkip, 1)
    else if top7 == 0x20 then Decoded(KByC, 1)
    else if top7 == 0x21 then Decoded(KByD, 1)
    else if top7 == 0x22 then Decoded(KTVector12, 1)
    else if top7 == 0x23 then Decoded(KTVector8, 1)
    else if top7 == 0x24 then Decoded(KVTable8, 1)
    else if top7 == 0x25 then Decoded(KImportRun, 1)
    else if top7 == 0x30 then Decoded(KSmImport, 1)
    else if top7 == 0x31 then Decoded(KSmC, 1)
    else if top7 == 0x32 then Decoded(KSmD, 1)
    else if top7 == 0x33 then Decoded(KSmSection, 1)
    else if top4 == 0x8 then Decoded(KIncr, 1)
    else if top4 == 0x9 then Decoded(KSmRepeat, 1)
    else if top6 == 0x28 then Decoded(KSetPosition, 2)
    else if top6 == 0x29 then Decoded(KLgImport, 2)
    else if top6 == 0x2C then Decoded(KLgRepeat, 2)
    else if top6 == 0x2D then Decoded(KLgSection, 2)
    else BadOpcode
  }

  // ----- tokens and their operands

  /** `tok` was decoded from `words` at its own offset. */
  predicate TokenOf(words: seq<Word>, tok: Token) {
    tok.offset + tok.length <= |words| && tok.offset < |words| &&
    Opcode(words[tok.offset]) == Decoded(tok.kind, tok.length)
  }

  /** An instruction with its operands read out of the bit fields. */
  datatype Instr =
    | Skip(skip: nat, count: nat)
    | RunC(n: nat) | RunD(n: nat) | TVector12(n: nat) | TVector8(n: nat) | VTable8(n: nat) | ImportRun(n: nat)
    | OneImport(index: nat) | SetC(index: nat) | SetD(index: nat) | OneSection(index: nat)
    | Advance(bytes: nat)
    | Position(at: nat)
    | Repeat(blockWords: nat, times: nat)
    | BadSubop

  /** The operands in the first word and, for the two-word forms, the second. */
  function Fields(kind: Kind, w: int, w2: int): Instr
    requires 0 <= w < 0x1_0000 && 0 <= w2
  {
    var low9 := w % 0x200;
    match kind
    case KSkip => Skip(w / 0x40 % 0x100, w % 0x40)
    case KByC => RunC(low9 + 1)
    case KByD => RunD(low9 + 1)
    case KTVector12 => TVector12(low9 + 1)
    case KTVector8 => TVector8(low9 + 1)
    case KVTable8 => VTable8(low9 + 1)
    case KImportRun => ImportRun(low9 + 1)
    case KSmImport => OneImport(low9)
    case KSmC => SetC(low9)
    case KSmD => SetD(low9)
    case KSmSection => OneSection(low9)
    case KIncr => Advance(w % 0x1000 + 1)
    case KSmRepeat => Repeat(w / 0x100 % 0x10 + 1, w % 0x100 + 1)
    case KSetPosition => Position(w % 0x400 * 0x1_0000 + w2)
    case KLgImport => OneImport(w % 0x400 * 0x1_0000 + w2)
    case KLgRepeat => Repeat(w / 0x40 % 0x10 + 1, w % 0x40 * 0x1_0000 + w2)
    case KLgSection =>
      var subop, index := w / 0x40 % 0x10, w % 0x40 * 0x1_0000 + w2;
      if subop == 0 then OneSection(index)
      else if subop == 1 then SetC(index)
      else if subop == 2 then SetD(index)
      else BadSubop
  }

  function Operands(words: seq<Word>, tok: Token): Instr
    requires TokenOf(words, tok)
  {
    Fields(tok.kind, words[tok.offset], if tok.length == 2 then words[tok.offset + 1] else 0)
  }

  // ----- assembling: the inverse of decoding

  /** The operands each form can carry. */
  predicate Encodable(i: Instr, long: bool) {
    match i
    case Skip(skip, count) => !long && skip < 0x100 && count < 0x40
    case RunC(n) => !long && 1 <= n <= 0x200
    case RunD(n) => !long && 1 <= n <= 0x200
    case TVector12(n) => !long && 1 <= n <= 0x200
    case TVector8(n) => !long && 1 <= n <= 0x200
    case VTable8(n) => !long && 1 <= n <= 0x200
    case ImportRun(n) => !long && 1 <= n <= 0x200
    case OneImport(index) => index < if long then 0x400_0000 else 0x200
    case SetC(index) => index < if long then 0x40_0000 else 0x200
    case SetD(index) => index < if long then 0x40_0000 else 0x200
    case OneSection(index) => index < if long then 0x40_0000 else 0x200
    case Advance(bytes) => !long && 1 <= bytes <= 0x1000
    case Position(at) => long && at < 0x400_0000
    case Repeat(blockWords, times) =>
      1 <= blockWords <= 0x10 && if long then times < 0x40_0000 else 1 <= times <= 0x100
    case BadSubop => false
  }

  /** The words of an instruction, in its one-word or two-word form. */
  function Assemble(i: Instr, long: bool): seq<Word>
    requires Encodable(i, long)
  {
    match i
    case Skip(skip, count) => [skip * 0x40 + count]
    case RunC(n) => [0x20 * 0x200 + n - 1]
    case RunD(n) => [0x21 * 0x200 + n - 1]
    case TVector12(n) => [0x22 * 0x200 + n - 1]
    case TVector8(n) => [0x23 * 0x200 + n - 1]
    case VTable8(n) => [0x24 * 0x200 + n - 1]
    case ImportRun(n) => [0x25 * 0x200 + n - 1]
    case OneImport(x) => if long then [0x29 * 0x400 + x / 0x1_0000, x % 0x1_0000] else [0x30 * 0x200 + x]
    case SetC(x) => if long then [0x2D * 0x400 + 0x40 + x / 0x1_0000, x % 0x1_0000] else [0x31 * 0x200 + x]
    case SetD(x) => if long then [0x2D * 0x400 + 0x80 + x / 0x1_0000, x % 0x1_0000] else [0x32 * 0x200 + x]
    case OneSection(x) => if long then [0x2D * 0x400 + x / 0x1_0000, x % 0x1_0000] else [0x33 * 0x200 + x]
    case Advance(b) => [0x8 * 0x1000 + b - 1]
    case Position(at) => [0x28 * 0x400 + at / 0x1_0000, at % 0x1_0000]
    case Repeat(b, t) =>
      if long then [0x2C * 0x400 + (b - 1) * 0x40 + t / 0x1_0000, t % 0x1_0000]
      else [0x9 * 0x1000 + (b - 1) * 0x100 + t - 1]
  }

  /** The kind under which an instruction is assembled. */
  function KindOf(i: Instr, long: bool): Kind
    requires Encodable(i, long)
  {
    match i
    case Skip(_, _) => KSkip
    case RunC(_) => KByC
    case RunD(_) => KByD
    case TVector12(_) => KTVector12
    case TVector8(_) => KTVector8
    case VTable8(_) => KVTable8
    case ImportRun(_) => KImportRun
    case OneImport(_) => if long then KLgImport else KSmImport
    case SetC(_) => if long then KLgSection else KSmC
    case SetD(_) => if long then KLgSection else KSmD
    case OneSection(_) => if long then KLgSection else KSmSection
    case Advance(_) => KIncr
    case Position(_) => KSetPosition
    case Repeat(_, _) => if long then KLgRepeat else KSmRepeat
  }

  lemma {:induction false} OpcodeAssemble(i: Instr, long: bool)
    requires Encodable(i, long)
    ensures Opcode(Assemble(i, long)[0]) == Decoded(KindOf(i, long), |Assemble(i, long)|)
  {
    match i
    case Skip(_, _) =>
    case RunC(_) =>
    case RunD(_) =>
    case TVector12(_) =>
    case TVector8(_) =>
    case VTable8(_) =>
    case ImportRun(_) =>
    case OneImport(_) =>
    case SetC(_) =>
    case SetD(_) =>
    case OneSection(_) =>
    case Advance(_) =>
    case Position(_) =>
    case Repeat(_, _) =>
  }

  lemma {:induction false} FieldsAssembleSkip(i: Instr)
    requires Encodable(i, false) && i.Skip?
    ensures Fields(KindOf(i, false), Assemble(i, false)[0], 0) == i
  {
    var w := i.skip * 0x40 + i.count;
    assert w / 0x40 % 0x100 == i.skip && w % 0x40 == i.count;
  }

  lemma {:induction false} FieldsAssembleRepeat(i: Instr)
    requires Encodable(i, false) && i.Repeat?
    ensures Fields(KindOf(i, false), Assemble(i, false)[0], 0) == i
  {
    var w := 0x9 * 0x1000 + (i.blockWords - 1) * 0x100 + i.times - 1;
    assert w / 0x100 % 0x10 + 1 == i.blockWords && w % 0x100 + 1 == i.times;
  }

  lemma {:induction false} FieldsAssembleShort(i: Instr)
    requires Encodable(i, false) && !i.Skip? && !i.Repeat?
    ensures Fields(KindOf(i, false), Assemble(i, false)[0], 0) == i
  {
    if i.RunC? || i.RunD? || i.TVector12? || i.TVector8? || i.VTable8? || i.ImportRun? {
      FieldsAssembleRun(i);
    } else {
      FieldsAssembleSingle(i);
    }
  }

  lemma {:induction false} FieldsAssembleRun(i: Instr)
    requires Encodable(i, false)
    requires i.RunC? || i.RunD? || i.TVector12? || i.TVector8? || i.VTable8? || i.ImportRun?
    ensures Fields(KindOf(i, false), Assemble(i, false)[0], 0) == i
  {
    match i
    case RunC(_) =>
    case RunD(_) =>
    case TVector12(_) =>
    case TVector8(_) =>
    case VTable8(_) =>
    case ImportRun(_) =>
  }

  lemma {:induction false} FieldsAssembleSingle(i: Instr)
    requires Encodable(i, false)
    requires i.OneImport? || i.SetC? || i.SetD? || i.OneSection? || i.Advance?
    ensures Fields(KindOf(i, false), Assemble(i, false)[0], 0) == i
  {
    match i
    case OneImport(_) =>
    case SetC(_) =>
    case SetD(_) =>
    case OneSection(_) =>
    case Advance(_) =>
  }

  lemma {:induction false} FieldsAssembleLongSection(i: Instr)
    requires Encodable(i, true) && (i.OneSection? || i.SetC? || i.SetD?)
    ensures Fields(KindOf(i, true), Assemble(i, true)[0], Assemble(i, true)[1]) == i
  {
    var w := Assemble(i, true)[0];
    assert w % 0x40 == i.index / 0x1_0000;
    assert w / 0x40 % 0x10 == if i.OneSection? then 0 else if i.SetC? then 1 else 2;
  }

  lemma {:induction false} FieldsAssembleLongRepeat(i: Instr)
    requires Encodable(i, true) && i.Repeat?
    ensures Fields(KindOf(i, true), Assemble(i, true)[0], Assemble(i, true)[1]) == i
  {
    var w := Assemble(i, true)[0];
    assert w % 0x40 == i.times / 0x1_0000;
    assert w / 0x40 % 0x10 == i.blockWords - 1;
  }

  lemma {:induction false} FieldsAssembleLong(i: Instr)
    requires Encodable(i, true) && (i.OneImport? || i.Position?)
    ensures Fields(KindOf(i, true), Assemble(i, true)[0], Assemble(i, true)[1]) == i
  {
    match i
    case OneImport(_) =>
    case Position(_) =>
  }

  /** Decoding an assembled instruction, wherever it stands in a stream, gives it back. */
  lemma {:induction false} DecodeAssemble(before: seq<Word>, i: Instr, long: bool, after: seq<Word>)
    requires Encodable(i, long)
    ensures var code := Assemble(i, long);
            var tok := Token(|before|, |code|, KindOf(i, long));
            TokenOf(before + code + after, tok) && Operands(before + code + after, tok) == i
  {
    var code := Assemble(i, long);
    var words := before + code + after;
    OpcodeAssemble(i, long);
    if long && (i.OneSection? || i.SetC? || i.SetD?) {
      FieldsAssembleLongSection(i);
    } else if long && i.Repeat? {
      FieldsAssembleLongRepeat(i);
    } else if long {
      FieldsAssembleLong(i);
    } else if i.Skip? {
      FieldsAssembleSkip(i);
    } else if i.Repeat? {
      FieldsAssembleRepeat(i);
    } else {
      FieldsAssembleShort(i);
    }
    assert words[|before|] == code[0];
    if |code| == 2 {
      assert words[|before| + 1] == code[1];
    }
  }

  ghost predicate Reassembles(w: Word, w2: Word)
    requires Opcode(w).Decoded?
  {
    var op := Opcode(w);
    var i := Fields(op.kind, w, if op.length == 2 then w2 else 0);
    i.BadSubop? ||
    (Encodable(i, op.length == 2) && KindOf(i, op.length == 2) == op.kind &&
     Assemble(i, op.length == 2) == if op.length == 2 then [w, w2] else [w])
  }

  lemma {:induction false} AssembleFieldsSkip(w: Word, w2: Word)
    requires Opcode(w) == Decoded(KSkip, 1)
    ensures Reassembles(w, w2)
  {
  }

  lemma {:induction false} AssembleFieldsRepeat(w: Word, w2: Word)
    requires Opcode(w) == Decoded(KSmRepeat, 1)
    ensures Reassembles(w, w2)
  {
    assert w == 0x9000 + w / 0x100 % 0x10 * 0x100 + w % 0x100;
  }

  lemma {:induction false} AssembleFieldsShort(w: Word, w2: Word)
    requires Opcode(w).Decoded? && Opcode(w).length == 1 && !Opcode(w).kind.KSkip? && !Opcode(w).kind.KSmRepeat?
    ensures Reassembles(w, w2)
  {
    match Opcode(w).kind
    case KByC =>
    case KByD =>
    case KTVector12 =>
    case KTVector8 =>
    case KVTable8 =>
    case KImportRun =>
    case KSmImport =>
    case KSmC =>
    case KSmD =>
    case KSmSection =>
    case KIncr =>
  }

  lemma {:induction false} AssembleFieldsLong(w: Word, w2: Word)
    requires Opcode(w).Decoded? && (Opcode(w).kind.KSetPosition? || Opcode(w).kind.KLgImport?)
    ensures Reassembles(w, w2)
  {
    match Opcode(w).kind
    case KSetPosition =>
    case KLgImport =>
  }

  lemma {:induction false} AssembleFieldsLongRepeat(w: Word, w2: Word)
    requires Opcode(w) == Decoded(KLgRepeat, 2)
    ensures Reassembles(w, w2)
  {
    assert w == 0x2C * 0x400 + w / 0x40 % 0x10 * 0x40 + w % 0x40;
  }

  lemma {:induction false} AssembleFieldsLongSection(w: Word, w2: Word)
    requires Opcode(w) == Decoded(KLgSection, 2)
    ensures Reassembles(w, w2)
  {
    assert w == 0x2D * 0x400 + w / 0x40 % 0x10 * 0x40 + w % 0x40;
  }

  /** And every instruction that decodes is the assembly of its operands: no bits are lost. */
  lemma {:induction false} AssembleDecode(words: seq<Word>, tok: Token)
    requires TokenOf(words, tok) && !Operands(words, tok).BadSubop?
    ensures Encodable(Operands(words, tok), tok.length == 2)
    ensures Assemble(Operands(words, tok), tok.length == 2) == words[tok.offset..tok.offset + tok.length]
  {
    var w, w2 := words[tok.offset], if tok.length == 2 then words[tok.offset + 1] else 0;
    if tok.kind.KLgRepeat? {
      AssembleFieldsLongRepeat(w, w2);
    } else if tok.kind.KLgSection? {
      AssembleFieldsLongSection(w, w2);
    } else if tok.length == 2 {
      AssembleFieldsLong(w, w2);
    } else if tok.kind.KSkip? {
      AssembleFieldsSkip(w, w2);
    } else if tok.kind.KSmRepeat? {
      AssembleFieldsRepeat(w, w2);
    } else {
      AssembleFieldsShort(w, w2);
    }
  }
}
