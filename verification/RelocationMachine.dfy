/** The interpreter itself (src/cwhost/pef.py:435-620): registers and section bytes
    that change step by step, and a history from which repeats replay. */
module RelocationMachine {
  import opened Bytes
  import opened Relocation
  import opened RelocationMeaning
  import opened Wrappers

  lemma {:induction false} RepeatsDecode(words: seq<Word>, tok: Token)
    requires TokenOf(words, tok)
    ensures IsRepeat(tok.kind) <==> Operands(words, tok).Repeat?
    ensures IsRepeat(tok.kind) ==> Meaning(Operands(words, tok)) == [Trap(NestedRepeat)]
  {
  }

  class Machine {
    const words: seq<Word>
    const env: Env
    const section: array<Byte>
    var pos: nat
    var importIndex: nat
    var currentC: int
    var currentD: int
    var history: seq<Token>

    constructor (words: seq<Word>, env: Env, section: array<Byte>, initialC: int, initialD: int)
      ensures this.words == words && this.env == env && this.section == section
      ensures history == [] && St() == State(section[..], 0, 0, initialC, initialD)
    {
      this.words, this.env, this.section := words, env, section;
      pos, importIndex, currentC, currentD, history := 0, 0, initialC, initialD, [];
    }

    ghost function St(): State
      reads this, section
    {
      State(section[..], pos, importIndex, currentC, currentD)
    }

    /** The state a call leaves, with the error it raised if any. */
    ghost function Result(error: Option<Error>): Outcome
      reads this, section
    {
      match error case None => Done(St()) case Some(e) => Fail(St(), e)
    }

    method AddWord(value: int) returns (error: Option<Error>)
      modifies section
      ensures Result(error) == AddValue(old(St()), value)
    {
      if pos + 4 > section.Length {
        return Some(OutOfRange);
      }
      var x := ToBe((WordAt(section[..], pos) + value) % TWO32, 4);
      section[pos], section[pos + 1], section[pos + 2], section[pos + 3] := x[0], x[1], x[2], x[3];
      assert section[..] == AddAt(old(section[..]), pos, value);
      return None;
    }

    /** One of the `add_word(...)` calls, with the lookup of its value. */
    method AddFrom(src: Source) returns (error: Option<Error>)
      modifies section
      ensures Result(error) == Step(env, Add(src), old(St()))
    {
      match Lookup(env, src, State([], pos, importIndex, currentC, currentD))
      case NoValue(e) =>
        return Some(e);
      case Value(v) =>
        error := AddWord(v);
    }

    method AddThenMove(src: Source, bytes: nat) returns (error: Option<Error>)
      modifies section, this`pos
      ensures Result(error) == Fold(env, [Add(src), Move(bytes)], old(St()))
    {
      Fold2(env, Add(src), Move(bytes), St());
      error := AddFrom(src);
      if error.None? {
        pos := pos + bytes;
      }
    }

    /** The counted loops over one source: skip, c, d, vtable8. */
    method RunOf(src: Source, bytes: nat, count: nat) returns (error: Option<Error>)
      modifies section, this`pos
      ensures Result(error) == Fold(env, Times(count, [Add(src), Move(bytes)]), old(St()))
    {
      ghost var block := [Add(src), Move(bytes)];
      var i := 0;
      while i < count
        invariant i <= count
        invariant Fold(env, Times(count, block), old(St())) == Fold(env, Times(count - i, block), St())
      {
        FoldTimes(env, count - i, block, St());
        error := AddThenMove(src, bytes);
        if error.Some? {
          return;
        }
        i := i + 1;
      }
      return None;
    }

    static function VectorOps(gap: bool): seq<Op> {
      if gap then [Add(FromC), Move(4), Add(FromD), Move(4), Move(4)] else [Add(FromC), Move(4), Add(FromD), Move(4)]
    }

    /** C, then D, then `gap` further bytes: one transition vector. */
    method Vector(gap: bool) returns (error: Option<Error>)
      modifies section, this`pos
      ensures Result(error) == Fold(env, VectorOps(gap), old(St()))
    {
      ghost var tail := if gap then [Move(4)] else [];
      ghost var back := [Add(FromD), Move(4)] + tail;
      assert VectorOps(gap) == [Add(FromC), Move(4)] + back;
      FoldAppend(env, [Add(FromC), Move(4)], back, St());
      error := AddThenMove(FromC, 4);
      if error.Some? {
        return;
      }
      FoldAppend(env, [Add(FromD), Move(4)], tail, St());
      error := AddThenMove(FromD, 4);
      if error.Some? {
        return;
      }
      if gap {
        Fold1(env, Move(4), St());
        pos := pos + 4;
      }
    }

    /** tvector12 and tvector8. */
    method Vectors(gap: bool, count: nat) returns (error: Option<Error>)
      modifies section, this`pos
      ensures Result(error) == Fold(env, Meaning(if gap then TVector12(count) else TVector8(count)), old(St()))
    {
      hide Step;
      ghost var block := VectorOps(gap);
      ghost var want := Fold(env, Times(count, block), St());
      var i := 0;
      while i < count
        invariant i <= count
        invariant want == Fold(env, Times(count - i, block), St())
      {
        FoldTimes(env, count - i, block, St());
        error := Vector(gap);
        if error.Some? {
          return;
        }
        i := i + 1;
      }
      return None;
    }

    method NextImport() returns (error: Option<Error>)
      modifies section, this`pos, this`importIndex
      ensures Result(error) == Fold(env, [Add(FromNextImport), BumpNext, Move(4)], old(St()))
    {
      Fold3(env, Add(FromNextImport), BumpNext, Move(4), St());
      error := AddFrom(FromNextImport);
      if error.None? {
        importIndex := importIndex + 1;
        pos := pos + 4;
      }
    }

    method Imports(count: nat) returns (error: Option<Error>)
      modifies section, this`pos, this`importIndex
      ensures Result(error) == Fold(env, Meaning(ImportRun(count)), old(St()))
    {
      hide Step;
      ghost var block := [Add(FromNextImport), BumpNext, Move(4)];
      ghost var want := Fold(env, Times(count, block), St());
      var i := 0;
      while i < count
        invariant i <= count
        invariant want == Fold(env, Times(count - i, block), St())
      {
        FoldTimes(env, count - i, block, St());
        error := NextImport();
        if error.Some? {
          return;
        }
        i := i + 1;
      }
      return None;
    }

    method OneImportAt(index: nat) returns (error: Option<Error>)
      modifies section, this`pos, this`importIndex
      ensures Result(error) == Fold(env, Meaning(OneImport(index)), old(St()))
    {
      hide Fold, AddValue, Lookup, WordAt;
      ghost var st := St();
      Fold3(env, Add(FromImport(index)), NextIs(index + 1), Move(4), st);
      assert Meaning(OneImport(index)) == [Add(FromImport(index)), NextIs(index + 1), Move(4)];
      hide Meaning;
      error := AddFrom(FromImport(index));
      if error.None? {
        importIndex := index + 1;
        pos := pos + 4;
      }
    }

    method Load(intoC: bool, index: nat) returns (error: Option<Error>)
      modifies this`currentC, this`currentD
      ensures Result(error) == Fold(env, Meaning(if intoC then SetC(index) else SetD(index)), old(St()))
    {
      Fold1(env, LoadC(index), St());
      Fold1(env, LoadD(index), St());
      hide Fold;
      if index >= |env.deltas| {
        return Some(NoSection);
      }
      if intoC {
        currentC := env.deltas[index];
      } else {
        currentD := env.deltas[index];
      }
      return None;
    }

    method MoveBy(bytes: nat)
      modifies this`pos
      ensures Result(None) == Fold(env, [Move(bytes)], old(St()))
    {
      Fold1(env, Move(bytes), St());
      pos := pos + bytes;
    }

    method SeekTo(at: nat)
      modifies this`pos
      ensures Result(None) == Fold(env, [Seek(at)], old(St()))
    {
      Fold1(env, Seek(at), St());
      pos := at;
    }

    /** The kinds that loop over a run of words. */
    method ExecuteRun(tok: Token) returns (error: Option<Error>)
      requires TokenOf(words, tok)
      requires tok.kind in {KSkip, KByC, KByD, KTVector12, KTVector8, KVTable8, KImportRun}
      modifies section, this`pos, this`importIndex
      ensures Result(error) == Fold(env, Meaning(Operands(words, tok)), old(St()))
    {
      hide Fold, Step, Times;
      var w: int := words[tok.offset];
      var count := w % 0x200 + 1;
      match tok.kind
      case KSkip =>
        var skip, adds := w / 0x40 % 0x100, w % 0x40;
        assert Operands(words, tok) == Skip(skip, adds);
        FoldAppend(env, [Move(4 * skip)], Times(adds, [Add(FromD), Move(4)]), St());
        MoveBy(4 * skip);
        error := RunOf(FromD, 4, adds);
      case KByC =>
        error := RunOf(FromC, 4, count);
      case KByD =>
        error := RunOf(FromD, 4, count);
      case KTVector12 =>
        error := Vectors(true, count);
      case KTVector8 =>
        error := Vectors(false, count);
      case KVTable8 =>
        error := RunOf(FromD, 8, count);
      case KImportRun =>
        error := Imports(count);
    }

    /** The other one-word kinds but the small repeat. */
    method ExecuteSmall(tok: Token) returns (error: Option<Error>)
      requires TokenOf(words, tok)
      requires tok.kind in {KSmImport, KSmC, KSmD, KSmSection, KIncr}
      modifies section, this`pos, this`importIndex, this`currentC, this`currentD
      ensures Result(error) == Fold(env, Meaning(Operands(words, tok)), old(St()))
    {
      hide Fold, Step, Times;
      var w: int := words[tok.offset];
      var low9 := w % 0x200;
      match tok.kind
      case KSmImport =>
        error := OneImportAt(low9);
      case KSmC =>
        error := Load(true, low9);
      case KSmD =>
        error := Load(false, low9);
      case KSmSection =>
        error := AddThenMove(FromSection(low9), 4);
      case KIncr =>
        MoveBy(w % 0x1000 + 1);
        error := None;
    }

    /** The two-word kinds but the large repeat. */
    method ExecuteLarge(tok: Token) returns (error: Option<Error>)
      requires TokenOf(words, tok)
      requires tok.kind in {KSetPosition, KLgImport, KLgSection}
      modifies section, this`pos, this`importIndex, this`currentC, this`currentD
      ensures Result(error) == Fold(env, Meaning(Operands(words, tok)), old(St()))
    {
      hide Fold, Step, Times;
      var w: int, w2: int := words[tok.offset], words[tok.offset + 1];
      match tok.kind
      case KSetPosition =>
        SeekTo(w % 0x400 * 0x1_0000 + w2);
        error := None;
      case KLgImport =>
        error := OneImportAt(w % 0x400 * 0x1_0000 + w2);
      case KLgSection =>
        var subop, index := w / 0x40 % 0x10, w % 0x40 * 0x1_0000 + w2;
        if subop == 0 {
          error := AddThenMove(FromSection(index), 4);
        } else if subop == 1 {
          error := Load(true, index);
        } else if subop == 2 {
          error := Load(false, index);
        } else {
          FoldTrap(env, UnknownSubop, [], St());
          error := Some(UnknownSubop);
        }
    }

    /** Every kind but the two repeats. */
    method ExecutePlain(tok: Token) returns (error: Option<Error>)
      requires TokenOf(words, tok) && !IsRepeat(tok.kind)
      modifies section, this`pos, this`importIndex, this`currentC, this`currentD
      ensures Result(error) == Fold(env, Meaning(Operands(words, tok)), old(St()))
    {
      hide Fold, Step, Meaning, Operands, Opcode;
      if tok.kind in {KSkip, KByC, KByD, KTVector12, KTVector8, KVTable8, KImportRun} {
        error := ExecuteRun(tok);
      } else if tok.kind in {KSmImport, KSmC, KSmD, KSmSection, KIncr} {
        error := ExecuteSmall(tok);
      } else {
        error := ExecuteLarge(tok);
      }
    }

    /** Walk the history backwards until the wanted number of words is covered. */
    method SelectBlock(blockWords: nat) returns (selected: seq<Token>, error: Option<Error>)
      requires blockWords > 0
      ensures match Select(history, blockWords)
              case Block(tokens) => error == None && selected == tokens
              case Splits => error == Some(SplitsInstruction)
              case RunsOff => error == Some(NoCompleteBlock)
    {
      selected := [];
      var total, k := 0, |history|;
      while k > 0
        invariant 0 <= k <= |history| && history[..|history|] == history
        invariant total < blockWords
        invariant Select(history, blockWords) ==
                  match Select(history[..k], blockWords - total)
                  case Block(tokens) => Block(tokens + selected)
                  case Splits => Splits
                  case RunsOff => RunsOff
      {
        k := k - 1;
        var prior := history[k];
        assert history[..k + 1][..k] == history[..k];
        selected := [prior] + selected;
        total := total + prior.length;
        if total == blockWords {
          return selected, None;
        }
        if total > blockWords {
          return selected, Some(SplitsInstruction);
        }
      }
      return selected, Some(NoCompleteBlock);
    }

    /** One pass over the selected tokens; a repeat among them is an error. */
    method ReplayOnce(selected: seq<Token>) returns (error: Option<Error>)
      requires AllDecoded(words, selected)
      modifies section, this`pos, this`importIndex, this`currentC, this`currentD
      ensures Result(error) == Fold(env, Replay(words, selected), old(St()))
    {
      hide Step, Operands, Meaning;
      var k := 0;
      while k < |selected|
        invariant k <= |selected|
        invariant Fold(env, Replay(words, selected), old(St())) == Fold(env, Replay(words, selected[k..]), St())
      {
        FoldAppend(env, Meaning(Operands(words, selected[k])), Replay(words, selected[k + 1..]), St());
        RepeatsDecode(words, selected[k]);
        if IsRepeat(selected[k].kind) {
          FoldTrap(env, NestedRepeat, [], St());
          return Some(NestedRepeat);
        }
        error := ExecutePlain(selected[k]);
        if error.Some? {
          return;
        }
        k := k + 1;
      }
      return None;
    }

    method ReplayTimes(selected: seq<Token>, repeatCount: nat) returns (error: Option<Error>)
      requires AllDecoded(words, selected)
      modifies section, this`pos, this`importIndex, this`currentC, this`currentD
      ensures Result(error) == Fold(env, Times(repeatCount, Replay(words, selected)), old(St()))
    {
      hide Step, Replay;
      ghost var block := Replay(words, selected);
      ghost var want := Fold(env, Times(repeatCount, block), St());
      var i := 0;
      while i < repeatCount
        invariant i <= repeatCount
        invariant want == Fold(env, Times(repeatCount - i, block), St())
      {
        FoldTimes(env, repeatCount - i, block, St());
        error := ReplayOnce(selected);
        if error.Some? {
          return;
        }
        i := i + 1;
      }
      return None;
    }

    /** The two forms of repeat. */
    method ExecuteRepeat(tok: Token) returns (error: Option<Error>)
      requires TokenOf(words, tok) && AllDecoded(words, history) && IsRepeat(tok.kind)
      modifies section, this`pos, this`importIndex, this`currentC, this`currentD
      ensures Result(error) == Fold(env, TokenOps(words, history, tok), old(St()))
    {
      hide Fold, Step, Replay;
      var w: int := words[tok.offset];
      var blockWords, repeatCount;
      if tok.kind == KSmRepeat {
        blockWords, repeatCount := w / 0x100 % 0x10 + 1, w % 0x100 + 1;
      } else {
        blockWords, repeatCount := w / 0x40 % 0x10 + 1, w % 0x40 * 0x1_0000 + words[tok.offset + 1];
      }
      assert Operands(words, tok) == Repeat(blockWords, repeatCount);
      hide Operands;
      var selected;
      selected, error := SelectBlock(blockWords);
      if error.Some? {
        FoldTrap(env, error.value, [], St());
        return;
      }
      SelectSuffix(history, blockWords);
      error := ReplayTimes(selected, repeatCount);
    }

    method Execute(tok: Token) returns (error: Option<Error>)
      requires TokenOf(words, tok) && AllDecoded(words, history)
      modifies section, this`pos, this`importIndex, this`currentC, this`currentD
      ensures Result(error) == Fold(env, TokenOps(words, history, tok), old(St()))
    {
      RepeatsDecode(words, tok);
      hide Fold, Step, Opcode, Meaning, Operands, Replay;
      if IsRepeat(tok.kind) {
        error := ExecuteRepeat(tok);
      } else {
        error := ExecutePlain(tok);
      }
    }

    /** One turn of the decode loop. */
    method DecodeAndExecute(offset: nat) returns (error: Option<Error>, next: nat)
      requires offset < |words| && AllDecoded(words, history)
      modifies this, section
      ensures error.Some? ==> Result(error) == Fold(env, Remaining(words, old(history), offset), old(St()))
      ensures error.None? ==>
                offset < next <= |words| && AllDecoded(words, history) &&
                old(history) + List(words, offset).tokens == history + List(words, next).tokens &&
                Fold(env, Remaining(words, old(history), offset), old(St())) ==
                Fold(env, Remaining(words, history, next), St())
    {
      hide Step, TokenOps, Fold, Opcode, Remaining;
      RemainingStep(words, history, offset);
      match Opcode(words[offset])
      case BadOpcode =>
        FoldTrap(env, UnknownOpcode, [], St());
        return Some(UnknownOpcode), offset;
      case Decoded(kind, length) =>
        if offset + length > |words| {
          FoldTrap(env, Truncated, [], St());
          return Some(Truncated), offset;
        }
        var tok := Token(offset, length, kind);
        FoldAppend(env, TokenOps(words, history, tok), Remaining(words, history + [tok], offset + length), St());
        error := Execute(tok);
        next := offset + length;
        if error.None? {
          assert List(words, offset).tokens == [tok] + List(words, next).tokens;
          history := history + [tok];
        }
    }

    /** The decode loop. */
    method Run() returns (error: Option<Error>)
      requires history == []
      modifies this, section
      ensures Result(error) == Fold(env, Program(words), old(St()))
      ensures error.None? ==> history == List(words, 0).tokens
    {
      hide Fold, Remaining, List;
      ghost var want := Fold(env, Program(words), St());
      var offset := 0;
      while offset < |words|
        invariant offset <= |words|
        invariant AllDecoded(words, history)
        invariant List(words, 0).tokens == history + List(words, offset).tokens
        invariant want == Fold(env, Remaining(words, history, offset), St())
      {
        error, offset := DecodeAndExecute(offset);
        if error.Some? {
          return;
        }
      }
      RemainingStep(words, history, offset);
      Fold0(env, St());
      return None;
    }
  }

  /** The words of a big-endian stream. */
  function Words(stream: seq<Byte>): (w: seq<Word>)
    requires |stream| % 2 == 0
    ensures |w| == |stream| / 2
    ensures forall k :: 0 <= k < |w| ==> w[k] as int == Half(stream, k)
  {
    seq(|stream| / 2, k requires 0 <= k < |stream| / 2 => Half(stream, k))
  }

  /** The k-th big-endian half-word. */
  function Half(stream: seq<Byte>, k: nat): Word
    requires 2 * k + 1 < |stream|
  {
    Be(stream[2 * k..2 * k + 2])
  }

  /** `apply_relocations` on a bytearray. */
  method ApplyRelocations(section: array<Byte>, stream: seq<Byte>, env: Env, initialC: int, initialD: int)
    returns (error: Option<Error>)
    modifies section
    ensures |stream| % 2 == 1 ==> error == Some(OddStream) && section[..] == old(section[..])
    ensures |stream| % 2 == 0 ==>
              var o := Relocate(Words(stream), env, old(section[..]), initialC, initialD);
              section[..] == o.st.section && error == match o { case Done(_) => None case Fail(_, e) => Some(e) }
  {
    if |stream| % 2 != 0 {
      return Some(OddStream);
    }
    var m := new Machine(Words(stream), env, section, initialC, initialD);
    error := m.Run();
  }
}
