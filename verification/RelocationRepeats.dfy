/** What a repeat does, told on the words of the stream (src/cwhost/pef.py, `apply_relocations`). */
module RelocationRepeats {
  import opened Bytes
  import opened Relocation
  import opened RelocationAppending
  import opened RelocationInstructions
  import opened RelocationMeaning
  import opened RelocationTheorems

  // ----- whole instructions

  predicate RepeatWord(w: Word) {
    0x9000 <= w < 0xA000 || 0xB000 <= w < 0xB400
  }

  /** How many words the instruction that starts with w takes. */
  function WordsOf(w: Word): nat
    requires !Unassigned(w)
  {
    if FirstOfTwo(w) then 2 else 1
  }

  /** The words are instructions without a remainder, and none of them a repeat if `plain`. */
  predicate Whole(words: seq<Word>, plain: bool)
    decreases |words|
  {
    words == [] ||
    (!Unassigned(words[0]) && WordsOf(words[0]) <= |words| && (plain ==> !RepeatWord(words[0])) &&
     Whole(words[WordsOf(words[0])..], plain))
  }

  lemma {:induction false} WordKinds(w: Word)
    ensures Unassigned(w) <==> Opcode(w).BadOpcode?
    ensures !Unassigned(w) ==> Opcode(w).length == WordsOf(w) && (IsRepeat(Opcode(w).kind) <==> RepeatWord(w))
  {
  }

  function Shifted(tokens: seq<Token>, shift: nat): (r: seq<Token>)
    ensures |r| == |tokens|
    ensures forall k :: 0 <= k < |r| ==> r[k] == tokens[k].(offset := tokens[k].offset + shift)
  {
    seq(|tokens|, k requires 0 <= k < |tokens| => tokens[k].(offset := tokens[k].offset + shift))
  }

  /** Behind other words the same instructions are decoded, further on. */
  lemma {:induction false} ListShifted(front: seq<Word>, block: seq<Word>, from: nat)
    requires from <= |block|
    ensures var l := List(block, from);
            List(front + block, |front| + from) == Listing(Shifted(l.tokens, |front|), l.stop)
    decreases |block| - from
  {
    hide Opcode, TokenOf;
    if from < |block| {
      var op := Opcode(block[from]);
      assert (front + block)[|front| + from] == block[from];
      if op.Decoded? && from + op.length <= |block| {
        ListShifted(front, block, from + op.length);
        assert |front| + (from + op.length) == |front| + from + op.length;
      }
    }
  }

  lemma {:induction false} OperandsShifted(front: seq<Word>, block: seq<Word>, tok: Token)
    requires TokenOf(block, tok)
    ensures var t := tok.(offset := tok.offset + |front|);
            TokenOf(front + block, t) && Operands(front + block, t) == Operands(block, tok)
  {
    hide Opcode, Fields;
    var all, at := front + block, |front| + tok.offset;
    assert all[at] == block[tok.offset];
    assert tok.length == 2 ==> all[at + 1] == block[tok.offset + 1];
  }

  lemma {:induction false} ReplayShifted(front: seq<Word>, block: seq<Word>, tokens: seq<Token>)
    requires AllDecoded(block, tokens)
    ensures AllDecoded(front + block, Shifted(tokens, |front|))
    ensures Replay(front + block, Shifted(tokens, |front|)) == Replay(block, tokens)
    decreases |tokens|
  {
    hide TokenOf, Operands, Meaning;
    forall k | 0 <= k < |tokens| ensures TokenOf(front + block, Shifted(tokens, |front|)[k]) {
      OperandsShifted(front, block, tokens[k]);
    }
    if tokens != [] {
      OperandsShifted(front, block, tokens[0]);
      ReplayShifted(front, block, tokens[1..]);
      assert Shifted(tokens, |front|)[1..] == Shifted(tokens[1..], |front|);
    }
  }

  lemma {:induction false} PlainExpand(words: seq<Word>, history: seq<Token>, tokens: seq<Token>)
    requires AllDecoded(words, history) && AllDecoded(words, tokens) && Plain(tokens)
    ensures Expand(words, history, tokens) == Replay(words, tokens)
    decreases |tokens|
  {
    hide TokenOf, Operands, Meaning;
    if tokens != [] {
      RepeatKinds(words, tokens[0]);
      PlainExpand(words, history + [tokens[0]], tokens[1..]);
    }
  }

  /** Decoding agrees with `Whole`. */
  lemma {:induction false} WholeList(words: seq<Word>, plain: bool)
    ensures Whole(words, plain) <==> List(words, 0).stop == [] && (plain ==> Plain(List(words, 0).tokens))
    decreases |words|
  {
    if words != [] {
      WordKinds(words[0]);
      var w := words[0];
      hide Opcode, TokenOf, Unassigned, WordsOf, RepeatWord;
      if !Unassigned(w) && WordsOf(w) <= |words| {
        var n, kind := WordsOf(w), Opcode(w).kind;
        WholeList(words[n..], plain);
        assert words == words[..n] + words[n..];
        ListShifted(words[..n], words[n..], 0);
        ListStep(words, 0, kind, n);
        PlainFirst(Token(0, n, kind), List(words[n..], 0).tokens, n);
      }
    }
  }

  lemma {:induction false} PlainFirst(tok: Token, rest: seq<Token>, shift: nat)
    ensures Plain([tok] + Shifted(rest, shift)) <==> !IsRepeat(tok.kind) && Plain(rest)
  {
    var all := [tok] + Shifted(rest, shift);
    forall k | 0 <= k < |rest| ensures IsRepeat(rest[k].kind) <==> IsRepeat(all[k + 1].kind) {
    }
    if Plain(all) {
      assert !IsRepeat(all[0].kind);
      forall k | 0 <= k < |rest| ensures !IsRepeat(rest[k].kind) { assert !IsRepeat(all[k + 1].kind); }
    }
  }

  // ----- blocks written out

  ghost function BlockOps(block: seq<Word>): seq<Op> {
    Replay(block, List(block, 0).tokens)
  }

  lemma {:induction false} TokensAppend(front: seq<Word>, block: seq<Word>)
    requires Whole(front, false) && Whole(block, false)
    ensures Whole(front + block, false)
    ensures List(front + block, 0).tokens == List(front, 0).tokens + Shifted(List(block, 0).tokens, |front|)
  {
    hide TokenOf, Opcode, List, Whole;
    WholeList(front, false);
    WholeList(block, false);
    WholeList(front + block, false);
    ListAppend(front, block, 0);
    ListShifted(front, block, 0);
  }

  lemma {:induction false} PlainIsWhole(words: seq<Word>)
    requires Whole(words, true)
    ensures Whole(words, false)
  {
    WholeList(words, true);
    WholeList(words, false);
  }

  lemma {:induction false} BlockRuns(front: seq<Word>, block: seq<Word>)
    requires Whole(front, false) && Whole(block, true)
    ensures Whole(front + block, false)
    ensures Program(front + block) == Program(front) + BlockOps(block)
  {
    hide TokenOf, Opcode, Expand, Replay, List, Whole;
    WholeList(front, false);
    WholeList(block, true);
    PlainIsWhole(block);
    TokensAppend(front, block);
    ListAppend(front, block, 0);
    ListShifted(front, block, 0);
    ProgramAppend(front, block);
    var tokens, history := List(block, 0).tokens, List(front, 0).tokens;
    ReplayShifted(front, block, tokens);
    ShiftedPlain(tokens, |front|);
    PlainExpand(front + block, history, Shifted(tokens, |front|));
    assert BlockOps(block) + [] == BlockOps(block);
  }

  lemma {:induction false} ShiftedPlain(tokens: seq<Token>, shift: nat)
    requires Plain(tokens)
    ensures Plain(Shifted(tokens, shift))
  {
    forall k | 0 <= k < |tokens| ensures !IsRepeat(Shifted(tokens, shift)[k].kind) { assert !IsRepeat(tokens[k].kind); }
  }

  lemma {:induction false} BlocksRun(front: seq<Word>, block: seq<Word>, n: nat)
    requires Whole(front, false) && Whole(block, true)
    ensures Program(front + Times(n, block)) == Program(front) + Times(n, BlockOps(block))
    decreases n
  {
    hide Program, BlockOps, Whole;
    if n == 0 {
      assert front + [] == front && Program(front) + [] == Program(front);
    } else {
      BlockRuns(front, block);
      BlocksRun(front + block, block, n - 1);
      assert front + Times(n, block) == front + block + Times(n - 1, block);
      assert Program(front) + BlockOps(block) + Times(n - 1, BlockOps(block)) ==
             Program(front) + Times(n, BlockOps(block));
    }
  }

  // ----- the repeat

  /** The words of a repeat of `block` words, `times` times, in the short or the long form. */
  predicate RepeatCode(code: seq<Word>, block: nat, times: nat) {
    1 <= block <= 0x10 &&
    ((1 <= times <= 0x100 && code == [0x9000 + (block - 1) * 0x100 + times - 1]) ||
     (times < 0x40_0000 && code == [0xB000 + (block - 1) * 0x40 + times / 0x1_0000, times % 0x1_0000]))
  }

  lemma {:induction false} RepeatDecodes(words: seq<Word>, code: seq<Word>, block: nat, times: nat)
    requires RepeatCode(code, block, times)
    ensures var tok := Token(|words|, |code|, if |code| == 1 then KSmRepeat else KLgRepeat);
            TokenOf(words + code, tok) && Operands(words + code, tok) == Repeat(block, times)
  {
    var i, long := Repeat(block, times), |code| == 2;
    assert Encodable(i, long) && code == Assemble(i, long) &&
           KindOf(i, long) == if |code| == 1 then KSmRepeat else KLgRepeat;
    hide Encodable, Assemble, KindOf, TokenOf, Operands;
    DecodeAssemble(words, i, long, []);
    assert words + code + [] == words + code;
  }

  lemma {:induction false} SelectTail(a: seq<Token>, b: seq<Token>, from: nat, want: nat)
    requires b != [] && Tiles(b, from, from + want)
    ensures Select(a + b, want) == Block(b)
    decreases |b|
  {
    var last, init := b[|b| - 1], b[..|b| - 1];
    assert b == init + [last] && (a + b)[..|a + b| - 1] == a + init;
    TilesSnoc(init, last, from, from + want);
    if init == [] {
      assert b == [last];
    } else {
      TilesBounds(init, from, last.offset);
      assert Tiles(init, from, from + (want - last.length));
      SelectTail(a, init, from, want - last.length);
    }
  }

  lemma {:induction false} ShiftedTiles(tokens: seq<Token>, from: nat, to: nat, shift: nat)
    requires Tiles(tokens, from, to)
    ensures Tiles(Shifted(tokens, shift), from + shift, to + shift)
    decreases |tokens|
  {
    if tokens != [] {
      ShiftedTiles(tokens[1..], from + tokens[0].length, to, shift);
      assert Shifted(tokens, shift)[1..] == Shifted(tokens[1..], shift);
    }
  }

  /** The ops of a repeat that stands behind the words `before`. */
  lemma {:induction false} RepeatAdds(before: seq<Word>, code: seq<Word>, block: nat, times: nat)
    requires Whole(before, false) && RepeatCode(code, block, times)
    ensures var tok := Token(|before|, |code|, if |code| == 1 then KSmRepeat else KLgRepeat);
            AllDecoded(before + code, List(before, 0).tokens) && TokenOf(before + code, tok) &&
            Program(before + code) == Program(before) + TokenOps(before + code, List(before, 0).tokens, tok)
  {
    hide TokenOf, Operands, Opcode, Remaining, List, Whole, TokenOps, RepeatCode;
    var all, history := before + code, List(before, 0).tokens;
    var tok := Token(|before|, |code|, if |code| == 1 then KSmRepeat else KLgRepeat);
    WholeList(before, false);
    RepeatDecodes(before, code, block, times);
    ProgramAppend(before, code);
    DecodedSnoc(all, history, tok);
    RemainingRepeat(all, history, tok);
    RemainingEnd(all, history + [tok]);
    assert TokenOps(all, history, tok) + [] == TokenOps(all, history, tok);
  }

  lemma {:induction false} BlockOpsIs(block: seq<Word>)
    ensures BlockOps(block) == Replay(block, List(block, 0).tokens)
  {
  }

  lemma {:induction false} TilesNone(tokens: seq<Token>, to: nat)
    ensures Tiles(tokens, 0, to) && to > 0 ==> tokens != []
  {
  }

  lemma {:induction false} SelectsBlock(front: seq<Word>, block: seq<Word>)
    requires Whole(front, false) && Whole(block, false) && block != []
    ensures Select(List(front + block, 0).tokens, |block|) == Block(Shifted(List(block, 0).tokens, |front|))
  {
    hide TokenOf, Opcode, List, Whole, Tiles;
    TokensAppend(front, block);
    WholeList(block, false);
    var to := ListTiles(block, 0);
    ShiftedTiles(List(block, 0).tokens, 0, to, |front|);
    TilesNone(List(block, 0).tokens, to);
    SelectTail(List(front, 0).tokens, Shifted(List(block, 0).tokens, |front|), |front|, |block|);
  }

  /** What has failed fails alike with more instructions behind it. */
  lemma {:induction false} FailureStays(words: seq<Word>, more: seq<Word>, env: Env, section: seq<Byte>, c: int, d: int)
    requires Whole(words, false) && Relocate(words, env, section, c, d).Fail?
    ensures Relocate(words + more, env, section, c, d) == Relocate(words, env, section, c, d)
  {
    WholeList(words, false);
    hide Fold, Program, Remaining, List, TokenOf, Whole;
    ProgramAppend(words, more);
    FoldAppend(env, Program(words), Remaining(words + more, List(words, 0).tokens, |words|),
               State(section, 0, 0, c, d));
  }

  // ----- refused repeats

  /** Why a repeat has nothing to replay. */
  function Refusal(s: Selection): Error {
    if s.RunsOff? then NoCompleteBlock else SplitsInstruction
  }

  lemma {:induction false} RepeatTraps(before: seq<Word>, code: seq<Word>, block: nat, times: nat, env: Env,
                                       section: seq<Byte>, c: int, d: int)
    requires Relocate(before, env, section, c, d).Done? && Whole(before, false) && RepeatCode(code, block, times)
    requires !Select(List(before, 0).tokens, block).Block?
    ensures Relocate(before + code, env, section, c, d) ==
            Fail(Reached(before, env, section, c, d), Refusal(Select(List(before, 0).tokens, block)))
  {
    var st, error := Reached(before, env, section, c, d), Refusal(Select(List(before, 0).tokens, block));
    RepeatAdds(before, code, block, times);
    RepeatDecodes(before, code, block, times);
    hide TokenOf, Operands, Opcode, Program, List, Whole, RepeatCode, Select, Fold;
    FoldAppend(env, Program(before), [Trap(error)], State(section, 0, 0, c, d));
    Fold1(env, Trap(error), st);
  }

  lemma {:induction false} BoundaryBehind(tok: Token, rest: seq<Token>, n: nat, at: nat)
    requires tok.offset == 0 && at > 0 && IsBoundary([tok] + Shifted(rest, n), at)
    ensures at >= n && IsBoundary(rest, at - n)
  {
    var all := [tok] + Shifted(rest, n);
    var k :| 0 <= k < |all| && all[k].offset == at;
    assert rest[k - 1].offset == at - n;
  }

  lemma {:induction false} WholeFirst(words: seq<Word>, n: nat, at: nat)
    requires words != [] && n <= at <= |words| && !Unassigned(words[0]) && WordsOf(words[0]) == n
    requires Whole(words[n..][..at - n], false)
    ensures Whole(words[..at], false)
  {
    assert words[..at][n..] == words[n..][..at - n] && words[..at][0] == words[0];
  }

  /** Cut at an instruction's start, the words before it are whole. */
  lemma {:induction false} BoundaryWhole(words: seq<Word>, at: nat)
    requires at <= |words| && Whole(words, false) && IsBoundary(List(words, 0).tokens, at)
    ensures Whole(words[..at], false)
    decreases |words|
  {
    if at > 0 {
      var n := WordsOf(words[0]);
      WordKinds(words[0]);
      var tok := Token(0, n, Opcode(words[0]).kind);
      hide TokenOf, Opcode, List, IsBoundary, Unassigned, FirstOfTwo;
      ListStep(words, 0, tok.kind, n);
      assert words == words[..n] + words[n..];
      ListShifted(words[..n], words[n..], 0);
      BoundaryBehind(tok, List(words[n..], 0).tokens, n, at);
      BoundaryWhole(words[n..], at - n);
      WholeFirst(words, n, at);
    }
  }

  /** A repeat is refused where it reaches back before the stream or into the middle of an instruction. */
  lemma {:induction false} RepeatRefused(before: seq<Word>, code: seq<Word>, block: nat, times: nat, env: Env,
                                         section: seq<Byte>, c: int, d: int)
    requires Relocate(before, env, section, c, d).Done? && RepeatCode(code, block, times)
    ensures block > |before| ==>
              Relocate(before + code, env, section, c, d) == Fail(Reached(before, env, section, c, d), NoCompleteBlock)
    ensures block <= |before| && !Whole(before[..|before| - block], false) ==>
              Relocate(before + code, env, section, c, d) ==
              Fail(Reached(before, env, section, c, d), SplitsInstruction)
  {
    DoneIsDecoded(before, env, section, c, d);
    WholeList(before, false);
    hide TokenOf, Opcode, Program, List, Whole, RepeatCode, Fold, Select, IsBoundary, Tiles;
    var history := List(before, 0).tokens;
    var to := ListTiles(before, 0);
    BlockPositive(code, block, times);
    SelectExactly(history, to, block);
    if !Select(history, block).Block? {
      RepeatTraps(before, code, block, times, env, section, c, d);
    }
    if block <= |before| && IsBoundary(history, |before| - block) {
      BoundaryWhole(before, |before| - block);
    }
  }

  lemma {:induction false} BlockPositive(code: seq<Word>, block: nat, times: nat)
    requires RepeatCode(code, block, times)
    ensures block > 0
  {
  }

  lemma {:induction false} InnerWhole(inner: seq<Word>, n: nat, k: nat, rest: seq<Word>)
    requires RepeatCode(inner, n, k) && Whole(rest, false)
    ensures Whole(inner + rest, false) && List(inner + rest, 0).tokens != []
    ensures var tok := List(inner + rest, 0).tokens[0];
            TokenOf(inner + rest, tok) && Operands(inner + rest, tok) == Repeat(n, k)
  {
    var all, tok := inner + rest, Token(0, |inner|, if |inner| == 1 then KSmRepeat else KLgRepeat);
    RepeatDecodes([], inner, n, k);
    assert [] + inner == inner && all[0] == inner[0] && all[|inner|..] == rest;
    OperandsSame(inner, rest, tok);
    WordKinds(inner[0]);
  }

  /** The ops of a block with a repeat inside: up to that repeat, a trap, and more. */
  lemma {:induction false} NestedOps(plain: seq<Word>, inner: seq<Word>, n: nat, k: nat, rest: seq<Word>)
    returns (more: seq<Op>)
    requires Whole(plain, true) && RepeatCode(inner, n, k) && Whole(rest, false)
    ensures Whole(plain + (inner + rest), false)
    ensures BlockOps(plain + (inner + rest)) == BlockOps(plain) + ([Trap(NestedRepeat)] + more)
  {
    var tail := inner + rest;
    PlainIsWhole(plain);
    InnerWhole(inner, n, k, rest);
    TokensAppend(plain, tail);
    hide Operands, TokenOf, Opcode, List, Whole, RepeatCode;
    var later := List(tail, 0).tokens;
    NestedFirst(tail, later, n, k);
    ReplayShifted(plain, tail, later);
    ReplaySame(plain, tail, List(plain, 0).tokens);
    hide Replay;
    ReplayAppend(plain + tail, List(plain, 0).tokens, Shifted(later, |plain|));
    BlockOpsIs(plain);
    BlockOpsIs(plain + tail);
    more := Replay(tail, later[1..]);
  }

  lemma {:induction false} NestedFirst(words: seq<Word>, tokens: seq<Token>, n: nat, k: nat)
    requires tokens != [] && AllDecoded(words, tokens) && Operands(words, tokens[0]) == Repeat(n, k)
    ensures Replay(words, tokens) == [Trap(NestedRepeat)] + Replay(words, tokens[1..])
  {
    hide Operands, TokenOf;
  }

  lemma {:induction false} NestedFold(env: Env, a: seq<Op>, b: seq<Op>, more: seq<Op>, times: nat, st: State)
    requires times > 0
    ensures var again := Fold(env, a + b, st);
            Fold(env, a + Times(times, b + ([Trap(NestedRepeat)] + more)), st) ==
            if again.Done? then Fail(again.st, NestedRepeat) else again
  {
    hide Fold;
    var ops := b + ([Trap(NestedRepeat)] + more);
    var rest := more + Times(times - 1, ops);
    assert Times(times, ops) == ops + Times(times - 1, ops);
    assert a + Times(times, ops) == a + b + ([Trap(NestedRepeat)] + rest);
    FoldAppend(env, a + b, [Trap(NestedRepeat)] + rest, st);
    FoldTrap(env, NestedRepeat, rest, Fold(env, a + b, st).st);
  }

  /** A repeat inside the block is refused when its turn comes, unless something fails before. */
  lemma {:induction false} RepeatNested(front: seq<Word>, plain: seq<Word>, inner: seq<Word>, n: nat, k: nat,
                                        rest: seq<Word>, code: seq<Word>, times: nat, env: Env, section: seq<Byte>,
                                        c: int, d: int)
    requires Whole(front, false) && Whole(plain, true) && RepeatCode(inner, n, k) && Whole(rest, false) && times > 0
    requires var block := plain + (inner + rest);
             Relocate(front + block, env, section, c, d).Done? && RepeatCode(code, |block|, times)
    ensures var before := front + (plain + (inner + rest));
            var again := Relocate(before + plain, env, section, c, d);
            Relocate(before + code, env, section, c, d) == if again.Done? then Fail(again.st, NestedRepeat) else again
  {
    var block := plain + (inner + rest);
    var before := front + block;
    var more := NestedOps(plain, inner, n, k, rest);
    TokensAppend(front, block);
    RepeatProgram(front, block, code, times);
    BlockRuns(before, plain);
    hide Program, Whole, BlockOps, Fold, RepeatCode;
    NestedFold(env, Program(before), BlockOps(plain), more, times, State(section, 0, 0, c, d));
  }

  /** The ops of a repeat of the instructions just before it, whatever they are. */
  lemma {:induction false} RepeatProgram(front: seq<Word>, block: seq<Word>, code: seq<Word>, times: nat)
    requires Whole(front, false) && Whole(block, false) && RepeatCode(code, |block|, times)
    ensures Program(front + block + code) == Program(front + block) + Times(times, BlockOps(block))
  {
    var before, all := front + block, front + block + code;
    var tok := Token(|before|, |code|, if |code| == 1 then KSmRepeat else KLgRepeat);
    TokensAppend(front, block);
    RepeatAdds(before, code, |block|, times);
    RepeatDecodes(before, code, |block|, times);
    SelectsBlock(front, block);
    hide TokenOf, Operands, Opcode, Program, List, Whole, BlockOps, RepeatCode, Select;
    var history, tokens := List(before, 0).tokens, Shifted(List(block, 0).tokens, |front|);
    ReplayShifted(front, block, List(block, 0).tokens);
    ReplaySame(before, code, tokens);
    assert TokenOps(all, history, tok) == Times(times, Replay(all, tokens));
    BlockOpsIs(block);
  }

  /** A repeat of the instructions just before it is those instructions written out. */
  lemma {:induction false} RepeatWritesOut(front: seq<Word>, block: seq<Word>, code: seq<Word>, times: nat, env: Env,
                                           section: seq<Byte>, c: int, d: int)
    requires Whole(front, false) && Whole(block, true) && RepeatCode(code, |block|, times)
    ensures Relocate(front + block + code, env, section, c, d) ==
            Relocate(front + block + Times(times, block), env, section, c, d)
  {
    PlainIsWhole(block);
    BlockRuns(front, block);
    RepeatProgram(front, block, code, times);
    BlocksRun(front + block, block, times);
  }
}
