/** What relocation does to a stream with more words behind it (src/cwhost/pef.py, `apply_relocations`):
    the state the first part leaves is all that the rest depends on, apart from repeats that reach back. */
module RelocationAppending {
  import opened Bytes
  import opened Relocation
  import opened RelocationMeaning
  import opened RelocationTheorems

  lemma {:induction false} OperandsSame(words: seq<Word>, more: seq<Word>, tok: Token)
    requires TokenOf(words, tok)
    ensures TokenOf(words + more, tok) && Operands(words + more, tok) == Operands(words, tok)
  {
    var all := words + more;
    assert all[tok.offset] == words[tok.offset];
    assert tok.length == 2 ==> all[tok.offset + 1] == words[tok.offset + 1];
  }

  lemma {:induction false} DecodedSame(words: seq<Word>, more: seq<Word>, tokens: seq<Token>)
    requires AllDecoded(words, tokens)
    ensures AllDecoded(words + more, tokens)
  {
    hide TokenOf, Operands;
    forall k | 0 <= k < |tokens| ensures TokenOf(words + more, tokens[k]) {
      OperandsSame(words, more, tokens[k]);
    }
  }

  lemma {:induction false} ReplaySame(words: seq<Word>, more: seq<Word>, tokens: seq<Token>)
    requires AllDecoded(words, tokens)
    ensures AllDecoded(words + more, tokens) && Replay(words + more, tokens) == Replay(words, tokens)
    decreases |tokens|
  {
    hide TokenOf, Operands, Meaning;
    DecodedSame(words, more, tokens);
    if tokens != [] {
      OperandsSame(words, more, tokens[0]);
      ReplaySame(words, more, tokens[1..]);
    }
  }

  lemma {:induction false} TokenOpsSame(words: seq<Word>, more: seq<Word>, history: seq<Token>, tok: Token)
    requires AllDecoded(words, history) && TokenOf(words, tok)
    ensures AllDecoded(words + more, history) && TokenOf(words + more, tok)
    ensures TokenOps(words + more, history, tok) == TokenOps(words, history, tok)
  {
    DecodedSame(words, more, history);
    OperandsSame(words, more, tok);
    hide TokenOf, Operands, Meaning, Replay;
    var want := Operands(words, tok);
    if want.Repeat? {
      SelectSuffix(history, want.blockWords);
      if Select(history, want.blockWords).Block? {
        ReplaySame(words, more, Select(history, want.blockWords).tokens);
      }
    }
  }

  lemma {:induction false} ExpandSame(words: seq<Word>, more: seq<Word>, history: seq<Token>, rest: seq<Token>)
    requires AllDecoded(words, history) && AllDecoded(words, rest)
    ensures AllDecoded(words + more, history) && AllDecoded(words + more, rest)
    ensures Expand(words + more, history, rest) == Expand(words, history, rest)
    decreases |rest|
  {
    hide TokenOf, TokenOps;
    DecodedSame(words, more, history);
    DecodedSame(words, more, rest);
    if rest != [] {
      TokenOpsSame(words, more, history, rest[0]);
      ExpandSame(words, more, history + [rest[0]], rest[1..]);
    }
  }

  lemma {:induction false} ExpandAppend(words: seq<Word>, history: seq<Token>, a: seq<Token>, b: seq<Token>)
    requires AllDecoded(words, history) && AllDecoded(words, a) && AllDecoded(words, b)
    ensures AllDecoded(words, a + b) && AllDecoded(words, history + a)
    ensures Expand(words, history, a + b) == Expand(words, history, a) + Expand(words, history + a, b)
    decreases |a|
  {
    hide TokenOf, TokenOps;
    if a == [] {
      assert a + b == b && history + a == history;
    } else {
      assert (a + b)[0] == a[0] && (a + b)[1..] == a[1..] + b;
      assert history + a == history + [a[0]] + a[1..];
      ExpandAppend(words, history + [a[0]], a[1..], b);
    }
  }

  lemma {:induction false} ListStep(words: seq<Word>, from: nat, kind: Kind, length: nat)
    requires from < |words| && Opcode(words[from]) == Decoded(kind, length) && from + length <= |words|
    ensures List(words, from) ==
            Listing([Token(from, length, kind)] + List(words, from + length).tokens, List(words, from + length).stop)
  {
    hide Opcode, TokenOf;
  }

  lemma {:induction false} ListGoesOn(words: seq<Word>, from: nat)
    requires from < |words| && List(words, from).stop == []
    ensures Opcode(words[from]).Decoded? && from + Opcode(words[from]).length <= |words|
    ensures List(words, from + Opcode(words[from]).length).stop == []
  {
    hide Opcode, TokenOf;
  }

  lemma {:induction false} ListEnds(words: seq<Word>)
    ensures List(words, |words|) == Listing([], [])
  {
  }

  /** Decoding that came to the end of the words goes on behind it. */
  lemma {:induction false} ListAppend(words: seq<Word>, more: seq<Word>, from: nat)
    requires from <= |words| && List(words, from).stop == []
    ensures var tail := List(words + more, |words|);
            List(words + more, from) == Listing(List(words, from).tokens + tail.tokens, tail.stop)
    decreases |words| - from
  {
    hide List, Opcode, TokenOf;
    var tail := List(words + more, |words|);
    if from == |words| {
      ListEnds(words);
      assert [] + tail.tokens == tail.tokens;
    } else {
      ListGoesOn(words, from);
      var op := Opcode(words[from]);
      assert (words + more)[from] == words[from];
      ListStep(words, from, op.kind, op.length);
      ListStep(words + more, from, op.kind, op.length);
      ListAppend(words, more, from + op.length);
      var tok, rest := Token(from, op.length, op.kind), List(words, from + op.length).tokens;
      assert [tok] + rest + tail.tokens == [tok] + (rest + tail.tokens);
    }
  }

  lemma {:induction false} DecodedConcat(words: seq<Word>, a: seq<Token>, b: seq<Token>)
    requires AllDecoded(words, a) && AllDecoded(words, b)
    ensures AllDecoded(words, a + b)
  {
  }

  /** The ops from `from` on, when words follow that are decoded to their end. */
  lemma {:induction false} RemainingAppend(words: seq<Word>, more: seq<Word>, history: seq<Token>, from: nat)
    requires from <= |words| && List(words, from).stop == [] && AllDecoded(words, history)
    ensures AllDecoded(words + more, history + List(words, from).tokens)
    ensures Remaining(words + more, history, from) ==
            Remaining(words, history, from) + Remaining(words + more, history + List(words, from).tokens, |words|)
  {
    hide TokenOf, List, Expand, Opcode;
    var tokens, tail := List(words, from).tokens, List(words + more, |words|);
    ListAppend(words, more, from);
    ExpandSame(words, more, history, tokens);
    ExpandAppend(words + more, history, tokens, tail.tokens);
  }

  lemma {:induction false} ProgramAppend(words: seq<Word>, more: seq<Word>)
    requires List(words, 0).stop == []
    ensures AllDecoded(words + more, List(words, 0).tokens)
    ensures Program(words + more) == Program(words) + Remaining(words + more, List(words, 0).tokens, |words|)
  {
    hide List, Remaining, TokenOf;
    RemainingAppend(words, more, [], 0);
    assert [] + List(words, 0).tokens == List(words, 0).tokens;
  }

  /** A stream that relocates has been decoded to its end. */
  lemma {:induction false} DoneIsDecoded(words: seq<Word>, env: Env, section: seq<Byte>, c: int, d: int)
    requires Relocate(words, env, section, c, d).Done?
    ensures List(words, 0).stop == []
  {
    hide Fold, Expand, List, Opcode;
    var l := List(words, 0);
    if l.stop != [] {
      StopTraps(words, 0);
      TrapAppend(Expand(words, [], l.tokens), l.stop);
      TrapFails(env, Program(words), State(section, 0, 0, c, d));
    }
  }

  /** More words run on from the state the first ones leave. */
  lemma {:induction false} RunsOn(words: seq<Word>, more: seq<Word>, env: Env, section: seq<Byte>, c: int, d: int)
    requires Relocate(words, env, section, c, d).Done?
    ensures AllDecoded(words + more, List(words, 0).tokens)
    ensures Relocate(words + more, env, section, c, d) ==
            Fold(env, Remaining(words + more, List(words, 0).tokens, |words|), Relocate(words, env, section, c, d).st)
  {
    hide Fold, Remaining, List, TokenOf;
    DoneIsDecoded(words, env, section, c, d);
    ProgramAppend(words, more);
    FoldAppend(env, Program(words), Remaining(words + more, List(words, 0).tokens, |words|),
               State(section, 0, 0, c, d));
  }

  /** One instruction more, other than a repeat, does what it means to the state before it. */
  lemma {:induction false} OneToken(words: seq<Word>, code: seq<Word>, kind: Kind, i: Instr, env: Env,
                                    section: seq<Byte>, c: int, d: int)
    requires Relocate(words, env, section, c, d).Done? && !i.Repeat?
    requires var tok := Token(|words|, |code|, kind); TokenOf(words + code, tok) && Operands(words + code, tok) == i
    ensures Relocate(words + code, env, section, c, d) ==
            Fold(env, Meaning(i), Relocate(words, env, section, c, d).st)
  {
    hide Fold, Meaning, Operands, TokenOf, Remaining, List;
    var all, tok := words + code, Token(|words|, |code|, kind);
    RunsOn(words, code, env, section, c, d);
    var history := List(words, 0).tokens;
    RemainingPlain(all, history, tok);
    DecodedSnoc(all, history, tok);
    RemainingEnd(all, history + [tok]);
    assert Meaning(i) + [] == Meaning(i);
  }

  lemma {:induction false} OneMore(words: seq<Word>, i: Instr, long: bool, code: seq<Word>, env: Env,
                                   section: seq<Byte>, c: int, d: int)
    requires Relocate(words, env, section, c, d).Done? && !i.Repeat? && Encodable(i, long) && code == Assemble(i, long)
    ensures Relocate(words + code, env, section, c, d) ==
            Fold(env, Meaning(i), Relocate(words, env, section, c, d).st)
  {
    hide Fold, Meaning, Assemble, Encodable, KindOf, Operands, TokenOf, Program;
    DecodeAssemble(words, i, long, []);
    assert words + code + [] == words + code;
    OneToken(words, code, KindOf(i, long), i, env, section, c, d);
  }
}
