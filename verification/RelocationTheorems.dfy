/** What holds of every relocation stream: repeats unroll, relocation is linear in the
    values it adds, and it can be undone. */
module RelocationTheorems {
  import opened Bytes
  import opened Relocation
  import opened RelocationMeaning
  import opened Patches

  // ----- which block a repeat replays

  /** The tokens cover the words [from, to) one after another. */
  ghost predicate Tiles(tokens: seq<Token>, from: nat, to: nat)
    decreases |tokens|
  {
    if tokens == [] then from == to
    else tokens[0].offset == from && tokens[0].length > 0 && Tiles(tokens[1..], from + tokens[0].length, to)
  }

  lemma {:induction false} TilesSnoc(tokens: seq<Token>, last: Token, from: nat, to: nat)
    ensures Tiles(tokens + [last], from, to) <==>
            last.length > 0 && to == last.offset + last.length && Tiles(tokens, from, last.offset)
    decreases |tokens|
  {
    var all := tokens + [last];
    if tokens == [] {
      assert all[1..] == [];
    } else {
      assert all[0] == tokens[0] && all[1..] == tokens[1..] + [last];
      TilesSnoc(tokens[1..], last, from + tokens[0].length, to);
    }
  }

  lemma {:induction false} TilesBounds(tokens: seq<Token>, from: nat, to: nat)
    requires Tiles(tokens, from, to)
    ensures from <= to
    ensures forall k :: 0 <= k < |tokens| ==> from <= tokens[k].offset < to
    decreases |tokens|
  {
    if tokens != [] {
      TilesBounds(tokens[1..], from + tokens[0].length, to);
      forall k | 0 <= k < |tokens| ensures from <= tokens[k].offset < to {
        if k > 0 { assert tokens[k] == tokens[1..][k - 1]; }
      }
    }
  }

  /** Decoding covers the words it consumed, without gap or overlap. */
  lemma {:induction false} ListTiles(words: seq<Word>, from: nat) returns (to: nat)
    requires from <= |words|
    ensures Tiles(List(words, from).tokens, from, to) && to <= |words|
    ensures List(words, from).stop == [] <==> to == |words|
    decreases |words| - from
  {
    if from == |words| {
      return from;
    }
    var op := Opcode(words[from]);
    hide Opcode;
    match op
    case BadOpcode => return from;
    case Decoded(kind, length) =>
      if from + length > |words| {
        return from;
      }
      to := ListTiles(words, from + length);
      assert List(words, from).tokens[1..] == List(words, from + length).tokens;
  }

  /** Word `at` is where some instruction of the history starts. */
  ghost predicate IsBoundary(history: seq<Token>, at: int) {
    exists k :: 0 <= k < |history| && history[k].offset == at
  }

  /** A repeat of `want` words selects exactly the instructions covering the `want` words just
      before it. It fails exactly when they run off the start of the stream, or when their start
      falls inside an instruction. */
  lemma {:induction false} SelectExactly(history: seq<Token>, to: nat, want: int)
    requires Tiles(history, 0, to) && want > 0
    ensures Select(history, want).RunsOff? <==> want > to
    ensures Select(history, want).Splits? <==> want <= to && !IsBoundary(history, to - want)
    ensures Select(history, want).Block? ==>
              var block := Select(history, want).tokens;
              |block| <= |history| && block == history[|history| - |block|..] && Tiles(block, to - want, to)
    decreases |history|
  {
    SelectSuffix(history, want);
    if history != [] {
      var last, init := history[|history| - 1], history[..|history| - 1];
      assert history == init + [last];
      TilesSnoc(init, last, 0, to);
      TilesBounds(init, 0, last.offset);
      if last.length == want {
        assert IsBoundary(history, to - want);
        TilesSnoc([], last, to - want, to);
        assert [] + [last] == [last];
      } else if last.length > want {
        forall k | 0 <= k < |history| ensures history[k].offset != to - want {
          if k < |init| { assert history[k] == init[k]; }
        }
      } else {
        SelectExactly(init, last.offset, want - last.length);
        BoundarySnoc(init, last, to - want);
        if Select(init, want - last.length).Block? {
          var block := Select(init, want - last.length).tokens;
          TilesSnoc(block, last, to - want, to);
        }
      }
    }
  }

  lemma {:induction false} BoundarySnoc(init: seq<Token>, last: Token, at: int)
    requires last.offset != at
    ensures IsBoundary(init + [last], at) <==> IsBoundary(init, at)
  {
    var all := init + [last];
    if IsBoundary(init, at) {
      var k :| 0 <= k < |init| && init[k].offset == at;
      assert all[k].offset == at;
    }
    if IsBoundary(all, at) {
      var k :| 0 <= k < |all| && all[k].offset == at;
      assert init[k].offset == at;
    }
  }

  lemma {:induction false} PrefixTiles(tokens: seq<Token>, from: nat, to: nat, k: nat)
    requires Tiles(tokens, from, to) && k < |tokens|
    ensures Tiles(tokens[..k], from, tokens[k].offset)
    decreases |tokens|
  {
    if k > 0 {
      PrefixTiles(tokens[1..], from + tokens[0].length, to, k - 1);
      assert tokens[..k][1..] == tokens[1..][..k - 1];
    }
  }

  /** The k-th instruction of any stream, if a repeat, replays exactly the instructions that
      cover the words just before it. */
  lemma {:induction false} RepeatSelects(words: seq<Word>, k: nat)
    requires k < |List(words, 0).tokens|
    requires Operands(words, List(words, 0).tokens[k]).Repeat?
    ensures var tokens := List(words, 0).tokens;
            var at, want := tokens[k].offset, Operands(words, tokens[k]).blockWords;
            match Select(tokens[..k], want)
            case RunsOff => want > at
            case Splits => want <= at && !IsBoundary(tokens[..k], at - want)
            case Block(block) =>
              want <= at && |block| <= k && block == tokens[k - |block|..k] && Tiles(block, at - want, at)
  {
    hide Opcode;
    var tokens := List(words, 0).tokens;
    var to := ListTiles(words, 0);
    PrefixTiles(tokens, 0, to, k);
    RepeatKinds(words, tokens[k]);
    SelectExactly(tokens[..k], tokens[k].offset, Operands(words, tokens[k]).blockWords);
  }

  // ----- repeats mean unrolling

  ghost predicate Plain(tokens: seq<Token>) {
    forall k :: 0 <= k < |tokens| ==> !IsRepeat(tokens[k].kind)
  }

  /** A repeat whose block exists, and holds no repeat unless it is replayed zero times. */
  predicate GoodToken(words: seq<Word>, history: seq<Token>, tok: Token)
    requires AllDecoded(words, history) && TokenOf(words, tok)
  {
    var i := Operands(words, tok);
    i.Repeat? ==>
      var s := Select(history, i.blockWords);
      s.Block? && (i.times == 0 || forall k :: 0 <= k < |s.tokens| ==> !IsRepeat(s.tokens[k].kind))
  }

  predicate GoodFrom(words: seq<Word>, history: seq<Token>, rest: seq<Token>)
    requires AllDecoded(words, history) && AllDecoded(words, rest)
    decreases |rest|
  {
    rest == [] || (GoodToken(words, history, rest[0]) && GoodFrom(words, history + [rest[0]], rest[1..]))
  }

  /** The check a reader can make of a stream without running it. */
  predicate WellFormed(words: seq<Word>) {
    List(words, 0).stop == [] && GoodFrom(words, [], List(words, 0).tokens)
  }

  /** The token list with each repeat replaced by its copies. */
  function Unrolled(words: seq<Word>, history: seq<Token>, rest: seq<Token>): seq<Token>
    requires AllDecoded(words, history) && AllDecoded(words, rest)
    requires GoodFrom(words, history, rest)
    decreases |rest|
  {
    if rest == [] then []
    else
      var i := Operands(words, rest[0]);
      (if i.Repeat? then Times(i.times, Select(history, i.blockWords).tokens) else [rest[0]])
      + Unrolled(words, history + [rest[0]], rest[1..])
  }

  /** The left fold of the non-repeat step over a token list. */
  function TokenFold(words: seq<Word>, env: Env, tokens: seq<Token>, st: State): Outcome
    requires AllDecoded(words, tokens)
    decreases |tokens|
  {
    if tokens == [] then Done(st)
    else match Fold(env, Meaning(Operands(words, tokens[0])), st)
         case Fail(s, e) => Fail(s, e)
         case Done(next) => TokenFold(words, env, tokens[1..], next)
  }

  lemma {:induction false} TokenFoldIsReplay(words: seq<Word>, env: Env, tokens: seq<Token>, st: State)
    requires AllDecoded(words, tokens)
    ensures TokenFold(words, env, tokens, st) == Fold(env, Replay(words, tokens), st)
    decreases |tokens|
  {
    hide Fold, Meaning, Operands, Step;
    if tokens == [] {
      Fold0(env, st);
    } else {
      var ops := Meaning(Operands(words, tokens[0]));
      FoldAppend(env, ops, Replay(words, tokens[1..]), st);
      match Fold(env, ops, st)
      case Fail(_, _) =>
      case Done(next) => TokenFoldIsReplay(words, env, tokens[1..], next);
    }
  }

  lemma {:induction false} ReplayAppend(words: seq<Word>, a: seq<Token>, b: seq<Token>)
    requires AllDecoded(words, a) && AllDecoded(words, b)
    ensures AllDecoded(words, a + b)
    ensures Replay(words, a + b) == Replay(words, a) + Replay(words, b)
    decreases |a|
  {
    hide Meaning, Operands;
    if a == [] {
      assert a + b == b;
    } else {
      assert (a + b)[0] == a[0] && (a + b)[1..] == a[1..] + b;
      ReplayAppend(words, a[1..], b);
    }
  }

  lemma {:induction false} ReplayTimes(words: seq<Word>, n: nat, block: seq<Token>)
    requires AllDecoded(words, block)
    ensures AllDecoded(words, Times(n, block))
    ensures Replay(words, Times(n, block)) == Times(n, Replay(words, block))
  {
    if n > 0 {
      ReplayTimes(words, n - 1, block);
      ReplayAppend(words, block, Times(n - 1, block));
    }
  }

  lemma {:induction false} TimesPlain(n: nat, block: seq<Token>)
    requires n == 0 || Plain(block)
    ensures Plain(Times(n, block))
  {
    if n > 0 {
      TimesPlain(n - 1, block);
    }
  }

  lemma {:induction false} UnrolledExpands(words: seq<Word>, history: seq<Token>, rest: seq<Token>)
    requires AllDecoded(words, history) && AllDecoded(words, rest) && GoodFrom(words, history, rest)
    ensures var u := Unrolled(words, history, rest);
            AllDecoded(words, u) && Plain(u) && Replay(words, u) == Expand(words, history, rest)
    decreases |rest|
  {
    hide Meaning, Operands;
    if rest != [] {
      var i := Operands(words, rest[0]);
      var more := Unrolled(words, history + [rest[0]], rest[1..]);
      UnrolledExpands(words, history + [rest[0]], rest[1..]);
      RepeatKinds(words, rest[0]);
      if i.Repeat? {
        SelectSuffix(history, i.blockWords);
        var block := Select(history, i.blockWords).tokens;
        ReplayTimes(words, i.times, block);
        TimesPlain(i.times, block);
        ReplayAppend(words, Times(i.times, block), more);
      } else {
        ReplayOne(words, rest[0]);
        ReplayAppend(words, [rest[0]], more);
      }
    }
  }

  lemma {:induction false} RepeatKinds(words: seq<Word>, tok: Token)
    requires TokenOf(words, tok)
    ensures IsRepeat(tok.kind) <==> Operands(words, tok).Repeat?
    ensures Operands(words, tok).Repeat? ==> Operands(words, tok).blockWords > 0
  {
  }

  lemma {:induction false} ReplayOne(words: seq<Word>, tok: Token)
    requires TokenOf(words, tok)
    ensures Replay(words, [tok]) == Meaning(Operands(words, tok))
  {
    assert [tok][1..] == [];
    assert Replay(words, [tok]) == Meaning(Operands(words, tok)) + Replay(words, []);
  }

  ghost predicate HasTrap(ops: seq<Op>) {
    exists k :: 0 <= k < |ops| && ops[k].Trap?
  }

  lemma {:induction false} TrapFails(env: Env, ops: seq<Op>, st: State)
    requires HasTrap(ops)
    ensures Fold(env, ops, st).Fail?
    decreases |ops|
  {
    var k :| 0 <= k < |ops| && ops[k].Trap?;
    match Step(env, ops[0], st)
    case Fail(_, _) =>
    case Done(next) =>
      assert ops[1..][k - 1].Trap?;
      TrapFails(env, ops[1..], next);
  }

  lemma {:induction false} TrapAppend(a: seq<Op>, b: seq<Op>)
    ensures HasTrap(a + b) <==> HasTrap(a) || HasTrap(b)
  {
    if HasTrap(a) {
      var k :| 0 <= k < |a| && a[k].Trap?;
      assert (a + b)[k].Trap?;
    }
    if HasTrap(b) {
      var k :| 0 <= k < |b| && b[k].Trap?;
      assert (a + b)[|a| + k].Trap?;
    }
  }

  lemma {:induction false} NestedTraps(words: seq<Word>, tokens: seq<Token>)
    requires AllDecoded(words, tokens) && !Plain(tokens)
    ensures HasTrap(Replay(words, tokens))
    decreases |tokens|
  {
    TrapAppend(Meaning(Operands(words, tokens[0])), Replay(words, tokens[1..]));
    RepeatKinds(words, tokens[0]);
    if IsRepeat(tokens[0].kind) {
      assert Meaning(Operands(words, tokens[0]))[0].Trap?;
    } else {
      hide Meaning, Operands;
      var k :| 0 <= k < |tokens| && IsRepeat(tokens[k].kind);
      assert IsRepeat(tokens[1..][k - 1].kind);
      NestedTraps(words, tokens[1..]);
    }
  }

  lemma {:induction false} BadTokenTraps(words: seq<Word>, history: seq<Token>, tok: Token)
    requires AllDecoded(words, history) && TokenOf(words, tok) && !GoodToken(words, history, tok)
    ensures HasTrap(TokenOps(words, history, tok))
  {
    hide Meaning, Operands;
    var i := Operands(words, tok);
    SelectSuffix(history, i.blockWords);
    match Select(history, i.blockWords)
    case Block(tokens) =>
      NestedTraps(words, tokens);
      TrapAppend(Replay(words, tokens), Times(i.times - 1, Replay(words, tokens)));
    case Splits => assert TokenOps(words, history, tok)[0].Trap?;
    case RunsOff => assert TokenOps(words, history, tok)[0].Trap?;
  }

  lemma {:induction false} BadTraps(words: seq<Word>, history: seq<Token>, rest: seq<Token>)
    requires AllDecoded(words, history) && AllDecoded(words, rest) && !GoodFrom(words, history, rest)
    ensures HasTrap(Expand(words, history, rest))
    decreases |rest|
  {
    hide TokenOps, GoodToken;
    TrapAppend(TokenOps(words, history, rest[0]), Expand(words, history + [rest[0]], rest[1..]));
    if GoodToken(words, history, rest[0]) {
      BadTraps(words, history + [rest[0]], rest[1..]);
    } else {
      BadTokenTraps(words, history, rest[0]);
    }
  }

  /** Repeats mean unrolling. A stream relocates exactly when it is well formed and the fold of
      the plain step over its unrolled tokens succeeds, and then with the same result. */
  lemma {:induction false} RepeatsUnroll(words: seq<Word>, env: Env, section: seq<Byte>, c: int, d: int)
    ensures !WellFormed(words) ==> Relocate(words, env, section, c, d).Fail?
    ensures WellFormed(words) ==>
              var u := Unrolled(words, [], List(words, 0).tokens);
              AllDecoded(words, u) && Plain(u) &&
              Relocate(words, env, section, c, d) == TokenFold(words, env, u, State(section, 0, 0, c, d))
  {
    hide Fold, Step, Expand, Replay;
    var l := List(words, 0);
    var st := State(section, 0, 0, c, d);
    TrapAppend(Expand(words, [], l.tokens), l.stop);
    if WellFormed(words) {
      UnrolledExpands(words, [], l.tokens);
      assert Program(words) == Expand(words, [], l.tokens);
      TokenFoldIsReplay(words, env, Unrolled(words, [], l.tokens), st);
    } else {
      if l.stop != [] {
        StopTraps(words, 0);
      } else {
        BadTraps(words, [], l.tokens);
      }
      TrapFails(env, Program(words), st);
    }
  }

  lemma {:induction false} StopTraps(words: seq<Word>, from: nat)
    requires from <= |words| && List(words, from).stop != []
    ensures HasTrap(List(words, from).stop)
    decreases |words| - from
  {
    match Opcode(words[from])
    case BadOpcode => assert List(words, from).stop[0].Trap?;
    case Decoded(_, length) =>
      if from + length > |words| {
        assert List(words, from).stop[0].Trap?;
      } else {
        StopTraps(words, from + length);
      }
  }

  // ----- relocation is linear in the values it adds

  /** The adds a run makes, in order. */
  function Adds(env: Env, ops: seq<Op>, st: State): seq<Patch>
    decreases |ops|
  {
    if ops == [] then []
    else match Step(env, ops[0], st)
         case Fail(_, _) => []
         case Done(next) =>
           (if ops[0].Add? then [Patch(st.pos, Lookup(env, ops[0].src, st).v)] else []) + Adds(env, ops[1..], next)
  }

  /** A section is only ever changed by its adds, also in a run that fails. */
  lemma {:induction false} SectionIsItsAdds(env: Env, ops: seq<Op>, st: State)
    ensures InRange(Adds(env, ops, st), |st.section|)
    ensures Fold(env, ops, st).st.section == ApplyAll(st.section, Adds(env, ops, st))
    decreases |ops|
  {
    hide AddAt;
    if ops != [] {
      match Step(env, ops[0], st)
      case Fail(_, _) =>
      case Done(next) =>
        SectionIsItsAdds(env, ops[1..], next);
        var rest := Adds(env, ops[1..], next);
        if ops[0].Add? {
          assert Adds(env, ops, st)[1..] == rest;
        } else {
          assert Adds(env, ops, st) == rest;
        }
    }
  }

  /** Three states that differ only in bytes and values, the third holding the sums. */
  ghost predicate SumStates(a: State, b: State, ab: State) {
    |a.section| == |b.section| == |ab.section| && a.pos == b.pos == ab.pos &&
    a.importIndex == b.importIndex == ab.importIndex && ab.c == a.c + b.c && ab.d == a.d + b.d
  }

  function Plus(a: seq<int>, b: seq<int>): (r: seq<int>)
    requires |a| == |b|
  {
    seq(|a|, k requires 0 <= k < |a| => a[k] + b[k])
  }

  function Negated(a: seq<int>): seq<int> {
    seq(|a|, k requires 0 <= k < |a| => -a[k])
  }

  ghost predicate SameShape(a: Env, b: Env) {
    |a.deltas| == |b.deltas| && |a.imports| == |b.imports|
  }

  function PlusEnv(a: Env, b: Env): Env
    requires SameShape(a, b)
  {
    Env(Plus(a.deltas, b.deltas), Plus(a.imports, b.imports))
  }

  ghost predicate SumOutcomes(a: Outcome, b: Outcome, ab: Outcome) {
    SumStates(a.st, b.st, ab.st) &&
    match a
    case Done(_) => b.Done? && ab.Done?
    case Fail(_, e) => b.Fail? && ab.Fail? && b.error == e == ab.error
  }

  lemma {:induction false} StepSums(a: Env, b: Env, op: Op, sa: State, sb: State, sab: State)
    requires SameShape(a, b) && SumStates(sa, sb, sab)
    ensures SumOutcomes(Step(a, op, sa), Step(b, op, sb), Step(PlusEnv(a, b), op, sab))
    ensures op.Add? && Step(a, op, sa).Done? ==>
              Lookup(a, op.src, sa).Value? && Lookup(b, op.src, sb).Value? &&
              Lookup(PlusEnv(a, b), op.src, sab) == Value(Lookup(a, op.src, sa).v + Lookup(b, op.src, sb).v)
  {
    hide AddAt;
  }

  /** Runs of one stream on equally long tables succeed or fail together, at the same op, and
      make adds at the same places. */
  lemma {:induction false} FoldSums(a: Env, b: Env, ops: seq<Op>, sa: State, sb: State, sab: State)
    requires SameShape(a, b) && SumStates(sa, sb, sab)
    ensures SumOutcomes(Fold(a, ops, sa), Fold(b, ops, sb), Fold(PlusEnv(a, b), ops, sab))
    ensures Sums(Adds(a, ops, sa), Adds(b, ops, sb), Adds(PlusEnv(a, b), ops, sab))
    decreases |ops|
  {
    hide Step, Lookup;
    if ops != [] {
      StepSums(a, b, ops[0], sa, sb, sab);
      if Step(a, ops[0], sa).Done? {
        FoldSums(a, b, ops[1..], Step(a, ops[0], sa).st, Step(b, ops[0], sb).st,
                 Step(PlusEnv(a, b), ops[0], sab).st);
      }
    }
  }

  /** Where a stream adds, for sections and tables of a given shape. */
  function Footprint(words: seq<Word>, env: Env, section: seq<Byte>, c: int, d: int): seq<Patch> {
    Adds(env, Program(words), State(section, 0, 0, c, d))
  }

  /** Rebasing in two steps is rebasing once by the sums, on every stream whose adds do not
      partly overlap; and whether a stream succeeds never depends on the values or the bytes. */
  lemma {:induction false} RebaseAdditive(words: seq<Word>, section: seq<Byte>, a: Env, ca: int, da: int, b: Env,
                                          cb: int, db: int)
    requires SameShape(a, b)
    requires NonOverlapping(Footprint(words, a, section, ca, da))
    ensures var once := Relocate(words, PlusEnv(a, b), section, ca + cb, da + db);
            var first := Relocate(words, a, section, ca, da);
            var second := Relocate(words, b, first.st.section, cb, db);
            (first.Done? <==> second.Done?) && (first.Done? <==> once.Done?) &&
            second.st.section == once.st.section
  {
    var ops := Program(words);
    var sa, sab := State(section, 0, 0, ca, da), State(section, 0, 0, ca + cb, da + db);
    SectionIsItsAdds(a, ops, sa);
    var first := Relocate(words, a, section, ca, da);
    var sb := State(first.st.section, 0, 0, cb, db);
    FoldSums(a, b, ops, sa, sb, sab);
    SectionIsItsAdds(b, ops, sb);
    SectionIsItsAdds(PlusEnv(a, b), ops, sab);
    ApplySum(section, Adds(a, ops, sa), Adds(b, ops, sb), Adds(PlusEnv(a, b), ops, sab));
  }

  /** Relocating with the negated values restores the section byte for byte. */
  lemma {:induction false} RebaseUndo(words: seq<Word>, section: seq<Byte>, a: Env, c: int, d: int)
    requires NonOverlapping(Footprint(words, a, section, c, d))
    ensures var there := Relocate(words, a, section, c, d);
            var back := Relocate(words, Env(Negated(a.deltas), Negated(a.imports)), there.st.section, -c, -d);
            (there.Done? <==> back.Done?) && back.st.section == section
  {
    hide Relocate, Footprint;
    var n := Env(Negated(a.deltas), Negated(a.imports));
    RebaseAdditive(words, section, a, c, d, n, -c, -d);
    ZeroRelocates(words, PlusEnv(a, n), section);
  }

  lemma {:induction false} ZeroRelocates(words: seq<Word>, env: Env, section: seq<Byte>)
    requires forall k :: 0 <= k < |env.deltas| ==> env.deltas[k] == 0
    requires forall k :: 0 <= k < |env.imports| ==> env.imports[k] == 0
    ensures Relocate(words, env, section, 0, 0).st.section == section
  {
    hide Fold, Step, Adds, Program;
    var ops, st := Program(words), State(section, 0, 0, 0, 0);
    ZeroAdds(env, ops, st);
    SectionIsItsAdds(env, ops, st);
    ApplyZeros(section, Adds(env, ops, st));
  }

  lemma {:induction false} ZeroAdds(env: Env, ops: seq<Op>, st: State)
    requires st.c == 0 && st.d == 0
    requires forall k :: 0 <= k < |env.deltas| ==> env.deltas[k] == 0
    requires forall k :: 0 <= k < |env.imports| ==> env.imports[k] == 0
    ensures forall p :: p in Adds(env, ops, st) ==> p.value == 0
    decreases |ops|
  {
    hide AddAt;
    if ops != [] && Step(env, ops[0], st).Done? {
      ZeroAdds(env, ops[1..], Step(env, ops[0], st).st);
    }
  }

  /** Whether a stream succeeds, and where it adds, depends only on the stream and on the lengths
      of the section and the tables. */
  lemma {:induction false} ShapeDecides(words: seq<Word>, s1: seq<Byte>, a: Env, c1: int, d1: int, s2: seq<Byte>,
                                        b: Env, c2: int, d2: int)
    requires SameShape(a, b) && |s1| == |s2|
    ensures var x, y := Relocate(words, a, s1, c1, d1), Relocate(words, b, s2, c2, d2);
            (x.Done? <==> y.Done?) && (x.Fail? ==> x.error == y.error) && x.st.pos == y.st.pos &&
            x.st.importIndex == y.st.importIndex
    ensures var p, q := Footprint(words, a, s1, c1, d1), Footprint(words, b, s2, c2, d2);
            |p| == |q| && forall k :: 0 <= k < |p| ==> p[k].at == q[k].at
  {
    FoldSums(a, b, Program(words), State(s1, 0, 0, c1, d1), State(s2, 0, 0, c2, d2),
             State(s1, 0, 0, c1 + c2, d1 + d2));
  }

  // ----- word-aligned streams

  predicate AlignedInstr(i: Instr) {
    (i.Advance? ==> i.bytes % 4 == 0) && (i.Position? ==> i.at % 4 == 0)
  }

  /** Every increment and every position in the stream is a multiple of four. */
  predicate WordAligned(words: seq<Word>) {
    forall tok :: tok in List(words, 0).tokens ==> TokenOf(words, tok) && AlignedInstr(Operands(words, tok))
  }

  ghost predicate AlignedOps(ops: seq<Op>) {
    forall op :: op in ops ==> (op.Move? ==> op.bytes % 4 == 0) && (op.Seek? ==> op.at % 4 == 0)
  }

  lemma {:induction false} AlignedTimes(n: nat, block: seq<Op>)
    requires AlignedOps(block)
    ensures AlignedOps(Times(n, block))
  {
    if n > 0 {
      AlignedTimes(n - 1, block);
    }
  }

  lemma {:induction false} AlignedMeaning(i: Instr)
    requires AlignedInstr(i)
    ensures AlignedOps(Meaning(i))
  {
    match i
    case Skip(skip, count) => AlignedTimes(count, [Add(FromD), Move(4)]);
    case RunC(n) => AlignedTimes(n, [Add(FromC), Move(4)]);
    case RunD(n) => AlignedTimes(n, [Add(FromD), Move(4)]);
    case TVector12(n) => AlignedTimes(n, [Add(FromC), Move(4), Add(FromD), Move(4), Move(4)]);
    case TVector8(n) => AlignedTimes(n, [Add(FromC), Move(4), Add(FromD), Move(4)]);
    case VTable8(n) => AlignedTimes(n, [Add(FromD), Move(8)]);
    case ImportRun(n) => AlignedTimes(n, [Add(FromNextImport), BumpNext, Move(4)]);
    case _ =>
  }

  ghost predicate AlignedTokens(words: seq<Word>, tokens: seq<Token>) {
    forall k :: 0 <= k < |tokens| ==> TokenOf(words, tokens[k]) && AlignedInstr(Operands(words, tokens[k]))
  }

  lemma {:induction false} AlignedReplay(words: seq<Word>, tokens: seq<Token>)
    requires AlignedTokens(words, tokens)
    ensures AlignedOps(Replay(words, tokens))
    decreases |tokens|
  {
    hide Meaning, Operands;
    if tokens != [] {
      AlignedMeaning(Operands(words, tokens[0]));
      AlignedReplay(words, tokens[1..]);
    }
  }

  lemma {:induction false} AlignedExpand(words: seq<Word>, history: seq<Token>, rest: seq<Token>)
    requires AlignedTokens(words, history) && AlignedTokens(words, rest)
    ensures AlignedOps(Expand(words, history, rest))
    decreases |rest|
  {
    hide Meaning, Operands;
    if rest != [] {
      var i := Operands(words, rest[0]);
      if i.Repeat? {
        SelectSuffix(history, i.blockWords);
        if Select(history, i.blockWords).Block? {
          var block := Select(history, i.blockWords).tokens;
          AlignedReplay(words, block);
          AlignedTimes(i.times, Replay(words, block));
        }
      } else {
        AlignedMeaning(i);
      }
      AlignedExpand(words, history + [rest[0]], rest[1..]);
    }
  }

  lemma {:induction false} AlignedAdds(env: Env, ops: seq<Op>, st: State)
    requires AlignedOps(ops) && st.pos % 4 == 0
    ensures forall k :: 0 <= k < |Adds(env, ops, st)| ==> Adds(env, ops, st)[k].at % 4 == 0
    decreases |ops|
  {
    hide AddAt;
    if ops != [] && Step(env, ops[0], st).Done? {
      AlignedAdds(env, ops[1..], Step(env, ops[0], st).st);
    }
  }

  lemma {:induction false} StopAligned(words: seq<Word>, from: nat)
    requires from <= |words|
    ensures AlignedOps(List(words, from).stop)
    decreases |words| - from
  {
    if from < |words| && Opcode(words[from]).Decoded? && from + Opcode(words[from]).length <= |words| {
      StopAligned(words, from + Opcode(words[from]).length);
    }
  }

  /** A word-aligned stream never makes overlapping adds, whatever its tables and section. */
  lemma {:induction false} WordAlignedIsNonOverlapping(words: seq<Word>, env: Env, section: seq<Byte>, c: int, d: int)
    requires WordAligned(words)
    ensures NonOverlapping(Footprint(words, env, section, c, d))
  {
    hide Expand, Step, Operands;
    AlignedExpand(words, [], List(words, 0).tokens);
    StopAligned(words, 0);
    AlignedAdds(env, Program(words), State(section, 0, 0, c, d));
  }

  // ----- without the condition, rebasing is not additive

  /** Add C at 0, move to 1, add C again. */
  function OverlapStream(): seq<Word> {
    Assemble(RunC(1), false) + Assemble(Position(1), true) + Assemble(RunC(1), false)
  }

  lemma {:induction false} OverlapTokens()
    ensures var w := OverlapStream();
            w == [0x4000, 0xA000, 1, 0x4000] &&
            TokenOf(w, Token(0, 1, KByC)) && TokenOf(w, Token(1, 2, KSetPosition)) && TokenOf(w, Token(3, 1, KByC)) &&
            Operands(w, Token(0, 1, KByC)) == RunC(1) && Operands(w, Token(1, 2, KSetPosition)) == Position(1) &&
            Operands(w, Token(3, 1, KByC)) == RunC(1)
  {
  }

  lemma {:induction false} RemainingPlain(words: seq<Word>, history: seq<Token>, tok: Token)
    requires AllDecoded(words, history) && TokenOf(words, tok) && !Operands(words, tok).Repeat?
    ensures Remaining(words, history, tok.offset) ==
            Meaning(Operands(words, tok)) + Remaining(words, history + [tok], tok.offset + tok.length)
  {
    hide Meaning, Operands, Remaining;
    RemainingStep(words, history, tok.offset);
  }

  lemma {:induction false} OverlapProgram()
    ensures Program(OverlapStream()) == [Add(FromC), Move(4), Seek(1), Add(FromC), Move(4)]
  {
    var w := OverlapStream();
    OverlapTokens();
    var t0, t1, t2 := Token(0, 1, KByC), Token(1, 2, KSetPosition), Token(3, 1, KByC);
    var run := [Add(FromC), Move(4)];
    RunMeans();
    PositionMeans(1);
    hide OverlapStream, TokenOf, Operands, Meaning, Remaining;
    assert Remaining(w, [] + [t0] + [t1], 3) == run by {
      RemainingPlain(w, [] + [t0] + [t1], t2);
      RemainingStep(w, [] + [t0] + [t1] + [t2], 4);
    }
    assert Remaining(w, [] + [t0], 1) == [Seek(1)] + run by { RemainingPlain(w, [] + [t0], t1); }
    RemainingPlain(w, [], t0);
    assert run + ([Seek(1)] + run) == [Add(FromC), Move(4), Seek(1), Add(FromC), Move(4)];
  }

  lemma {:induction false} RunMeans()
    ensures Meaning(RunC(1)) == [Add(FromC), Move(4)]
  {
    var run := [Add(FromC), Move(4)];
    assert Times(1, run) == run + Times(0, run);
  }

  lemma {:induction false} PositionMeans(at: nat)
    ensures Meaning(Position(at)) == [Seek(at)]
  {
  }

  lemma {:induction false} OverlapRelocates(env: Env, section: seq<Byte>, c: int)
    requires |section| == 5
    ensures Relocate(OverlapStream(), env, section, c, 0).Done?
    ensures Relocate(OverlapStream(), env, section, c, 0).st.section == AddAt(AddAt(section, 0, c), 1, c)
  {
    hide AddAt, Program;
    OverlapProgram();
    var ops := [Add(FromC), Move(4), Seek(1), Add(FromC), Move(4)];
    var s0 := State(section, 0, 0, c, 0);
    var s1 := s0.(section := AddAt(section, 0, c));
    Fold2(env, Add(FromC), Move(4), s0);
    FoldAppend(env, [Add(FromC), Move(4)], [Seek(1), Add(FromC), Move(4)], s0);
    assert ops == [Add(FromC), Move(4)] + [Seek(1), Add(FromC), Move(4)];
    Fold3(env, Seek(1), Add(FromC), Move(4), s1.(pos := 4));
  }

  lemma {:induction false} OverlapAdds(mid: seq<Byte>, a: int, b: int)
    requires |mid| == 5 && AddAt(AddAt(mid, 0, b), 1, a) != AddAt(AddAt(mid, 1, a), 0, b)
    ensures var s := AddAt(mid, 0, -a);
            AddAt(AddAt(AddAt(AddAt(s, 0, a), 1, a), 0, b), 1, b) != AddAt(AddAt(s, 0, a + b), 1, a + b)
  {
    hide AddAt;
    var s := AddAt(mid, 0, -a);
    AddTwice(mid, 0, -a, a);
    AddZero(mid, 0, 0);
    AddTwice(s, 0, a, b);
    AddTwice(AddAt(mid, 0, b), 1, a, b);
    var x, y := AddAt(AddAt(mid, 1, a), 0, b), AddAt(AddAt(mid, 0, b), 1, a);
    if AddAt(x, 1, b) == AddAt(y, 1, b) {
      Cancel(x, y, b);
    }
  }

  lemma {:induction false} Cancel(x: seq<Byte>, y: seq<Byte>, b: int)
    requires |x| == |y| == 5 && AddAt(x, 1, b) == AddAt(y, 1, b)
    ensures x == y
  {
    hide AddAt;
    AddTwice(x, 1, b, -b);
    AddTwice(y, 1, b, -b);
    AddZero(x, 1, 0);
    AddZero(y, 1, 0);
  }

  /** A stream, a section and two values for which relocating twice is not relocating once. */
  lemma {:induction false} OverlapBreaksAdditivity() returns (section: seq<Byte>, a: int, b: int)
    ensures var words, env := OverlapStream(), Env([], []);
            var first := Relocate(words, env, section, a, 0);
            var second := Relocate(words, env, first.st.section, b, 0);
            first.Done? && second.Done? &&
            second.st.section != Relocate(words, env, section, a + b, 0).st.section
  {
    hide AddAt, Relocate, OverlapStream;
    var mid;
    mid, b, a := OverlapDoesNotCommute(5, 0, 1);
    OverlapAdds(mid, a, b);
    section := AddAt(mid, 0, -a);
    OverlapRelocates(Env([], []), section, a);
    OverlapRelocates(Env([], []), AddAt(AddAt(section, 0, a), 1, a), b);
    OverlapRelocates(Env([], []), section, a + b);
  }

  // ----- the condition is not necessary

  /** At 0 add C, do so 255 times more, move to 3, add C. */
  function CancelStream(): seq<Word> {
    Assemble(Position(0), true) + Assemble(RunC(1), false) + Assemble(Repeat(3, 255), false) +
    Assemble(Position(3), true) + Assemble(RunC(1), false)
  }

  lemma {:induction false} CancelWords()
    ensures CancelStream() == [0xA000, 0, 0x4000, 0x92FE, 0xA000, 3, 0x4000]
  {
  }

  lemma {:induction false} CancelTokens()
    ensures var w := CancelStream();
            |w| == 7 &&
            TokenOf(w, Token(0, 2, KSetPosition)) && Operands(w, Token(0, 2, KSetPosition)) == Position(0) &&
            TokenOf(w, Token(2, 1, KByC)) && Operands(w, Token(2, 1, KByC)) == RunC(1) &&
            TokenOf(w, Token(3, 1, KSmRepeat)) && Operands(w, Token(3, 1, KSmRepeat)) == Repeat(3, 255) &&
            TokenOf(w, Token(4, 2, KSetPosition)) && Operands(w, Token(4, 2, KSetPosition)) == Position(3) &&
            TokenOf(w, Token(6, 1, KByC)) && Operands(w, Token(6, 1, KByC)) == RunC(1)
  {
    CancelWords();
    hide CancelStream;
  }

  function AddAfter(at: nat): seq<Op> {
    [Seek(at), Add(FromC), Move(4)]
  }

  lemma {:induction false} CancelRepeat()
    ensures var w, t0, t1, t2 := CancelStream(), Token(0, 2, KSetPosition), Token(2, 1, KByC), Token(3, 1, KSmRepeat);
            TokenOf(w, t0) && TokenOf(w, t1) && TokenOf(w, t2) &&
            TokenOps(w, [t0, t1], t2) == Times(255, AddAfter(0))
  {
    CancelTokens();
    RunMeans();
    PositionMeans(0);
    var w, t0, t1 := CancelStream(), Token(0, 2, KSetPosition), Token(2, 1, KByC);
    hide CancelStream, Operands, TokenOf, Meaning, Times;
    assert [t0, t1][..1] == [t0] && [t0] + [t1] == [t0, t1];
    assert Select([t0], 2) == Block([t0]);
    assert Select([t0, t1], 3) == Block([t0, t1]);
    assert [t0, t1][1..] == [t1] && [t1][1..] == [];
    assert Replay(w, [t1]) == [Add(FromC), Move(4)] + Replay(w, []);
    assert Replay(w, [t0, t1]) == [Seek(0)] + Replay(w, [t1]) == AddAfter(0);
  }

  lemma {:induction false} NothingDecoded(words: seq<Word>)
    ensures AllDecoded(words, [])
  {
  }

  lemma {:induction false} DecodedSnoc(words: seq<Word>, history: seq<Token>, tok: Token)
    requires AllDecoded(words, history) && TokenOf(words, tok)
    ensures AllDecoded(words, history + [tok])
  {
  }

  lemma {:induction false} RemainingEnd(words: seq<Word>, history: seq<Token>)
    requires AllDecoded(words, history)
    ensures Remaining(words, history, |words|) == []
  {
  }

  lemma {:induction false} RemainingRepeat(words: seq<Word>, history: seq<Token>, tok: Token)
    requires AllDecoded(words, history) && TokenOf(words, tok)
    ensures Remaining(words, history, tok.offset) ==
            TokenOps(words, history, tok) + Remaining(words, history + [tok], tok.offset + tok.length)
  {
    hide TokenOps, Remaining;
    RemainingStep(words, history, tok.offset);
  }

  lemma {:induction false} RemainingPair(words: seq<Word>, history: seq<Token>, t: Token, u: Token)
    requires AllDecoded(words, history) && TokenOf(words, t) && TokenOf(words, u) && u.offset == t.offset + t.length
    requires !Operands(words, t).Repeat? && !Operands(words, u).Repeat?
    ensures AllDecoded(words, history + [t] + [u])
    ensures Remaining(words, history, t.offset) ==
            Meaning(Operands(words, t)) + Meaning(Operands(words, u)) +
            Remaining(words, history + [t] + [u], u.offset + u.length)
  {
    hide TokenOf, Operands, Meaning, Remaining, AllDecoded;
    DecodedSnoc(words, history, t);
    DecodedSnoc(words, history + [t], u);
    RemainingPlain(words, history, t);
    RemainingPlain(words, history + [t], u);
  }

  lemma {:induction false} CancelTail(history: seq<Token>)
    requires AllDecoded(CancelStream(), history)
    ensures |CancelStream()| == 7 && Remaining(CancelStream(), history, 4) == AddAfter(3)
  {
    CancelTokens();
    RunMeans();
    PositionMeans(3);
    hide CancelStream, TokenOf, Operands, Meaning, Remaining, AllDecoded;
    var w, t3, t4 := CancelStream(), Token(4, 2, KSetPosition), Token(6, 1, KByC);
    RemainingPair(w, history, t3, t4);
    RemainingEnd(w, history + [t3] + [t4]);
  }

  lemma {:induction false} CancelHead()
    ensures var w, t0, t1 := CancelStream(), Token(0, 2, KSetPosition), Token(2, 1, KByC);
            |w| == 7 && AllDecoded(w, [t0, t1]) && Program(w) == AddAfter(0) + Remaining(w, [t0, t1], 3)
  {
    CancelTokens();
    RunMeans();
    PositionMeans(0);
    hide CancelStream, TokenOf, Operands, Meaning, Remaining, AllDecoded;
    var w, t0, t1 := CancelStream(), Token(0, 2, KSetPosition), Token(2, 1, KByC);
    NothingDecoded(w);
    RemainingPair(w, [], t0, t1);
    assert [] + [t0] + [t1] == [t0, t1];
  }

  lemma {:induction false} CancelProgram()
    ensures Program(CancelStream()) == Times(256, AddAfter(0)) + AddAfter(3)
  {
    CancelTokens();
    CancelHead();
    CancelRepeat();
    hide CancelStream, TokenOf, Operands, Program, Remaining, TokenOps, AllDecoded, AddAfter;
    var w, t0, t1, t2 := CancelStream(), Token(0, 2, KSetPosition), Token(2, 1, KByC), Token(3, 1, KSmRepeat);
    DecodedSnoc(w, [t0, t1], t2);
    RemainingRepeat(w, [t0, t1], t2);
    CancelTail([t0, t1] + [t2]);
    assert Times(256, AddAfter(0)) == AddAfter(0) + Times(255, AddAfter(0));
    assert Program(w) == AddAfter(0) + (Times(255, AddAfter(0)) + AddAfter(3));
  }

  lemma {:induction false} AddAfterAdds(env: Env, at: nat, rest: seq<Op>, st: State)
    requires at + 4 <= |st.section|
    ensures var next := State(AddAt(st.section, at, st.c), at + 4, st.importIndex, st.c, st.d);
            Adds(env, AddAfter(at) + rest, st) == [Patch(at, st.c)] + Adds(env, rest, next) &&
            Fold(env, AddAfter(at) + rest, st) == Fold(env, rest, next)
  {
    hide AddAt;
    var ops := AddAfter(at) + rest;
    assert ops[1..][1..][1..] == rest;
    var s1 := st.(pos := at);
    var s2 := s1.(section := AddAt(st.section, at, st.c));
    assert Step(env, ops[0], st) == Done(s1) && Step(env, ops[1], s1) == Done(s2);
    assert Adds(env, ops, st) == Adds(env, ops[1..], s1);
    assert Adds(env, ops[1..], s1) == [Patch(at, st.c)] + Adds(env, ops[1..][1..], s2);
    assert ops[1..][1..][0] == Move(4) && Step(env, Move(4), s2) == Done(s2.(pos := at + 4));
    assert Adds(env, ops[1..][1..], s2) == Adds(env, rest, s2.(pos := at + 4));
    assert Fold(env, ops, st) == Fold(env, ops[1..], s1) == Fold(env, ops[1..][1..], s2);
  }

  lemma {:induction false} ManyAddsAfter(env: Env, n: nat, st: State)
    requires |st.section| >= 7
    ensures Adds(env, Times(n, AddAfter(0)) + AddAfter(3), st) == ManyThen(n, 0, st.c, 3, st.c)
    ensures Fold(env, Times(n, AddAfter(0)) + AddAfter(3), st).Done?
    decreases n
  {
    hide AddAt, Step, AddAfter;
    if n == 0 {
      AddAfterAdds(env, 3, [], st);
      assert AddAfter(3) + [] == AddAfter(3) == [] + AddAfter(3);
    } else {
      var rest := Times(n - 1, AddAfter(0)) + AddAfter(3);
      AddAfterAdds(env, 0, rest, st);
      ManyAddsAfter(env, n - 1, State(AddAt(st.section, 0, st.c), 4, st.importIndex, st.c, st.d));
      assert Times(n, AddAfter(0)) + AddAfter(3) == AddAfter(0) + rest;
      assert [Patch(0, st.c)] + ManyThen(n - 1, 0, st.c, 3, st.c) == ManyThen(n, 0, st.c, 3, st.c);
    }
  }

  /** The adds of this stream overlap, and rebasing is additive on it all the same, whatever the values. */
  lemma {:induction false} OverlapMayStayAdditive(section: seq<Byte>, a: Env, ca: int, da: int, b: Env, cb: int,
                                                  db: int)
    requires SameShape(a, b) && |section| >= 7
    ensures !NonOverlapping(Footprint(CancelStream(), a, section, ca, da))
    ensures var once := Relocate(CancelStream(), PlusEnv(a, b), section, ca + cb, da + db);
            var first := Relocate(CancelStream(), a, section, ca, da);
            var second := Relocate(CancelStream(), b, first.st.section, cb, db);
            first.Done? && second.Done? && once.Done? && second.st.section == once.st.section
  {
    hide AddAt, Adds, Fold, Program, ApplyAll, CancelStream, ManyThen, NonOverlapping;
    CancelProgram();
    var ops := Times(256, AddAfter(0)) + AddAfter(3);
    var sa, sab := State(section, 0, 0, ca, da), State(section, 0, 0, ca + cb, da + db);
    var sb := State(Relocate(CancelStream(), a, section, ca, da).st.section, 0, 0, cb, db);
    SectionIsItsAdds(a, ops, sa);
    ManyAddsAfter(a, 256, sa);
    SectionIsItsAdds(b, ops, sb);
    ManyAddsAfter(b, 256, sb);
    SectionIsItsAdds(PlusEnv(a, b), ops, sab);
    ManyAddsAfter(PlusEnv(a, b), 256, sab);
    OverlapMayCancel(section, ca, ca, cb, cb);
  }
}
