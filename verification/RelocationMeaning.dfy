/** What a relocation stream does, as a left fold over primitive ops
    (src/cwhost/pef.py, `apply_relocations`). */
module RelocationMeaning {
  import opened Bytes
  import opened Relocation

  /** The caller's tables: section deltas and import addresses (any Python integers). */
  datatype Env = Env(deltas: seq<int>, imports: seq<int>)

  /** The section bytes and the four registers of the interpreter. */
  datatype State = State(section: seq<Byte>, pos: nat, importIndex: nat, c: int, d: int)

  /** A failing step keeps what was already written, as the source's bytearray does. */
  datatype Outcome = Done(st: State) | Fail(st: State, error: Error)

  datatype Source = FromC | FromD | FromSection(index: nat) | FromImport(index: nat) | FromNextImport

  datatype Op =
    | Add(src: Source)      // add to the word at pos
    | Move(bytes: nat)      // pos += bytes
    | Seek(at: nat)         // pos = at
    | LoadC(index: nat) | LoadD(index: nat)
    | NextIs(index: nat) | BumpNext
    | Trap(error: Error)

  datatype Value = Value(v: int) | NoValue(error: Error)

  function Pick(table: seq<int>, index: nat, error: Error): Value {
    if index >= |table| then NoValue(error) else Value(table[index])
  }

  /** The value an add takes, looked up before the position is checked. */
  function Lookup(env: Env, src: Source, st: State): Value {
    match src
    case FromC => Value(st.c)
    case FromD => Value(st.d)
    case FromSection(i) => Pick(env.deltas, i, NoSection)
    case FromImport(i) => Pick(env.imports, i, NoImport)
    case FromNextImport => Pick(env.imports, st.importIndex, NoImport)
  }

  function WordAt(section: seq<Byte>, at: nat): (w: nat)
    requires at + 4 <= |section|
    ensures w < TWO32
  {
    Pow256Values();
    Be(section[at..at + 4])
  }

  /** Adding to one big-endian word, modulo 2^32. */
  function AddAt(section: seq<Byte>, at: nat, value: int): (r: seq<Byte>)
    requires at + 4 <= |section|
    ensures |r| == |section|
  {
    Splice(section, at, ToBe((WordAt(section, at) + value) % TWO32, 4))
  }

  function AddValue(st: State, value: int): Outcome {
    if st.pos + 4 > |st.section| then Fail(st, OutOfRange)
    else Done(st.(section := AddAt(st.section, st.pos, value)))
  }

  function Step(env: Env, op: Op, st: State): Outcome {
    match op
    case Add(src) =>
      (match Lookup(env, src, st)
       case NoValue(error) => Fail(st, error)
       case Value(v) => AddValue(st, v))
    case Move(bytes) => Done(st.(pos := st.pos + bytes))
    case Seek(at) => Done(st.(pos := at))
    case LoadC(i) => (match Pick(env.deltas, i, NoSection)
                      case NoValue(error) => Fail(st, error)
                      case Value(v) => Done(st.(c := v)))
    case LoadD(i) => (match Pick(env.deltas, i, NoSection)
                      case NoValue(error) => Fail(st, error)
                      case Value(v) => Done(st.(d := v)))
    case NextIs(i) => Done(st.(importIndex := i))
    case BumpNext => Done(st.(importIndex := st.importIndex + 1))
    case Trap(error) => Fail(st, error)
  }

  /** The left fold, stopping at the first failure. */
  function Fold(env: Env, ops: seq<Op>, st: State): Outcome {
    if ops == [] then Done(st)
    else match Step(env, ops[0], st)
         case Fail(_, _) => Step(env, ops[0], st)
         case Done(next) => Fold(env, ops[1..], next)
  }

  /** Go on with `ops` if the outcome so far is good. */
  function Then(env: Env, o: Outcome, ops: seq<Op>): Outcome {
    match o case Fail(_, _) => o case Done(st) => Fold(env, ops, st)
  }

  function ThenStep(env: Env, o: Outcome, op: Op): Outcome {
    match o case Fail(_, _) => o case Done(st) => Step(env, op, st)
  }

  lemma {:induction false} Fold0(env: Env, st: State)
    ensures Fold(env, [], st) == Done(st)
  {
  }

  lemma {:induction false} Fold1(env: Env, a: Op, st: State)
    ensures Fold(env, [a], st) == Step(env, a, st)
  {
    assert [a][1..] == [];
  }

  lemma {:induction false} Fold2(env: Env, a: Op, b: Op, st: State)
    ensures Fold(env, [a, b], st) == ThenStep(env, Step(env, a, st), b)
  {
    assert [a, b][1..] == [b];
    match Step(env, a, st)
    case Fail(_, _) =>
    case Done(next) => Fold1(env, b, next);
  }

  lemma {:induction false} Fold3(env: Env, a: Op, b: Op, c: Op, st: State)
    ensures Fold(env, [a, b, c], st) == ThenStep(env, ThenStep(env, Step(env, a, st), b), c)
  {
    assert [a, b, c][1..] == [b, c];
    match Step(env, a, st)
    case Fail(_, _) =>
    case Done(next) => Fold2(env, b, c, next);
  }

  lemma {:induction false} FoldAppend(env: Env, a: seq<Op>, b: seq<Op>, st: State)
    ensures Fold(env, a + b, st) == Then(env, Fold(env, a, st), b)
  {
    if a == [] {
      assert a + b == b;
    } else {
      assert (a + b)[0] == a[0] && (a + b)[1..] == a[1..] + b;
      match Step(env, a[0], st)
      case Fail(_, _) =>
      case Done(next) => FoldAppend(env, a[1..], b, next);
    }
  }

  lemma {:induction false} FoldTrap(env: Env, error: Error, rest: seq<Op>, st: State)
    ensures Fold(env, [Trap(error)] + rest, st) == Fail(st, error)
    ensures rest == [] ==> Fold(env, [Trap(error)], st) == Fail(st, error)
  {
    assert ([Trap(error)] + rest)[0] == Trap(error);
  }

  // ----- the meaning of one instruction

  lemma {:induction false} FoldTimes(env: Env, n: nat, block: seq<Op>, st: State)
    requires n > 0
    ensures Fold(env, Times(n, block), st) == Then(env, Fold(env, block, st), Times(n - 1, block))
  {
    FoldAppend(env, block, Times(n - 1, block), st);
  }

  /** An instruction other than a repeat. A repeat met during a replay is an error. */
  function Meaning(i: Instr): seq<Op> {
    match i
    case Skip(skip, count) => [Move(4 * skip)] + Times(count, [Add(FromD), Move(4)])
    case RunC(n) => Times(n, [Add(FromC), Move(4)])
    case RunD(n) => Times(n, [Add(FromD), Move(4)])
    case TVector12(n) => Times(n, [Add(FromC), Move(4), Add(FromD), Move(4), Move(4)])
    case TVector8(n) => Times(n, [Add(FromC), Move(4), Add(FromD), Move(4)])
    case VTable8(n) => Times(n, [Add(FromD), Move(8)])
    case ImportRun(n) => Times(n, [Add(FromNextImport), BumpNext, Move(4)])
    case OneImport(x) => [Add(FromImport(x)), NextIs(x + 1), Move(4)]
    case SetC(x) => [LoadC(x)]
    case SetD(x) => [LoadD(x)]
    case OneSection(x) => [Add(FromSection(x)), Move(4)]
    case Advance(bytes) => [Move(bytes)]
    case Position(at) => [Seek(at)]
    case Repeat(_, _) => [Trap(NestedRepeat)]
    case BadSubop => [Trap(UnknownSubop)]
  }

  // ----- a whole stream

  /** The instructions of a stream from `from` on, and why decoding stopped early, if it did. */
  datatype Listing = Listing(tokens: seq<Token>, stop: seq<Op>)

  function List(words: seq<Word>, from: nat): (l: Listing)
    requires from <= |words|
    ensures forall k :: 0 <= k < |l.tokens| ==> TokenOf(words, l.tokens[k])
    decreases |words| - from
  {
    if from == |words| then Listing([], [])
    else
      match Opcode(words[from])
      case BadOpcode => Listing([], [Trap(UnknownOpcode)])
      case Decoded(kind, length) =>
        if from + length > |words| then Listing([], [Trap(Truncated)])
        else
          var rest := List(words, from + length);
          Listing([Token(from, length, kind)] + rest.tokens, rest.stop)
  }

  ghost predicate AllDecoded(words: seq<Word>, tokens: seq<Token>) {
    forall k :: 0 <= k < |tokens| ==> TokenOf(words, tokens[k])
  }

  /** The suffix of the history that a repeat replays. */
  datatype Selection = Block(tokens: seq<Token>) | Splits | RunsOff

  function Select(history: seq<Token>, want: int): Selection {
    if history == [] then RunsOff
    else
      var last := history[|history| - 1];
      if last.length == want then Block([last])
      else if last.length > want then Splits
      else match Select(history[..|history| - 1], want - last.length)
           case Block(tokens) => Block(tokens + [last])
           case Splits => Splits
           case RunsOff => RunsOff
  }

  lemma {:induction false} SelectSuffix(history: seq<Token>, want: int)
    ensures Select(history, want).Block? ==>
              |Select(history, want).tokens| <= |history| &&
              Select(history, want).tokens == history[|history| - |Select(history, want).tokens|..]
  {
    if history != [] {
      SelectSuffix(history[..|history| - 1], want - history[|history| - 1].length);
    }
  }

  /** The non-repeat meaning of a list of tokens, in order. */
  function Replay(words: seq<Word>, tokens: seq<Token>): seq<Op>
    requires AllDecoded(words, tokens)
  {
    if tokens == [] then []
    else Meaning(Operands(words, tokens[0])) + Replay(words, tokens[1..])
  }

  function TokenOps(words: seq<Word>, history: seq<Token>, tok: Token): seq<Op>
    requires AllDecoded(words, history) && TokenOf(words, tok)
  {
    var i := Operands(words, tok);
    if !i.Repeat? then Meaning(i)
    else
      SelectSuffix(history, i.blockWords);
      match Select(history, i.blockWords)
      case Block(tokens) => Times(i.times, Replay(words, tokens))
      case Splits => [Trap(SplitsInstruction)]
      case RunsOff => [Trap(NoCompleteBlock)]
  }

  /** The ops of `rest`, run after `history`. */
  function Expand(words: seq<Word>, history: seq<Token>, rest: seq<Token>): seq<Op>
    requires AllDecoded(words, history) && AllDecoded(words, rest)
    decreases |rest|
  {
    if rest == [] then []
    else TokenOps(words, history, rest[0]) + Expand(words, history + [rest[0]], rest[1..])
  }

  /** The ops of the instructions from word `from` on, when `history` came before them. */
  function Remaining(words: seq<Word>, history: seq<Token>, from: nat): seq<Op>
    requires from <= |words| && AllDecoded(words, history)
  {
    Expand(words, history, List(words, from).tokens) + List(words, from).stop
  }

  lemma {:induction false} RemainingStep(words: seq<Word>, history: seq<Token>, from: nat)
    requires from <= |words| && AllDecoded(words, history)
    ensures from == |words| ==> Remaining(words, history, from) == [] && List(words, from).tokens == []
    ensures from < |words| ==>
              match Opcode(words[from])
              case BadOpcode => Remaining(words, history, from) == [Trap(UnknownOpcode)]
              case Decoded(kind, length) =>
                if from + length > |words| then Remaining(words, history, from) == [Trap(Truncated)]
                else
                  var tok := Token(from, length, kind);
                  Remaining(words, history, from) ==
                  TokenOps(words, history, tok) + Remaining(words, history + [tok], from + length)
  {
    hide TokenOps;
    if from < |words| && Opcode(words[from]).Decoded? && from + Opcode(words[from]).length <= |words| {
      var length := Opcode(words[from]).length;
      assert List(words, from).tokens[1..] == List(words, from + length).tokens;
    }
  }

  /** A stream with every repeat written out. */
  function Program(words: seq<Word>): seq<Op> {
    Remaining(words, [], 0)
  }

  /** `apply_relocations`: the fold of the unrolled stream. */
  function Relocate(words: seq<Word>, env: Env, section: seq<Byte>, c: int, d: int): Outcome {
    Fold(env, Program(words), State(section, 0, 0, c, d))
  }
}
