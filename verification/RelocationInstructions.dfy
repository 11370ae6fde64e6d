/** What each relocation instruction does, told on the words of the section and the four registers
    (src/cwhost/pef.py, `apply_relocations`). Every law is about a stream that has come to some state
    without an error and the same stream with one more instruction, given by its words. */
module RelocationInstructions {
  import opened Bytes
  import opened Patches
  import opened Relocation
  import opened RelocationAppending
  import opened RelocationMeaning

  // ----- runs of adds

  /** The word at `at` has gained v, modulo 2^32. */
  ghost predicate Gains(before: seq<Byte>, after: seq<Byte>, at: nat, v: int) {
    |after| == |before| && at + 4 <= |before| && WordAt(after, at) == (WordAt(before, at) + v) % TWO32
  }

  /** From `at` on, one word after the other has gained these values; nothing else has changed. */
  ghost predicate Gained(before: seq<Byte>, after: seq<Byte>, at: nat, values: seq<int>) {
    |after| == |before| && (forall k :: 0 <= k < |values| ==> Gains(before, after, at + 4 * k, values[k])) &&
    forall b :: 0 <= b < |before| && !(at <= b < at + 4 * |values|) ==> after[b] == before[b]
  }

  /** How many whole words there are from `at` on. */
  function WordsFrom(section: seq<Byte>, at: nat): nat {
    if at > |section| then 0 else (|section| - at) / 4
  }

  /** The values were added word by word and the position has moved by `moved`; or the section ended before,
      and just the words it has were added to. */
  ghost predicate AddsWords(st: State, values: seq<int>, moved: nat, out: Outcome) {
    var fit := WordsFrom(st.section, st.pos);
    if |values| <= fit || values == [] then
      out.Done? && Gained(st.section, out.st.section, st.pos, values) &&
      out.st == st.(section := out.st.section, pos := st.pos + moved)
    else
      out.Fail? && out.error == OutOfRange && Gained(st.section, out.st.section, st.pos, values[..fit])
  }

  lemma {:induction false} NothingGained(section: seq<Byte>, at: nat)
    ensures Gained(section, section, at, [])
  {
  }

  lemma {:induction false} SameWord(a: seq<Byte>, b: seq<Byte>, at: nat)
    requires |a| == |b| && at + 4 <= |a| && forall k :: at <= k < at + 4 ==> a[k] == b[k]
    ensures WordAt(a, at) == WordAt(b, at)
  {
    assert a[at..at + 4] == b[at..at + 4];
  }

  lemma {:induction false} AddElsewhere(s: seq<Byte>, at: nat, v: int, b: nat)
    requires at + 4 <= |s| && b < |s| && !(at <= b < at + 4)
    ensures AddAt(s, at, v)[b] == s[b]
  {
  }

  lemma {:induction false} GainedWord(s: seq<Byte>, v: int, after: seq<Byte>, at: nat, rest: seq<int>, k: nat)
    requires at + 4 <= |s| && Gained(AddAt(s, at, v), after, at + 4, rest) && k <= |rest|
    ensures Gains(s, after, at + 4 * k, ([v] + rest)[k])
  {
    var t := AddAt(s, at, v);
    WordAfterAdd(s, at, v);
    hide AddAt, WordAt;
    if k == 0 {
      SameWord(after, t, at);
    } else {
      assert Gains(t, after, at + 4 + 4 * (k - 1), rest[k - 1]);
      forall b | at + 4 * k <= b < at + 4 * k + 4 ensures t[b] == s[b] { AddElsewhere(s, at, v, b); }
      SameWord(t, s, at + 4 * k);
    }
  }

  /** One word gained v, and the words behind it the rest. */
  lemma {:induction false} GainedFirst(s: seq<Byte>, v: int, after: seq<Byte>, at: nat, rest: seq<int>)
    requires at + 4 <= |s| && Gained(AddAt(s, at, v), after, at + 4, rest)
    ensures Gained(s, after, at, [v] + rest)
  {
    hide AddAt, Gains;
    var values := [v] + rest;
    forall k | 0 <= k < |values| ensures Gains(s, after, at + 4 * k, values[k]) {
      GainedWord(s, v, after, at, rest, k);
    }
    forall b | 0 <= b < |s| && !(at <= b < at + 4 * |values|) ensures after[b] == s[b] {
      AddElsewhere(s, at, v, b);
    }
  }

  lemma {:induction false} GainedZero(s: seq<Byte>, after: seq<Byte>, at: nat, rest: seq<int>)
    requires at + 4 <= |s| && Gained(s, after, at + 4, rest)
    ensures Gained(s, after, at, [0] + rest)
  {
    AddZero(s, at, 0);
    GainedFirst(s, 0, after, at, rest);
  }

  lemma {:induction false} WordsFromNext(section: seq<Byte>, at: nat)
    ensures WordsFrom(section, at) == if at + 4 <= |section| then 1 + WordsFrom(section, at + 4) else 0
    ensures at + 4 > |section| ==> WordsFrom(section, at + 4) == 0
  {
  }

  // ----- the steps runs are made of

  lemma {:induction false} AddStep(env: Env, src: Source, v: int, ops: seq<Op>, st: State)
    requires ops != [] && ops[0] == Add(src) && Lookup(env, src, st) == Value(v)
    ensures st.pos + 4 > |st.section| ==> Fold(env, ops, st) == Fail(st, OutOfRange)
    ensures st.pos + 4 <= |st.section| ==>
              Fold(env, ops, st) == Fold(env, ops[1..], st.(section := AddAt(st.section, st.pos, v)))
  {
    hide AddAt;
  }

  lemma {:induction false} MoveStep(env: Env, bytes: nat, ops: seq<Op>, st: State)
    requires ops != [] && ops[0] == Move(bytes)
    ensures Fold(env, ops, st) == Fold(env, ops[1..], st.(pos := st.pos + bytes))
  {
  }

  /** An add, a move by one word, and then whatever adds the rest. */
  lemma {:induction false} AddThenRest(env: Env, src: Source, v: int, ops: seq<Op>, st: State, rest: seq<int>,
                                       moved: nat)
    requires |ops| >= 2 && ops[0] == Add(src) && ops[1] == Move(4) && Lookup(env, src, st) == Value(v)
    requires st.pos + 4 <= |st.section| ==>
               var next := st.(section := AddAt(st.section, st.pos, v), pos := st.pos + 4);
               AddsWords(next, rest, moved, Fold(env, ops[2..], next))
    ensures AddsWords(st, [v] + rest, 4 + moved, Fold(env, ops, st))
  {
    hide AddAt, Gained, Fold, Lookup, WordsFrom;
    AddStep(env, src, v, ops, st);
    WordsFromNext(st.section, st.pos);
    var values, fit := [v] + rest, WordsFrom(st.section, st.pos);
    if st.pos + 4 <= |st.section| {
      var added := st.(section := AddAt(st.section, st.pos, v));
      MoveStep(env, 4, ops[1..], added);
      assert ops[1..][1..] == ops[2..];
      SameRoom(st.section, added.section, st.pos + 4);
      var out := Fold(env, ops[2..], added.(pos := st.pos + 4));
      if |rest| <= fit - 1 || rest == [] {
        GainedFirst(st.section, v, out.st.section, st.pos, rest);
      } else {
        GainedFirst(st.section, v, out.st.section, st.pos, rest[..fit - 1]);
        assert values[..fit] == [v] + rest[..fit - 1];
      }
    } else {
      NothingGained(st.section, st.pos);
    }
  }

  lemma {:induction false} SameRoom(a: seq<Byte>, b: seq<Byte>, at: nat)
    requires |a| == |b|
    ensures WordsFrom(a, at) == WordsFrom(b, at)
  {
  }

  /** A word passed over gains nothing; behind it something is still added. */
  lemma {:induction false} SkipThenRest(env: Env, ops: seq<Op>, st: State, rest: seq<int>, moved: nat)
    requires ops != [] && ops[0] == Move(4) && rest != []
    requires AddsWords(st.(pos := st.pos + 4), rest, moved, Fold(env, ops[1..], st.(pos := st.pos + 4)))
    ensures AddsWords(st, [0] + rest, 4 + moved, Fold(env, ops, st))
  {
    hide Gained, Fold, WordsFrom;
    MoveStep(env, 4, ops, st);
    WordsFromNext(st.section, st.pos);
    var out := Fold(env, ops[1..], st.(pos := st.pos + 4));
    var fit, next := WordsFrom(st.section, st.pos), WordsFrom(st.section, st.pos + 4);
    if st.pos + 4 <= |st.section| {
      if |rest| <= next {
        GainedZero(st.section, out.st.section, st.pos, rest);
      } else {
        GainedZero(st.section, out.st.section, st.pos, rest[..next]);
        assert ([0] + rest)[..fit] == [0] + rest[..next];
      }
    } else {
      GainedNone(st.section, out.st.section, st.pos + 4, rest[..0], st.pos);
    }
  }

  lemma {:induction false} GainedNone(s: seq<Byte>, after: seq<Byte>, at: nat, none: seq<int>, other: nat)
    requires none == [] && Gained(s, after, at, none)
    ensures Gained(s, after, other, [])
  {
  }

  lemma {:induction false} MoveOnly(env: Env, bytes: nat, st: State)
    ensures AddsWords(st, [], bytes, Fold(env, [Move(bytes)], st))
  {
    MoveStep(env, bytes, [Move(bytes)], st);
    assert [Move(bytes)][1..] == [];
    NothingGained(st.section, st.pos);
  }

  lemma {:induction false} NoOps(env: Env, st: State)
    ensures AddsWords(st, [], 0, Fold(env, [], st))
  {
    NothingGained(st.section, st.pos);
  }

  // ----- the runs

  lemma {:induction false} CopiesRun(env: Env, src: Source, v: int, n: nat, st: State)
    requires (src == FromC && v == st.c) || (src == FromD && v == st.d)
    ensures AddsWords(st, seq(n, _ => v), 4 * n, Fold(env, Times(n, [Add(src), Move(4)]), st))
    decreases n
  {
    hide AddAt, Gained, Fold, WordsFrom, AddsWords;
    if n == 0 {
      NoOps(env, st);
      assert seq(0, _ => v) == [];
    } else {
      var block, next := [Add(src), Move(4)], StateAfter(st, v);
      var ops := Times(n, block);
      assert ops == block + Times(n - 1, block) && ops[2..] == Times(n - 1, block);
      if st.pos + 4 <= |st.section| { CopiesRun(env, src, v, n - 1, next); }
      AddThenRest(env, src, v, ops, st, seq(n - 1, _ => v), 4 * (n - 1));
      assert seq(n, _ => v) == [v] + seq(n - 1, _ => v);
    }
  }

  function StateAfter(st: State, v: int): State {
    if st.pos + 4 <= |st.section| then st.(section := AddAt(st.section, st.pos, v), pos := st.pos + 4) else st
  }

  /** C, D, nothing, and again, without the last nothing. */
  function Triples(n: nat, c: int, d: int): (values: seq<int>)
    requires n > 0
    ensures |values| == 3 * n - 1
    ensures forall k :: 0 <= k < |values| ==> values[k] == if k % 3 == 0 then c else if k % 3 == 1 then d else 0
  {
    seq(3 * n - 1, k => if k % 3 == 0 then c else if k % 3 == 1 then d else 0)
  }

  function Pairs(n: nat, c: int, d: int): (values: seq<int>)
    ensures |values| == 2 * n
    ensures forall k :: 0 <= k < |values| ==> values[k] == if k % 2 == 0 then c else d
  {
    seq(2 * n, k => if k % 2 == 0 then c else d)
  }

  lemma {:induction false} PairsRun(env: Env, n: nat, st: State)
    ensures AddsWords(st, Pairs(n, st.c, st.d), 8 * n,
                      Fold(env, Times(n, [Add(FromC), Move(4), Add(FromD), Move(4)]), st))
    decreases n
  {
    hide AddAt, Gained, Fold, WordsFrom, AddsWords;
    var block := [Add(FromC), Move(4), Add(FromD), Move(4)];
    if n == 0 {
      NoOps(env, st);
      assert Pairs(0, st.c, st.d) == [];
    } else {
      var ops, s1 := Times(n, block), StateAfter(st, st.c);
      var s2, rest := StateAfter(s1, st.d), Pairs(n - 1, st.c, st.d);
      assert ops == block + Times(n - 1, block);
      assert ops[2..][2..] == Times(n - 1, block);
      if s1.pos + 4 <= |s1.section| { PairsRun(env, n - 1, s2); }
      AddThenRest(env, FromD, st.d, ops[2..], s1, rest, 8 * (n - 1));
      AddThenRest(env, FromC, st.c, ops, st, [st.d] + rest, 4 + 8 * (n - 1));
      assert Pairs(n, st.c, st.d) == [st.c] + ([st.d] + rest);
    }
  }

  lemma {:induction false} TriplesRun(env: Env, n: nat, st: State)
    requires n > 0
    ensures AddsWords(st, Triples(n, st.c, st.d), 12 * n,
                      Fold(env, Times(n, [Add(FromC), Move(4), Add(FromD), Move(4), Move(4)]), st))
    decreases n
  {
    hide AddAt, Gained, Fold, WordsFrom, AddsWords;
    var block := [Add(FromC), Move(4), Add(FromD), Move(4), Move(4)];
    var ops, s1 := Times(n, block), StateAfter(st, st.c);
    var s2 := StateAfter(s1, st.d);
    assert ops == block + Times(n - 1, block);
    var last := ops[2..][2..];
    assert last == [Move(4)] + Times(n - 1, block);
    if n == 1 {
      assert last == [Move(4)];
      MoveOnly(env, 4, s2);
      AddThenRest(env, FromD, st.d, ops[2..], s1, [], 4);
      AddThenRest(env, FromC, st.c, ops, st, [st.d] + [], 8);
      assert Triples(1, st.c, st.d) == [st.c] + ([st.d] + []);
    } else {
      var rest, s3 := Triples(n - 1, st.c, st.d), s2.(pos := s2.pos + 4);
      TriplesRun(env, n - 1, s3);
      assert last[1..] == Times(n - 1, block);
      SkipThenRest(env, last, s2, rest, 12 * (n - 1));
      AddThenRest(env, FromD, st.d, ops[2..], s1, [0] + rest, 4 + 12 * (n - 1));
      AddThenRest(env, FromC, st.c, ops, st, [st.d] + ([0] + rest), 8 + 12 * (n - 1));
      assert Triples(n, st.c, st.d) == [st.c] + ([st.d] + ([0] + rest));
    }
  }

  /** D, nothing, and again, without the last nothing. */
  function Alternate(n: nat, d: int): (values: seq<int>)
    requires n > 0
    ensures |values| == 2 * n - 1
    ensures forall k :: 0 <= k < |values| ==> values[k] == if k % 2 == 0 then d else 0
  {
    seq(2 * n - 1, k => if k % 2 == 0 then d else 0)
  }

  lemma {:induction false} MoveInTwo(env: Env, ops: seq<Op>, st: State)
    requires |ops| >= 2 && ops[0] == Add(FromD) && ops[1] == Move(8)
    ensures Fold(env, ops, st) == Fold(env, [Add(FromD), Move(4), Move(4)] + ops[2..], st)
  {
    hide AddAt;
    var two := [Add(FromD), Move(4), Move(4)] + ops[2..];
    AddStep(env, FromD, st.d, ops, st);
    AddStep(env, FromD, st.d, two, st);
    if st.pos + 4 <= |st.section| {
      hide Fold;
      var s1 := st.(section := AddAt(st.section, st.pos, st.d));
      MoveStep(env, 8, ops[1..], s1);
      MoveStep(env, 4, two[1..], s1);
      MoveStep(env, 4, two[1..][1..], s1.(pos := s1.pos + 4));
      assert two[1..][1..][1..] == ops[1..][1..] == ops[2..];
    }
  }

  lemma {:induction false} AlternateRun(env: Env, n: nat, st: State)
    requires n > 0
    ensures AddsWords(st, Alternate(n, st.d), 8 * n, Fold(env, Times(n, [Add(FromD), Move(8)]), st))
    decreases n
  {
    hide AddAt, Gained, Fold, WordsFrom, AddsWords;
    var block, s1 := [Add(FromD), Move(8)], StateAfter(st, st.d);
    var ops := Times(n, block);
    assert ops == block + Times(n - 1, block) && ops[2..] == Times(n - 1, block);
    MoveInTwo(env, ops, st);
    var two := [Add(FromD), Move(4), Move(4)] + ops[2..];
    assert two[2..] == [Move(4)] + Times(n - 1, block);
    if n == 1 {
      assert two[2..] == [Move(4)];
      MoveOnly(env, 4, s1);
      AddThenRest(env, FromD, st.d, two, st, [], 4);
      assert Alternate(1, st.d) == [st.d] + [];
    } else {
      var rest := Alternate(n - 1, st.d);
      AlternateRun(env, n - 1, s1.(pos := s1.pos + 4));
      assert two[2..][1..] == Times(n - 1, block);
      SkipThenRest(env, two[2..], s1, rest, 8 * (n - 1));
      AddThenRest(env, FromD, st.d, two, st, [0] + rest, 4 + 8 * (n - 1));
      assert Alternate(n, st.d) == [st.d] + ([0] + rest);
    }
  }

  // ----- imports

  /** How many imports there are from index `at` on. */
  function ImportsFrom(env: Env, at: nat): nat {
    if at > |env.imports| then 0 else |env.imports| - at
  }

  /** The next n imports were added word by word; or the imports or the words ran out before, the imports being
      looked at first, and just the words before that were added to. */
  ghost predicate AddsImports(env: Env, st: State, n: nat, out: Outcome) {
    var have, fit := ImportsFrom(env, st.importIndex), WordsFrom(st.section, st.pos);
    if n == 0 then out == Done(st)
    else if n <= have && n <= fit then
      out.Done? && Gained(st.section, out.st.section, st.pos, env.imports[st.importIndex..st.importIndex + n]) &&
      out.st == st.(section := out.st.section, pos := st.pos + 4 * n, importIndex := st.importIndex + n)
    else
      var m := if have <= fit then have else fit;
      out.Fail? && out.error == (if have <= fit then NoImport else OutOfRange) &&
      (m == 0 ==> out.st.section == st.section) &&
      (m > 0 ==> Gained(st.section, out.st.section, st.pos, env.imports[st.importIndex..st.importIndex + m]))
  }

  lemma {:induction false} ImportsRun(env: Env, n: nat, st: State)
    ensures AddsImports(env, st, n, Fold(env, Times(n, [Add(FromNextImport), BumpNext, Move(4)]), st))
    decreases n
  {
    hide AddAt, Gained;
    if n > 0 {
      var block := [Add(FromNextImport), BumpNext, Move(4)];
      var ops := Times(n, block);
      assert ops == block + Times(n - 1, block);
      var i := st.importIndex;
      if i < |env.imports| && st.pos + 4 <= |st.section| {
        var v := env.imports[i];
        var next := State(AddAt(st.section, st.pos, v), st.pos + 4, i + 1, st.c, st.d);
        ImportStep(env, v, ops, st);
        assert ops[3..] == Times(n - 1, block);
        ImportsRun(env, n - 1, next);
        hide Fold;
        ImportFirst(env, v, n, st, Fold(env, ops[3..], next));
      } else {
        assert Fold(env, ops, st) == Step(env, Add(FromNextImport), st);
      }
    }
  }

  lemma {:induction false} ImportStep(env: Env, v: int, ops: seq<Op>, st: State)
    requires |ops| >= 3 && ops[..3] == [Add(FromNextImport), BumpNext, Move(4)]
    requires Lookup(env, FromNextImport, st) == Value(v) && st.pos + 4 <= |st.section|
    ensures Fold(env, ops, st) ==
            Fold(env, ops[3..], State(AddAt(st.section, st.pos, v), st.pos + 4, st.importIndex + 1, st.c, st.d))
  {
    hide AddAt;
    assert ops[0] == ops[..3][0] && ops[1] == ops[..3][1] && ops[2] == ops[..3][2];
    AddStep(env, FromNextImport, v, ops, st);
    var s1 := st.(section := AddAt(st.section, st.pos, v));
    var s2 := s1.(importIndex := st.importIndex + 1);
    assert ops[1..][0] == BumpNext && Fold(env, ops[1..], s1) == Fold(env, ops[1..][1..], s2);
    MoveStep(env, 4, ops[1..][1..], s2);
    assert ops[1..][1..][1..] == ops[3..];
  }

  lemma {:induction false} ImportFirst(env: Env, v: int, n: nat, st: State, out: Outcome)
    requires n > 0 && st.importIndex < |env.imports| && env.imports[st.importIndex] == v
    requires st.pos + 4 <= |st.section|
    requires var next := State(AddAt(st.section, st.pos, v), st.pos + 4, st.importIndex + 1, st.c, st.d);
             AddsImports(env, next, n - 1, out)
    ensures AddsImports(env, st, n, out)
  {
    hide AddAt, Gained;
    var i, s1 := st.importIndex, AddAt(st.section, st.pos, v);
    var have, fit := ImportsFrom(env, i), WordsFrom(st.section, st.pos);
    var m := if n <= have && n <= fit then n else if have <= fit then have else fit;
    WordsFromNext(st.section, st.pos);
    SameRoom(st.section, s1, st.pos + 4);
    if m == 1 {
      NothingGained(s1, st.pos + 4);
    }
    var rest := env.imports[i + 1..i + m];
    assert env.imports[i..i + m] == [v] + rest;
    if m == 1 { assert rest == []; }
    GainedFirst(st.section, v, out.st.section, st.pos, rest);
  }

  // ----- the laws

  /** Nothing is what an empty stream does. */
  lemma {:induction false} EmptyDoes(env: Env, section: seq<Byte>, c: int, d: int)
    ensures Relocate([], env, section, c, d) == Done(State(section, 0, 0, c, d))
  {
  }

  /** Where a stream has come to. */
  ghost function Reached(words: seq<Word>, env: Env, section: seq<Byte>, c: int, d: int): State {
    Relocate(words, env, section, c, d).st
  }

  lemma {:induction false} SkipDoes(words: seq<Word>, env: Env, section: seq<Byte>, c: int, d: int, skip: nat, n: nat)
    requires Relocate(words, env, section, c, d).Done? && skip < 0x100 && n < 0x40
    ensures var st := Reached(words, env, section, c, d);
            AddsWords(st.(pos := st.pos + 4 * skip), seq(n, _ => st.d), 4 * n,
                      Relocate(words + [skip * 0x40 + n], env, section, c, d))
  {
    hide Fold, Meaning, Program, AddsWords;
    OneMore(words, Skip(skip, n), false, [skip * 0x40 + n], env, section, c, d);
    SkipMeans(env, skip, n, Reached(words, env, section, c, d));
  }

  lemma {:induction false} SkipMeans(env: Env, skip: nat, n: nat, st: State)
    ensures AddsWords(st.(pos := st.pos + 4 * skip), seq(n, _ => st.d), 4 * n, Fold(env, Meaning(Skip(skip, n)), st))
  {
    hide Fold, AddsWords;
    var ops := Meaning(Skip(skip, n));
    MoveStep(env, 4 * skip, ops, st);
    assert ops[1..] == Times(n, [Add(FromD), Move(4)]);
    CopiesRun(env, FromD, st.d, n, st.(pos := st.pos + 4 * skip));
  }

  lemma {:induction false} RunCDoes(words: seq<Word>, env: Env, section: seq<Byte>, c: int, d: int, n: nat)
    requires Relocate(words, env, section, c, d).Done? && 1 <= n <= 0x200
    ensures var st := Reached(words, env, section, c, d);
            AddsWords(st, seq(n, _ => st.c), 4 * n, Relocate(words + [0x4000 + n - 1], env, section, c, d))
  {
    hide Fold, AddsWords;
    var st := Reached(words, env, section, c, d);
    OneMore(words, RunC(n), false, [0x4000 + n - 1], env, section, c, d);
    CopiesRun(env, FromC, st.c, n, st);
  }

  lemma {:induction false} RunDDoes(words: seq<Word>, env: Env, section: seq<Byte>, c: int, d: int, n: nat)
    requires Relocate(words, env, section, c, d).Done? && 1 <= n <= 0x200
    ensures var st := Reached(words, env, section, c, d);
            AddsWords(st, seq(n, _ => st.d), 4 * n, Relocate(words + [0x4200 + n - 1], env, section, c, d))
  {
    hide Fold, AddsWords;
    var st := Reached(words, env, section, c, d);
    OneMore(words, RunD(n), false, [0x4200 + n - 1], env, section, c, d);
    CopiesRun(env, FromD, st.d, n, st);
  }

  lemma {:induction false} TVector12Does(words: seq<Word>, env: Env, section: seq<Byte>, c: int, d: int, n: nat)
    requires Relocate(words, env, section, c, d).Done? && 1 <= n <= 0x200
    ensures var st := Reached(words, env, section, c, d);
            AddsWords(st, Triples(n, st.c, st.d), 12 * n, Relocate(words + [0x4400 + n - 1], env, section, c, d))
  {
    hide Fold, AddsWords;
    var st := Reached(words, env, section, c, d);
    OneMore(words, TVector12(n), false, [0x4400 + n - 1], env, section, c, d);
    TriplesRun(env, n, st);
  }

  lemma {:induction false} TVector8Does(words: seq<Word>, env: Env, section: seq<Byte>, c: int, d: int, n: nat)
    requires Relocate(words, env, section, c, d).Done? && 1 <= n <= 0x200
    ensures var st := Reached(words, env, section, c, d);
            AddsWords(st, Pairs(n, st.c, st.d), 8 * n, Relocate(words + [0x4600 + n - 1], env, section, c, d))
  {
    hide Fold, AddsWords;
    var st := Reached(words, env, section, c, d);
    OneMore(words, TVector8(n), false, [0x4600 + n - 1], env, section, c, d);
    PairsRun(env, n, st);
  }

  lemma {:induction false} VTable8Does(words: seq<Word>, env: Env, section: seq<Byte>, c: int, d: int, n: nat)
    requires Relocate(words, env, section, c, d).Done? && 1 <= n <= 0x200
    ensures var st := Reached(words, env, section, c, d);
            AddsWords(st, Alternate(n, st.d), 8 * n, Relocate(words + [0x4800 + n - 1], env, section, c, d))
  {
    hide Fold, AddsWords;
    var st := Reached(words, env, section, c, d);
    OneMore(words, VTable8(n), false, [0x4800 + n - 1], env, section, c, d);
    AlternateRun(env, n, st);
  }

  lemma {:induction false} ImportRunDoes(words: seq<Word>, env: Env, section: seq<Byte>, c: int, d: int, n: nat)
    requires Relocate(words, env, section, c, d).Done? && 1 <= n <= 0x200
    ensures AddsImports(env, Reached(words, env, section, c, d), n,
                        Relocate(words + [0x4A00 + n - 1], env, section, c, d))
  {
    hide Fold, AddsImports;
    OneMore(words, ImportRun(n), false, [0x4A00 + n - 1], env, section, c, d);
    ImportsRun(env, n, Reached(words, env, section, c, d));
  }

  /** The one-word and the two-word form of an instruction with an index. */
  predicate Indexed(code: seq<Word>, short: nat, long: nat, index: nat, limit: nat)
    requires short + 0x200 <= 0x1_0000 && long + limit / 0x1_0000 <= 0x1_0000
  {
    (index < 0x200 && code == [short + index]) ||
    (index < limit && code == [long + index / 0x1_0000, index % 0x1_0000])
  }

  lemma {:induction false} AddOne(env: Env, src: Source, v: int, ops: seq<Op>, st: State)
    requires ops == [Add(src), Move(4)] && Lookup(env, src, st) == Value(v)
    ensures AddsWords(st, [v], 4, Fold(env, ops, st))
  {
    hide Fold, AddsWords;
    NoOps(env, StateAfter(st, v));
    assert ops[2..] == [] && [v] + [] == [v];
    AddThenRest(env, src, v, ops, st, [], 0);
  }

  lemma {:induction false} ImportDoes(words: seq<Word>, env: Env, section: seq<Byte>, c: int, d: int, code: seq<Word>,
                                      x: nat)
    requires Relocate(words, env, section, c, d).Done? && Indexed(code, 0x6000, 0xA400, x, 0x400_0000)
    ensures var st, out := Reached(words, env, section, c, d), Relocate(words + code, env, section, c, d);
            if x >= |env.imports| then out == Fail(st, NoImport)
            else AddsWords(if out.Done? then st.(importIndex := x + 1) else st, [env.imports[x]], 4, out)
  {
    hide Fold, Meaning, Program, AddsWords;
    OneMore(words, OneImport(x), |code| == 2, code, env, section, c, d);
    ImportMeans(env, x, Reached(words, env, section, c, d));
  }

  lemma {:induction false} ImportMeans(env: Env, x: nat, st: State)
    ensures var out := Fold(env, Meaning(OneImport(x)), st);
            if x >= |env.imports| then out == Fail(st, NoImport)
            else AddsWords(if out.Done? then st.(importIndex := x + 1) else st, [env.imports[x]], 4, out)
  {
    var ops := [Add(FromImport(x)), NextIs(x + 1), Move(4)];
    assert Meaning(OneImport(x)) == ops;
    hide AddsWords, AddAt, Meaning;
    Fold3(env, ops[0], ops[1], ops[2], st);
    if x < |env.imports| {
      var adds, later := [Add(FromImport(x)), Move(4)], st.(importIndex := x + 1);
      Fold2(env, adds[0], adds[1], st);
      Fold2(env, adds[0], adds[1], later);
      AddOne(env, FromImport(x), env.imports[x], adds, st);
      AddOne(env, FromImport(x), env.imports[x], adds, later);
    }
  }

  lemma {:induction false} SectionDoes(words: seq<Word>, env: Env, section: seq<Byte>, c: int, d: int,
                                       code: seq<Word>, x: nat)
    requires Relocate(words, env, section, c, d).Done? && Indexed(code, 0x6600, 0xB400, x, 0x40_0000)
    ensures var st, out := Reached(words, env, section, c, d), Relocate(words + code, env, section, c, d);
            if x >= |env.deltas| then out == Fail(st, NoSection) else AddsWords(st, [env.deltas[x]], 4, out)
  {
    hide Fold, Meaning, Program, AddsWords;
    OneMore(words, OneSection(x), |code| == 2, code, env, section, c, d);
    SectionMeans(env, x, Reached(words, env, section, c, d));
  }

  lemma {:induction false} SectionMeans(env: Env, x: nat, st: State)
    ensures var out := Fold(env, Meaning(OneSection(x)), st);
            if x >= |env.deltas| then out == Fail(st, NoSection) else AddsWords(st, [env.deltas[x]], 4, out)
  {
    var ops := [Add(FromSection(x)), Move(4)];
    assert Meaning(OneSection(x)) == ops;
    hide AddsWords, AddAt, Meaning;
    if x < |env.deltas| {
      AddOne(env, FromSection(x), env.deltas[x], ops, st);
    } else {
      Fold2(env, ops[0], ops[1], st);
    }
  }

  lemma {:induction false} SetCDoes(words: seq<Word>, env: Env, section: seq<Byte>, c: int, d: int, code: seq<Word>,
                                    x: nat)
    requires Relocate(words, env, section, c, d).Done? && Indexed(code, 0x6200, 0xB440, x, 0x40_0000)
    ensures var st, out := Reached(words, env, section, c, d), Relocate(words + code, env, section, c, d);
            out == if x >= |env.deltas| then Fail(st, NoSection) else Done(st.(c := env.deltas[x]))
  {
    OneMore(words, SetC(x), |code| == 2, code, env, section, c, d);
    assert Meaning(SetC(x)) == [LoadC(x)];
    Fold1(env, LoadC(x), Reached(words, env, section, c, d));
  }

  lemma {:induction false} SetDDoes(words: seq<Word>, env: Env, section: seq<Byte>, c: int, d: int, code: seq<Word>,
                                    x: nat)
    requires Relocate(words, env, section, c, d).Done? && Indexed(code, 0x6400, 0xB480, x, 0x40_0000)
    ensures var st, out := Reached(words, env, section, c, d), Relocate(words + code, env, section, c, d);
            out == if x >= |env.deltas| then Fail(st, NoSection) else Done(st.(d := env.deltas[x]))
  {
    OneMore(words, SetD(x), |code| == 2, code, env, section, c, d);
    assert Meaning(SetD(x)) == [LoadD(x)];
    Fold1(env, LoadD(x), Reached(words, env, section, c, d));
  }

  lemma {:induction false} AdvanceDoes(words: seq<Word>, env: Env, section: seq<Byte>, c: int, d: int, bytes: nat)
    requires Relocate(words, env, section, c, d).Done? && 1 <= bytes <= 0x1000
    ensures var st := Reached(words, env, section, c, d);
            Relocate(words + [0x8000 + bytes - 1], env, section, c, d) == Done(st.(pos := st.pos + bytes))
  {
    OneMore(words, Advance(bytes), false, [0x8000 + bytes - 1], env, section, c, d);
    assert Meaning(Advance(bytes)) == [Move(bytes)];
    Fold1(env, Move(bytes), Reached(words, env, section, c, d));
  }

  lemma {:induction false} PositionDoes(words: seq<Word>, env: Env, section: seq<Byte>, c: int, d: int, at: nat)
    requires Relocate(words, env, section, c, d).Done? && at < 0x400_0000
    ensures var st := Reached(words, env, section, c, d);
            Relocate(words + [0xA000 + at / 0x1_0000, at % 0x1_0000], env, section, c, d) == Done(st.(pos := at))
  {
    OneMore(words, Position(at), true, [0xA000 + at / 0x1_0000, at % 0x1_0000], env, section, c, d);
    assert Meaning(Position(at)) == [Seek(at)];
    Fold1(env, Seek(at), Reached(words, env, section, c, d));
  }

  lemma {:induction false} SubopDecodes(w: Word, subop: nat, x: nat)
    requires 3 <= subop < 0x10 && x < 0x40_0000 && w == 0xB400 + subop * 0x40 + x / 0x1_0000
    ensures Opcode(w) == Decoded(KLgSection, 2) && forall w2: Word :: Fields(KLgSection, w, w2) == BadSubop
  {
    assert w / 0x400 == 0x2D && w / 0x40 % 0x10 == subop;
    assert 0x5A <= w / 0x200 <= 0x5B && w / 0x1000 == 0xB && w / 0x4000 == 2;
  }

  lemma {:induction false} SubopToken(words: seq<Word>, w: Word, w2: Word, subop: nat, x: nat)
    requires 3 <= subop < 0x10 && x < 0x40_0000 && w == 0xB400 + subop * 0x40 + x / 0x1_0000
    ensures var tok := Token(|words|, |[w, w2]|, KLgSection);
            TokenOf(words + [w, w2], tok) && Operands(words + [w, w2], tok) == BadSubop
  {
    var all := words + [w, w2];
    SubopDecodes(w, subop, x);
    hide Opcode, Fields;
    assert all[|words|] == w && all[|words| + 1] == w2;
  }

  /** The long section form has three sub-operations; the other thirteen are refused. */
  lemma {:induction false} SubopRefused(words: seq<Word>, env: Env, section: seq<Byte>, c: int, d: int, w: Word,
                                        w2: Word, subop: nat, x: nat)
    requires Relocate(words, env, section, c, d).Done? && 3 <= subop < 0x10 && x < 0x40_0000
    requires w == 0xB400 + subop * 0x40 + x / 0x1_0000 && w2 == x % 0x1_0000
    ensures Relocate(words + [w, w2], env, section, c, d) == Fail(Reached(words, env, section, c, d), UnknownSubop)
  {
    SubopToken(words, w, w2, subop, x);
    TrapMeans(env, Reached(words, env, section, c, d));
    hide Fold, Program, Operands, TokenOf, Meaning;
    OneToken(words, [w, w2], KLgSection, BadSubop, env, section, c, d);
  }

  lemma {:induction false} TrapMeans(env: Env, st: State)
    ensures Fold(env, Meaning(BadSubop), st) == Fail(st, UnknownSubop)
  {
    assert Meaning(BadSubop) == [Trap(UnknownSubop)];
    Fold1(env, Trap(UnknownSubop), st);
  }

  /** No instruction starts with such a word. */
  predicate Unassigned(w: Word) {
    0x4C00 <= w < 0x6000 || 0x6800 <= w < 0x8000 || 0xA800 <= w < 0xB000 || 0xB800 <= w
  }

  /** Such a word is the first of two. */
  predicate FirstOfTwo(w: Word) {
    0xA000 <= w < 0xA800 || 0xB000 <= w < 0xB800
  }

  /** An unassigned word is refused where it stands, and so is a two-word form at the end without its second word. */
  lemma {:induction false} WordRefused(words: seq<Word>, env: Env, section: seq<Byte>, c: int, d: int, w: Word,
                                       rest: seq<Word>)
    requires Relocate(words, env, section, c, d).Done? && (Unassigned(w) || (FirstOfTwo(w) && rest == []))
    ensures Relocate(words + ([w] + rest), env, section, c, d) ==
            Fail(Reached(words, env, section, c, d), if Unassigned(w) then UnknownOpcode else Truncated)
  {
    WordDecodes(w);
    hide Fold, Program, Opcode, Unassigned, FirstOfTwo;
    var all, error := words + ([w] + rest), if Unassigned(w) then UnknownOpcode else Truncated;
    assert all[|words|] == w;
    RunsOn(words, [w] + rest, env, section, c, d);
    hide Remaining, List, TokenOf, TokenOps;
    RemainingStep(all, List(words, 0).tokens, |words|);
    Fold1(env, Trap(error), Reached(words, env, section, c, d));
  }

  lemma {:induction false} WordDecodes(w: Word)
    ensures Unassigned(w) ==> Opcode(w).BadOpcode?
    ensures FirstOfTwo(w) ==> !Unassigned(w) && Opcode(w).Decoded? && Opcode(w).length == 2
  {
  }
}
