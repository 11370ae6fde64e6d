/** Where the values a relocation stream adds come from (src/cwhost/pef.py, `apply_relocations`). */
module RelocationOrigins {
  import opened Bytes
  import opened Patches
  import opened RelocationMeaning
  import opened RelocationTheorems

  /** An entry of one of the two tables, or what C or D held at the start. */
  datatype Origin = OfImport(index: nat) | OfSection(index: nat) | StartC | StartD

  /** An add: its place, and where its value comes from. */
  datatype Mark = Mark(at: nat, origin: Origin)

  /** The registers of the interpreter, with origins in the place of values. */
  datatype Trail = Trail(pos: nat, importIndex: nat, c: Origin, d: Origin)

  function OriginOf(src: Source, t: Trail): Origin {
    match src
    case FromC => t.c
    case FromD => t.d
    case FromSection(s) => OfSection(s)
    case FromImport(i) => OfImport(i)
    case FromNextImport => OfImport(t.importIndex)
  }

  /** The tables have it. */
  predicate Known(o: Origin, sections: nat, imports: nat) {
    (o.OfImport? ==> o.index < imports) && (o.OfSection? ==> o.index < sections)
  }

  function TrailAfter(op: Op, t: Trail): Trail {
    match op
    case Move(bytes) => t.(pos := t.pos + bytes)
    case Seek(at) => t.(pos := at)
    case LoadC(s) => t.(c := OfSection(s))
    case LoadD(s) => t.(d := OfSection(s))
    case NextIs(i) => t.(importIndex := i)
    case BumpNext => t.(importIndex := t.importIndex + 1)
    case _ => t
  }

  /** The op fails on tables and a section of these lengths. */
  predicate Stops(op: Op, t: Trail, sections: nat, imports: nat, size: nat) {
    match op
    case Add(src) => !Known(OriginOf(src, t), sections, imports) || t.pos + 4 > size
    case LoadC(s) => s >= sections
    case LoadD(s) => s >= sections
    case Trap(_) => true
    case _ => false
  }

  /** The adds of the ops, up to the first op that fails. */
  function Marks(ops: seq<Op>, t: Trail, sections: nat, imports: nat, size: nat): seq<Mark>
    decreases |ops|
  {
    if ops == [] || Stops(ops[0], t, sections, imports, size) then []
    else
      (if ops[0].Add? then [Mark(t.pos, OriginOf(ops[0].src, t))] else []) +
      Marks(ops[1..], TrailAfter(ops[0], t), sections, imports, size)
  }

  /** The value of an origin. */
  function Worth(o: Origin, env: Env, c: int, d: int): int
    requires Known(o, |env.deltas|, |env.imports|)
  {
    match o
    case OfImport(i) => env.imports[i]
    case OfSection(s) => env.deltas[s]
    case StartC => c
    case StartD => d
  }

  ghost predicate Follows(t: Trail, st: State, env: Env, c: int, d: int) {
    t.pos == st.pos && t.importIndex == st.importIndex &&
    Known(t.c, |env.deltas|, |env.imports|) && Known(t.d, |env.deltas|, |env.imports|) &&
    st.c == Worth(t.c, env, c, d) && st.d == Worth(t.d, env, c, d)
  }

  /** The k-th add is made where the k-th mark is, with the value of its origin. */
  ghost predicate Bears(adds: seq<Patch>, marks: seq<Mark>, env: Env, c: int, d: int) {
    |adds| == |marks| &&
    forall k :: 0 <= k < |adds| ==>
      adds[k].at == marks[k].at && Known(marks[k].origin, |env.deltas|, |env.imports|) &&
      adds[k].value == Worth(marks[k].origin, env, c, d)
  }

  /** Whatever the values, an op list adds at its marks the values of their origins. */
  lemma {:induction false} AddsBear(env: Env, ops: seq<Op>, st: State, t: Trail, c: int, d: int)
    requires Follows(t, st, env, c, d)
    ensures Bears(Adds(env, ops, st), Marks(ops, t, |env.deltas|, |env.imports|, |st.section|), env, c, d)
    decreases |ops|
  {
    hide AddAt, Worth;
    if ops != [] {
      var o := if ops[0].Add? then OriginOf(ops[0].src, t) else StartC;
      OriginWorth(env, if ops[0].Add? then ops[0].src else FromC, st, t, c, d);
      LoadsWorth(env, c, d);
      match Step(env, ops[0], st)
      case Fail(_, _) =>
      case Done(next) =>
        AddsBear(env, ops[1..], next, TrailAfter(ops[0], t), c, d);
    }
  }

  lemma {:induction false} OriginWorth(env: Env, src: Source, st: State, t: Trail, c: int, d: int)
    requires Follows(t, st, env, c, d)
    ensures var o := OriginOf(src, t);
            if Known(o, |env.deltas|, |env.imports|) then Lookup(env, src, st) == Value(Worth(o, env, c, d))
            else Lookup(env, src, st).NoValue?
  {
  }

  lemma {:induction false} LoadsWorth(env: Env, c: int, d: int)
    ensures forall s: nat :: s < |env.deltas| ==> Worth(OfSection(s), env, c, d) == env.deltas[s]
  {
  }

  /** The marks of a stream, from its start. */
  function StreamMarks(ops: seq<Op>, sections: nat, imports: nat, size: nat): seq<Mark> {
    Marks(ops, Trail(0, 0, StartC, StartD), sections, imports, size)
  }
}
