/** Pattern-initialised data (src/cwhost/pef.py, `varint` and `PEF.pidata`). */
module PatternData {
  import opened Bytes

  // ----- variable-length integers

  datatype Number = Number(value: nat, next: nat) | Truncated

  function Varint(buf: seq<Byte>, pos: nat, acc: nat): (r: Number)
    ensures r.Number? ==> pos < r.next <= |buf|
    decreases |buf| - pos
  {
    if pos >= |buf| then Truncated
    else
      var v := acc * 128 + buf[pos] % 128;
      if buf[pos] < 128 then Number(v, pos + 1) else Varint(buf, pos + 1, v)
  }

  method ReadVarint(buf: seq<Byte>, pos: nat) returns (r: Number)
    ensures r == Varint(buf, pos, 0)
  {
    var value: nat, p := 0, pos;
    while true
      invariant Varint(buf, pos, 0) == Varint(buf, p, value)
      decreases |buf| - p
    {
      if p >= |buf| {
        return Truncated;
      }
      var b: int := buf[p];
      p := p + 1;
      value := value * 128 + b % 128;
      if b < 128 {
        return Number(value, p);
      }
    }
  }

  type Septet = d: int | 0 <= d < 128

  /** The number a non-empty list of base-128 digits stands for; leading zeros are allowed. */
  function DigitsValue(digits: seq<Septet>, acc: nat): nat {
    if digits == [] then acc else DigitsValue(digits[1..], acc * 128 + digits[0])
  }

  function EncodeDigits(digits: seq<Septet>): (s: seq<Byte>)
    ensures |s| == |digits|
  {
    if digits == [] then []
    else [digits[0] as int + if |digits| > 1 then 128 else 0] + EncodeDigits(digits[1..])
  }

  /** The bytes `x` stand at `pos`. */
  ghost predicate Holds(packed: seq<Byte>, pos: nat, x: seq<Byte>) {
    pos + |x| <= |packed| && packed[pos..pos + |x|] == x
  }

  lemma {:induction false} HoldsSplit(packed: seq<Byte>, pos: nat, a: seq<Byte>, b: seq<Byte>)
    ensures Holds(packed, pos, a + b) <==> Holds(packed, pos, a) && Holds(packed, pos + |a|, b)
  {
    if Holds(packed, pos, a) && Holds(packed, pos + |a|, b) {
      assert packed[pos..pos + |a + b|] == packed[pos..pos + |a|] + packed[pos + |a|..pos + |a| + |b|];
    }
    if Holds(packed, pos, a + b) {
      assert packed[pos..pos + |a|] == (a + b)[..|a|] == a;
      assert packed[pos + |a|..pos + |a| + |b|] == (a + b)[|a|..] == b;
    }
  }

  /** A varint of any length reads back, wherever it stands. */
  lemma {:induction false} VarintReads(packed: seq<Byte>, pos: nat, digits: seq<Septet>, acc: nat)
    requires digits != [] && Holds(packed, pos, EncodeDigits(digits))
    ensures Varint(packed, pos, acc) == Number(DigitsValue(digits, acc), pos + |digits|)
    decreases |digits|
  {
    var code := EncodeDigits(digits);
    assert packed[pos] == packed[pos..pos + |code|][0] == code[0];
    if |digits| == 1 {
      assert digits[1..] == [];
    } else {
      HoldsSplit(packed, pos, [code[0]], EncodeDigits(digits[1..]));
      VarintReads(packed, pos + 1, digits[1..], acc * 128 + digits[0]);
    }
  }

  // ----- one instruction, as the source decodes it

  /** The bytes an instruction appends and the position after it. */
  datatype Piece = Piece(bytes: seq<Byte>, next: nat) | Short

  /** Opcode 3: the common bytes around `repeats` customs read one after another from `at`. */
  function Interleaved(packed: seq<Byte>, common: seq<Byte>, at: nat, custom: nat, repeats: nat): seq<Byte>
    decreases repeats
  {
    if repeats == 0 then common
    else common + (Slice(packed, at, at + custom) + Interleaved(packed, common, at + custom, custom, repeats - 1))
  }

  function DecodeCount(packed: seq<Byte>, pos: nat): (r: Number)
    requires pos < |packed|
    ensures r.Number? ==> pos < r.next <= |packed|
  {
    if packed[pos] % 32 == 0 then Varint(packed, pos + 1, 0) else Number(packed[pos] % 32, pos + 1)
  }

  /** The three sizes of opcodes 3 and 4. A common size of zero is read a second time. */
  datatype Sizes = Sizes(common: nat, custom: nat, repeats: nat, next: nat) | NoSizes

  function DecodeSizes(packed: seq<Byte>, count: nat, pos: nat): (r: Sizes)
    ensures r.Sizes? ==> pos <= r.next
  {
    match (if count != 0 then Number(count, pos) else Varint(packed, pos, 0))
    case Truncated => NoSizes
    case Number(common, p1) =>
      match Varint(packed, p1, 0)
      case Truncated => NoSizes
      case Number(custom, p2) =>
        match Varint(packed, p2, 0)
        case Truncated => NoSizes
        case Number(repeats, p3) => Sizes(common, custom, repeats, p3)
  }

  function CustomBytes(custom: nat, repeats: nat): nat {
    custom * repeats
  }

  lemma {:induction false} MulSucc(custom: nat, n: nat)
    requires n > 0
    ensures CustomBytes(custom, n) == CustomBytes(custom, n - 1) + custom
  {
  }

  lemma {:induction false} CustomZero(custom: nat)
    ensures CustomBytes(custom, 0) == 0
  {
  }

  function DecodeInterleave(packed: seq<Byte>, block: bool, count: nat, pos: nat): (r: Piece)
    ensures r.Piece? ==> r.next >= pos
  {
    match DecodeSizes(packed, count, pos)
    case NoSizes => Short
    case Sizes(common, custom, repeats, p) =>
      var total := CustomBytes(custom, repeats);
      if block then
        Piece(Interleaved(packed, Slice(packed, p, p + common), p + common, custom, repeats), p + common + total)
      else
        Piece(Interleaved(Slice(packed, p, p + total), Zeros(common), 0, custom, repeats), p + total)
  }

  function DecodeRepeat(packed: seq<Byte>, count: nat, pos: nat): (r: Piece)
    ensures r.Piece? ==> r.next >= pos
  {
    match Varint(packed, pos, 0)
    case Truncated => Short
    case Number(repeats, p) => Piece(Times(repeats + 1, Slice(packed, p, p + count)), p + count)
  }

  function DecodeBody(packed: seq<Byte>, opcode: nat, count: nat, p: nat): (r: Piece)
    ensures r.Piece? ==> r.next >= p
  {
    if opcode == 0 then Piece(Zeros(count), p)
    else if opcode == 1 then Piece(Slice(packed, p, p + count), p + count)
    else if opcode == 2 then DecodeRepeat(packed, count, p)
    else if opcode == 3 then DecodeInterleave(packed, true, count, p)
    else if opcode == 4 then DecodeInterleave(packed, false, count, p)
    else Piece([], p)  // reserved: skipped
  }

  function DecodeOne(packed: seq<Byte>, pos: nat): (r: Piece)
    requires pos < |packed|
    ensures r.Piece? ==> r.next > pos
  {
    match DecodeCount(packed, pos)
    case Truncated => Short
    case Number(count, p) => DecodeBody(packed, packed[pos] / 32, count, p)
  }

  datatype Expansion = Expanded(bytes: seq<Byte>) | ShortInteger | WrongLength

  /** The whole loop: decode until the input or the wanted size is used up. */
  function ExpandFrom(packed: seq<Byte>, pos: nat, output: seq<Byte>, size: nat): Expansion
    decreases |packed| - pos
  {
    if pos < |packed| && |output| < size then
      match DecodeOne(packed, pos)
      case Short => ShortInteger
      case Piece(bytes, next) => ExpandFrom(packed, next, output + bytes, size)
    else if |output| != size then WrongLength
    else Expanded(output)
  }

  // ----- the source's loops

  method Repeated(raw: seq<Byte>, n: nat) returns (out: seq<Byte>)
    ensures out == Times(n, raw)
  {
    out := [];
    var i := 0;
    while i < n
      invariant i <= n && Times(n, raw) == out + Times(n - i, raw)
    {
      assert out + (raw + Times(n - i - 1, raw)) == out + raw + Times(n - i - 1, raw);
      out := out + raw;
      i := i + 1;
    }
  }

  /** The interleaving loops of opcodes 3 and 4. */
  method Interleave(source: seq<Byte>, common: seq<Byte>, at: nat, custom: nat, repeats: nat) returns (out: seq<Byte>)
    ensures out == Interleaved(source, common, at, custom, repeats)
  {
    hide CustomBytes, Slice;
    out := [];
    var repeat := 0;
    CustomZero(custom);
    while repeat < repeats
      invariant repeat <= repeats
      invariant Interleaved(source, common, at, custom, repeats) ==
                out + Interleaved(source, common, at + CustomBytes(custom, repeat), custom, repeats - repeat)
    {
      MulSucc(custom, repeat + 1);
      var piece := Slice(source, at + CustomBytes(custom, repeat), at + CustomBytes(custom, repeat + 1));
      ghost var rest := Interleaved(source, common, at + CustomBytes(custom, repeat + 1), custom, repeats - repeat - 1);
      Regroup(out, common, piece, rest);
      out := out + common;
      out := out + piece;
      repeat := repeat + 1;
    }
    out := out + common;
  }

  method InterleaveAt(packed: seq<Byte>, block: bool, count: nat, pos: nat) returns (r: Piece)
    ensures r == DecodeInterleave(packed, block, count, pos)
  {
    hide Varint, Interleaved, Slice;
    var common := Number(count, pos);
    if count == 0 {
      common := ReadVarint(packed, pos);
      if common.Truncated? {
        return Short;
      }
    }
    var custom := ReadVarint(packed, common.next);
    if custom.Truncated? {
      return Short;
    }
    var repeats := ReadVarint(packed, custom.next);
    if repeats.Truncated? {
      return Short;
    }
    var start, total := repeats.next, CustomBytes(custom.value, repeats.value);
    var out;
    if block {
      var data := Slice(packed, start, start + common.value);
      out := Interleave(packed, data, start + common.value, custom.value, repeats.value);
      return Piece(out, start + common.value + total);
    }
    var customData := Slice(packed, start, start + total);
    out := Interleave(customData, Zeros(common.value), 0, custom.value, repeats.value);
    return Piece(out, start + total);
  }

  method DecodeAt(packed: seq<Byte>, pos: nat) returns (r: Piece)
    requires pos < |packed|
    ensures r == DecodeOne(packed, pos)
  {
    hide Varint, Slice, DecodeInterleave, Zeros;
    var opcode, count: nat, p: nat := packed[pos] / 32, packed[pos] % 32, pos + 1;
    if count == 0 {
      var n := ReadVarint(packed, p);
      if n.Truncated? {
        return Short;
      }
      count, p := n.value, n.next;
    }
    if opcode == 0 {
      return Piece(Zeros(count), p);
    }
    if opcode == 1 {
      return Piece(Slice(packed, p, p + count), p + count);
    }
    if opcode == 2 {
      var n := ReadVarint(packed, p);
      if n.Truncated? {
        return Short;
      }
      var out := Repeated(Slice(packed, n.next, n.next + count), n.value + 1);
      return Piece(out, n.next + count);
    }
    if opcode == 3 || opcode == 4 {
      r := InterleaveAt(packed, opcode == 3, count, p);
      return;
    }
    return Piece([], p);
  }

  method Expand(packed: seq<Byte>, size: nat) returns (r: Expansion)
    ensures r == ExpandFrom(packed, 0, [], size)
  {
    var position, output := 0, [];
    while position < |packed| && |output| < size
      invariant ExpandFrom(packed, 0, [], size) == ExpandFrom(packed, position, output, size)
      decreases |packed| - position
    {
      var piece := DecodeAt(packed, position);
      if piece.Short? {
        return ShortInteger;
      }
      output := output + piece.bytes;
      position := piece.next;
    }
    if |output| != size {
      return WrongLength;
    }
    return Expanded(output);
  }

  // ----- the format: instructions, their encoding and what they mean

  /** A count is held in the instruction byte or, behind a zero there, as a varint. */
  datatype Count = InByte(n: nat) | AsVarint(digits: seq<Septet>)

  predicate GoodCount(c: Count) {
    match c case InByte(n) => 1 <= n < 32 case AsVarint(digits) => digits != []
  }

  function CountValue(c: Count): nat {
    match c case InByte(n) => n case AsVarint(digits) => DigitsValue(digits, 0)
  }

  function EncodeHead(opcode: nat, c: Count): (s: seq<Byte>)
    requires opcode < 8 && GoodCount(c)
    ensures |s| > 0
  {
    match c
    case InByte(n) => [(opcode * 32 + n) as int]
    case AsVarint(digits) => [opcode * 32] + EncodeDigits(digits)
  }

  datatype Pattern =
    | ZeroRun(count: Count)
    | CopyBlock(count: Count, data: seq<Byte>)
    | RepeatBlock(count: Count, extra: seq<Septet>, data: seq<Byte>)
    | InterleaveBlock(count: Count, custom: seq<Septet>, repeats: seq<Septet>, data: seq<Byte>, customs: seq<seq<Byte>>)
    | InterleaveZero(count: Count, custom: seq<Septet>, repeats: seq<Septet>, customs: seq<seq<Byte>>)

  ghost predicate GoodCustoms(custom: seq<Septet>, repeats: seq<Septet>, customs: seq<seq<Byte>>) {
    custom != [] && repeats != [] && |customs| == DigitsValue(repeats, 0) &&
    forall k :: 0 <= k < |customs| ==> |customs[k]| == DigitsValue(custom, 0)
  }

  ghost predicate GoodPattern(p: Pattern) {
    GoodCount(p.count) &&
    match p
    case ZeroRun(_) => true
    case CopyBlock(count, data) => |data| == CountValue(count)
    case RepeatBlock(count, extra, data) => extra != [] && |data| == CountValue(count)
    case InterleaveBlock(count, custom, repeats, data, customs) =>
      CountValue(count) > 0 && |data| == CountValue(count) && GoodCustoms(custom, repeats, customs)
    case InterleaveZero(count, custom, repeats, customs) =>
      CountValue(count) > 0 && GoodCustoms(custom, repeats, customs)
  }

  function Concat(parts: seq<seq<Byte>>): seq<Byte> {
    if parts == [] then [] else parts[0] + Concat(parts[1..])
  }

  function Encode(p: Pattern): seq<Byte>
    requires GoodCount(p.count)
  {
    match p
    case ZeroRun(count) => EncodeHead(0, count)
    case CopyBlock(count, data) => EncodeHead(1, count) + data
    case RepeatBlock(count, extra, data) => EncodeHead(2, count) + EncodeDigits(extra) + data
    case InterleaveBlock(count, custom, repeats, data, customs) =>
      EncodeHead(3, count) + EncodeDigits(custom) + EncodeDigits(repeats) + data + Concat(customs)
    case InterleaveZero(count, custom, repeats, customs) =>
      EncodeHead(4, count) + EncodeDigits(custom) + EncodeDigits(repeats) + Concat(customs)
  }

  /** The common bytes before, between and after the customs. */
  function Around(common: seq<Byte>, customs: seq<seq<Byte>>): seq<Byte> {
    if customs == [] then common else common + (customs[0] + Around(common, customs[1..]))
  }

  function PatternBytes(p: Pattern): seq<Byte> {
    match p
    case ZeroRun(count) => Zeros(CountValue(count))
    case CopyBlock(_, data) => data
    case RepeatBlock(_, extra, data) => Times(DigitsValue(extra, 0) + 1, data)
    case InterleaveBlock(_, _, _, data, customs) => Around(data, customs)
    case InterleaveZero(count, _, _, customs) => Around(Zeros(CountValue(count)), customs)
  }

  lemma {:induction false} HeadReads(packed: seq<Byte>, pos: nat, opcode: nat, c: Count)
    requires opcode < 8 && GoodCount(c) && Holds(packed, pos, EncodeHead(opcode, c))
    ensures pos < |packed| && packed[pos] / 32 == opcode
    ensures DecodeCount(packed, pos) == Number(CountValue(c), pos + |EncodeHead(opcode, c)|)
  {
    var head := EncodeHead(opcode, c);
    assert packed[pos] == packed[pos..pos + |head|][0] == head[0];
    hide Varint, EncodeDigits, DigitsValue;
    if c.AsVarint? {
      HoldsSplit(packed, pos, [opcode * 32], EncodeDigits(c.digits));
      VarintReads(packed, pos + 1, c.digits, 0);
    }
  }

  lemma {:induction false} InterleavedReads(packed: seq<Byte>, pos: nat, customs: seq<seq<Byte>>, common: seq<Byte>,
                                            custom: nat)
    requires forall k :: 0 <= k < |customs| ==> |customs[k]| == custom
    requires Holds(packed, pos, Concat(customs))
    ensures |Concat(customs)| == CustomBytes(custom, |customs|)
    ensures Interleaved(packed, common, pos, custom, |customs|) == Around(common, customs)
    decreases |customs|
  {
    hide Slice, CustomBytes, Holds;
    CustomZero(custom);
    if customs != [] {
      HoldsSplit(packed, pos, customs[0], Concat(customs[1..]));
      InterleavedReads(packed, pos + custom, customs[1..], common, custom);
      HoldsIsSlice(packed, pos, customs[0]);
      MulSucc(custom, |customs|);
    }
  }

  /** Decoding an encoded instruction yields its meaning and stops right behind it. */
  lemma {:induction false} OneReads(packed: seq<Byte>, pos: nat, p: Pattern)
    requires GoodPattern(p) && Holds(packed, pos, Encode(p))
    ensures pos < |packed| && DecodeOne(packed, pos) == Piece(PatternBytes(p), pos + |Encode(p)|)
  {
    hide Varint, Interleaved, Around, Holds, EncodeDigits, DigitsValue, DecodeCount, DecodeInterleave, DecodeRepeat;
    hide EncodeHead, Slice;
    match p
    case ZeroRun(count) =>
      HeadReads(packed, pos, 0, count);
    case CopyBlock(count, data) =>
      CopyBlockReads(packed, pos, p);
    case RepeatBlock(count, extra, data) =>
      RepeatBlockReads(packed, pos, p);
    case InterleaveBlock(count, custom, repeats, data, customs) =>
      InterleaveBlockReads(packed, pos, p);
    case InterleaveZero(count, custom, repeats, customs) =>
      InterleaveZeroReads(packed, pos, p);
  }

  lemma {:induction false} CopyBlockReads(packed: seq<Byte>, pos: nat, p: Pattern)
    requires GoodPattern(p) && p.CopyBlock? && Holds(packed, pos, Encode(p))
    ensures pos < |packed| && DecodeOne(packed, pos) == Piece(PatternBytes(p), pos + |Encode(p)|)
  {
    hide Varint, Holds, EncodeDigits, DigitsValue, DecodeCount, EncodeHead, Slice;
    var head := EncodeHead(1, p.count);
    HoldsSplit(packed, pos, head, p.data);
    HeadReads(packed, pos, 1, p.count);
    HoldsIsSlice(packed, pos + |head|, p.data);
  }

  lemma {:induction false} RepeatBlockReads(packed: seq<Byte>, pos: nat, p: Pattern)
    requires GoodPattern(p) && p.RepeatBlock? && Holds(packed, pos, Encode(p))
    ensures pos < |packed| && DecodeOne(packed, pos) == Piece(PatternBytes(p), pos + |Encode(p)|)
  {
    hide Varint, Holds, EncodeDigits, DigitsValue, DecodeCount, EncodeHead, Slice, Times;
    var head, extra := EncodeHead(2, p.count), EncodeDigits(p.extra);
    SizesSplit(packed, pos, head, extra, p.data);
    HeadReads(packed, pos, 2, p.count);
    VarintReads(packed, pos + |head|, p.extra, 0);
    HoldsIsSlice(packed, pos + |head| + |extra|, p.data);
  }

  lemma {:induction false} HoldsIsSlice(packed: seq<Byte>, pos: nat, x: seq<Byte>)
    requires Holds(packed, pos, x)
    ensures pos + |x| <= |packed| && Slice(packed, pos, pos + |x|) == x
  {
  }

  lemma {:induction false} SizesSplit(packed: seq<Byte>, pos: nat, head: seq<Byte>, custom: seq<Byte>,
                                      repeats: seq<Byte>)
    requires Holds(packed, pos, head + custom + repeats)
    ensures Holds(packed, pos, head) && Holds(packed, pos + |head|, custom)
    ensures Holds(packed, pos + |head| + |custom|, repeats)
  {
    HoldsSplit(packed, pos, head + custom, repeats);
    HoldsSplit(packed, pos, head, custom);
  }

  /** The sizes of opcodes 3 and 4 read back when the common size is not zero. */
  lemma {:induction false} SizesReadAfter(packed: seq<Byte>, pos: nat, count: nat, custom: seq<Septet>,
                                          repeats: seq<Septet>)
    requires custom != [] && repeats != [] && count > 0
    requires Holds(packed, pos, EncodeDigits(custom)) && Holds(packed, pos + |custom|, EncodeDigits(repeats))
    ensures DecodeSizes(packed, count, pos) ==
            Sizes(count, DigitsValue(custom, 0), DigitsValue(repeats, 0), pos + |custom| + |repeats|)
  {
    VarintReads(packed, pos, custom, 0);
    VarintReads(packed, pos + |custom|, repeats, 0);
  }

  lemma {:induction false} InterleaveBlockReads(packed: seq<Byte>, pos: nat, p: Pattern)
    requires GoodPattern(p) && p.InterleaveBlock? && Holds(packed, pos, Encode(p))
    ensures pos < |packed| && DecodeOne(packed, pos) == Piece(PatternBytes(p), pos + |Encode(p)|)
  {
    hide Varint, Interleaved, Around, Holds, EncodeDigits, DigitsValue, DecodeCount, EncodeHead, DecodeSizes, Slice;
    var head, custom, repeats := EncodeHead(3, p.count), EncodeDigits(p.custom), EncodeDigits(p.repeats);
    var sizes := head + custom + repeats;
    HoldsSplit(packed, pos, sizes + p.data, Concat(p.customs));
    HoldsSplit(packed, pos, sizes, p.data);
    SizesSplit(packed, pos, head, custom, repeats);
    HeadReads(packed, pos, 3, p.count);
    SizesReadAfter(packed, pos + |head|, CountValue(p.count), p.custom, p.repeats);
    HoldsIsSlice(packed, pos + |sizes|, p.data);
    InterleavedReads(packed, pos + |sizes| + |p.data|, p.customs, p.data, DigitsValue(p.custom, 0));
  }

  lemma {:induction false} InterleaveZeroReads(packed: seq<Byte>, pos: nat, p: Pattern)
    requires GoodPattern(p) && p.InterleaveZero? && Holds(packed, pos, Encode(p))
    ensures pos < |packed| && DecodeOne(packed, pos) == Piece(PatternBytes(p), pos + |Encode(p)|)
  {
    hide Varint, Interleaved, Around, Holds, EncodeDigits, DigitsValue, DecodeCount, EncodeHead, DecodeSizes, Slice;
    var head, custom, repeats := EncodeHead(4, p.count), EncodeDigits(p.custom), EncodeDigits(p.repeats);
    var sizes := head + custom + repeats;
    HoldsSplit(packed, pos, sizes, Concat(p.customs));
    SizesSplit(packed, pos, head, custom, repeats);
    HeadReads(packed, pos, 4, p.count);
    SizesReadAfter(packed, pos + |head|, CountValue(p.count), p.custom, p.repeats);
    HoldsIsSlice(packed, pos + |sizes|, Concat(p.customs));
    HoldsItself(Concat(p.customs));
    InterleavedReads(Concat(p.customs), 0, p.customs, Zeros(CountValue(p.count)), DigitsValue(p.custom, 0));
  }

  lemma {:induction false} HoldsItself(x: seq<Byte>)
    ensures Holds(x, 0, x)
  {
  }

  // ----- whole streams

  ghost predicate AllGood(ps: seq<Pattern>) {
    forall k :: 0 <= k < |ps| ==> GoodCount(ps[k].count) && GoodPattern(ps[k])
  }

  ghost function EncodeAll(ps: seq<Pattern>): seq<Byte>
    requires AllGood(ps)
  {
    if ps == [] then [] else Encode(ps[0]) + EncodeAll(ps[1..])
  }

  function AllBytes(ps: seq<Pattern>): seq<Byte> {
    if ps == [] then [] else PatternBytes(ps[0]) + AllBytes(ps[1..])
  }

  lemma {:induction false} ExpandReads(packed: seq<Byte>, pos: nat, ps: seq<Pattern>, output: seq<Byte>, size: nat)
    requires AllGood(ps) && pos <= |packed| && packed[pos..] == EncodeAll(ps)
    requires |output| + |AllBytes(ps)| == size
    ensures ExpandFrom(packed, pos, output, size) == Expanded(output + AllBytes(ps))
    decreases |ps|
  {
    hide DecodeOne, PatternBytes, Encode, GoodPattern, GoodCount;
    if |output| == size {
      assert AllBytes(ps) == [] && output + [] == output;
    } else {
      var p := ps[0];
      assert Holds(packed, pos, EncodeAll(ps));
      HoldsSplit(packed, pos, Encode(p), EncodeAll(ps[1..]));
      OneReads(packed, pos, p);
      ExpandReads(packed, pos + |Encode(p)|, ps[1..], output + PatternBytes(p), size);
      assert output + PatternBytes(p) + AllBytes(ps[1..]) == output + AllBytes(ps);
    }
  }

  /** Expanding the encoding of any instruction list yields the concatenated meanings, when the
      section header states their total length. */
  lemma {:induction false} ExpandEncode(ps: seq<Pattern>)
    requires AllGood(ps)
    ensures ExpandFrom(EncodeAll(ps), 0, [], |AllBytes(ps)|) == Expanded(AllBytes(ps))
  {
    ExpandReads(EncodeAll(ps), 0, ps, [], |AllBytes(ps)|);
    assert [] + AllBytes(ps) == AllBytes(ps);
  }

  // ----- a common size of zero

  /** An explicit zero common size is skipped: the custom size is taken for it, the repeat count for
      the custom size, and the data for the repeat count. */
  lemma {:induction false} ZeroCommonIsReread(packed: seq<Byte>, pos: nat, custom: seq<Septet>, repeats: seq<Septet>)
    requires custom != [] && repeats != []
    requires Holds(packed, pos, EncodeDigits(custom)) && Holds(packed, pos + |custom|, EncodeDigits(repeats))
    ensures DecodeSizes(packed, 0, pos) ==
            match Varint(packed, pos + |custom| + |repeats|, 0)
            case Truncated => NoSizes
            case Number(n, next) => Sizes(DigitsValue(custom, 0), DigitsValue(repeats, 0), n, next)
  {
    VarintReads(packed, pos, custom, 0);
    VarintReads(packed, pos + |custom|, repeats, 0);
  }

  /** The instruction decodes to its meaning, whatever bytes stand behind it. */
  ghost predicate ReadsBefore(p: Pattern, after: seq<Byte>) {
    GoodCount(p.count) && Encode(p) + after != [] &&
    DecodeOne(Encode(p) + after, 0) == Piece(PatternBytes(p), |Encode(p)|)
  }

  /** Interleaving with these sizes: the data and customs must match them, the bytes after are free. */
  ghost predicate BlockReads(count: Count, custom: seq<Septet>, repeats: seq<Septet>, data: seq<Byte>,
                             customs: seq<seq<Byte>>, after: seq<Byte>) {
    |data| == CountValue(count) && GoodCustoms(custom, repeats, customs) ==>
      ReadsBefore(InterleaveBlock(count, custom, repeats, data, customs), after)
  }

  ghost predicate ZeroReads(count: Count, custom: seq<Septet>, repeats: seq<Septet>, customs: seq<seq<Byte>>,
                            after: seq<Byte>) {
    GoodCustoms(custom, repeats, customs) ==> ReadsBefore(InterleaveZero(count, custom, repeats, customs), after)
  }

  lemma {:induction false} GoodReads(p: Pattern, after: seq<Byte>)
    requires GoodPattern(p)
    ensures ReadsBefore(p, after)
  {
    hide Encode, PatternBytes, DecodeOne;
    var packed := Encode(p) + after;
    assert packed[0..|Encode(p)|] == Encode(p);
    OneReads(packed, 0, p);
  }

  /** A varint in which every byte asks for another one never ends. */
  lemma {:induction false} OnesTruncate(packed: seq<Byte>, pos: nat, acc: nat)
    requires forall i :: pos <= i < |packed| ==> packed[i] == 255
    ensures Varint(packed, pos, acc).Truncated?
    decreases |packed| - pos
  {
    if pos < |packed| {
      OnesTruncate(packed, pos + 1, acc * 128 + packed[pos] % 128);
    }
  }

  ghost predicate AllOnes(bytes: seq<Byte>) {
    forall i :: 0 <= i < |bytes| ==> bytes[i] == 255
  }

  lemma {:induction false} ConcatOnes(parts: seq<seq<Byte>>)
    requires forall k :: 0 <= k < |parts| ==> AllOnes(parts[k])
    ensures AllOnes(Concat(parts))
    decreases |parts|
  {
    if parts != [] {
      ConcatOnes(parts[1..]);
      assert AllOnes(parts[0]);
    }
  }

  function Ones(n: nat): (s: seq<Byte>)
    ensures |s| == n
  {
    seq(n, _ => 255)
  }

  /** Customs of the declared sizes, all ones. */
  lemma {:induction false} OneCustoms(custom: seq<Septet>, repeats: seq<Septet>) returns (customs: seq<seq<Byte>>)
    requires custom != [] && repeats != []
    ensures GoodCustoms(custom, repeats, customs) && AllOnes(Concat(customs))
  {
    var n := DigitsValue(custom, 0);
    customs := seq(DigitsValue(repeats, 0), _ => Ones(n));
    forall k | 0 <= k < |customs| ensures AllOnes(customs[k]) && |customs[k]| == n {
      assert customs[k] == Ones(n);
    }
    ConcatOnes(customs);
  }

  /** With a common size of zero and nothing but ones behind the sizes, decoding runs off the end. */
  lemma {:induction false} ZeroCommonRunsOff(opcode: nat, count: Count, custom: seq<Septet>, repeats: seq<Septet>,
                                             rest: seq<Byte>)
    requires opcode in {3, 4} && GoodCount(count) && CountValue(count) == 0
    requires custom != [] && repeats != [] && AllOnes(rest)
    ensures DecodeOne(EncodeHead(opcode, count) + EncodeDigits(custom) + EncodeDigits(repeats) + rest, 0) == Short
  {
    hide Varint, EncodeHead, EncodeDigits, DigitsValue, DecodeSizes, Interleaved, Holds;
    var head, c, r := EncodeHead(opcode, count), EncodeDigits(custom), EncodeDigits(repeats);
    var packed := head + c + r + rest;
    HoldsItself(packed);
    HoldsSplit(packed, 0, head + c + r, rest);
    SizesSplit(packed, 0, head, c, r);
    HeadReads(packed, 0, opcode, count);
    ZeroCommonIsReread(packed, |head|, custom, repeats);
    var end := |head| + |c| + |r|;
    forall i | end <= i < |packed| ensures packed[i] == 255 {
      assert packed[i] == rest[i - end];
    }
    OnesTruncate(packed, end, 0);
  }

  /** For opcode 3, decoding is right for all data, customs and following bytes if and only if the
      common size is positive. */
  lemma {:induction false} BlockReadsIffPositive(count: Count, custom: seq<Septet>, repeats: seq<Septet>)
    requires GoodCount(count) && custom != [] && repeats != []
    ensures (forall data, customs, after :: BlockReads(count, custom, repeats, data, customs, after)) <==>
            CountValue(count) > 0
  {
    hide DecodeOne, PatternBytes, EncodeHead, EncodeDigits, CountValue, DigitsValue;
    if CountValue(count) > 0 {
      forall data, customs, after ensures BlockReads(count, custom, repeats, data, customs, after) {
        if |data| == CountValue(count) && GoodCustoms(custom, repeats, customs) {
          GoodReads(InterleaveBlock(count, custom, repeats, data, customs), after);
        }
      }
    } else {
      var customs := OneCustoms(custom, repeats);
      ZeroCommonRunsOff(3, count, custom, repeats, Concat(customs));
      var p, sizes := InterleaveBlock(count, custom, repeats, [], customs),
                      EncodeHead(3, count) + EncodeDigits(custom) + EncodeDigits(repeats);
      assert Encode(p) + [] == sizes + Concat(customs);
      assert !BlockReads(count, custom, repeats, [], customs, []);
    }
  }

  /** And so for opcode 4. */
  lemma {:induction false} ZeroReadsIffPositive(count: Count, custom: seq<Septet>, repeats: seq<Septet>)
    requires GoodCount(count) && custom != [] && repeats != []
    ensures (forall customs, after :: ZeroReads(count, custom, repeats, customs, after)) <==> CountValue(count) > 0
  {
    hide DecodeOne, PatternBytes, EncodeHead, EncodeDigits, CountValue, DigitsValue;
    if CountValue(count) > 0 {
      forall customs, after ensures ZeroReads(count, custom, repeats, customs, after) {
        if GoodCustoms(custom, repeats, customs) {
          GoodReads(InterleaveZero(count, custom, repeats, customs), after);
        }
      }
    } else {
      var customs := OneCustoms(custom, repeats);
      ZeroCommonRunsOff(4, count, custom, repeats, Concat(customs));
      var p := InterleaveZero(count, custom, repeats, customs);
      assert Encode(p) + [] == Encode(p);
      assert !ZeroReads(count, custom, repeats, customs, []);
    }
  }

  /** An instance: two customs of one byte each, which mean the bytes 5 and 6, are rejected. */
  lemma {:induction false} ZeroCommonIsMisread()
    ensures var p := MisreadExample();
            GoodCount(p.count) && GoodCustoms(p.custom, p.repeats, p.customs) && PatternBytes(p) == [5, 6] &&
            ExpandFrom(Encode(p), 0, [], 2) != Expanded([5, 6])
  {
    var p, e := MisreadExample(), [128, 0, 1, 2, 5, 6];
    MisreadEncoding();
    MisreadDecodes();
    hide DecodeOne, MisreadExample;
    var out := DecodeOne(e, 0).bytes;
    assert [] + out == out;
  }

  function MisreadExample(): Pattern {
    InterleaveZero(AsVarint([0]), [1], [2], [[5], [6]])
  }

  lemma {:induction false} MisreadEncoding()
    ensures var p := MisreadExample();
            GoodCount(p.count) && GoodCustoms(p.custom, p.repeats, p.customs) && PatternBytes(p) == [5, 6] &&
            Encode(p) == [128, 0, 1, 2, 5, 6]
  {
    var customs: seq<seq<Byte>> := [[5], [6]];
    assert DigitsValue([1], 0) == 1 && DigitsValue([2], 0) == 2 && DigitsValue([0], 0) == 0;
    assert customs[1..] == [[6]] && [[6]][1..] == [];
    assert Concat(customs) == [5, 6];
    assert Around(Zeros(0), customs) == Zeros(0) + ([5] + (Zeros(0) + ([6] + Zeros(0)))) == [5, 6];
  }

  lemma {:induction false} MisreadDecodes()
    ensures var e := [128, 0, 1, 2, 5, 6];
            DecodeOne(e, 0).Piece? && DecodeOne(e, 0).next == 15 &&
            |DecodeOne(e, 0).bytes| > 0 && DecodeOne(e, 0).bytes[0] == 0
  {
    var e := [128, 0, 1, 2, 5, 6];
    assert Varint(e, 1, 0) == Number(0, 2) && Varint(e, 2, 0) == Number(1, 3);
    assert Varint(e, 3, 0) == Number(2, 4) && Varint(e, 4, 0) == Number(5, 5);
    hide Varint;
    assert DecodeCount(e, 0) == Number(0, 2);
    assert DecodeSizes(e, 0, 2) == Sizes(1, 2, 5, 5);
    hide DecodeSizes, DecodeCount, Slice;
    var tail := Slice(e, 5, 15);
    assert DecodeOne(e, 0) == Piece(Interleaved(tail, Zeros(1), 0, 2, 5), 15);
    assert Interleaved(tail, Zeros(1), 0, 2, 5)[0] == Zeros(1)[0];
  }
}
