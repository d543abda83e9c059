/** Model of the run-length compressor (RunLengthEncoding.cpp).

    A compressed block alternates a run of arbitrary bytes, `length bytes*`, with a run of
    one repeated byte, `length byte`; every length is a 16-bit field, so both kinds of run
    are capped at 65535 bytes. */
module RunLength {
  import opened Bytes

  const MAX_RUN: nat := 65535
  const PREMATURE_END := "Premature end of stream"

  // ----- What the encoder is to compute

  function Limit(x: seq<Byte>): (n: nat)
    ensures n <= MAX_RUN && n <= |x| && (n == MAX_RUN || n == |x|)
  {
    if |x| < MAX_RUN then |x| else MAX_RUN
  }

  /** Six equal bytes start at `i`: the shortest repetition worth a run of its own. */
  predicate SixEqualAt(x: seq<Byte>, i: nat)
    requires i + 6 <= |x|
  {
    forall j :: i <= j < i + 6 ==> x[j] == x[i]
  }

  /** `r` is where a run of arbitrary bytes at the head of `x` ends: at the first repetition
      of six that lies within the cap, or else at the cap. */
  ghost predicate IsArbitraryRun(x: seq<Byte>, r: nat) {
    && r <= Limit(x)
    && (forall i: nat | i < r && i + 6 <= Limit(x) :: !SixEqualAt(x, i))
    && (r == Limit(x) || (r + 6 <= Limit(x) && SixEqualAt(x, r)))
  }

  /** `k` is the length of the repetition at the head of `x`, cut at the cap. */
  ghost predicate IsIdenticalRun(x: seq<Byte>, k: nat) {
    && 1 <= k <= Limit(x)
    && (forall j :: 0 <= j < k ==> x[j] == x[0])
    && (k == Limit(x) || x[k] != x[0])
  }

  function FirstSix(x: seq<Byte>, i: nat): (r: nat)
    requires i <= Limit(x)
    ensures i <= r <= Limit(x)
    decreases Limit(x) - i
  {
    if i + 6 > Limit(x) then Limit(x) else if SixEqualAt(x, i) then i else FirstSix(x, i + 1)
  }

  function ArbitraryRun(x: seq<Byte>): (r: nat)
    ensures r <= Limit(x)
  {
    FirstSix(x, 0)
  }

  function FirstOther(x: seq<Byte>, i: nat): (r: nat)
    requires 1 <= i <= Limit(x)
    ensures i <= r <= Limit(x)
    decreases Limit(x) - i
  {
    if i == Limit(x) || x[i] != x[0] then i else FirstOther(x, i + 1)
  }

  function IdenticalRun(x: seq<Byte>): (k: nat)
    requires x != []
    ensures 1 <= k <= Limit(x)
  {
    FirstOther(x, 1)
  }

  lemma {:induction false} FirstSixFrom(x: seq<Byte>, i: nat)
    requires i <= Limit(x) && forall j: nat | j < i && j + 6 <= Limit(x) :: !SixEqualAt(x, j)
    ensures IsArbitraryRun(x, FirstSix(x, i))
    decreases Limit(x) - i
  {
    if i + 6 <= Limit(x) && !SixEqualAt(x, i) {
      FirstSixFrom(x, i + 1);
    }
  }

  /** The run ends where the declarative description says, and nowhere else. */
  lemma ArbitraryRunIs(x: seq<Byte>, r: nat)
    ensures IsArbitraryRun(x, r) <==> r == ArbitraryRun(x)
  {
    FirstSixFrom(x, 0);
  }

  lemma {:induction false} FirstOtherFrom(x: seq<Byte>, i: nat)
    requires 1 <= i <= Limit(x) && forall j :: 0 <= j < i ==> x[j] == x[0]
    ensures IsIdenticalRun(x, FirstOther(x, i))
    decreases Limit(x) - i
  {
    if i < Limit(x) && x[i] == x[0] {
      FirstOtherFrom(x, i + 1);
    }
  }

  lemma IdenticalRunIs(x: seq<Byte>, k: nat)
    requires x != []
    ensures IsIdenticalRun(x, k) <==> k == IdenticalRun(x)
  {
    FirstOtherFrom(x, 1);
  }

  function Field(v: nat): (s: seq<Byte>)
    ensures |s| == 2
  {
    ToBytes(v, 2)
  }

  lemma FieldRoundTrip(v: nat)
    requires v <= MAX_RUN
    ensures FromBytes(Field(v)) == v
  {
    Capacities();
    FromToBytes(v, 2);
  }

  /** A run of arbitrary bytes, as it is stored. */
  function ArbitraryWords(x: seq<Byte>): seq<Byte> {
    Field(ArbitraryRun(x)) + x[..ArbitraryRun(x)]
  }

  /** A repetition, as it is stored. */
  function IdenticalWords(y: seq<Byte>): (s: seq<Byte>)
    requires y != []
    ensures |s| == 3
  {
    Field(IdenticalRun(y)) + [y[0]]
  }

  function Compressed(x: seq<Byte>): (s: seq<Byte>)
    decreases |x|, 1
  {
    if x == [] then [] else ArbitraryWords(x) + CompressedRepetition(x[ArbitraryRun(x)..])
  }

  /** What is stored for `y` where a repetition is due. */
  function CompressedRepetition(y: seq<Byte>): (s: seq<Byte>)
    decreases |y|, 0
  {
    if y == [] then [] else IdenticalWords(y) + Compressed(y[IdenticalRun(y)..])
  }

  // ----- What the decoder is to compute

  function Decompressed(s: seq<Byte>): (r: Result<seq<Byte>>)
    decreases |s|
  {
    if s == [] then Ok([])
    else if |s| < 2 then Err(PREMATURE_END)
    else
      var a := FromBytes(s[..2]);
      if |s| < 2 + a then Err(PREMATURE_END)
      else Prepend(s[2..2 + a], DecompressedRepetition(s[2 + a..]))
  }

  function DecompressedRepetition(s: seq<Byte>): (r: Result<seq<Byte>>)
    decreases |s|
  {
    if s == [] then Ok([])
    else if |s| < 3 then Err(PREMATURE_END)
    else Prepend(Repeat(s[2], FromBytes(s[..2])), Decompressed(s[3..]))
  }

  function Prepend(s: seq<Byte>, r: Result<seq<Byte>>): Result<seq<Byte>> {
    if r.Ok? then Ok(s + r.value) else r
  }

  // ----- Round trip

  lemma DecodeArbitrary(a: nat, run: seq<Byte>, tail: seq<Byte>)
    requires a == |run| <= MAX_RUN
    ensures Decompressed(Field(a) + run + tail) == Prepend(run, DecompressedRepetition(tail))
  {
    var s := Field(a) + run + tail;
    FieldRoundTrip(a);
    assert s[..2] == Field(a);
    assert s[2..2 + a] == run;
    assert s[2 + a..] == tail;
  }

  lemma DecodeIdentical(k: nat, v: Byte, tail: seq<Byte>)
    requires k <= MAX_RUN
    ensures DecompressedRepetition(Field(k) + [v] + tail) == Prepend(Repeat(v, k), Decompressed(tail))
  {
    var s := Field(k) + [v] + tail;
    FieldRoundTrip(k);
    assert s[..2] == Field(k);
    assert s[2] == v;
    assert s[3..] == tail;
  }

  /** Decompressing what was compressed gives the data back; in particular no
      "Premature end of stream" is reachable on the encoder's output. */
  lemma {:induction false} RoundTrip(x: seq<Byte>)
    ensures Decompressed(Compressed(x)) == Ok(x)
    decreases |x|, 1
  {
    hide ArbitraryRun, Field;
    if x != [] {
      var a := ArbitraryRun(x);
      RoundTripRepetition(x[a..]);
      DecodeArbitrary(a, x[..a], CompressedRepetition(x[a..]));
      assert x[..a] + x[a..] == x;
    }
  }

  lemma RepetitionIs(y: seq<Byte>)
    requires y != []
    ensures Repeat(y[0], IdenticalRun(y)) == y[..IdenticalRun(y)]
  {
    IdenticalRunIs(y, IdenticalRun(y));
  }

  lemma {:induction false} RoundTripRepetition(y: seq<Byte>)
    ensures DecompressedRepetition(CompressedRepetition(y)) == Ok(y)
    decreases |y|, 0
  {
    hide IdenticalRun, Field, Repeat;
    if y != [] {
      var k := IdenticalRun(y);
      RoundTrip(y[k..]);
      DecodeIdentical(k, y[0], Compressed(y[k..]));
      RepetitionIs(y);
      assert y[..k] + y[k..] == y;
    }
  }

  // ----- What the decoder accepts

  /** One run of a compressed stream. */
  datatype Chunk = Plain(bytes: seq<Byte>) | Copies(n: nat, v: Byte)

  /** The chunks alternate, and their sizes fit the 16-bit fields. */
  ghost predicate Alternate(cs: seq<Chunk>, bytesNext: bool) {
    cs == [] || (cs[0].Plain? == bytesNext && (if cs[0].Plain? then |cs[0].bytes| else cs[0].n) <= MAX_RUN && Alternate(cs[1..], !bytesNext))
  }

  function Stored(cs: seq<Chunk>): seq<Byte> {
    if cs == [] then []
    else (match cs[0] case Plain(x) => Field(|x|) + x case Copies(n, v) => Field(n) + [v]) + Stored(cs[1..])
  }

  function Expanded(cs: seq<Chunk>): seq<Byte> {
    if cs == [] then []
    else (match cs[0] case Plain(x) => x case Copies(n, v) => Repeat(v, n)) + Expanded(cs[1..])
  }

  function DecompressedNext(s: seq<Byte>, bytesNext: bool): Result<seq<Byte>> {
    if bytesNext then Decompressed(s) else DecompressedRepetition(s)
  }

  lemma {:induction false} StoredIsExpanded(cs: seq<Chunk>, bytesNext: bool)
    requires Alternate(cs, bytesNext)
    ensures DecompressedNext(Stored(cs), bytesNext) == Ok(Expanded(cs))
  {
    if cs != [] {
      StoredIsExpanded(cs[1..], !bytesNext);
      hide Field, Repeat, Decompressed, DecompressedRepetition;
      match cs[0]
      case Plain(x) => DecodeArbitrary(|x|, x, Stored(cs[1..]));
      case Copies(n, v) => DecodeIdentical(n, v, Stored(cs[1..]));
    }
  }

  lemma FieldOf(f: seq<Byte>)
    requires |f| == 2
    ensures Field(FromBytes(f)) == f && FromBytes(f) <= MAX_RUN
  {
    ToFromBytes(f);
    Capacities();
  }

  /** The chunks of a stream that the decoder accepts. */
  lemma {:induction false} ChunksOf(s: seq<Byte>, bytesNext: bool) returns (cs: seq<Chunk>)
    requires DecompressedNext(s, bytesNext).Ok?
    ensures Alternate(cs, bytesNext) && Stored(cs) == s && DecompressedNext(s, bytesNext) == Ok(Expanded(cs))
    decreases |s|
  {
    if s == [] {
      return [];
    }
    var n := FromBytes(s[..2]);
    FieldOf(s[..2]);
    var size := if bytesNext then 2 + n else 3;
    var rest := ChunksOf(s[size..], !bytesNext);
    cs := [if bytesNext then Plain(s[2..size]) else Copies(n, s[2])] + rest;
    assert cs[1..] == rest;
    assert s == s[..2] + s[2..size] + s[size..];
    hide Field;
    StoredIsExpanded(cs, bytesNext);
  }

  /** The decoder accepts exactly the streams of alternating chunks, and gives what they stand for.
      Everything else is a premature end. */
  lemma DecompressedIff(s: seq<Byte>, x: seq<Byte>)
    ensures Decompressed(s) == Ok(x) <==> exists cs: seq<Chunk> :: Alternate(cs, true) && Stored(cs) == s && Expanded(cs) == x
  {
    if Decompressed(s) == Ok(x) {
      var cs := ChunksOf(s, true);
      assert Expanded(cs) == x;
    }
    if cs: seq<Chunk> :| Alternate(cs, true) && Stored(cs) == s && Expanded(cs) == x {
      StoredIsExpanded(cs, true);
    }
  }

  /** The decoder is a left inverse of the encoder, so distinct blocks never collide. */
  lemma CompressedInjective(x: seq<Byte>, y: seq<Byte>)
    requires Compressed(x) == Compressed(y)
    ensures x == y
  {
    RoundTrip(x);
    RoundTrip(y);
  }

  // ----- Size

  function SizeBound(n: nat): nat {
    n + 4 * (n / 65536) + 2
  }

  /** Ending an arbitrary run early pays for itself; only a run that hits the cap costs
      extra, and it does so at most once every 65536 bytes. */
  lemma {:induction false} CompressedSize(x: seq<Byte>)
    ensures |Compressed(x)| <= SizeBound(|x|)
    decreases |x|
  {
    hide ArbitraryRun, IdenticalRun, SizeBound, Field;
    if x != [] {
      var a := ArbitraryRun(x);
      if a < |x| {
        var y := x[a..];
        var k := IdenticalRun(y);
        CompressedSize(y[k..]);
        PairSize(x);
        if a < Limit(x) {
          EarlyStopSaves(x, a);
          EarlyStopCost(|y| - k, a, k);
        } else {
          CappedRunCost(|y| - k, k);
        }
      } else {
        SingleRunSize(x);
      }
    }
  }

  lemma PairSize(x: seq<Byte>)
    requires x != [] && ArbitraryRun(x) < |x|
    ensures var a := ArbitraryRun(x);
            var k := IdenticalRun(x[a..]);
            |Compressed(x)| == a + 5 + |Compressed(x[a..][k..])|
  {
  }

  lemma SingleRunSize(x: seq<Byte>)
    requires x != [] && ArbitraryRun(x) == |x|
    ensures |Compressed(x)| == 2 + |x| <= SizeBound(|x|)
  {
  }

  lemma EarlyStopCost(rest: nat, a: nat, k: nat)
    requires k >= 6
    ensures a + 5 + SizeBound(rest) <= SizeBound(rest + a + k)
  {
  }

  lemma EarlyStopSaves(x: seq<Byte>, a: nat)
    requires a == ArbitraryRun(x) < Limit(x)
    ensures IdenticalRun(x[a..]) >= 6
  {
    var y := x[a..];
    ArbitraryRunIs(x, a);
    IdenticalRunIs(y, IdenticalRun(y));
    assert forall j :: 0 <= j < 6 ==> y[j] == x[a + j] == x[a];
  }

  lemma CappedRunCost(rest: nat, k: nat)
    requires k >= 1
    ensures 65540 + SizeBound(rest) <= SizeBound(rest + 65535 + k)
  {
  }

  ghost predicate NoNeighboursEqual(x: seq<Byte>) {
    forall i :: 0 <= i < |x| - 1 ==> x[i] != x[i + 1]
  }

  /** The exact size of a block without repetitions. */
  function WorstCase(n: nat): nat {
    SizeBound(n) - if n % 65536 == 0 then 2 else 0
  }

  /** Without repetitions every arbitrary run reaches the cap and every repetition is one byte. */
  lemma RunsWithoutRepetition(x: seq<Byte>)
    requires x != [] && NoNeighboursEqual(x)
    ensures ArbitraryRun(x) == Limit(x) && IdenticalRun(x) == 1
  {
    forall i: nat | i + 6 <= Limit(x)
      ensures !SixEqualAt(x, i)
    {
      assert x[i] != x[i + 1];
    }
    ArbitraryRunIs(x, Limit(x));
    IdenticalRunIs(x, 1);
  }

  lemma WorstCaseSmall(n: nat)
    requires n <= MAX_RUN
    ensures WorstCase(n) == if n == 0 then 0 else n + 2
  {
  }

  lemma WorstCaseStep(rest: nat)
    ensures 65540 + WorstCase(rest) == WorstCase(rest + 65536)
  {
  }

  /** The bound is the worst case: data without repetitions reaches it at every length that
      is not a multiple of 65536 (there the final two bytes are saved). */
  lemma {:induction false} WorstCaseSize(x: seq<Byte>)
    requires NoNeighboursEqual(x)
    ensures |Compressed(x)| == WorstCase(|x|)
    decreases |x|
  {
    hide ArbitraryRun, IdenticalRun, WorstCase, Field;
    if x == [] {
      assert WorstCase(0) == 0 by { WorstCaseSmall(0); }
    } else {
      RunsWithoutRepetition(x);
      if |x| > MAX_RUN {
        var y := x[MAX_RUN..];
        assert NoNeighboursEqual(y) by {
          assert forall i :: 0 <= i < |y| ==> y[i] == x[MAX_RUN + i];
        }
        RunsWithoutRepetition(y);
        PairSize(x);
        assert NoNeighboursEqual(y[1..]) by {
          assert forall i :: 0 <= i < |y| - 1 ==> y[1..][i] == y[1 + i];
        }
        WorstCaseSize(y[1..]);
        WorstCaseStep(|y[1..]|);
      } else {
        SingleRunSize(x);
        WorstCaseSmall(|x|);
      }
    }
  }

  // ----- The encoder

  method ArbitraryRunLength(data: seq<Byte>, start: nat) returns (size: nat)
    requires start < |data|
    ensures size == ArbitraryRun(data[start..])
  {
    ghost var x := data[start..];
    var realEnd := if |data| < start + MAX_RUN then |data| else start + MAX_RUN;
    var lastByte: Byte := if data[start] == 255 then 0 else data[start] + 1;
    var numIdentical := 1;
    var current := start;
    while current != realEnd
      invariant start <= current <= realEnd
      invariant 1 <= numIdentical < 6
      invariant current == start ==> lastByte != data[start] && numIdentical == 1
      invariant current > start ==> lastByte == data[current - 1] && numIdentical <= current - start
      invariant forall j :: current - numIdentical <= j < current && start <= j ==> data[j] == lastByte
      invariant numIdentical < current - start ==> data[current - numIdentical - 1] != lastByte
      invariant forall i: nat | i + 6 <= current - start :: !SixEqualAt(x, i)
    {
      if data[current] == lastByte {
        numIdentical := numIdentical + 1;
        if numIdentical == 6 {
          size := current - start - 5;
          assert SixEqualAt(x, size);
          ArbitraryRunIs(x, size);
          return;
        }
      } else {
        numIdentical := 1;
      }
      NoSixEndingHere(x, current - start, numIdentical);
      lastByte := data[current];
      current := current + 1;
    }
    size := realEnd - start;
    ArbitraryRunIs(x, size);
  }

  /** If fewer than six equal bytes end at `c`, no repetition of six ends there. */
  lemma NoSixEndingHere(x: seq<Byte>, c: nat, n: nat)
    requires c < |x| && 1 <= n < 6 && n <= c + 1
    requires n <= c ==> x[c - n] != x[c]
    ensures c >= 5 ==> !SixEqualAt(x, c - 5)
  {
  }

  method CountIdenticalBytes(data: seq<Byte>, start: nat) returns (size: nat)
    requires start < |data|
    ensures size == IdenticalRun(data[start..])
  {
    ghost var y := data[start..];
    var realEnd := if |data| < start + MAX_RUN then |data| else start + MAX_RUN;
    var current := start + 1;
    while current != realEnd
      invariant start + 1 <= current <= realEnd
      invariant forall j :: 0 <= j < current - start ==> y[j] == y[0]
    {
      if data[current] != data[start] {
        IdenticalRunIs(y, current - start);
        return current - start;
      }
      current := current + 1;
    }
    size := realEnd - start;
    IdenticalRunIs(y, size);
  }

  method EncodeArbitraryWords(data: seq<Byte>, start: nat, output: seq<Byte>)
    returns (current: nat, output': seq<Byte>)
    requires start < |data|
    ensures current == start + ArbitraryRun(data[start..])
    ensures output' == output + ArbitraryWords(data[start..])
  {
    var size := ArbitraryRunLength(data, start);
    output' := output + Field(size) + data[start..start + size];
    current := start + size;
    assert data[start..start + size] == data[start..][..size];
    Associate(output, Field(size), data[start..][..size]);
  }

  method EncodeIdenticalWords(data: seq<Byte>, start: nat, output: seq<Byte>)
    returns (current: nat, output': seq<Byte>)
    requires start < |data|
    ensures current == start + IdenticalRun(data[start..])
    ensures output' == output + IdenticalWords(data[start..])
  {
    var size := CountIdenticalBytes(data, start);
    output' := output + Field(size) + [data[start]];
    current := start + size;
    Associate(output, Field(size), [data[start]]);
  }

  lemma Associate<T>(a: seq<T>, b: seq<T>, c: seq<T>)
    ensures a + (b + c) == a + b + c
  {
  }

  lemma SuffixOfSuffix<T>(s: seq<T>, i: nat, j: nat)
    requires i + j <= |s|
    ensures s[i..][j..] == s[i + j..]
  {
  }

  method Compress(data: seq<Byte>) returns (compressed: seq<Byte>)
    ensures compressed == Compressed(data)
    ensures Decompressed(compressed) == Ok(data)
    ensures |compressed| <= SizeBound(|data|)
  {
    hide ArbitraryWords, IdenticalWords, ArbitraryRun, IdenticalRun, Decompressed, SizeBound;
    compressed := [];
    var current := 0;
    assert data[0..] == data;
    while current < |data|
      invariant 0 <= current <= |data|
      invariant compressed + Compressed(data[current..]) == Compressed(data)
    {
      ghost var x := data[current..];
      Associate(compressed, ArbitraryWords(x), CompressedRepetition(x[ArbitraryRun(x)..]));
      SuffixOfSuffix(data, current, ArbitraryRun(x));
      current, compressed := EncodeArbitraryWords(data, current, compressed);
      if current == |data| {
        break;
      }
      ghost var y := data[current..];
      Associate(compressed, IdenticalWords(y), Compressed(y[IdenticalRun(y)..]));
      SuffixOfSuffix(data, current, IdenticalRun(y));
      current, compressed := EncodeIdenticalWords(data, current, compressed);
    }
    assert data[current..] == [] && compressed + [] == compressed;
    RoundTrip(data);
    CompressedSize(data);
  }

  // ----- The decoder

  method DecodeArbitraryWords(s: seq<Byte>, start: nat, output: seq<Byte>)
    returns (good: bool, pos: nat, output': seq<Byte>)
    requires start < |s|
    ensures pos <= |s| && (good ==> start < pos)
    ensures Prepend(output, Decompressed(s[start..])) ==
            if good then Prepend(output', DecompressedRepetition(s[pos..])) else Err(PREMATURE_END)
  {
    ghost var rest := s[start..];
    if start + 2 > |s| {
      return false, start, output;
    }
    var size := FromBytes(s[start..start + 2]);
    assert s[start..start + 2] == rest[..2];
    if start + 2 + size > |s| {
      return false, start, output;
    }
    good, pos := true, start + 2 + size;
    output' := output + s[start + 2..pos];
    assert s[start + 2..pos] == rest[2..2 + size];
    SuffixOfSuffix(s, start, 2 + size);
    PrependTwice(output, rest[2..2 + size], DecompressedRepetition(rest[2 + size..]));
  }

  method DecodeIdenticalWords(s: seq<Byte>, start: nat, output: seq<Byte>)
    returns (good: bool, pos: nat, output': seq<Byte>)
    requires start < |s|
    ensures pos <= |s| && (good ==> start < pos)
    ensures Prepend(output, DecompressedRepetition(s[start..])) ==
            if good then Prepend(output', Decompressed(s[pos..])) else Err(PREMATURE_END)
  {
    ghost var rest := s[start..];
    if start + 3 > |s| {
      return false, start, output;
    }
    var size := FromBytes(s[start..start + 2]);
    assert s[start..start + 2] == rest[..2];
    good, pos := true, start + 3;
    output' := output + Repeat(s[start + 2], size);
    SuffixOfSuffix(s, start, 3);
    PrependTwice(output, Repeat(rest[2], size), Decompressed(rest[3..]));
  }

  method Decompress(s: seq<Byte>) returns (r: Result<seq<Byte>>)
    ensures r == Decompressed(s)
  {
    var decompressed: seq<Byte> := [];
    var pos := 0;
    var good;
    assert s[0..] == s;
    PrependNothing(Decompressed(s));
    while pos < |s|
      invariant 0 <= pos <= |s|
      invariant Decompressed(s) == Prepend(decompressed, Decompressed(s[pos..]))
    {
      good, pos, decompressed := DecodeArbitraryWords(s, pos, decompressed);
      if !good {
        return Err(PREMATURE_END);
      }
      if pos == |s| {
        break;
      }
      good, pos, decompressed := DecodeIdenticalWords(s, pos, decompressed);
      if !good {
        return Err(PREMATURE_END);
      }
    }
    assert s[pos..] == [] && decompressed + [] == decompressed;
    return Ok(decompressed);
  }

  lemma PrependNothing(r: Result<seq<Byte>>)
    ensures Prepend([], r) == r
  {
    if r.Ok? {
      assert [] + r.value == r.value;
    }
  }

  lemma PrependTwice(s: seq<Byte>, t: seq<Byte>, r: Result<seq<Byte>>)
    ensures Prepend(s, Prepend(t, r)) == Prepend(s + t, r)
  {
    if r.Ok? {
      Associate(s, t, r.value);
    }
  }
}
