/** The run length codec of Radiance RGBE files (src/common/imageio_rgbe.c). */
module Rle {
  type Byte = x: int | 0 <= x < 256

  const MINRUNLENGTH := 4

  // ---------------------------------------------------------------------------------------------
  // What an encoded channel stands for
  // ---------------------------------------------------------------------------------------------

  datatype Decoded = Done(bytes: seq<Byte>, rest: seq<Byte>) | ReadError | FormatError | Flat(rest: seq<Byte>)

  function After(bytes: seq<Byte>, d: Decoded): Decoded {
    if d.Done? then Done(bytes + d.bytes, d.rest) else d
  }

  function Repeat(x: Byte, n: nat): (r: seq<Byte>)
    ensures |r| == n && forall i :: 0 <= i < n ==> r[i] == x
  {
    if n == 0 then [] else [x] + Repeat(x, n - 1)
  }

  /** n bytes from the front of the input s: a count above 128 announces a run of one byte, a count of 1 to 128
      that many literal bytes. */
  function Decode(s: seq<Byte>, n: nat): (d: Decoded)
    ensures d.Done? ==> |d.bytes| == n
    decreases n
  {
    if n == 0 then Done([], s)
    else if |s| < 2 then ReadError
    else if s[0] > 128 then
      var count := s[0] - 128;
      if count > n then FormatError else After(Repeat(s[1], count), Decode(s[2..], n - count))
    else
      var count := s[0];
      if count == 0 || count > n then FormatError
      else if |s| < 1 + count then ReadError
      else After(s[1..1 + count], Decode(s[1 + count..], n - count))
  }

  lemma DecodeStep(s: seq<Byte>, n: nat, m: nat) returns (chunk: seq<Byte>, tail: seq<Byte>)
    requires n > 0 && Decode(s, n).Done?
    ensures 0 < |chunk| <= n
    ensures Decode(s, n) == After(chunk, Decode(tail, n - |chunk|))
    ensures Decode(s, n + m) == After(chunk, Decode(tail, n + m - |chunk|))
  {
    if s[0] > 128 {
      chunk, tail := Repeat(s[1], s[0] - 128), s[2..];
    } else {
      chunk, tail := s[1..1 + s[0]], s[1 + s[0]..];
    }
  }

  /** Decoding is sequential: n bytes and then m more. */
  lemma {:induction false} DecodeSplits(s: seq<Byte>, n: nat, m: nat)
    requires Decode(s, n).Done?
    ensures Decode(s, n + m) == After(Decode(s, n).bytes, Decode(Decode(s, n).rest, m))
    decreases n
  {
    if n == 0 {
      AfterNothing(Decode(s, m));
    } else {
      hide Decode;
      var chunk, tail := DecodeStep(s, n, m);
      DecodeSplits(tail, n - |chunk|, m);
      AfterTwice(chunk, Decode(tail, n - |chunk|).bytes, Decode(Decode(s, n).rest, m));
    }
  }

  lemma AfterNothing(d: Decoded)
    ensures After([], d) == d
  {}

  lemma AfterTwice(x: seq<Byte>, y: seq<Byte>, d: Decoded)
    ensures After(x, After(y, d)) == After(x + y, d)
  {
    if d.Done? { assert x + (y + d.bytes) == x + y + d.bytes; }
  }

  // ---------------------------------------------------------------------------------------------
  // The format: a channel is a sequence of chunks
  // ---------------------------------------------------------------------------------------------

  /** A run of equal bytes, or a stretch of literal ones. */
  datatype Chunk = Run(x: Byte, n: nat) | Literal(bytes: seq<Byte>)

  predicate ChunkOk(c: Chunk) {
    if c.Run? then 1 <= c.n <= 127 else 1 <= |c.bytes| <= 128
  }

  predicate AllOk(cs: seq<Chunk>) {
    cs == [] || (ChunkOk(cs[0]) && AllOk(cs[1..]))
  }

  function CodeOf(cs: seq<Chunk>): seq<Byte>
    requires AllOk(cs)
  {
    if cs == [] then [] else
      (match cs[0] case Run(x, n) => [128 + n, x] case Literal(bytes) => [|bytes|] + bytes) + CodeOf(cs[1..])
  }

  function DataOf(cs: seq<Chunk>): seq<Byte> {
    if cs == [] then [] else
      (match cs[0] case Run(x, n) => seq(n, _ => x) case Literal(bytes) => bytes) + DataOf(cs[1..])
  }

  /** Where decoding ends with an error: left bytes are still to come, and the input goes on with tail. */
  predicate Stuck(tail: seq<Byte>, left: nat, d: Decoded) {
    match d
    case ReadError => |tail| < 2 || (1 <= tail[0] <= 128 && tail[0] <= left && |tail| < 1 + tail[0])
    case FormatError => |tail| >= 2 && (tail[0] == 0 || left < (if tail[0] > 128 then tail[0] - 128 else tail[0]))
    case _ => false
  }

  /** The input s starts with the chunks cs, which have at most n bytes of data; decoding n bytes of s gives these, or
      the error for what comes behind them. */
  ghost predicate Means(s: seq<Byte>, n: nat, cs: seq<Chunk>, tail: seq<Byte>) {
    && AllOk(cs) && s == CodeOf(cs) + tail && |DataOf(cs)| <= n
    && if |DataOf(cs)| == n then Decode(s, n) == Done(DataOf(cs), tail)
       else Stuck(tail, n - |DataOf(cs)|, Decode(s, n))
  }

  /** What decoding comes to, for any input: the chunks that it starts with, up to n bytes of data or to the first chunk
      that is cut off or does not fit. */
  lemma {:induction false} DecodeMeans(s: seq<Byte>, n: nat) returns (cs: seq<Chunk>, tail: seq<Byte>)
    ensures Means(s, n, cs, tail)
    decreases n
  {
    if n == 0 || Stuck(s, n, ReadError) || Stuck(s, n, FormatError) {
      cs, tail := [], s;
      StuckMeans(s, n);
    } else {
      hide Decode, Means;
      var c, k := FirstChunk(s, n);
      cs, tail := DecodeMeans(s[k..], n - |DataOf([c])|);
      MeansMore(s, n, c, k, cs, tail);
      cs := [c] + cs;
    }
  }

  lemma StuckMeans(s: seq<Byte>, n: nat)
    requires n == 0 || Stuck(s, n, ReadError) || Stuck(s, n, FormatError)
    ensures Means(s, n, [], s)
  {
    assert s == CodeOf([]) + s;
    hide Decode;
    if n == 0 { DecodesNothing(s); } else { DecodeCases(s, n); }
  }

  lemma MeansMore(s: seq<Byte>, n: nat, c: Chunk, k: nat, cs: seq<Chunk>, tail: seq<Byte>)
    requires ChunkOk(c) && k <= |s| && AllOk([c]) && s[..k] == CodeOf([c]) && 0 < |DataOf([c])| <= n
    requires Decode(s, n) == After(DataOf([c]), Decode(s[k..], n - |DataOf([c])|))
    requires Means(s[k..], n - |DataOf([c])|, cs, tail)
    ensures Means(s, n, [c] + cs, tail)
  {
    hide Decode, CodeOf, DataOf, AllOk, ChunkOk, Stuck;
    ConsChunk(c, cs);
    Rejoin(s, k, CodeOf([c]), CodeOf(cs), tail);
    StuckIsError(tail, n - |DataOf([c])| - |DataOf(cs)|, Decode(s[k..], n - |DataOf([c])|));
  }

  lemma Rejoin(s: seq<Byte>, k: nat, x: seq<Byte>, y: seq<Byte>, tail: seq<Byte>)
    requires k <= |s| && s[..k] == x && s[k..] == y + tail
    ensures s == x + y + tail
  {
    assert s == s[..k] + s[k..];
  }

  lemma StuckIsError(tail: seq<Byte>, left: int, d: Decoded)
    ensures left >= 0 && Stuck(tail, left, d) ==> !d.Done?
  {}

  lemma FirstChunk(s: seq<Byte>, n: nat) returns (c: Chunk, k: nat)
    requires n > 0 && !Stuck(s, n, ReadError) && !Stuck(s, n, FormatError)
    ensures ChunkOk(c) && k <= |s| && AllOk([c]) && s[..k] == CodeOf([c]) && 0 < |DataOf([c])| <= n
    ensures Decode(s, n) == After(DataOf([c]), Decode(s[k..], n - |DataOf([c])|))
  {
    hide Decode;
    DecodeCases(s, n);
    if s[0] > 128 {
      c, k := Run(s[1], s[0] - 128), 2;
      assert DataOf([c]) == Repeat(s[1], s[0] - 128);
    } else {
      c, k := Literal(s[1..1 + s[0]]), 1 + s[0];
      assert DataOf([c]) == s[1..1 + s[0]];
    }
  }

  lemma ConsChunk(c: Chunk, cs: seq<Chunk>)
    requires ChunkOk(c) && AllOk(cs)
    ensures AllOk([c]) && AllOk([c] + cs)
    ensures CodeOf([c] + cs) == CodeOf([c]) + CodeOf(cs) && DataOf([c] + cs) == DataOf([c]) + DataOf(cs)
  {
    assert ([c] + cs)[1..] == cs && [c][1..] == [];
  }

  /** Whatever follows in the file, code decodes to data and is used up exactly. */
  ghost predicate Encodes(code: seq<Byte>, data: seq<Byte>) {
    forall rest: seq<Byte> :: Decode(code + rest, |data|) == Done(data, rest)
  }

  lemma EncodesBoth(c: seq<Byte>, x: seq<Byte>, d: seq<Byte>, y: seq<Byte>)
    requires Encodes(c, x) && Encodes(d, y)
    ensures Encodes(c + d, x + y)
  {
    forall rest: seq<Byte> ensures Decode(c + d + rest, |x + y|) == Done(x + y, rest) {
      assert c + d + rest == c + (d + rest);
      assert Decode(c + (d + rest), |x|) == Done(x, d + rest);
      DecodeSplits(c + (d + rest), |x|, |y|);
    }
  }

  lemma EncodesRun(x: Byte, n: nat)
    requires 0 < n <= 127
    ensures Encodes([128 + n, x], Repeat(x, n))
  {
    forall rest: seq<Byte> ensures Decode([128 + n, x] + rest, n) == Done(Repeat(x, n), rest) {
      var s: seq<Byte> := [128 + n, x] + rest;
      assert s[2..] == rest;
      assert Decode(rest, 0) == Done([], rest);
    }
  }

  lemma EncodesLiteral(data: seq<Byte>)
    requires 0 < |data| <= 128
    ensures Encodes([|data|] + data, data)
  {
    forall rest: seq<Byte> ensures Decode([|data|] + data + rest, |data|) == Done(data, rest) {
      var s: seq<Byte> := [|data|] + data + rest;
      assert s[0] == |data| && s[1..1 + |data|] == data && s[1 + |data|..] == rest;
      assert Decode(rest, 0) == Done([], rest);
      assert data + [] == data;
    }
  }

  // ---------------------------------------------------------------------------------------------
  // The encoder
  // ---------------------------------------------------------------------------------------------

  /** n equal bytes start at b. */
  predicate IsRun(data: seq<Byte>, b: nat, n: nat) {
    b + n <= |data| && forall k :: b <= k < b + n ==> data[k] == data[b]
  }

  lemma RunIs(data: seq<Byte>, b: nat, n: nat)
    requires IsRun(data, b, n) && n > 0
    ensures data[b..b + n] == Repeat(data[b], n)
  {}

  lemma Extend(code: seq<Byte>, data: seq<Byte>, cur: nat, chunk: seq<Byte>, n: nat)
    requires cur + n <= |data| && Encodes(code, data[..cur]) && Encodes(chunk, data[cur..cur + n])
    ensures Encodes(code + chunk, data[..cur + n])
  {
    EncodesBoth(code, data[..cur], chunk, data[cur..cur + n]);
    assert data[..cur] + data[cur..cur + n] == data[..cur + n];
  }

  /** No four equal bytes in a row start and end between from and to. */
  ghost predicate NoRun(data: seq<Byte>, from: nat, to: nat) {
    to <= |data| && forall b: nat :: from <= b && b + MINRUNLENGTH <= to ==> !IsRun(data, b, MINRUNLENGTH)
  }

  /** A run that is too short, and cannot be continued, is passed over. */
  lemma NoRunGoesOn(data: seq<Byte>, cur: nat, beg: nat, n: nat)
    requires cur <= beg && NoRun(data, cur, beg) && n < MINRUNLENGTH && beg + n <= |data|
    requires cur < beg < |data| ==> data[beg-1] != data[beg]
    ensures NoRun(data, cur, beg + n)
  {
    forall b: nat | cur <= b && b + MINRUNLENGTH <= beg + n ensures !IsRun(data, b, MINRUNLENGTH) {
    }
  }

  /** Every literal stretch is free of runs that are worth it. */
  ghost predicate Tight(cs: seq<Chunk>) {
    forall k :: 0 <= k < |cs| && cs[k].Literal? ==> NoRun(cs[k].bytes, 0, |cs[k].bytes|)
  }

  /** out is the code of the chunks cs, which have the data up to cur. */
  ghost predicate Written(out: seq<Byte>, cs: seq<Chunk>, data: seq<Byte>, cur: nat) {
    cur <= |data| && AllOk(cs) && CodeOf(cs) == out && DataOf(cs) == data[..cur] && Tight(cs)
  }

  lemma NoChunks()
    ensures AllOk([]) && CodeOf([]) == [] && DataOf([]) == []
  {}

  lemma ChunksOk(cs: seq<Chunk>)
    requires AllOk(cs) && cs != []
    ensures ChunkOk(cs[0]) && AllOk(cs[1..])
  {}

  lemma {:induction false} AppendChunk(cs: seq<Chunk>, c: Chunk)
    requires AllOk(cs) && ChunkOk(c)
    ensures AllOk([c]) && AllOk(cs + [c])
    ensures CodeOf(cs + [c]) == CodeOf(cs) + CodeOf([c]) && DataOf(cs + [c]) == DataOf(cs) + DataOf([c])
  {
    hide AllOk, CodeOf, DataOf;
    NoChunks();
    ConsChunk(c, []);
    assert [c] + [] == [c];
    if cs == [] {
      assert cs + [c] == [c];
    } else {
      ChunksOk(cs);
      AppendChunk(cs[1..], c);
      ConsChunk(cs[0], cs[1..]);
      ConsChunk(cs[0], cs[1..] + [c]);
      assert cs == [cs[0]] + cs[1..] && cs + [c] == [cs[0]] + (cs[1..] + [c]);
    }
  }

  /** One more chunk. */
  lemma WritesChunk(out: seq<Byte>, cs: seq<Chunk>, data: seq<Byte>, cur: nat, n: nat, c: Chunk)
    requires Written(out, cs, data, cur) && ChunkOk(c) && cur + n <= |data|
    requires AllOk([c]) && DataOf([c]) == data[cur..cur + n] && (c.Literal? ==> NoRun(c.bytes, 0, |c.bytes|))
    ensures Written(out + CodeOf([c]), cs + [c], data, cur + n)
  {
    hide AllOk, CodeOf, DataOf, ChunkOk, NoRun;
    AppendChunk(cs, c);
    assert data[..cur] + data[cur..cur + n] == data[..cur + n];
  }

  lemma OneChunk(c: Chunk)
    requires ChunkOk(c)
    ensures AllOk([c])
    ensures CodeOf([c]) == match c { case Run(x, n) => [128 + n, x] case Literal(bytes) => [|bytes|] + bytes }
    ensures DataOf([c]) == match c { case Run(x, n) => seq(n, _ => x) case Literal(bytes) => bytes }
  {}

  lemma WritesRun(out: seq<Byte>, cs: seq<Chunk>, data: seq<Byte>, cur: nat, n: nat)
    requires Written(out, cs, data, cur) && 0 < n <= 127 && IsRun(data, cur, n)
    ensures Written(out + [128 + n, data[cur]], cs + [Run(data[cur], n)], data, cur + n)
  {
    hide AllOk, CodeOf, DataOf, Tight, NoRun, Written;
    var c := Run(data[cur], n);
    OneChunk(c);
    assert DataOf([c]) == data[cur..cur + n];
    WritesChunk(out, cs, data, cur, n, c);
  }

  lemma WritesLiteral(out: seq<Byte>, cs: seq<Chunk>, data: seq<Byte>, cur: nat, n: nat, end: nat)
    requires Written(out, cs, data, cur) && 0 < n <= 128 && cur + n <= end && NoRun(data, cur, end)
    ensures var x := data[cur..cur + n];
            Written(out + ([n] + x), cs + [Literal(x)], data, cur + n)
  {
    hide AllOk, CodeOf, DataOf, Tight, Written;
    var x := data[cur..cur + n];
    OneChunk(Literal(x));
    PartHasNoRun(data, cur, n, end);
    WritesChunk(out, cs, data, cur, n, Literal(x));
  }

  lemma PartHasNoRun(data: seq<Byte>, cur: nat, n: nat, end: nat)
    requires cur + n <= end && NoRun(data, cur, end)
    ensures NoRun(data[cur..cur + n], 0, n)
  {
    var x := data[cur..cur + n];
    forall b: nat | b + MINRUNLENGTH <= n ensures !IsRun(x, b, MINRUNLENGTH) {
      assert !IsRun(data, cur + b, MINRUNLENGTH);
      var k :| cur + b <= k < cur + b + MINRUNLENGTH && data[k] != data[cur + b];
      assert x[k - cur] != x[b];
    }
  }

  /** RGBE_WriteBytes_RLE: all runs that are long enough are written as runs.  The source tests
      data[beg_run] == data[beg_run + run_count] before it tests that the index is inside the data; here the test for
      the index comes first. */
  method WriteBytesRle(data: seq<Byte>) returns (out: seq<Byte>, ghost cs: seq<Chunk>)
    ensures Encodes(out, data)
    ensures AllOk(cs) && out == CodeOf(cs) && data == DataOf(cs) && Tight(cs)
  {
    hide Encodes, Decode, Repeat, CodeOf, DataOf, AllOk, Written, NoRun, Tight;
    var cur := 0;
    out, cs := [], [];
    EncodesNothing();
    WrittenNothing(data);
    assert data[..0] == [];
    while cur < |data|
      invariant 0 <= cur <= |data| && Encodes(out, data[..cur]) && Written(out, cs, data, cur)
    {
      var begRun := cur;
      var runCount, oldRunCount := 0, 0;
      NoRunStarts(data, cur);
      while runCount < MINRUNLENGTH && begRun < |data|
        invariant cur <= begRun <= |data| && 0 <= runCount <= 127 && 0 <= oldRunCount < MINRUNLENGTH
        invariant cur <= begRun - oldRunCount && IsRun(data, begRun - oldRunCount, oldRunCount)
        invariant begRun < |data| ==> IsRun(data, begRun, runCount)
        invariant begRun == |data| ==> runCount == 1
        invariant runCount == 0 ==> begRun == cur && oldRunCount == 0
        invariant NoRun(data, cur, begRun) && (cur < begRun < |data| ==> data[begRun-1] != data[begRun])
        invariant 0 < runCount < MINRUNLENGTH && begRun + runCount < |data| ==> data[begRun + runCount] != data[begRun]
        decreases |data| - begRun, 1 - runCount
      {
        NoRunGoesOn(data, cur, begRun, runCount);
        assert runCount > 0 ==> data[begRun + runCount - 1] == data[begRun];
        begRun := begRun + runCount;
        oldRunCount := runCount;
        runCount := 1;
        while begRun + runCount < |data| && data[begRun] == data[begRun + runCount] && runCount < 127
          invariant 1 <= runCount <= 127
          invariant begRun < |data| ==> IsRun(data, begRun, runCount)
          invariant begRun == |data| ==> runCount == 1
        {
          runCount := runCount + 1;
        }
      }
      ghost var start := cur;
      if oldRunCount > 1 && oldRunCount == begRun - cur {
        RunIs(data, cur, oldRunCount);
        EncodesRun(data[cur], oldRunCount);
        Extend(out, data, cur, [128 + oldRunCount, data[cur]], oldRunCount);
        WritesRun(out, cs, data, cur, oldRunCount);
        out, cs := out + [128 + oldRunCount, data[cur]], cs + [Run(data[cur], oldRunCount)];
        cur := begRun;
      }
      while cur < begRun
        invariant start <= cur <= begRun && Encodes(out, data[..cur]) && Written(out, cs, data, cur)
      {
        var nonrunCount := begRun - cur;
        if nonrunCount > 128 { nonrunCount := 128; }
        EncodesLiteral(data[cur..cur + nonrunCount]);
        Extend(out, data, cur, [nonrunCount] + data[cur..cur + nonrunCount], nonrunCount);
        NoRunInside(data, start, cur, begRun);
        WritesLiteral(out, cs, data, cur, nonrunCount, begRun);
        out := out + ([nonrunCount] + data[cur..cur + nonrunCount]);
        cs := cs + [Literal(data[cur..cur + nonrunCount])];
        cur := cur + nonrunCount;
      }
      if runCount >= MINRUNLENGTH {
        RunIs(data, begRun, runCount);
        EncodesRun(data[begRun], runCount);
        Extend(out, data, cur, [128 + runCount, data[begRun]], runCount);
        WritesRun(out, cs, data, cur, runCount);
        out, cs := out + [128 + runCount, data[begRun]], cs + [Run(data[begRun], runCount)];
        cur := cur + runCount;
      }
    }
    assert data[..cur] == data;
    WrittenAll(out, cs, data);
  }

  lemma WrittenNothing(data: seq<Byte>)
    ensures Written([], [], data, 0)
  {}

  lemma WrittenAll(out: seq<Byte>, cs: seq<Chunk>, data: seq<Byte>)
    requires Written(out, cs, data, |data|)
    ensures AllOk(cs) && out == CodeOf(cs) && data == DataOf(cs) && Tight(cs)
  {
    assert data[..|data|] == data;
  }

  lemma NoRunStarts(data: seq<Byte>, cur: nat)
    requires cur <= |data|
    ensures NoRun(data, cur, cur)
  {}

  lemma NoRunInside(data: seq<Byte>, from: nat, cur: nat, to: nat)
    requires NoRun(data, from, to) && from <= cur
    ensures NoRun(data, cur, to)
  {}

  lemma EncodesNothing()
    ensures Encodes([], [])
  {
    hide Decode;
    forall rest: seq<Byte> ensures Decode([] + rest, 0) == Done([], rest) {
      assert [] + rest == rest;
      DecodesNothing(rest);
    }
  }

  lemma DecodesNothing(s: seq<Byte>)
    ensures Decode(s, 0) == Done([], s)
  {}

  // ---------------------------------------------------------------------------------------------
  // The decoder
  // ---------------------------------------------------------------------------------------------

  datatype Status = Ok | ReadFailed | BadFormat | NotEncoded

  function StatusOf(d: Decoded): Status {
    match d
    case Done(_, _) => Ok
    case ReadError => ReadFailed
    case FormatError => BadFormat
    case Flat(_) => NotEncoded
  }

  /** Writing a chunk at ptr, between from and to. */
  lemma Stitch(b: seq<Byte>, b': seq<Byte>, from: nat, ptr: nat, end: nat, to: nat, chunk: seq<Byte>)
    requires from <= ptr <= end <= to <= |b| && |chunk| == end - ptr && b' == b[..ptr] + chunk + b[end..]
    ensures |b'| == |b| && b'[..from] == b[..from] && b'[to..] == b[to..] && b'[from..end] == b[from..ptr] + chunk
  {}

  /** while(count-- > 0) *ptr++ = buf[1]; */
  method PutRun(buffer: array<Byte>, first: nat, n: nat, x: Byte) returns (ptr: nat)
    requires first + n <= buffer.Length
    modifies buffer
    ensures ptr == first + n && buffer[..] == old(buffer[..first]) + Repeat(x, n) + old(buffer[first + n..])
  {
    ptr := first;
    var count := n;
    while count > 0
      invariant 0 <= count <= n && ptr == first + (n - count)
      invariant forall k :: 0 <= k < buffer.Length ==> buffer[k] == if first <= k < ptr then x else old(buffer[k])
    {
      buffer[ptr] := x;
      ptr := ptr + 1;
      count := count - 1;
    }
  }

  /** fread into the buffer: all or nothing as far as the caller can tell. */
  method Fread(input: seq<Byte>, next: nat, buffer: array<Byte>, ptr: nat, count: nat)
    requires next + count <= |input| && ptr + count <= buffer.Length
    modifies buffer
    ensures buffer[..] == old(buffer[..ptr]) + input[next..next + count] + old(buffer[ptr + count..])
  {
    for k := 0 to count
      invariant forall j :: 0 <= j < buffer.Length ==>
                  buffer[j] == if ptr <= j < ptr + k then input[next + (j - ptr)] else old(buffer[j])
    {
      buffer[ptr + k] := input[next + k];
    }
  }

  /** The non-run branch: one byte has been read already, count - 1 are still in the file. */
  method PutLiteral(input: seq<Byte>, next: nat, buffer: array<Byte>, ptr: nat, count: nat, x: Byte)
    returns (fits: bool)
    requires next <= |input| && 0 < count && ptr + count <= buffer.Length
    modifies buffer
    ensures fits <==> next + count - 1 <= |input|
    ensures fits ==>
              buffer[..] == old(buffer[..ptr]) + ([x] + input[next..next + count - 1]) + old(buffer[ptr + count..])
    ensures forall k :: 0 <= k < buffer.Length && !(ptr <= k < ptr + count) ==> buffer[k] == old(buffer[k])
  {
    buffer[ptr] := x;
    if count - 1 > 0 {
      if next + count - 1 > |input| { return false; }
      Fread(input, next, buffer, ptr + 1, count - 1);
    }
    return true;
  }

  /** One turn of the channel loop of RGBE_ReadPixels_RLE: one run, or one stretch of literal bytes. */
  method ReadChunk(input: seq<Byte>, pos: nat, buffer: array<Byte>, from: nat, to: nat)
    returns (status: Status, next: nat, ptr: nat, ghost chunk: seq<Byte>)
    requires pos <= |input| && from < to <= buffer.Length
    modifies buffer
    ensures pos <= next <= |input| && from <= ptr <= to
    ensures status.ReadFailed? <==> Stuck(input[pos..], to - from, ReadError)
    ensures status.BadFormat? <==> Stuck(input[pos..], to - from, FormatError)
    ensures !status.NotEncoded?
    ensures !status.Ok? ==> status == StatusOf(Decode(input[pos..], to - from))
    ensures !status.Ok? ==> forall k :: 0 <= k < buffer.Length && !(from <= k < to) ==> buffer[k] == old(buffer[k])
    ensures status.Ok? ==> from < ptr && |chunk| == ptr - from
    ensures status.Ok? ==> buffer[..] == old(buffer[..from]) + chunk + old(buffer[ptr..])
    ensures status.Ok? ==> Decode(input[pos..], to - from) == After(chunk, Decode(input[next..], to - ptr))
  {
    hide Decode, Repeat, After;
    ghost var s := input[pos..];
    DecodeCases(s, to - from);
    if pos + 2 > |input| { return ReadFailed, pos, from, []; }
    var buf0, buf1 := input[pos], input[pos + 1];
    next := pos + 2;
    if buf0 > 128 {
      var count := buf0 - 128;
      if count > to - from { return BadFormat, next, from, []; }
      ptr := PutRun(buffer, from, count, buf1);
      assert s[2..] == input[next..];
      return Ok, next, ptr, Repeat(buf1, count);
    } else {
      var count := buf0;
      if count == 0 || count > to - from { return BadFormat, next, from, []; }
      var fits := PutLiteral(input, next, buffer, from, count, buf1);
      if !fits { return ReadFailed, next, from, []; }
      assert [buf1] + input[next..next + count - 1] == s[1..1 + count];
      assert s[1 + count..] == input[next + count - 1..];
      return Ok, next + count - 1, from + count, s[1..1 + count];
    }
  }

  /** The channel loop of RGBE_ReadPixels_RLE: reads one channel into buffer[from..to].  Whatever the input is, no
      other place of the buffer is written. */
  method ReadChannel(input: seq<Byte>, pos: nat, buffer: array<Byte>, from: nat, to: nat)
    returns (status: Status, next: nat)
    requires pos <= |input| && from <= to <= buffer.Length
    modifies buffer
    ensures buffer[..from] == old(buffer[..from]) && buffer[to..] == old(buffer[to..])
    ensures status == StatusOf(Decode(input[pos..], to - from))
    ensures pos <= next <= |input| && !status.NotEncoded?
    ensures status.Ok? ==> Decode(input[pos..], to - from) == Done(buffer[from..to], input[next..])
  {
    hide Decode, Repeat;
    var ptr := from;
    next := pos;
    status := Ok;
    AfterNothing(Decode(input[pos..], to - from));
    while ptr < to
      invariant from <= ptr <= to && pos <= next <= |input|
      invariant buffer[..from] == old(buffer[..from]) && buffer[to..] == old(buffer[to..])
      invariant After(buffer[from..ptr], Decode(input[next..], to - ptr)) == Decode(input[pos..], to - from)
      invariant status.Ok?
    {
      ghost var before, start := buffer[..], ptr;
      ghost var chunk;
      status, next, ptr, chunk := ReadChunk(input, next, buffer, ptr, to);
      if !status.Ok? { return; }
      Stitch(before, buffer[..], from, start, ptr, to, chunk);
      AfterTwice(before[from..start], chunk, Decode(input[next..], to - ptr));
    }
    DecodeNone(input[next..]);
    return Ok, next;
  }

  lemma DecodeNone(s: seq<Byte>)
    ensures Decode(s, 0) == Done([], s)
  {}

  lemma DecodeCases(s: seq<Byte>, n: nat)
    requires n > 0
    ensures |s| < 2 ==> Decode(s, n) == ReadError
    ensures |s| >= 2 && s[0] > 128 ==>
              Decode(s, n) == if s[0] - 128 > n then FormatError
                              else After(Repeat(s[1], s[0] - 128), Decode(s[2..], n - (s[0] - 128)))
    ensures |s| >= 2 && s[0] <= 128 ==>
              Decode(s, n) == if s[0] == 0 || s[0] > n then FormatError else if |s| < 1 + s[0] then ReadError
                              else After(s[1..1 + s[0]], Decode(s[1 + s[0]..], n - s[0]))
  {}

  // ---------------------------------------------------------------------------------------------
  // Scanlines: a header and four channels, of width bytes each, one after the other in the buffer
  // ---------------------------------------------------------------------------------------------

  /** Scanlines of other widths are not run length encoded at all. */
  predicate WidthOk(w: nat) {
    8 <= w <= 0x7fff
  }

  function DecodeChannels(s: seq<Byte>, w: nat, k: nat): (d: Decoded)
    ensures d.Done? ==> |d.bytes| == k * w
  {
    if k == 0 then Done([], s) else
      var d := DecodeChannels(s, w, k - 1);
      if d.Done? then After(d.bytes, Decode(d.rest, w)) else d
  }

  /** A scanline whose header is not that of run length encoding starts the flat rest of the file. */
  function DecodeScanline(s: seq<Byte>, w: nat): (d: Decoded)
    ensures d.Done? ==> |d.bytes| == 4 * w
  {
    if |s| < 4 then ReadError
    else if s[0] != 2 || s[1] != 2 || s[2] >= 0x80 then Flat(s)
    else if (s[2] as int) * 256 + s[3] != w then FormatError
    else DecodeChannels(s[4..], w, 4)
  }

  function DecodePixels(s: seq<Byte>, w: nat, k: nat): (d: Decoded)
  {
    if k == 0 then Done([], s) else
      var d := DecodePixels(s, w, k - 1);
      if d.Done? then After(d.bytes, DecodeScanline(d.rest, w)) else d
  }

  /** s starts with the header for the width w and four channels of chunks, whose data d has, and goes on as d says. */
  predicate IsScanline(s: seq<Byte>, w: nat, d: Decoded, c0: seq<Chunk>, c1: seq<Chunk>, c2: seq<Chunk>,
                       c3: seq<Chunk>)
    requires d.Done?
  {
    && AllOk(c0) && AllOk(c1) && AllOk(c2) && AllOk(c3)
    && |DataOf(c0)| == |DataOf(c1)| == |DataOf(c2)| == |DataOf(c3)| == w
    && d.bytes == DataOf(c0) + DataOf(c1) + DataOf(c2) + DataOf(c3)
    && |s| >= 4 && s[0] == s[1] == 2 && (s[2] as int) * 256 + s[3] == w && s[2] < 0x80
    && s[4..] == CodeOf(c0) + (CodeOf(c1) + (CodeOf(c2) + (CodeOf(c3) + d.rest)))
  }

  /** A scanline that can be read is the header and the four channels, in order. */
  lemma ScanlineMeans(s: seq<Byte>, w: nat) returns (c0: seq<Chunk>, c1: seq<Chunk>, c2: seq<Chunk>, c3: seq<Chunk>)
    requires DecodeScanline(s, w).Done?
    ensures IsScanline(s, w, DecodeScanline(s, w), c0, c1, c2, c3)
  {
    var r0 := s[4..];
    var r1, r2, r3, r4;
    ChannelsInOrder(r0, w);
    hide DecodeChannels, Decode, CodeOf, DataOf, AllOk;
    c0, r1 := ChannelMeans(r0, w);
    c1, r2 := ChannelMeans(r1, w);
    c2, r3 := ChannelMeans(r2, w);
    c3, r4 := ChannelMeans(r3, w);
  }

  lemma ChannelMeans(s: seq<Byte>, w: nat) returns (cs: seq<Chunk>, tail: seq<Byte>)
    requires Decode(s, w).Done?
    ensures AllOk(cs) && s == CodeOf(cs) + tail && Decode(s, w) == Done(DataOf(cs), tail) && |DataOf(cs)| == w
  {
    hide Decode, CodeOf, DataOf, AllOk;
    cs, tail := DecodeMeans(s, w);
  }

  lemma ChannelsInOrder(s: seq<Byte>, w: nat)
    requires DecodeChannels(s, w, 4).Done?
    ensures var d0 := Decode(s, w);
            && d0.Done? && var d1 := Decode(d0.rest, w);
            && d1.Done? && var d2 := Decode(d1.rest, w);
            && d2.Done? && var d3 := Decode(d2.rest, w);
            && d3.Done?
            && DecodeChannels(s, w, 4) == Done(d0.bytes + d1.bytes + d2.bytes + d3.bytes, d3.rest)
  {
    hide Decode;
    assert DecodeChannels(s, w, 0) == Done([], s);
    assert DecodeChannels(s, w, 1) == After([], Decode(s, w));
    assert DecodeChannels(s, w, 3).Done? && DecodeChannels(s, w, 2).Done? && DecodeChannels(s, w, 1).Done?;
  }

  ghost predicate EncodesChannels(code: seq<Byte>, buffer: seq<Byte>, w: nat, k: nat) {
    forall rest: seq<Byte> :: DecodeChannels(code + rest, w, k) == Done(buffer, rest)
  }

  ghost predicate EncodesScanline(code: seq<Byte>, buffer: seq<Byte>, w: nat) {
    forall rest: seq<Byte> :: DecodeScanline(code + rest, w) == Done(buffer, rest)
  }

  ghost predicate EncodesPixels(code: seq<Byte>, data: seq<Byte>, w: nat, k: nat) {
    forall rest: seq<Byte> :: DecodePixels(code + rest, w, k) == Done(data, rest)
  }

  lemma NextChannel(code: seq<Byte>, x: seq<Byte>, w: nat, k: nat, chunk: seq<Byte>, y: seq<Byte>)
    requires EncodesChannels(code, x, w, k) && Encodes(chunk, y) && |y| == w
    ensures EncodesChannels(code + chunk, x + y, w, k + 1)
  {
    forall rest: seq<Byte> ensures DecodeChannels(code + chunk + rest, w, k + 1) == Done(x + y, rest) {
      assert code + chunk + rest == code + (chunk + rest);
      assert DecodeChannels(code + (chunk + rest), w, k) == Done(x, chunk + rest);
      assert Decode(chunk + rest, w) == Done(y, rest);
    }
  }

  lemma NextScanline(code: seq<Byte>, x: seq<Byte>, w: nat, k: nat, chunk: seq<Byte>, y: seq<Byte>)
    requires EncodesPixels(code, x, w, k) && EncodesScanline(chunk, y, w)
    ensures EncodesPixels(code + chunk, x + y, w, k + 1)
  {
    forall rest: seq<Byte> ensures DecodePixels(code + chunk + rest, w, k + 1) == Done(x + y, rest) {
      assert code + chunk + rest == code + (chunk + rest);
      assert DecodePixels(code + (chunk + rest), w, k) == Done(x, chunk + rest);
    }
  }

  lemma NoChannels(w: nat)
    ensures EncodesChannels([], [], w, 0) && EncodesPixels([], [], w, 0)
  {
    forall rest: seq<Byte> ensures DecodeChannels([] + rest, w, 0) == DecodePixels([] + rest, w, 0) == Done([], rest) {
      assert [] + rest == rest;
    }
  }

  function Header(w: nat): seq<Byte>
    requires WidthOk(w)
  {
    [2, 2, w / 256, w % 256]
  }

  lemma WithHeader(code: seq<Byte>, buffer: seq<Byte>, w: nat)
    requires WidthOk(w) && EncodesChannels(code, buffer, w, 4)
    ensures EncodesScanline(Header(w) + code, buffer, w)
  {
    hide DecodeChannels;
    forall rest: seq<Byte> ensures DecodeScanline(Header(w) + code + rest, w) == Done(buffer, rest) {
      var s: seq<Byte> := Header(w) + code + rest;
      assert s[4..] == code + rest;
    }
  }

  /** One turn of the scanline loop of RGBE_WritePixels_RLE. */
  method WriteScanline(buffer: seq<Byte>, w: nat) returns (out: seq<Byte>)
    requires WidthOk(w) && |buffer| == 4 * w
    ensures EncodesScanline(out, buffer, w)
    ensures |out| >= 4 && out[0] == out[1] == 2 && out[2] == w / 256 && out[3] == w % 256
  {
    hide Encodes, EncodesChannels, EncodesScanline;
    NoChannels(w);
    assert buffer[..0] == [];
    out := [];
    for i := 0 to 4
      invariant EncodesChannels(out, buffer[..i * w], w, i)
    {
      var channel := buffer[i * w..(i + 1) * w];
      var code, _ := WriteBytesRle(channel);
      NextChannel(out, buffer[..i * w], w, i, code, channel);
      assert buffer[..i * w] + channel == buffer[..(i + 1) * w];
      out := out + code;
    }
    assert buffer[..4 * w] == buffer;
    WithHeader(out, buffer, w);
    out := Header(w) + out;
  }

  /** RGBE_WritePixels_RLE, after the conversion of the pixels to bytes: data holds one buffer per scanline. */
  method WritePixelsRle(data: seq<Byte>, w: nat, numScanlines: nat) returns (out: seq<Byte>)
    requires WidthOk(w) && |data| == numScanlines * (4 * w)
    ensures EncodesPixels(out, data, w, numScanlines)
  {
    hide EncodesScanline, EncodesPixels;
    NoChannels(w);
    out := [];
    assert data[..0] == [];
    for i := 0 to numScanlines
      invariant i * (4 * w) <= |data| && EncodesPixels(out, data[..i * (4 * w)], w, i)
    {
      assert i * (4 * w) + 4 * w == (i + 1) * (4 * w) <= |data| by { Rows(i, numScanlines, 4 * w); }
      var buffer := data[i * (4 * w)..(i + 1) * (4 * w)];
      var code := WriteScanline(buffer, w);
      NextScanline(out, data[..i * (4 * w)], w, i, code, buffer);
      assert data[..i * (4 * w)] + buffer == data[..(i + 1) * (4 * w)];
      out := out + code;
    }
    assert data[..numScanlines * (4 * w)] == data;
  }

  lemma {:induction false} Rows(i: nat, n: nat, w: nat)
    requires i < n
    ensures i * w + w == (i + 1) * w <= n * w
  {
    if i + 1 < n {
      Rows(i, n - 1, w);
      assert n * w == (n - 1) * w + w;
    }
  }

  /** One turn of the scanline loop of RGBE_ReadPixels_RLE. */
  method ReadScanline(input: seq<Byte>, pos: nat, buffer: array<Byte>, w: nat) returns (status: Status, next: nat)
    requires WidthOk(w) && pos <= |input| && buffer.Length == 4 * w
    modifies buffer
    ensures status == StatusOf(DecodeScanline(input[pos..], w)) && pos <= next <= |input|
    ensures status.NotEncoded? <==>
              pos + 4 <= |input| && (input[pos] != 2 || input[pos + 1] != 2 || input[pos + 2] >= 0x80)
    ensures pos + 4 > |input| ==> status.ReadFailed?
    ensures pos + 4 <= |input| && !status.NotEncoded? && (input[pos + 2] as int) * 256 + input[pos + 3] != w ==>
              status.BadFormat?
    ensures status.Ok? ==> DecodeScanline(input[pos..], w) == Done(buffer[..], input[next..])
  {
    hide Decode;
    if pos + 4 > |input| { return ReadFailed, pos; }
    if input[pos] != 2 || input[pos + 1] != 2 || input[pos + 2] >= 0x80 { return NotEncoded, pos; }
    if (input[pos + 2] as int) * 256 + input[pos + 3] != w { return BadFormat, pos; }
    next := pos + 4;
    ghost var s := input[pos + 4..];
    assert input[pos..][4..] == s;
    for i := 0 to 4
      invariant pos + 4 <= next <= |input|
      invariant DecodeChannels(s, w, i) == Done(buffer[..i * w], input[next..])
      invariant i <= 4
    {
      ghost var before := buffer[..i * w];
      assert DecodeChannels(s, w, i + 1) == After(before, Decode(input[next..], w));
      status, next := ReadChannel(input, next, buffer, i * w, (i + 1) * w);
      if !status.Ok? {
        FirstFailure(s, w, i + 1);
        return;
      }
      assert buffer[..(i + 1) * w] == before + buffer[i * w..(i + 1) * w];
    }
    assert buffer[..4 * w] == buffer[..];
    return Ok, next;
  }

  /** A channel that cannot be read decides about the scanline. */
  lemma {:induction false} FirstFailure(s: seq<Byte>, w: nat, k: nat)
    requires k <= 4 && !DecodeChannels(s, w, k).Done?
    ensures DecodeChannels(s, w, 4) == DecodeChannels(s, w, k)
    decreases 4 - k
  {
    if k < 4 { FirstFailure(s, w, k + 1); }
  }

  lemma {:induction false} FirstBadScanline(s: seq<Byte>, w: nat, k: nat, n: nat)
    requires k <= n && !DecodePixels(s, w, k).Done?
    ensures DecodePixels(s, w, n) == DecodePixels(s, w, k)
    decreases n - k
  {
    if k < n { FirstBadScanline(s, w, k + 1, n); }
  }

  /** The scanlines of data start at these places of the input, one right behind the other. */
  ghost predicate Follow(input: seq<Byte>, w: nat, data: seq<Byte>, starts: seq<nat>) {
    && 0 < |starts| && (forall i :: 0 <= i < |starts| ==> starts[i] <= |input|)
    && |data| == (|starts| - 1) * (4 * w)
    && forall i :: 0 <= i < |starts| - 1 ==> ScanlineAt(input, w, data, starts, i)
  }

  ghost predicate ScanlineAt(input: seq<Byte>, w: nat, data: seq<Byte>, starts: seq<nat>, i: nat)
    requires i + 1 < |starts| && starts[i] <= |input| && starts[i+1] <= |input|
  {
    && 0 <= i * (4 * w) <= i * (4 * w) + 4 * w <= |data|
    && DecodeScanline(input[starts[i]..], w) == Done(data[i * (4 * w)..i * (4 * w) + 4 * w], input[starts[i+1]..])
  }

  lemma FollowMore(input: seq<Byte>, w: nat, data: seq<Byte>, starts: seq<nat>, line: seq<Byte>, next: nat)
    requires Follow(input, w, data, starts) && |line| == 4 * w && next <= |input|
    requires DecodeScanline(input[starts[|starts| - 1]..], w) == Done(line, input[next..])
    ensures Follow(input, w, data + line, starts + [next])
  {
    hide DecodeScanline;
    var n := |starts| - 1;
    assert (data + line)[n * (4 * w)..n * (4 * w) + 4 * w] == line;
    assert (n + 1) * (4 * w) == n * (4 * w) + 4 * w;
    forall i | 0 <= i < n ensures ScanlineAt(input, w, data + line, starts + [next], i) {
      assert ScanlineAt(input, w, data, starts, i);
      assert (data + line)[i * (4 * w)..i * (4 * w) + 4 * w] == data[i * (4 * w)..i * (4 * w) + 4 * w];
    }
  }

  /** RGBE_ReadPixels_RLE, before the conversion of the bytes to pixels.  starts are the places where scanlines start,
      the last one that of the scanline that could not be read, or the end. */
  method ReadPixelsRle(input: seq<Byte>, pos: nat, w: nat, numScanlines: nat)
    returns (status: Status, data: seq<Byte>, next: nat, ghost starts: seq<nat>)
    requires WidthOk(w) && pos <= |input|
    ensures status == StatusOf(DecodePixels(input[pos..], w, numScanlines)) && pos <= next <= |input|
    ensures status.Ok? ==> DecodePixels(input[pos..], w, numScanlines) == Done(data, input[next..])
    ensures 0 < |starts| <= numScanlines + 1 && starts[0] == pos && Follow(input, w, data, starts)
    ensures status.Ok? ==> |starts| == numScanlines + 1 && starts[numScanlines] == next
    ensures !status.Ok? ==>
              |starts| <= numScanlines && status == StatusOf(DecodeScanline(input[starts[|starts| - 1]..], w))
  {
    hide DecodeScanline;
    data, next, starts := [], pos, [pos];
    var buffer := new Byte[4 * w](_ => 0);
    for i := 0 to numScanlines
      invariant pos <= next <= |input|
      invariant DecodePixels(input[pos..], w, i) == Done(data, input[next..])
      invariant |starts| == i + 1 && starts[0] == pos && starts[i] == next && Follow(input, w, data, starts)
    {
      assert DecodePixels(input[pos..], w, i + 1) == After(data, DecodeScanline(input[next..], w));
      status, next := ReadScanline(input, next, buffer, w);
      if !status.Ok? {
        FirstBadScanline(input[pos..], w, i + 1, numScanlines);
        return;
      }
      FollowMore(input, w, data, starts, buffer[..], next);
      data := data + buffer[..];
      starts := starts + [next];
    }
    return Ok, data, next, starts;
  }

  /** The round trip: reading back what was written, with anything behind it in the file, returns the same bytes
      and leaves the file position right behind them. */
  method RoundTrip(data: seq<Byte>, w: nat, numScanlines: nat, rest: seq<Byte>)
    returns (status: Status, read: seq<Byte>, next: nat, code: seq<Byte>)
    requires WidthOk(w) && |data| == numScanlines * (4 * w)
    ensures EncodesPixels(code, data, w, numScanlines) && next <= |code + rest|
    ensures status.Ok? && DecodePixels(code + rest, w, numScanlines) == Done(read, (code + rest)[next..])
    ensures read == data && next == |code|
  {
    code := WritePixelsRle(data, w, numScanlines);
    assert DecodePixels(code + rest, w, numScanlines) == Done(data, rest);
    assert (code + rest)[0..] == code + rest;
    ghost var starts;
    status, read, next, starts := ReadPixelsRle(code + rest, 0, w, numScanlines);
    assert (code + rest)[next..] == rest;
  }
}
