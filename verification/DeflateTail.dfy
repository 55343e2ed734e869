/** permessage-deflate framing: the chunk loops around zlib, and the four-byte tail that is removed
    before transmission and put back before decompression (sections 7.2.1 and 7.2.2 of RFC 7692). */
module DeflateTail {
  import opened Common

  type byte = uint8

  const CHUNK: nat := 16384
  const TAIL: seq<byte> := [0x00, 0x00, 0xff, 0xff]

  /** zlib return codes. */
  const Z_OK := 0
  const Z_STREAM_END := 1
  const Z_BUF_ERROR := -5

  /** `std::vector<uint8_t>`, passed by reference. */
  class ByteVector {
    var bytes: seq<byte>

    constructor (bytes: seq<byte>)
      ensures this.bytes == bytes
    {
      this.bytes := bytes;
    }
  }

  predicate DeflateFine(ret: int) {
    ret == Z_OK || ret == Z_BUF_ERROR
  }

  predicate InflateFine(ret: int) {
    ret == Z_OK || ret == Z_STREAM_END || ret == Z_BUF_ERROR
  }

  /** One direction of zlib: its answers to successive calls, and the bytes it makes of an input
      after those it was given before.  A call that is answered with an error produces nothing. */
  class ZStream {
    const answers: nat -> int
    const makes: (seq<byte>, seq<byte>) -> seq<byte>
    var calls: nat
    var taken: seq<byte>
    var rest: seq<byte>

    constructor (answers: nat -> int, makes: (seq<byte>, seq<byte>) -> seq<byte>)
      ensures this.answers == answers && this.makes == makes && calls == 0 && taken == [] && rest == []
    {
      this.answers, this.makes, calls, taken, rest := answers, makes, 0, [], [];
    }

    /** What is still to come once `input` is set. */
    function Pending(input: seq<byte>): seq<byte>
      reads this
    {
      if input == [] then rest else rest + makes(taken, input)
    }

    method SetInput(input: seq<byte>)
      modifies this`taken, this`rest
      ensures taken == old(taken) + input && rest == old(Pending(input))
    {
      rest := Pending(input);
      taken := taken + input;
    }

    /** Fills `buffer` from its start as far as there is output. */
    method Produce(buffer: array<byte>) returns (ret: int, availOut: nat)
      modifies this`calls, this`rest, buffer
      ensures ret == answers(old(calls)) && calls == old(calls) + 1
      ensures availOut <= buffer.Length
      ensures InflateFine(ret) ==>
                && old(rest) == buffer[..buffer.Length - availOut] + rest
                && (availOut > 0 ==> rest == [])
      ensures !InflateFine(ret) ==> rest == old(rest)
    {
      ret, availOut := answers(calls), buffer.Length;
      calls := calls + 1;
      if InflateFine(ret) {
        var n := if |rest| < buffer.Length then |rest| else buffer.Length;
        forall i | 0 <= i < n {
          buffer[i] := rest[i];
        }
        availOut := buffer.Length - n;
        rest := rest[n..];
      }
    }
  }

  // ---------- the tail ----------

  predicate EndsInTail(s: seq<byte>) {
    |s| >= 5 && s[|s| - 4..] == TAIL
  }

  /** What is transmitted: the tail is removed; an output without one gets the first byte of an empty
      block instead. */
  function Strip(s: seq<byte>): seq<byte> {
    if EndsInTail(s) then s[..|s| - 4] else s + [0x00]
  }

  function Restore(s: seq<byte>): seq<byte> {
    s + TAIL
  }

  function LittleEndian16(n: nat): seq<byte>
    requires n < 0x1_0000
  {
    [n % 0x100, n / 0x100]
  }

  /** A non-final stored block, byte-aligned: header bits zero, the length, its complement, the
      bytes (section 3.2.4 of RFC 1951). */
  function StoredBlock(data: seq<byte>): seq<byte>
    requires |data| < 0x1_0000
  {
    [0x00] + LittleEndian16(|data|) + LittleEndian16(0xffff - |data|) + data
  }

  /** What the receiver decompresses is what the compressor produced, or that and one empty stored
      block; the block is added exactly when the output did not end in the tail. */
  lemma RestoredIsProduced(r: seq<byte>)
    ensures Restore(Strip(r)) == if EndsInTail(r) then r else r + StoredBlock([])
  {
    if EndsInTail(r) {
      assert r == r[..|r| - 4] + r[|r| - 4..];
    } else {
      assert (r + [0x00]) + TAIL == r + ([0x00] + TAIL);
      assert StoredBlock([]) == [0x00] + TAIL;
    }
  }

  /** The tail test looks at the whole vector: what was there before is left alone exactly when
      at least five bytes follow it, or it does not help to make up a tail. */
  lemma StripIsLocal(before: seq<byte>, r: seq<byte>)
    ensures Strip(before + r) == before + Strip(r) <==> |r| >= 5 || !EndsInTail(before + r)
  {
    var all := before + r;
    if EndsInTail(r) {
      assert all[|all| - 4..] == r[|r| - 4..];
      assert all[..|all| - 4] == before + r[..|r| - 4];
    } else {
      assert all + [0x00] == before + (r + [0x00]);
      assert EndsInTail(all) ==> |Strip(all)| < |before + Strip(r)|;
      assert |r| >= 5 ==> all[|all| - 4..] == r[|r| - 4..];
    }
  }

  // ---------- a conversation ----------

  /** What is asked of the format (section 3.2.4 of RFC 1951): `decode` gives the bytes a stream
      stands for so far, `aligned` whether it ends with a whole block on a byte boundary; there a
      stored block adds its bytes. */
  ghost predicate Format(decode: seq<byte> -> seq<byte>, aligned: seq<byte> -> bool) {
    && aligned([]) && decode([]) == []
    && forall h, d :: aligned(h) && |d| < 0x1_0000 ==>
         aligned(h + StoredBlock(d)) && decode(h + StoredBlock(d)) == decode(h) + d
  }

  /** What is asked of the compressor with a sync flush: after any stream that stands for what it has
      been given before, its output stands for the message. */
  ghost predicate Compresses(
    makes: (seq<byte>, seq<byte>) -> seq<byte>, decode: seq<byte> -> seq<byte>, aligned: seq<byte> -> bool)
  {
    forall h, m :: aligned(h) ==>
      aligned(h + makes(decode(h), m)) && decode(h + makes(decode(h), m)) == decode(h) + m
  }

  /** What is asked of the decompressor: it produces what the stream stands for as it goes. */
  ghost predicate Decompresses(makes: (seq<byte>, seq<byte>) -> seq<byte>, decode: seq<byte> -> seq<byte>) {
    forall h, x :: decode(h) + makes(h, x) == decode(h + x)
  }

  /** What is transmitted for `m` after the messages `past`. */
  function Wire(makes: (seq<byte>, seq<byte>) -> seq<byte>, past: seq<byte>, m: seq<byte>): seq<byte> {
    Strip(if m == [] then [] else makes(past, m))
  }

  /** Whatever a stream has carried so far, the next message, the empty one included, survives
      compression, removal of the tail and its return. */
  lemma MessageRoundTrip(makes: (seq<byte>, seq<byte>) -> seq<byte>, decode: seq<byte> -> seq<byte>,
                         aligned: seq<byte> -> bool, h: seq<byte>, m: seq<byte>)
    requires Format(decode, aligned) && Compresses(makes, decode, aligned) && aligned(h)
    ensures var x := h + Restore(Wire(makes, decode(h), m)); aligned(x) && decode(x) == decode(h) + m
  {
    var r := if m == [] then [] else makes(decode(h), m);
    RestoredIsProduced(r);
    assert h + [] == h && decode(h) + [] == decode(h);
    assert aligned(h + r) && decode(h + r) == decode(h) + m;
    assert (h + r) + StoredBlock([]) == h + (r + StoredBlock([]));
    assert aligned((h + r) + StoredBlock([])) && decode((h + r) + StoredBlock([])) == decode(h + r) + [];
  }

  // ---------- a codec of stored blocks ----------

  /** A decoder for stored blocks alone: the header bytes read so far, the bytes of the block still to
      come, and what was decoded. */
  datatype Decoder = Decoder(header: seq<byte>, left: nat, out: seq<byte>)

  function FromLittleEndian16(low: int, high: int): nat
    requires 0 <= low && 0 <= high
  {
    low + 0x100 * high
  }

  function Feed(d: Decoder, b: byte): Decoder {
    if d.left > 0 then Decoder(d.header, d.left - 1, d.out + [b])
    else if |d.header| < 4 then Decoder(d.header + [b], 0, d.out)
    else Decoder([], FromLittleEndian16(d.header[1], d.header[2]), d.out)
  }

  function FeedAll(d: Decoder, s: seq<byte>): Decoder
    decreases |s|
  {
    if s == [] then d else FeedAll(Feed(d, s[0]), s[1..])
  }

  function Decoded(s: seq<byte>): Decoder {
    FeedAll(Decoder([], 0, []), s)
  }

  lemma {:induction false} FeedAppend(d: Decoder, s: seq<byte>, t: seq<byte>)
    ensures FeedAll(d, s + t) == FeedAll(FeedAll(d, s), t)
    decreases |s|
  {
    if s == [] {
      assert s + t == t;
    } else {
      assert (s + t)[1..] == s[1..] + t;
      FeedAppend(Feed(d, s[0]), s[1..], t);
    }
  }

  lemma {:induction false} FeedGrows(d: Decoder, s: seq<byte>)
    ensures d.out <= FeedAll(d, s).out
    decreases |s|
  {
    if s == [] {
    } else {
      FeedGrows(Feed(d, s[0]), s[1..]);
    }
  }

  lemma {:induction false} FeedPayload(out: seq<byte>, data: seq<byte>)
    ensures FeedAll(Decoder([], |data|, out), data) == Decoder([], 0, out + data)
    decreases |data|
  {
    if data == [] {
      assert out + data == out;
    } else {
      FeedPayload(out + [data[0]], data[1..]);
      assert (out + [data[0]]) + data[1..] == out + data;
    }
  }

  lemma FeedHeader(out: seq<byte>, a: byte, b: byte, c: byte, d: byte, e: byte)
    ensures FeedAll(Decoder([], 0, out), [a, b, c, d, e]) == Decoder([], FromLittleEndian16(b, c), out)
  {
    assert [a, b, c, d, e][1..] == [b, c, d, e] && [b, c, d, e][1..] == [c, d, e];
    assert [c, d, e][1..] == [d, e] && [d, e][1..] == [e] && [e][1..] == [];
    assert [] + [a] == [a] && [a] + [b] == [a, b] && [a, b] + [c] == [a, b, c] && [a, b, c] + [d] == [a, b, c, d];
    assert Feed(Decoder([], 0, out), a) == Decoder([a], 0, out);
    assert Feed(Decoder([a], 0, out), b) == Decoder([a, b], 0, out);
    assert Feed(Decoder([a, b], 0, out), c) == Decoder([a, b, c], 0, out);
    assert Feed(Decoder([a, b, c], 0, out), d) == Decoder([a, b, c, d], 0, out);
    assert FeedAll(Decoder([a, b], 0, out), [c, d, e]) == FeedAll(Decoder([a, b, c, d], 0, out), [e]);
  }

  lemma FeedBlock(out: seq<byte>, data: seq<byte>)
    requires |data| < 0x1_0000
    ensures FeedAll(Decoder([], 0, out), StoredBlock(data)) == Decoder([], 0, out + data)
  {
    var n, m := |data|, 0xffff - |data|;
    var header := [0x00, n % 0x100, n / 0x100, m % 0x100, m / 0x100];
    assert StoredBlock(data) == header + data;
    FeedAppend(Decoder([], 0, out), header, data);
    FeedHeader(out, 0x00, n % 0x100, n / 0x100, m % 0x100, m / 0x100);
    FeedPayload(out, data);
  }

  /** The message in as many blocks as it needs. */
  function Blocks(m: seq<byte>): seq<byte> {
    if |m| < 0x1_0000 then StoredBlock(m) else StoredBlock(m[..0xffff]) + Blocks(m[0xffff..])
  }

  lemma {:induction false} FeedBlocks(out: seq<byte>, m: seq<byte>)
    ensures FeedAll(Decoder([], 0, out), Blocks(m)) == Decoder([], 0, out + m)
    decreases |m|
  {
    hide FeedAll, StoredBlock;
    if |m| < 0x1_0000 {
      FeedBlock(out, m);
    } else {
      FeedAppend(Decoder([], 0, out), StoredBlock(m[..0xffff]), Blocks(m[0xffff..]));
      FeedBlock(out, m[..0xffff]);
      FeedBlocks(out + m[..0xffff], m[0xffff..]);
      assert (out + m[..0xffff]) + m[0xffff..] == out + m;
    }
  }

  function StoredDecode(h: seq<byte>): seq<byte> {
    Decoded(h).out
  }

  predicate AtBoundary(h: seq<byte>) {
    Decoded(h).header == [] && Decoded(h).left == 0
  }

  function StoredInflate(h: seq<byte>, x: seq<byte>): seq<byte> {
    if |StoredDecode(h)| <= |StoredDecode(h + x)| then StoredDecode(h + x)[|StoredDecode(h)|..] else []
  }

  lemma BlocksAtBoundary(h: seq<byte>, m: seq<byte>)
    requires AtBoundary(h)
    ensures |m| < 0x1_0000 ==> AtBoundary(h + StoredBlock(m)) && StoredDecode(h + StoredBlock(m)) == StoredDecode(h) + m
    ensures AtBoundary(h + Blocks(m)) && StoredDecode(h + Blocks(m)) == StoredDecode(h) + m
  {
    hide FeedAll, StoredBlock, Blocks;
    FeedAppend(Decoder([], 0, []), h, Blocks(m));
    FeedBlocks(StoredDecode(h), m);
    if |m| < 0x1_0000 {
      FeedAppend(Decoder([], 0, []), h, StoredBlock(m));
      FeedBlock(StoredDecode(h), m);
    }
  }

  lemma InflateAt(h: seq<byte>, x: seq<byte>)
    ensures StoredDecode(h) + StoredInflate(h, x) == StoredDecode(h + x)
  {
    hide FeedAll;
    FeedAppend(Decoder([], 0, []), h, x);
    FeedGrows(Decoded(h), x);
  }

  /** What is asked of the format and of zlib can be met, by stored blocks alone. */
  lemma StoredBlocksSuffice()
    ensures Format(StoredDecode, AtBoundary)
    ensures Compresses((past, m) => Blocks(m), StoredDecode, AtBoundary)
    ensures Decompresses(StoredInflate, StoredDecode)
  {
    assert AtBoundary([]) && StoredDecode([]) == [];
    hide StoredBlock, Blocks, AtBoundary, StoredDecode, StoredInflate;
    forall h, d | AtBoundary(h) && |d| < 0x1_0000
      ensures AtBoundary(h + StoredBlock(d)) && StoredDecode(h + StoredBlock(d)) == StoredDecode(h) + d
    {
      BlocksAtBoundary(h, d);
    }
    forall h, m | AtBoundary(h)
      ensures AtBoundary(h + Blocks(m)) && StoredDecode(h + Blocks(m)) == StoredDecode(h) + m
    {
      BlocksAtBoundary(h, m);
    }
    forall h, x ensures StoredDecode(h) + StoredInflate(h, x) == StoredDecode(h + x) {
      InflateAt(h, x);
    }
  }

  // ---------- the chunk loops ----------

  /** The calls needed for `n` bytes: the last one must leave room in the buffer. */
  function CallsFor(n: nat): nat {
    n / CHUNK + 1
  }

  /** How many of `n` calls are answered well before the first that is not. */
  function FineCalls(answers: nat -> int, fine: int -> bool, first: nat, n: nat): (k: nat)
    ensures k <= n
    ensures forall i :: first <= i < first + k ==> fine(answers(i))
    ensures k < n ==> !fine(answers(first + k))
    decreases n
  {
    if n == 0 || !fine(answers(first)) then 0 else 1 + FineCalls(answers, fine, first + 1, n - 1)
  }

  /** The outcome of the chunk loop over the bytes `all` still to come: they are appended to what was
      there `before` whatever the chunk boundaries, unless a needed call fails; then only the chunks
      before it are. */
  ghost predicate Drained(answers: nat -> int, fine: int -> bool, first: nat, all: seq<byte>,
                          before: seq<byte>, after: seq<byte>, ok: bool, ret: int)
  {
    var k := FineCalls(answers, fine, first, CallsFor(|all|));
    && (ok <==> k == CallsFor(|all|))
    && (ok ==> after == before + all)
    && (!ok ==> k * CHUNK <= |all| && after == before + all[..k * CHUNK] && ret == answers(first + k) && !fine(ret))
  }

  lemma DrainedMeans(answers: nat -> int, fine: int -> bool, first: nat, all: seq<byte>,
                     before: seq<byte>, after: seq<byte>, ok: bool, ret: int)
    requires Drained(answers, fine, first, all, before, after, ok, ret)
    ensures ok <==> forall i | first <= i < first + CallsFor(|all|) :: fine(answers(i))
    ensures !ok ==> !fine(ret)
  {
  }

  lemma SentSoFar(sent: seq<byte>, rest: seq<byte>, before: seq<byte>, all: seq<byte>, n: nat)
    requires sent + rest == before + all && n + |rest| == |all|
    ensures sent == before + all[..n]
  {
    assert sent == (sent + rest)[..|sent|];
  }

  class Impl {
    const deflateStream: ZStream
    const inflateStream: ZStream
    const buffer: array<byte>

    ghost predicate Valid() {
      buffer.Length == CHUNK && deflateStream != inflateStream
    }

    constructor (deflateStream: ZStream, inflateStream: ZStream)
      requires deflateStream != inflateStream
      ensures Valid() && this.deflateStream == deflateStream && this.inflateStream == inflateStream
      ensures fresh(buffer) && buffer.Length == 16384
    {
      this.deflateStream, this.inflateStream := deflateStream, inflateStream;
      buffer := new byte[CHUNK];
    }

    /** The chunk loop of both directions. */
    method Drain(stream: ZStream, fine: int -> bool, output: ByteVector) returns (ok: bool, ret: int)
      requires Valid() && forall r :: fine(r) ==> InflateFine(r)
      modifies stream`calls, stream`rest, buffer, output
      ensures Drained(stream.answers, fine, old(stream.calls), old(stream.rest),
                      old(output.bytes), output.bytes, ok, ret)
      ensures ok ==> stream.rest == []
    {
      ghost var all, n := stream.rest, CallsFor(|stream.rest|);
      ghost var k := 0;
      var availOut := 0;
      ok, ret := true, Z_OK;
      while availOut == 0
        invariant k <= n && stream.calls == old(stream.calls) + k
        invariant k <= FineCalls(stream.answers, fine, old(stream.calls), n)
        invariant output.bytes + stream.rest == old(output.bytes) + all
        invariant availOut == 0 ==> k * CHUNK + |stream.rest| == |all|
        invariant availOut > 0 ==> k == n && stream.rest == []
        decreases if availOut == 0 then |stream.rest| + 1 else 0
      {
        ghost var sent, rest := output.bytes, stream.rest;
        SentSoFar(sent, rest, old(output.bytes), all, k * CHUNK);
        ret, availOut := stream.Produce(buffer);
        if !fine(ret) {
          return false, ret;
        }
        output.bytes := output.bytes + buffer[..buffer.Length - availOut];
        assert sent + rest == output.bytes + stream.rest;
        k := k + 1;
      }
    }

    /** `ok` is false where the source throws; then the chunks before the failure stay in `output`. */
    method Deflate(input: seq<byte>, output: ByteVector) returns (ok: bool)
      requires Valid()
      modifies deflateStream, buffer, output
      ensures deflateStream.taken == old(deflateStream.taken) + input
      ensures input == [] ==>
                ok && output.bytes == Strip(old(output.bytes)) && deflateStream.rest == old(deflateStream.rest)
      ensures input != [] ==>
                exists produced, ret ::
                  && Drained(deflateStream.answers, DeflateFine, old(deflateStream.calls),
                             old(deflateStream.Pending(input)), old(output.bytes), produced, ok, ret)
                  && output.bytes == if ok then Strip(produced) else produced
      ensures input != [] && ok ==> deflateStream.rest == []
      ensures var n := CallsFor(|old(deflateStream.Pending(input))|);
              input != [] ==>
                (ok <==> forall i | old(deflateStream.calls) <= i < old(deflateStream.calls) + n ::
                           deflateStream.answers(i) == 0 || deflateStream.answers(i) == -5)
    {
      deflateStream.SetInput(input);
      if |input| > 0 {
        var drained, ret := Drain(deflateStream, DeflateFine, output);
        ghost var produced := output.bytes;
        if !drained {
          return false;
        }
      }
      if |output.bytes| < 5 || output.bytes[|output.bytes| - 4..] != TAIL {
        output.bytes := output.bytes + [0x00];
      } else {
        output.bytes := output.bytes[..|output.bytes| - 4];
      }
      ok := true;
    }

    /** Puts the tail back and decompresses; `zlibError` is meant for failures only. */
    method Inflate(input: ByteVector, output: ByteVector) returns (ok: bool, zlibError: int)
      requires Valid() && input != output
      modifies inflateStream, buffer, input, output
      ensures input.bytes == Restore(old(input.bytes))
      ensures inflateStream.taken == old(inflateStream.taken) + input.bytes
      ensures Drained(inflateStream.answers, InflateFine, old(inflateStream.calls),
                      old(inflateStream.Pending(Restore(input.bytes))), old(output.bytes), output.bytes, ok, zlibError)
      ensures ok ==> inflateStream.rest == []
      ensures var n := CallsFor(|old(inflateStream.Pending(Restore(input.bytes)))|);
              ok <==> forall i | old(inflateStream.calls) <= i < old(inflateStream.calls) + n ::
                        || inflateStream.answers(i) == 0 || inflateStream.answers(i) == 1
                        || inflateStream.answers(i) == -5
      ensures !ok ==> zlibError != 0 && zlibError != 1 && zlibError != -5
    {
      hide Drained;
      input.bytes := input.bytes + TAIL;
      inflateStream.SetInput(input.bytes);
      ghost var first, all, before := inflateStream.calls, inflateStream.rest, output.bytes;
      ok, zlibError := Drain(inflateStream, InflateFine, output);
      DrainedMeans(inflateStream.answers, InflateFine, first, all, before, output.bytes, ok, zlibError);
    }
  }

  // ---------- two peers ----------

  /** The receiver has been given, tails put back, all that the sender has compressed so far. */
  ghost predicate InStep(a: Impl, b: Impl, decode: seq<byte> -> seq<byte>, aligned: seq<byte> -> bool)
    reads a.deflateStream, b.inflateStream
  {
    && a.deflateStream.rest == [] && b.inflateStream.rest == []
    && aligned(b.inflateStream.taken) && decode(b.inflateStream.taken) == a.deflateStream.taken
  }

  ghost predicate Peers(a: Impl, b: Impl, decode: seq<byte> -> seq<byte>, aligned: seq<byte> -> bool) {
    && a.Valid() && b.Valid() && a.deflateStream != b.inflateStream
    && Format(decode, aligned)
    && Compresses(a.deflateStream.makes, decode, aligned) && Decompresses(b.inflateStream.makes, decode)
  }

  /** Every call of zlib is answered well. */
  ghost predicate NeverFails(a: Impl, b: Impl) {
    forall i: nat :: DeflateFine(a.deflateStream.answers(i)) && InflateFine(b.inflateStream.answers(i))
  }

  /** One message through both loops, each starting from an empty vector. */
  method SendMessage(a: Impl, b: Impl, m: seq<byte>, ghost decode: seq<byte> -> seq<byte>,
                     ghost aligned: seq<byte> -> bool)
    returns (ok: bool, got: seq<byte>)
    requires Peers(a, b, decode, aligned) && InStep(a, b, decode, aligned)
    modifies a.deflateStream, a.buffer, b.inflateStream, b.buffer
    ensures ok ==> got == m && InStep(a, b, decode, aligned)
    ensures a.deflateStream.taken == old(a.deflateStream.taken) + m
    ensures NeverFails(a, b) ==> ok
  {
    hide Format, Compresses, Decompresses, Strip;
    ghost var past, h := a.deflateStream.taken, b.inflateStream.taken;
    var wire := new ByteVector([]);
    var output := new ByteVector([]);
    ok := a.Deflate(m, wire);
    if !ok {
      return false, [];
    }
    assert wire.bytes == Wire(a.deflateStream.makes, past, m) by {
      var made := a.deflateStream.makes(past, m);
      assert [] + ([] + made) == made;
    }
    MessageRoundTrip(a.deflateStream.makes, decode, aligned, h, m);
    Made(b.inflateStream.makes, decode, h, Restore(wire.bytes), m);
    var inflated, _ := b.Inflate(wire, output);
    ok, got := inflated, output.bytes;
  }

  lemma Made(makes: (seq<byte>, seq<byte>) -> seq<byte>, decode: seq<byte> -> seq<byte>,
             h: seq<byte>, x: seq<byte>, m: seq<byte>)
    requires Decompresses(makes, decode) && decode(h + x) == decode(h) + m
    ensures makes(h, x) == m
  {
    assert decode(h) + makes(h, x) == decode(h) + m;
    assert makes(h, x) == (decode(h) + makes(h, x))[|decode(h)|..];
  }

  /** Main theorem: any conversation over the same two streams, each message compressed with the
      earlier ones as context, is received message by message as it was sent, up to the first
      failure of zlib. */
  method Converse(a: Impl, b: Impl, messages: seq<seq<byte>>, ghost decode: seq<byte> -> seq<byte>,
                  ghost aligned: seq<byte> -> bool)
    returns (received: seq<seq<byte>>)
    requires Peers(a, b, decode, aligned) && InStep(a, b, decode, aligned)
    modifies a.deflateStream, a.buffer, b.inflateStream, b.buffer
    ensures received <= messages
    ensures NeverFails(a, b) ==> received == messages
  {
    hide Peers, NeverFails;
    received := [];
    for i := 0 to |messages|
      invariant received == messages[..i] && InStep(a, b, decode, aligned)
    {
      var ok, got := SendMessage(a, b, messages[i], decode, aligned);
      if !ok {
        return;
      }
      received := received + [got];
    }
  }
}
