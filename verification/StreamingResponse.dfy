/** Sending a stream as an HTTP response, chunk by chunk. */
module StreamingResponses {
  import opened Common

  datatype Call =
    | Begin(code: nat, encoding: nat)
    | Header(name: string, value: string)
    | Payload(data: string, flush: bool)
    | Finish(keepConnectionOpen: bool)

  /** The calls a response writer has received. */
  class ResponseWriter {
    var calls: seq<Call>

    constructor ()
      ensures calls == []
    {
      calls := [];
    }

    method Receive(c: Call)
      modifies this
      ensures calls == old(calls) + [c]
    {
      calls := calls + [c];
    }
  }

  /** A finite input stream whose source may fail after `failAt` characters.  The three bits are
      those of `std::ios`. */
  class InputStream {
    const content: string
    const failAt: Option<nat>
    var position: nat
    var eofBit: bool
    var failBit: bool
    var badBit: bool

    constructor (content: string, failAt: Option<nat>)
      ensures this.content == content && this.failAt == failAt && Fresh()
    {
      this.content, this.failAt, position := content, failAt, 0;
      eofBit, failBit, badBit := false, false, false;
    }

    ghost predicate Fresh()
      reads this
    {
      position == 0 && Good()
    }

    predicate Good()
      reads this
    {
      !eofBit && !failBit && !badBit
    }

    /** What can be read: up to the failure or the end, whichever is first. */
    function Available(): nat {
      if failAt.Some? && failAt.value <= |content| then failAt.value else |content|
    }

    predicate Breaks() {
      failAt.Some? && failAt.value <= |content|
    }

    /** `istream::read`: `count` characters, or fewer and the bits that say why. */
    method Read(count: nat) returns (data: string)
      requires position <= Available()
      modifies this
      ensures position <= Available()
      ensures !old(Good()) ==>
                data == [] && failBit && eofBit == old(eofBit) && badBit == old(badBit) && position == old(position)
      ensures old(Good()) && old(position) + count <= Available() ==>
                Good() && position == old(position) + count && data == content[old(position)..position]
      ensures old(Good()) && old(position) + count > Available() ==>
                && position == Available() && data == content[old(position)..position]
                && failBit && badBit == Breaks() && eofBit == !Breaks()
    {
      data := [];
      if !Good() {
        failBit := true;
      } else if position + count <= Available() {
        data := content[position..position + count];
        position := position + count;
      } else {
        data := content[position..Available()];
        position := Available();
        failBit, badBit, eofBit := true, Breaks(), !Breaks();
      }
    }
  }

  function HeaderCalls(headers: seq<(string, string)>): (r: seq<Call>)
    ensures |r| == |headers| && forall i :: 0 <= i < |r| ==> r[i] == Header(headers[i].0, headers[i].1)
  {
    seq(|headers|, i requires 0 <= i < |headers| => Header(headers[i].0, headers[i].1))
  }

  predicate AllPayload(calls: seq<Call>, flush: bool) {
    forall i :: 0 <= i < |calls| ==> calls[i].Payload? && calls[i].flush == flush
  }

  /** The bytes of the payload calls, in order. */
  function Data(calls: seq<Call>): string {
    if calls == [] then []
    else Data(calls[..|calls| - 1]) + (if calls[|calls| - 1].Payload? then calls[|calls| - 1].data else [])
  }

  lemma DataGrows(calls: seq<Call>, sent: seq<Call>, flush: bool)
    requires sent == [] || exists data :: sent == [Payload(data, flush)]
    ensures Data(calls + sent) == Data(calls) + (if sent == [] then [] else sent[0].data)
    ensures AllPayload(calls, flush) ==> AllPayload(calls + sent, flush)
  {
    if sent == [] {
      assert calls + sent == calls;
    } else {
      assert (calls + sent)[..|calls|] == calls;
    }
  }

  /** `begin`, the headers, payloads, one `finish`. */
  predicate InProtocol(calls: seq<Call>, code: nat, encoding: nat, headers: seq<(string, string)>,
                       payloads: seq<Call>, flush: bool, keep: bool) {
    && calls == [Begin(code, encoding)] + HeaderCalls(headers) + payloads + [Finish(keep)]
    && AllPayload(payloads, flush)
  }

  lemma Times(a: nat, b: nat, c: nat)
    requires a <= b
    ensures a * c <= b * c
  {
    assert (b - a) * c >= 0;
  }

  lemma DivideBy(n: nat, size: nat, r: nat)
    requires size > 0 && r * size <= n
    ensures r <= n / size && r * size <= n / size * size <= n
    ensures r * size + size > n ==> r == n / size
  {
    var q := n / size;
    assert q * size <= n < q * size + size;
    if q < r {
      Times(q + 1, r, size);
    } else {
      Times(r, q, size);
      if q > r {
        Times(r + 1, q, size);
      }
    }
  }

  /** Everything, unless the source breaks: then only the chunks read whole before it did. */
  function Deliverable(stream: InputStream, size: nat): (n: nat)
    requires size > 0
    ensures n <= stream.Available()
  {
    DivideBy(stream.Available(), size, 0);
    if stream.Breaks() then stream.Available() / size * size else stream.Available()
  }

  function Min(a: nat, b: nat): nat {
    if a < b then a else b
  }

  /** Where round `r` of the loop ends. */
  lemma Round(stream: InputStream, size: nat, r: nat)
    requires size > 0 && r * size <= stream.Available()
    ensures (r + 1) * size == r * size + size
    ensures r * size <= Deliverable(stream, size)
    ensures r * size + size <= stream.Available() ==>
              r + 1 <= stream.Available() / size && r * size + size <= Deliverable(stream, size)
    ensures r * size + size > stream.Available() ==>
              && r == stream.Available() / size
              && Deliverable(stream, size) == if stream.Breaks() then r * size else stream.Available()
  {
    var n := stream.Available();
    DivideBy(n, size, r);
    if r * size + size <= n {
      DivideBy(n, size, r + 1);
    }
  }

  lemma AllDelivered(stream: InputStream, size: nat, rounds: nat)
    requires size > 0
    ensures rounds == stream.Available() / size + 1 && !stream.Breaks() ==>
              stream.content[..Min(rounds * size, Deliverable(stream, size))] == stream.content
  {
    var q := stream.Available() / size;
    assert (q + 1) * size == q * size + size;
  }

  class StreamingResponse {
    var closed: bool
    const code: nat
    const encoding: nat
    const headers: seq<(string, string)>
    const bufferSize: nat
    const flushInstantly: bool
    const keepAlive: bool

    constructor (code: nat, encoding: nat, headers: seq<(string, string)>, bufferSize: nat,
                 flushInstantly: bool, keepAlive: bool)
      ensures !closed && this.code == code && this.encoding == encoding && this.headers == headers
      ensures this.bufferSize == bufferSize && this.flushInstantly == flushInstantly && this.keepAlive == keepAlive
    {
      closed := false;
      this.code, this.encoding, this.headers := code, encoding, headers;
      this.bufferSize, this.flushInstantly, this.keepAlive := bufferSize, flushInstantly, keepAlive;
    }

    method Cancel()
      modifies this
      ensures closed
    {
      closed := true;
    }

    method WriteHead(writer: ResponseWriter)
      modifies writer
      ensures writer.calls == old(writer.calls) + [Begin(code, encoding)] + HeaderCalls(headers)
    {
      writer.Receive(Begin(code, encoding));
      for i := 0 to |headers|
        invariant writer.calls == old(writer.calls) + [Begin(code, encoding)] + HeaderCalls(headers)[..i]
      {
        writer.Receive(Header(headers[i].0, headers[i].1));
      }
    }

    /** What the first `r` rounds deliver. */
    ghost function Delivered(stream: InputStream, r: nat): string
      requires bufferSize > 0
    {
      stream.content[..Min(r * bufferSize, Deliverable(stream, bufferSize))]
    }

    /** The characters round `r` reads. */
    ghost function Chunk(stream: InputStream, r: nat): string {
      stream.content[Min(r * bufferSize, stream.Available())..Min(r * bufferSize + bufferSize, stream.Available())]
    }

    /** The payloads of the first `r` rounds: one for each, whole chunks but for the last, which is sent
        as well unless the source broke. */
    ghost function Payloads(stream: InputStream, r: nat): seq<Call>
      requires bufferSize > 0
    {
      if r == 0 then []
      else if r - 1 == stream.Available() / bufferSize && stream.Breaks() then Payloads(stream, r - 1)
      else Payloads(stream, r - 1) + [Payload(Chunk(stream, r - 1), flushInstantly)]
    }

    /** Round `r` of the loop. */
    method CopyChunk(writer: ResponseWriter, stream: InputStream, ghost r: nat) returns (ghost sent: seq<Call>)
      requires bufferSize > 0 && stream.Good() && stream.position == r * bufferSize <= stream.Available()
      modifies this, writer, stream
      ensures writer.calls == old(writer.calls) + sent
      ensures sent == if r == stream.Available() / bufferSize && stream.Breaks() then []
                      else [Payload(Chunk(stream, r), flushInstantly)]
      ensures Delivered(stream, r + 1) == Delivered(stream, r) + (if sent == [] then [] else sent[0].data)
      ensures r <= stream.Available() / bufferSize
      ensures closed == (old(closed) || r == stream.Available() / bufferSize)
      ensures r < stream.Available() / bufferSize ==>
                stream.Good() && stream.position == (r + 1) * bufferSize <= stream.Available()
    {
      hide Deliverable;
      Round(stream, bufferSize, r);
      var data := stream.Read(bufferSize);
      var isEof, isGood := stream.eofBit, stream.Good();
      sent := [];
      if isGood || isEof {
        sent := [Payload(data, flushInstantly)];
        writer.Receive(Payload(data, flushInstantly));
      }
      if !isGood {
        closed := true;
      }
    }

    /** `cancels(k)` says whether `Cancel` is called before the `k`th test of the loop.  `rounds`
        counts the iterations: without a cancellation, one for each whole chunk and one more. */
    method Handle(writer: ResponseWriter, stream: InputStream, cancels: nat -> bool)
      returns (rounds: nat, ghost payloads: seq<Call>)
      requires bufferSize > 0 && stream.Fresh() && writer.calls == []
      modifies this, writer, stream
      ensures closed
      ensures InProtocol(writer.calls, code, encoding, headers, payloads, flushInstantly, keepAlive)
      ensures payloads == Payloads(stream, rounds)
      ensures Data(payloads) == stream.content[..Min(rounds * bufferSize, Deliverable(stream, bufferSize))]
      ensures forall k :: 0 <= k < rounds ==> !cancels(k)
      ensures rounds == stream.Available() / bufferSize + 1
              || (rounds <= stream.Available() / bufferSize && (cancels(rounds) || old(closed)))
      ensures old(closed) ==> rounds == 0
      ensures !old(closed) && !stream.Breaks() && (forall k :: !cancels(k)) ==> Data(payloads) == stream.content
    {
      hide Deliverable, Data, HeaderCalls, Delivered, Chunk;
      WriteHead(writer);
      ghost var front := writer.calls;
      DivideBy(stream.Available(), bufferSize, 0);
      rounds, payloads := 0, [];
      NothingDelivered(stream);
      if cancels(0) {
        Cancel();
      }
      while !closed
        invariant writer.calls == front + payloads && AllPayload(payloads, flushInstantly)
        invariant !closed ==> stream.Good() && stream.position == rounds * bufferSize <= stream.Available()
        invariant payloads == Payloads(stream, rounds)
        invariant Data(payloads) == Delivered(stream, rounds)
        invariant forall k :: 0 <= k < rounds ==> !cancels(k)
        invariant !closed ==> !cancels(rounds) && !old(closed) && rounds <= stream.Available() / bufferSize
        invariant closed ==> rounds == stream.Available() / bufferSize + 1
                             || (rounds <= stream.Available() / bufferSize && (cancels(rounds) || old(closed)))
        invariant old(closed) ==> closed && rounds == 0
        decreases stream.Available() / bufferSize + 1 - rounds, if closed then 0 else 1
      {
        ghost var sent := CopyChunk(writer, stream, rounds);
        assert payloads + sent == Payloads(stream, rounds + 1);
        DataGrows(payloads, sent, flushInstantly);
        payloads := payloads + sent;
        rounds := rounds + 1;
        if !closed && cancels(rounds) {
          Cancel();
        }
      }
      AllDelivered(stream, bufferSize, rounds);
      DeliveredIs(stream, rounds);
      writer.Receive(Finish(keepAlive));
    }

    lemma NothingDelivered(stream: InputStream)
      requires bufferSize > 0
      ensures Data([]) == Delivered(stream, 0)
    {
    }

    lemma DeliveredIs(stream: InputStream, r: nat)
      requires bufferSize > 0
      ensures Delivered(stream, r) == stream.content[..Min(r * bufferSize, Deliverable(stream, bufferSize))]
    {
    }
  }
}
