/** Moving buffer headers between MMAL pools, ports and queues. */
module MmalQueues {

  type Header = nat

  /** `MMAL_STATUS_T`: zero is success. */
  type Status = nat
  const SUCCESS: Status := 0

  /** A queue of headers as its interface documents it. */
  class Queue {
    var headers: seq<Header>

    constructor ()
      ensures headers == []
    {
      headers := [];
    }

    method Put(h: Header)
      modifies this
      ensures headers == old(headers) + [h]
    {
      headers := headers + [h];
    }

    method PutBack(h: Header)
      modifies this
      ensures headers == [h] + old(headers)
    {
      headers := [h] + headers;
    }

    /** `got` is false when the queue is empty. */
    method Get() returns (got: bool, h: Header)
      modifies this
      ensures got <==> old(headers) != []
      ensures got ==> old(headers) == [h] + headers
      ensures !got ==> headers == old(headers)
    {
      if headers == [] {
        return false, 0;
      }
      got, h, headers := true, headers[0], headers[1..];
    }

    function Length(): nat
      reads this
    {
      |headers|
    }
  }

  /** A port answers its `n`th send with `answers(n)` and keeps the header if that is success. */
  class Port {
    const answers: nat -> Status
    var sends: nat
    var held: seq<Header>

    constructor (answers: nat -> Status)
      ensures this.answers == answers && sends == 0 && held == []
    {
      this.answers := answers;
      sends, held := 0, [];
    }

    method SendBuffer(h: Header) returns (status: Status)
      modifies this
      ensures status == answers(old(sends)) && sends == old(sends) + 1
      ensures held == if status == SUCCESS then old(held) + [h] else old(held)
    {
      status := answers(sends);
      sends := sends + 1;
      if status == SUCCESS {
        held := held + [h];
      }
    }

    /** Passes any of its headers to its callback. */
    method HandBack(h: Header)
      requires h in held
      modifies this`held
      ensures multiset(held) == old(multiset(held)) - multiset{h}
    {
      held := Without(held, h);
    }
  }

  /** One occurrence of `h` less. */
  function Without(s: seq<Header>, h: Header): (r: seq<Header>)
    requires h in s
    ensures multiset(r) == multiset(s) - multiset{h}
  {
    assert s == [s[0]] + s[1..];
    if s[0] == h then s[1..] else [s[0]] + Without(s[1..], h)
  }

  method SendBufferFromQueue(port: Port, queue: Queue?) returns (status: Status)
    modifies port, queue
    ensures queue == null ==> status == SUCCESS && unchanged(port)
    ensures queue != null && old(queue.headers) == [] ==>
              status == SUCCESS && unchanged(port) && queue.headers == []
    ensures queue != null && old(queue.headers) != [] ==>
              && status == port.answers(old(port.sends)) && port.sends == old(port.sends) + 1
              && (status == SUCCESS ==>
                    && queue.headers == old(queue.headers)[1..]
                    && port.held == old(port.held) + [old(queue.headers)[0]])
              && (status != SUCCESS ==> queue.headers == old(queue.headers) && port.held == old(port.held))
  {
    status := SUCCESS;
    if queue == null {
      return;
    }
    var got, h := queue.Get();
    if got {
      status := port.SendBuffer(h);
      if status != SUCCESS {
        queue.PutBack(h);
      }
    }
  }

  /** How many of `n` sends are accepted before the first refusal. */
  function Accepted(answers: nat -> Status, from: nat, n: nat): (k: nat)
    ensures k <= n
    ensures forall i :: from <= i < from + k ==> answers(i) == SUCCESS
    ensures k < n ==> answers(from + k) != SUCCESS
    decreases n
  {
    if n == 0 || answers(from) != SUCCESS then 0 else 1 + Accepted(answers, from + 1, n - 1)
  }

  /** Sends a prefix of the pool's queue in order.  Success means the queue is empty; failure leaves
      the rest as it was, the refused header at its head. */
  method FillPortFromPool(port: Port, pool: Queue?) returns (status: Status)
    modifies port, pool
    ensures pool == null ==> status == SUCCESS && unchanged(port)
    ensures pool != null ==>
              var n := Accepted(port.answers, old(port.sends), |old(pool.headers)|);
              && port.held == old(port.held) + old(pool.headers)[..n]
              && pool.headers == old(pool.headers)[n..]
              && (status == SUCCESS <==> pool.headers == [])
              && (status != SUCCESS ==> status == port.answers(old(port.sends) + n))
  {
    status := SUCCESS;
    if pool == null {
      return;
    }
    ghost var k := 0;
    ghost var n := Accepted(port.answers, port.sends, |pool.headers|);
    while status == SUCCESS && pool.Length() > 0
      invariant k <= n && port.held == old(port.held) + old(pool.headers)[..k]
      invariant pool.headers == old(pool.headers)[k..]
      invariant status == SUCCESS ==> port.sends == old(port.sends) + k
      invariant status != SUCCESS ==> k == n < |old(pool.headers)| && status == port.answers(old(port.sends) + n)
      decreases pool.Length(), if status == SUCCESS then 1 else 0
    {
      status := SendBufferFromQueue(port, pool);
      if status == SUCCESS {
        k := k + 1;
      }
    }
  }

  /** A header released goes back to its pool, behind those waiting there; an event is not for the
      application, a filled header goes behind those it has not fetched yet. */
  method OutputPortCallback(cmd: nat, h: Header, pool: Queue, filled: Queue)
    requires pool != filled
    modifies pool, filled
    ensures cmd != 0 ==> pool.headers == old(pool.headers) + [h] && unchanged(filled)
    ensures cmd == 0 ==> filled.headers == old(filled.headers) + [h] && unchanged(pool)
  {
    if cmd != 0 {
      pool.Put(h);
    } else {
      filled.Put(h);
    }
  }

  method InputPortCallback(h: Header, pool: Queue)
    modifies pool
    ensures pool.headers == old(pool.headers) + [h]
  {
    pool.Put(h);
  }
}
