/** The queues and ports of one link as objects: what the callbacks and `FillPortFromPool` do to them
    are events of the pipeline. */
module RecorderLinks {
  import opened MmalQueues
  import opened PortPipeline

  class LinkQueues {
    const pool: Queue
    const filled: Queue
    const outputPort: Port
    const inputPort: Port
    ghost var filledLog: seq<Header>
    ghost var usedLog: seq<Header>

    ghost predicate Valid() {
      pool != filled && outputPort != inputPort
    }

    ghost function View(): Link
      reads this, pool, filled, outputPort, inputPort
    {
      Link(pool.headers, multiset(outputPort.held), filled.headers, multiset(inputPort.held), filledLog, usedLog)
    }

    constructor (pool: Queue, filled: Queue, outputPort: Port, inputPort: Port)
      requires pool != filled && outputPort != inputPort
      ensures Valid() && filledLog == [] && usedLog == []
      ensures this.pool == pool && this.filled == filled
      ensures this.outputPort == outputPort && this.inputPort == inputPort
    {
      this.pool, this.filled, this.outputPort, this.inputPort := pool, filled, outputPort, inputPort;
      filledLog, usedLog := [], [];
    }

    /** The output port hands back a filled header. */
    method Filled(h: Header)
      requires Valid() && h in outputPort.held
      modifies this`filledLog, outputPort, pool, filled
      ensures View() == Fill(old(View()), h)
    {
      outputPort.HandBack(h);
      OutputPortCallback(0, h, pool, filled);
      filledLog := filledLog + [h];
    }

    /** The input port hands back a header it is done with. */
    method Consumed(h: Header)
      requires Valid() && h in inputPort.held
      modifies inputPort, pool
      ensures View() == Consume(old(View()), h)
    {
      inputPort.HandBack(h);
      InputPortCallback(h, pool);
    }

    /** The loop fills the output port.  `states` and `events` are the run of the pipeline this is part
        of, from the state `s` in which the link is the camera's. */
    method FillFromPool(ghost s: State) returns (status: Status, ghost states: seq<State>, ghost events: seq<Event>)
      requires Valid() && s.loop == FillCamera && s.camera == View()
      modifies outputPort, pool
      ensures Run(states, events) && states[0] == s
      ensures states[|events|] == State(View(), s.encoded, if status == SUCCESS then FillEncoded else Stopped)
    {
      ghost var headers, sends := pool.headers, outputPort.sends;
      status := FillPortFromPool(outputPort, pool);
      states, events := FillIsRun(s, outputPort.answers, sends);
      ghost var n := Accepted(outputPort.answers, sends, |headers|);
      assert multiset(outputPort.held) == multiset(old(outputPort.held)) + multiset(headers[..n]);
    }

    /** The same where the link is the encoder's. */
    method FillEncoderFromPool(ghost s: State)
      returns (status: Status, ghost states: seq<State>, ghost events: seq<Event>)
      requires Valid() && s.loop == FillEncoded && s.encoded == View()
      modifies outputPort, pool
      ensures Run(states, events) && states[0] == s
      ensures states[|events|] == State(s.camera, View(), if status == SUCCESS then PassOn else Stopped)
    {
      ghost var headers, sends := pool.headers, outputPort.sends;
      status := FillPortFromPool(outputPort, pool);
      states, events := EncoderFillIsRun(s, outputPort.answers, sends);
      ghost var n := Accepted(outputPort.answers, sends, |headers|);
      assert multiset(outputPort.held) == multiset(old(outputPort.held)) + multiset(headers[..n]);
    }
  }
}
