/**
 * The ECG routes of routes/ecg.js: the module-level list of open SSE
 * connections with the handlers that grow it, shrink it and write to it, the
 * database listener that forwards new readings, and the reply of the
 * latest-reading route.
 */
module EcgRoutes {
  import opened EventStream
  import opened JsonValue
  import opened Relay

  /**
   * The router's SSE state. `clients` is the module-level `clients` array;
   * `outbox` stands for the response streams themselves, recording every
   * `write` on each. `serialize` is `JSON.stringify`, kept abstract.
   * `history` is the sequence of steps taken so far, for the proofs only.
   */
  class StreamRegistry {
    const serialize: Value -> string
    var clients: seq<ConnId>
    var outbox: Outbox
    ghost var history: seq<Action>

    /**
     * No connection is listed twice, every listed connection has been written
     * to, and the state is the one the recorded steps lead to.
     */
    ghost predicate Valid()
      reads this
    {
      && Distinct(clients)
      && (forall c :: c in clients ==> c in outbox)
      && State(clients, outbox) == RunFrom(Initial, history)
    }

    constructor (serialize: Value -> string)
      ensures Valid()
      ensures this.serialize == serialize
      ensures clients == [] && outbox == map[] && history == []
    {
      this.serialize := serialize;
      clients := [];
      outbox := map[];
      history := [];
    }

    /** `client.write(text)`: the text is appended to what `c` has been sent. */
    method Write(c: ConnId, text: string)
      modifies this
      ensures outbox == Append(old(outbox), c, text)
      ensures clients == old(clients) && history == old(history)
    {
      outbox := Append(outbox, c, text);
    }

    /**
     * `GET /ecg/stream`: the new response stream `c` is sent the greeting
     * frame, then appended to the list. Each request brings its own response
     * object, so `c` has never been seen before.
     */
    method OpenStream(c: ConnId)
      requires Valid()
      requires c !in outbox
      modifies this
      ensures Valid()
      ensures clients == old(clients) + [c]
      ensures outbox == old(outbox)[c := [DataFrame(Greeting)]]
      ensures history == old(history) + [Opened(c)]
    {
      var greeting: seq<string> := [DataFrame(Greeting)];
      assert Written(outbox, c) + greeting == greeting;
      Write(c, DataFrame(Greeting));
      clients := clients + [c];
      history := history + [Opened(c)];
      RunFromSnoc(Initial, old(history), Opened(c));
      assert c !in old(clients);
      assert multiset(clients) == multiset(old(clients)) + multiset{c};
    }

    /**
     * The `close` handler of stream `c`: the list is replaced by a copy
     * without `c`; nothing is written.
     */
    method CloseStream(c: ConnId)
      requires Valid()
      modifies this
      ensures Valid()
      ensures clients == Without(old(clients), c)
      ensures outbox == old(outbox)
      ensures history == old(history) + [Closed(c)]
    {
      WithoutDistinct(clients, c);
      clients := Without(clients, c);
      history := history + [Closed(c)];
      RunFromSnoc(Initial, old(history), Closed(c));
    }

    /**
     * `sendDataToClients(data)`: the frame of the serialized reading is
     * written to every listed connection, in list order. The source
     * serializes inside the loop, once per connection; `serialize` is
     * deterministic, so computing the frame once gives each connection the
     * same text. The list itself is not changed.
     */
    method SendDataToClients(data: Value)
      requires Valid()
      modifies this
      ensures Valid()
      ensures clients == old(clients)
      ensures outbox == Deliver(old(outbox), clients, DataFrame(serialize(data)))
      ensures history == old(history) + [Published(serialize(data))]
    {
      var frame := DataFrame(serialize(data));
      var i := 0;
      while i < |clients|
        invariant 0 <= i <= |clients|
        invariant clients == old(clients) && history == old(history)
        invariant Deliver(outbox, clients[i..], frame) == Deliver(old(outbox), clients, frame)
      {
        assert clients[i..][1..] == clients[i + 1..];
        Write(clients[i], frame);
        i := i + 1;
      }
      assert outbox == Deliver(old(outbox), clients, frame) by {
        assert clients[i..] == [];
      }
      history := history + [Published(serialize(data))];
      assert State(clients, outbox) == RunFrom(Initial, history) by {
        RunFromSnoc(Initial, old(history), Published(serialize(data)));
      }
      assert forall c :: c in clients ==> c in outbox by {
        DeliverKeys(old(outbox), clients, frame);
      }
    }

    /**
     * The `child_added` listener: a new value is forwarded to the open
     * streams only when it is truthy; otherwise nothing is written.
     */
    method OnChildAdded(newData: Value)
      requires Valid()
      modifies this
      ensures Valid()
      ensures clients == old(clients)
      ensures Truthy(newData) ==>
        outbox == Deliver(old(outbox), clients, DataFrame(serialize(newData)))
        && history == old(history) + [Published(serialize(newData))]
      ensures !Truthy(newData) ==> outbox == old(outbox) && history == old(history)
    {
      if Truthy(newData) {
        SendDataToClients(newData);
      }
    }
  }

  // ---------------------------------------------------------------------
  // GET /ecg
  // ---------------------------------------------------------------------

  /** What the latest-reading query yields: the snapshot's value, or a thrown error's message. */
  datatype QueryOutcome = Snapshot(val: Value) | Failed(message: string)

  /** An HTTP status with a JSON body. */
  datatype Response = Response(status: nat, body: Value)

  const NoDataMessage := "Nenhum dado encontrado."

  /**
   * The reply of `GET /ecg`: the data with 200 when the query yields a
   * truthy value, the "no data" message with 404 when it yields a falsy one
   * (no record at all is `null`), and the error's message with 500 when the
   * query fails.
   */
  function LatestResponse(q: QueryOutcome): (r: Response)
    ensures r.status == 200 <==> q.Snapshot? && Truthy(q.val)
    ensures r.status == 404 <==> q.Snapshot? && !Truthy(q.val)
    ensures r.status == 500 <==> q.Failed?
    ensures r.status == 200 ==> r.body == q.val
    ensures r.status == 404 ==> r.body == MessageBody(NoDataMessage)
    ensures r.status == 500 ==> r.body == MessageBody(q.message)
  {
    match q
    case Failed(m) => Response(500, MessageBody(m))
    case Snapshot(data) =>
      if Truthy(data) then Response(200, data) else Response(404, MessageBody(NoDataMessage))
  }

  /** An empty database is answered with 404 and the "no data" message, never with an error. */
  lemma EmptyDatabaseIsNotAnError()
    ensures LatestResponse(Snapshot(Null)) == Response(404, MessageBody(NoDataMessage))
  {
  }
}
