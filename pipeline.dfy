/**
 * The request path end to end: the gateway registers a waiter, a worker
 * publishes its result string, the correlator delivers that string, and
 * the waiting request returns it.
 */
module Pipeline {
  import opened Options
  import opened Queues
  import Gateway
  import Worker

  /**
   * Whatever classification yields, including a failure, the waiting request
   * gets the worker's result string back, as long as neither the filename
   * nor the label holds a colon.
   */
  lemma WorkerResultReachesCaller(s: Gateway.State, filename: string, classification: Option<string>, receipt: string)
    requires Gateway.WellFormed(s)
    requires ':' !in filename && ':' !in Worker.Label(classification)
    ensures var result := Worker.RecognizeFace(filename, classification);
      var (registered, ev) := Gateway.Registered(s, filename);
      var delivered := Gateway.Delivered(registered, Message(receipt, result), true).0;
      Gateway.Resumed(delivered, filename, ev).1 == Some(result)
  {
    Gateway.DeliveryWakesWaiter(s, filename, Worker.Label(classification), receipt);
  }

  /**
   * A worker whose image key holds a colon publishes a result the correlator
   * cannot parse: nothing is stored or deleted, so the request behind it
   * times out and the message stays on the response queue.
   */
  lemma ColonInFilenameIsNeverDelivered(s: Gateway.State, filename: string, classification: Option<string>, receipt: string, deleteOk: bool)
    requires ':' in filename
    ensures Gateway.Delivered(s, Message(receipt, Worker.RecognizeFace(filename, classification)), deleteOk) == (s, false)
  {
    Worker.ResultParsesBack(filename, classification);
  }

  /** A worker iteration in which every call succeeds publishes the result string for its task. */
  method RunWorker(filename: string, classification: string) returns (published: string)
    ensures published == Worker.RecognizeFace(filename, Some(classification))
  {
    var effects := Worker.ProcessOnce(Some([Message("task-1", filename)]), Worker.Outcomes(true, Some(classification), true, true, true));
    assert Worker.Publish(Worker.RecognizeFace(filename, Some(classification))) in effects;
    var k :| 0 <= k < |effects| && effects[k].Publish?;
    published := effects[k].body;
  }

  /**
   * One request run through the model: `a.jpg` is submitted, a worker
   * leases its task and classifies it as `cat`, the correlator receives the
   * published result, and the request replies `a.jpg:cat`.
   */
  method CatScenario() returns (reply: Option<string>)
    ensures reply == Some("a.jpg:cat")
  {
    assert "a.jpg" + ":" + "cat" == "a.jpg:cat";
    var registry := new Gateway.Registry();
    var ev := registry.Submit("a.jpg", true, true);
    ghost var registered := registry.Snapshot();
    assert (registered, ev.value) == Gateway.Registered(Gateway.Initial(), "a.jpg");

    var published := RunWorker("a.jpg", "cat");

    Gateway.DeliveryWakesWaiter(Gateway.Initial(), "a.jpg", "cat", "result-1");
    var batch := [Message("result-1", published)];
    assert batch[1..] == [];
    registry.ProcessBatch(batch, {});
    assert registry.Snapshot() == Gateway.Delivered(registered, batch[0], true).0;
    reply := registry.Finish("a.jpg", ev.value);
  }
}
