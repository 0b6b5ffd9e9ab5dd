/**
 * The worker of backend.py. One iteration of `process_tasks_forever` leases
 * a task from the request queue, downloads the image, classifies it,
 * stores the result string in the output bucket, publishes it on the
 * response queue, removes the local copy and acknowledges the task.
 *
 * The external calls are not run: each one is an effect recorded in the
 * order it is attempted, and whether it succeeds is an input. Classification
 * is the oracle `face_match`; None stands for any exception it raises.
 */
module Worker {
  import opened Options
  import opened Queues
  import Strings
  import Gateway

  /** `fetch_next_task`'s dictionary: the image key and the receipt handle that acknowledges the task. */
  datatype Task = Task(filename: string, receipt: string)

  /** The label part of a result: the classification, or `error` when classification raised. */
  function Label(classification: Option<string>): string
  {
    match classification
    case Some(name) => name
    case None => "error"
  }

  /** `recognize_face`: the result string `filename:label`, with `error` as the label when `face_match` raises. */
  function RecognizeFace(filename: string, classification: Option<string>): (result: string)
    ensures classification.Some? ==> result == filename + ":" + classification.value
    ensures classification.None? ==> result == filename + ":error"
  {
    filename + ":" + Label(classification)
  }

  /** `fetch_next_task`: the first received message as a task; nothing when the receive call fails or returns no message. */
  function FetchNextTask(received: Option<seq<Message>>): (task: Option<Task>)
    ensures task.None? <==> received.None? || received.value == []
    ensures task.Some? ==> task.value.filename == received.value[0].body && task.value.receipt == received.value[0].receipt
  {
    match received
    case None => None
    case Some(msgs) => if msgs == [] then None else Some(Task(msgs[0].body, msgs[0].receipt))
  }

  /** `download_image_from_s3`'s local path. */
  function LocalPath(filename: string): string
  {
    "/tmp/" + filename
  }

  /** An external call made by the worker. */
  datatype Effect =
    | Download(key: string, path: string)    // s3.download_file from the input bucket
    | Classify(path: string)                 // face_match on the local copy
    | UploadResult(key: string, body: string) // s3.put_object into the output bucket
    | Publish(body: string)                  // sqs.send_message to the response queue
    | RemoveLocal(path: string)              // os.remove
    | Ack(receipt: string)                   // sqs.delete_message on the request queue

  /** Whether each external call of an iteration succeeds, and what classification yields. */
  datatype Outcomes = Outcomes(download: bool, classification: Option<string>, upload: bool, publish: bool, remove: bool)

  /** Effect `first` is attempted before effect `second`. */
  ghost predicate Before(effects: seq<Effect>, first: Effect, second: Effect)
  {
    exists i, j :: 0 <= i < j < |effects| && effects[i] == first && effects[j] == second
  }

  ghost predicate Acked(effects: seq<Effect>)
  {
    exists k :: 0 <= k < |effects| && effects[k].Ack?
  }

  /**
   * One iteration of `process_tasks_forever`, returning the external calls
   * it attempts. Any failure outside classification raises and ends the
   * iteration before the acknowledgement, so the task is redelivered.
   */
  method ProcessOnce(received: Option<seq<Message>>, out: Outcomes) returns (effects: seq<Effect>)
    ensures FetchNextTask(received).None? ==> effects == []
    ensures Acked(effects) <==>
      FetchNextTask(received).Some? && out.download && out.upload && out.publish && out.remove
    ensures forall k :: 0 <= k < |effects| && effects[k].Ack? ==>
      k == |effects| - 1 &&
      effects[k].receipt == FetchNextTask(received).value.receipt &&
      Before(effects, Publish(RecognizeFace(FetchNextTask(received).value.filename, out.classification)), effects[k])
    ensures forall k :: 0 <= k < |effects| && effects[k].Publish? ==>
      effects[k].body == RecognizeFace(FetchNextTask(received).value.filename, out.classification) &&
      Before(effects, UploadResult(FetchNextTask(received).value.filename, effects[k].body), effects[k])
    ensures FetchNextTask(received).Some? && out.download && out.upload ==>
      Publish(RecognizeFace(FetchNextTask(received).value.filename, out.classification)) in effects
    ensures (exists k :: 0 <= k < |effects| && effects[k].UploadResult?) ==> out.download
    ensures (exists k :: 0 <= k < |effects| && effects[k].Publish?) ==> out.download && out.upload
    ensures (exists k :: 0 <= k < |effects| && effects[k].RemoveLocal?) ==> out.download && out.upload && out.publish
    // The whole trace: the six steps in source order, cut off after the first call that raises.
    ensures FetchNextTask(received).Some? ==>
      var t := FetchNextTask(received).value;
      var p := LocalPath(t.filename);
      var r := RecognizeFace(t.filename, out.classification);
      effects == [Download(t.filename, p), Classify(p), UploadResult(t.filename, r), Publish(r), RemoveLocal(p), Ack(t.receipt)]
        [..if !out.download then 1 else if !out.upload then 3 else if !out.publish then 4 else if !out.remove then 5 else 6]
    ensures FetchNextTask(received).Some? && !out.download ==>
      effects == [Download(FetchNextTask(received).value.filename, LocalPath(FetchNextTask(received).value.filename))]
  {
    effects := [];
    var task := FetchNextTask(received);
    if task.None? {
      return;
    }
    var filename := task.value.filename;
    var receipt := task.value.receipt;

    var imagePath := LocalPath(filename);
    effects := effects + [Download(filename, imagePath)];
    if !out.download {
      return;
    }

    effects := effects + [Classify(imagePath)];
    var result := RecognizeFace(filename, out.classification);

    effects := effects + [UploadResult(filename, result)];
    if !out.upload {
      return;
    }

    effects := effects + [Publish(result)];
    assert effects[2] == UploadResult(filename, result) && effects[3] == Publish(result);
    if !out.publish {
      return;
    }

    effects := effects + [RemoveLocal(imagePath)];
    assert effects[2] == UploadResult(filename, result) && effects[3] == Publish(result);
    if !out.remove {
      return;
    }

    effects := effects + [Ack(receipt)];
    assert effects[2] == UploadResult(filename, result) && effects[3] == Publish(result) && effects[5] == Ack(receipt);
  }

  /**
   * The gateway's `split(':')` takes a worker result apart into exactly its
   * filename and label, and it fails, raising in the correlator, exactly
   * when the filename or the label holds a colon.
   */
  lemma ResultParsesBack(filename: string, classification: Option<string>)
    ensures Gateway.Parse(RecognizeFace(filename, classification)).Some? <==>
      ':' !in filename && ':' !in Label(classification)
    ensures ':' !in filename && ':' !in Label(classification) ==>
      Gateway.Parse(RecognizeFace(filename, classification)) == Some((filename, Label(classification)))
  {
    var name := Label(classification);
    if ':' !in filename && ':' !in name {
      Gateway.ParseFormatted(filename, name);
    } else {
      Strings.CountConcat(filename + ":", name, ':');
      Strings.CountConcat(filename, ":", ':');
      Strings.CountPositive(filename, ':');
      Strings.CountPositive(name, ':');
    }
  }
}
