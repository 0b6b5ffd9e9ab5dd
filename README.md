# Face-recognition pipeline: autoscaler, result correlator and worker

This project models the sequential core of a three-tier image-classification
service built on AWS queues and EC2:

- **Autoscaler** (`controller.py`). Each cycle of `manage_scaling` reads the
  request-queue depth and computes a target of `min(15, depth)`, or 0 for an
  empty queue. It lists the active worker instances, then launches workers
  numbered `current + 1` to `target` or terminates the instances listed after
  the first `target`. `Decide` is the pure decision. The class `Fleet` holds
  the active instances, the provider's next fresh id and every command sent.
  `Fleet.ManageScaling` carries a decision out one provider call at a time.
- **Request gateway and result correlator** (`server.py`). `predict_image`
  registers a wait event under the filename in `WAIT_EVENTS`, waits, pops the
  result from `RESULTS` and removes both entries in its `finally` block.
  `fetch_results_from_queue` splits each result body on `':'`, stores it,
  signals the registered event and deletes the message. Each step is a
  function on the datatype `Gateway.State`. The class `Gateway.Registry`
  carries the same state in fields, and its methods are specified by those
  step functions. Threads and the timeout become interleavings of steps.
- **Worker** (`backend.py`). `recognize_face` formats `filename:label`, with
  `error` as the label when classification raises. `fetch_next_task` shapes
  the first received message into a task. One iteration of
  `process_tasks_forever` becomes `Worker.ProcessOnce`. It returns the
  external calls it attempts, in order, and the success of each call is an
  input.

The definitions without a contract of their own are specified through the
members that use them: `Autoscaler.LaunchCommands` (the numbered launches of
controller.py:119-120), `Autoscaler.Commands` and `Autoscaler.AfterCycle`
(the commands and the resulting fleet of a decision, controller.py:116-127),
`Worker.Label` (the label or `error`, backend.py:52-56) and
`Worker.LocalPath` (the `/tmp/` download path, backend.py:23).

`Strings` models Python's `str.split(sep)` for a one-character separator,
together with its inverse `sep.join`. `Pipeline` connects the worker's
result string to the gateway's parser.

The result format cannot carry a colon in a filename or label. The code
unpacks `result.split(':')` into two names, so any body without exactly one
colon raises inside the batch loop. That message is neither stored nor deleted,
and the rest of its batch is skipped (`Gateway.BatchStopsAtMalformed`,
`Pipeline.ColonInFilenameIsNeverDelivered`).

## Model

| member | source | states |
|---|---|---|
| Strings.Split | server.py:74 | `split(':')` yields one more piece than there are separators; no piece contains the separator; joining the pieces with it gives back the input |
| Strings.SplitJoin | server.py:74 | splitting the join of separator-free pieces gives back exactly those pieces |
| Strings.CountConcat | server.py:74 | the number of separators in a concatenation is the sum of the numbers in its parts |
| Strings.CountPositive | server.py:74 | a character occurs in a string exactly when its count there is positive |
| Autoscaler.QueueLength | controller.py:20-32 | the depth is the count read, and 0 when the attribute read fails |
| Autoscaler.ActiveInstances | controller.py:34-48 | the listing is the instances returned, and empty when the listing fails |
| Autoscaler.WorkersNeeded | controller.py:105-107 | the target never exceeds MAX_INSTANCES (15), equals the depth up to 15, and is 15 above it; depth 0 gives 0 |
| Autoscaler.Decide | controller.py:112-127 | scale up exactly when fewer instances are listed than the target, from the listed count up to the target; scale down exactly when more are listed, by the suffix after the first `target` instances, of length `current - target`; otherwise do nothing |
| Autoscaler.Without | controller.py:88 | termination removes exactly the given ids from the active list, and an active list without repetitions stays without repetitions |
| Autoscaler.WithoutNothing | controller.py:83-84 | terminating an empty list of ids leaves the active list unchanged |
| Autoscaler.WithoutSuffix | controller.py:126-127 | terminating the suffix of a repetition-free listing leaves exactly its prefix |
| Autoscaler.LaunchCommandsNumbered | controller.py:119-120 | the scale-up loop sends `newWorkers` launches, numbered `current + 1`, `current + 2`, … in increasing order |
| Autoscaler.Spawned | controller.py:50-79 | a sequence of launch attempts never yields more instances than attempts |
| Autoscaler.SpawnedFresh | controller.py:60-76 | each successful launch yields the next fresh id, and when no launch fails every attempt yields an instance |
| Autoscaler.CycleCommands | controller.py:116-127 | below the target the cycle sends one launch per missing worker numbered on from the listed count; above it, one termination of `active[target:]`; at the target, nothing; so it never both launches and terminates |
| Autoscaler.CycleReachesTarget | controller.py:112-127 | a failure-free cycle on a matching listing leaves exactly `target` (≤ 15) active instances and, when scaling down, keeps the first `target` listed |
| Autoscaler.CycleIsIdempotent | controller.py:116-127 | on a fleet a failure-free cycle has converged, the next cycle at the same depth decides to do nothing |
| Autoscaler.FailedDepthReadScalesDown | controller.py:30-32 | a failed depth read counts as depth 0: nothing is launched, every listed instance is terminated, and none remains after a successful termination |
| Autoscaler.FailedListingOvershoots | controller.py:46-48 | a failed listing counts as no instances: the cycle never terminates and launches the whole target on top of the real fleet |
| Autoscaler.Fleet.LaunchInstance | controller.py:50-79 | the create call is always sent; on success the next fresh id joins the active list and the next id advances; the fleet stays repetition-free with all ids already handed out |
| Autoscaler.Fleet.TerminateInstances | controller.py:81-91 | an empty id list sends nothing and changes nothing; otherwise one termination is sent, and on success exactly those ids leave the active list |
| Autoscaler.Fleet.LaunchWorkers | controller.py:119-120 | the loop sends the numbered launches in order, appends the instances they yield in launch order, and advances the next id by one per success |
| Autoscaler.Fleet.ManageScaling | controller.py:94-130 | the decision is `Decide` on the read depth (0 when the read fails) and the listing (empty when it fails); the commands sent are that decision's, the new active list is the decision applied to the real fleet, and the next id advances only by the successful launches of a scale-up |
| Gateway.Parse | server.py:74 | the unpack of `split(':')` succeeds exactly when the body holds one colon, and then the two colon-free parts joined by a colon are the body |
| Gateway.Registered | server.py:108-109 | the request gets the next fresh event, which is registered under its filename; other filenames, RESULTS, the signalled events and the deletions are unchanged |
| Gateway.Delivered | server.py:70-83 | a body that does not parse leaves the state unchanged and ends the batch; the loop goes on exactly when the body parses and the delete succeeds, and only then is the receipt recorded as deleted; WAIT_EVENTS is never changed and no signal is withdrawn |
| Gateway.AfterBatch | server.py:69-86 | a batch never changes WAIT_EVENTS or withdraws a signal; it only appends deletions, at most one per message, none of them a failed delete |
| Gateway.Completed | server.py:111-114 | the wait succeeds exactly when the event was set and the result is present; then it returns that result and pops it; otherwise nothing changes |
| Gateway.CleanedUp | server.py:122-125 | both entries for the filename are gone, every other entry keeps its value, no entry is added, and nothing else changes |
| Gateway.Resumed | server.py:111-125 | the request returns its stored result exactly when its event was set and the result is present, and in every case no entry for the filename remains |
| Gateway.Submitted | server.py:95-109 | the request registers a fresh event exactly when the upload and the enqueue succeed; otherwise no entry for the filename remains |
| Gateway.ParseFormatted | server.py:74-75 | a body `filename:classification` formatted from colon-free parts parses back to exactly those parts |
| Gateway.StepsKeepWellFormed | server.py:69-125 | every step (register, deliver, complete, clean up, submit) keeps every registered or signalled event an already-created one |
| Gateway.BatchKeepsWellFormed | server.py:69-86 | processing a whole batch keeps the state well formed |
| Gateway.DeliverWellFormedBody | server.py:74-83 | a parsable body is stored as the body itself; the waiter is signalled exactly when the filename is registered, otherwise the result stays as an orphan; only then is the message deleted, and the loop goes on exactly when the delete succeeds |
| Gateway.DeliverMalformedBody | server.py:74 | a body without exactly one colon raises before anything is stored, signalled or deleted, and ends the batch |
| Gateway.BatchStopsAtMalformed | server.py:69-86 | the messages after a malformed one in the same batch are not processed |
| Gateway.DuplicateDeliveryIsIdempotent | server.py:75-80 | a body delivered again straight after its first delivery, before any request resumes, changes neither dictionary nor the set of signalled events |
| Gateway.LateRedeliveryLeavesOrphan | server.py:75-125 | when the delete fails, the request still gets its result and cleans up, but the message's later redelivery stores the result again with no waiter, an orphan entry that nothing removes until a later request for the same filename cleans up |
| Gateway.CleanupIsIdempotent | server.py:122-125 | the `finally` block removes both entries for the filename, leaves every other filename alone, and running it twice is the same as once |
| Gateway.EveryExitPathCleansUp | server.py:95-125 | on success, on timeout and on an upload or enqueue failure, no entry for the filename remains in either dictionary |
| Gateway.DeliveryWakesWaiter | server.py:108-114 | a registered request whose result then arrives is signalled, returns exactly that result and leaves no entry behind |
| Gateway.EarlyResultIsMissed | server.py:79-80 | a result that arrives before the request registers is stored but does not signal the later waiter, which times out, and its cleanup discards the stored result |
| Gateway.SecondRegistrationOverwrites | server.py:109 | a second registration for the same filename replaces the first handle: the result wakes only the second request, and the first fails when it resumes |
| Gateway.TimeoutLeavesNoResidue | server.py:111-125 | a request that times out leaves both dictionaries as they were apart from its filename, so repeated timeouts do not grow them |
| Gateway.Registry.Register | server.py:108-109 | creates a fresh event and registers it under the filename, replacing any earlier one, as `Registered` says |
| Gateway.Registry.Deliver | server.py:70-83 | one pass of the message loop changes the fields as `Delivered` says, and reports whether the loop goes on |
| Gateway.Registry.ProcessBatch | server.py:69-86 | the loop over a receive call's messages leaves the state `AfterBatch` gives: every message in order until the first one that raises |
| Gateway.Registry.CompleteOrTimeout | server.py:111-114 | a signalled request pops and returns its result; an unsignalled one (timeout) or one whose result is gone fails and changes nothing |
| Gateway.Registry.Cleanup | server.py:122-125 | both entries for the filename are removed, with a default, and nothing else changes |
| Gateway.Registry.Finish | server.py:111-125 | the end of a request: completion or failure, then cleanup, leaving no entry for the filename |
| Gateway.Registry.Submit | server.py:95-109 | a request registers only when the upload and the enqueue succeed; otherwise it goes straight to cleanup |
| Worker.RecognizeFace | backend.py:48-56 | the result is `filename:classification` when classification succeeds and `filename:error` when it raises |
| Worker.FetchNextTask | backend.py:58-78 | no task exactly when the receive call fails or returns no message; otherwise the task's filename is the first message's body and its receipt that message's receipt handle |
| Worker.ProcessOnce | backend.py:83-116 | no task means no call at all; otherwise the calls are exactly download of the task's key to `/tmp/<key>`, classify that path, upload the result under the key, publish the result, remove that path and acknowledge the task's receipt, in this order, cut off after the first of download, upload, publish and removal that fails; so the task is acknowledged exactly when all four succeed, last, after the publish of its result |
| Worker.ResultParsesBack | backend.py:53-56 | the gateway's unpack of a worker result succeeds exactly when neither the filename nor the label holds a colon, and then it recovers exactly the filename and the label |
| Pipeline.WorkerResultReachesCaller | server.py:74-114 | for colon-free names, a waiting request receives exactly the result string its worker published, including `filename:error` |
| Pipeline.ColonInFilenameIsNeverDelivered | server.py:74 | a worker result for an image key that holds a colon is never stored or deleted by the correlator |
| Pipeline.RunWorker | backend.py:98-104 | a worker iteration in which every call succeeds publishes exactly its task's result string |
| Pipeline.CatScenario | server.py:95-125 | submitting `a.jpg`, classifying it as `cat` and correlating the published result makes the request reply `a.jpg:cat` |

## Left out

- The AWS clients (S3, SQS, EC2) are not run. Each call is an outcome given
  as an input: a depth read or listing that may fail, a set of launch numbers
  that fail, a termination or delete that may fail, and per-step success for
  the worker.
- HTTP handling and status codes are not modelled. A timeout and an error
  are the same failed outcome (`None`).
- The background thread and `asyncio.wait_for` are sequential interleavings
  of the `Registry` steps. No interleaving inside a step and no real
  time are modelled. The 30-second timeout is "resumed before the event was
  set".
- The infinite loops and their sleeps are left out (`while True` in all three
  files, `time.sleep`). One cycle, one batch or one iteration is modelled.
- Reading the uploaded file and its failure are not modelled.
- face_recognition.py is not part of this model. `face_match` is an oracle
  that yields a label or raises.
- remove.py is not part of this model. It is a bulk-delete script that is
  only I/O.
- EC2 launch configuration (AMI, key, user data, tags) and all log output
  are left out.
- Autoscaler.QueueLength: the depth is a natural number. A negative count,
  which Python's negative slicing would treat differently, is not modelled.
- Autoscaler.Fleet: instances are abstract ids handed out by a counter, and
  the listing is the model's active list in its own order. Pending or running
  state and tags are not modelled.
- Gateway.Registry.Deliver: the message body is a string of characters. The
  result's classification comes from `face_match(...)[0]` and is any string.
- Worker.ProcessOnce: only the order and the arguments of the attempted
  calls are recorded. The image bytes, the local file and the lease timeout
  are not modelled.
