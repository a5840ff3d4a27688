/**
 * The outcome logic of the admin client (createTopics, deleteTopics,
 * deleteRecords, listTopics) as pure specification functions, with the
 * properties the client promises stated as lemmas. The imperative
 * implementations in module AdminClient are proved equal to these.
 *
 * librdkafka is abstracted: what a poll of the result queue returns is a
 * sequence of `Poll` values, one per poll made before the deadline; what a
 * metadata request returns is a `MetadataReply`; the library's own checks
 * and error strings are the functions of a `Library` value.
 */
module AdminResults {
  import opened Wrappers
  import opened Strings
  import opened KafkaError

  /** One entry of a CreateTopics/DeleteTopics result: a topic and its error. */
  datatype TopicResult = TopicResult(name: string, err: ErrorCode, errString: string)

  /** One entry of a DeleteRecords result: a topic-partition and its error. */
  datatype PartitionResult = PartitionResult(topic: string, partition: int, err: ErrorCode)

  /** The type of an event taken from the result queue. */
  datatype EventType = CreateTopicsResult | DeleteTopicsResult | DeleteRecordsResult | OtherEvent(id: int)

  /**
   * An event from the result queue: its type, its event-level error and
   * error string, and the result payload (per-topic results for
   * CreateTopics/DeleteTopics, the possibly null partition list for
   * DeleteRecords; the payload a type does not carry is ignored).
   */
  datatype Event = Event(
    kind: EventType,
    err: ErrorCode,
    errString: string,
    topics: seq<TopicResult>,
    offsets: Option<seq<PartitionResult>>)

  /** What one poll of the queue returns: nothing, or an event. */
  type Poll = Option<Event>

  /** What one metadata request (all topics) returns: an error code and the topic names. */
  datatype MetadataReply = MetadataReply(err: ErrorCode, topics: seq<string>)

  /** Result of listTopics: an error, and the topic names (empty on error). */
  datatype ListTopicsResult = ListTopicsResult(error: Error, topics: set<string>)

  /**
   * The librdkafka calls whose outcome the admin client inspects:
   * whether `rd_kafka_NewTopic_new` accepts a topic with the given counts,
   * whether `rd_kafka_NewTopic_set_config` accepts an entry, and
   * `rd_kafka_err2str`.
   */
  datatype Library = Library(
    newTopicOk: (string, int, int) -> bool,
    configOk: (string, string) -> bool,
    describe: ErrorCode -> string)

  /**
   * The arguments of createTopics: topic names in the order the topic set
   * iterates them, and the topic configuration entries in the order the
   * property map iterates them.
   */
  datatype CreateRequest = CreateRequest(
    topics: seq<string>,
    numPartitions: int,
    replicationFactor: int,
    config: seq<(string, string)>)

  const NoResponse := Error(TimedOut, "No response within the time limit")
  const MetadataTimedOut := Error(TimedOut, "Updating metadata timed out")

  /** A default-constructed error: no error, empty message. */
  const NoErrorDefault := Error(NoError, "")

  // ---------------------------------------------------------------------
  // Per-entry filters

  /** Index `i` is the first failed entry of `results`. */
  predicate FirstFailedTopic(results: seq<TopicResult>, i: int)
  {
    0 <= i < |results| && results[i].err != NoError && forall j :: 0 <= j < i ==> results[j].err == NoError
  }

  predicate FirstFailedPartition(results: seq<PartitionResult>, i: int)
  {
    0 <= i < |results| && results[i].err != NoError && forall j :: 0 <= j < i ==> results[j].err == NoError
  }

  function TopicError(t: TopicResult): Error
  {
    Error(t.err, "topic[" + t.name + "] with error[" + t.errString + "]")
  }

  /** What one topic result contributes: its error if it failed, nothing otherwise. */
  function KeptTopic(t: TopicResult): seq<Error>
  {
    if t.err != NoError then [TopicError(t)] else []
  }

  /** The errors of the failed topic results, in order, each with its formatted message. */
  function PerTopicErrors(results: seq<TopicResult>): (errors: seq<Error>)
    ensures |errors| <= |results|
    ensures forall k :: 0 <= k < |errors| ==> errors[k].Failed() && errors[k].message != ""
  {
    if |results| == 0 then [] else KeptTopic(results[0]) + PerTopicErrors(results[1..])
  }

  /** The filter works entry by entry: it distributes over concatenation, so order is kept. */
  lemma {:induction false} PerTopicErrorsAppend(a: seq<TopicResult>, b: seq<TopicResult>)
    ensures PerTopicErrors(a + b) == PerTopicErrors(a) + PerTopicErrors(b)
  {
    if |a| == 0 {
      assert a + b == b;
    } else {
      assert (a + b)[0] == a[0];
      assert (a + b)[1..] == a[1..] + b;
      PerTopicErrorsAppend(a[1..], b);
    }
  }

  /** An error is reported for a topic exactly when that topic's result failed. */
  lemma {:induction false} PerTopicErrorsMembers(results: seq<TopicResult>, e: Error)
    ensures e in PerTopicErrors(results) <==>
      exists i :: 0 <= i < |results| && results[i].err != NoError && e == TopicError(results[i])
  {
    if |results| > 0 {
      PerTopicErrorsMembers(results[1..], e);
      if e in PerTopicErrors(results[1..]) {
        var i :| 0 <= i < |results[1..]| && results[1..][i].err != NoError && e == TopicError(results[1..][i]);
        assert results[i + 1] == results[1..][i];
      }
      if exists i :: 0 <= i < |results| && results[i].err != NoError && e == TopicError(results[i]) {
        var i :| 0 <= i < |results| && results[i].err != NoError && e == TopicError(results[i]);
        if i > 0 {
          assert results[1..][i - 1] == results[i];
        }
      }
    }
  }

  /** No error is reported exactly when every topic succeeded. */
  lemma {:induction false} PerTopicErrorsEmpty(results: seq<TopicResult>)
    ensures PerTopicErrors(results) == [] <==> forall i :: 0 <= i < |results| ==> results[i].err == NoError
  {
    if |results| > 0 {
      PerTopicErrorsEmpty(results[1..]);
      assert forall i :: 1 <= i < |results| ==> results[i] == results[1..][i - 1];
    }
  }

  /** The first error reported is that of the first failed topic. */
  lemma {:induction false} PerTopicErrorsFirst(results: seq<TopicResult>, i: nat)
    requires FirstFailedTopic(results, i)
    ensures PerTopicErrors(results) != [] && PerTopicErrors(results)[0] == TopicError(results[i])
  {
    if i > 0 {
      PerTopicErrorsFirst(results[1..], i - 1);
    }
  }

  function PartitionError(p: PartitionResult, lib: Library): Error
  {
    Error(p.err, "topic-partition[" + p.topic + "-" + IntToString(p.partition) + "] with error[" + lib.describe(p.err) + "]")
  }

  function KeptPartition(p: PartitionResult, lib: Library): seq<Error>
  {
    if p.err != NoError then [PartitionError(p, lib)] else []
  }

  /** The errors of the failed partition results, in order, each with its formatted message. */
  function PartitionErrors(results: seq<PartitionResult>, lib: Library): (errors: seq<Error>)
    ensures |errors| <= |results|
    ensures forall k :: 0 <= k < |errors| ==> errors[k].Failed() && errors[k].message != ""
  {
    if |results| == 0 then [] else KeptPartition(results[0], lib) + PartitionErrors(results[1..], lib)
  }

  /** The partition filter over a possibly null list: a null list reports nothing. */
  function PerPartitionErrors(results: Option<seq<PartitionResult>>, lib: Library): (errors: seq<Error>)
    ensures results.None? ==> errors == []
    ensures results.Some? ==> |errors| <= |results.value|
    ensures forall k :: 0 <= k < |errors| ==> errors[k].Failed() && errors[k].message != ""
  {
    match results
    case None => []
    case Some(rs) => PartitionErrors(rs, lib)
  }

  lemma {:induction false} PartitionErrorsAppend(a: seq<PartitionResult>, b: seq<PartitionResult>, lib: Library)
    ensures PartitionErrors(a + b, lib) == PartitionErrors(a, lib) + PartitionErrors(b, lib)
  {
    if |a| == 0 {
      assert a + b == b;
    } else {
      assert (a + b)[0] == a[0];
      assert (a + b)[1..] == a[1..] + b;
      PartitionErrorsAppend(a[1..], b, lib);
    }
  }

  lemma {:induction false} PartitionErrorsEmpty(results: seq<PartitionResult>, lib: Library)
    ensures PartitionErrors(results, lib) == [] <==> forall i :: 0 <= i < |results| ==> results[i].err == NoError
  {
    if |results| > 0 {
      PartitionErrorsEmpty(results[1..], lib);
      assert forall i :: 1 <= i < |results| ==> results[i] == results[1..][i - 1];
    }
  }

  /** An error is reported for a partition exactly when that partition's result failed. */
  lemma {:induction false} PartitionErrorsMembers(results: seq<PartitionResult>, lib: Library, e: Error)
    ensures e in PartitionErrors(results, lib) <==>
      exists i :: 0 <= i < |results| && results[i].err != NoError && e == PartitionError(results[i], lib)
  {
    if |results| > 0 {
      PartitionErrorsMembers(results[1..], lib, e);
      if e in PartitionErrors(results[1..], lib) {
        var i :| 0 <= i < |results[1..]| && results[1..][i].err != NoError && e == PartitionError(results[1..][i], lib);
        assert results[i + 1] == results[1..][i];
      }
      if exists i :: 0 <= i < |results| && results[i].err != NoError && e == PartitionError(results[i], lib) {
        var i :| 0 <= i < |results| && results[i].err != NoError && e == PartitionError(results[i], lib);
        if i > 0 {
          assert results[1..][i - 1] == results[i];
        }
      }
    }
  }

  lemma {:induction false} PartitionErrorsFirst(results: seq<PartitionResult>, i: nat, lib: Library)
    requires FirstFailedPartition(results, i)
    ensures PartitionErrors(results, lib) != [] && PartitionErrors(results, lib)[0] == PartitionError(results[i], lib)
  {
    if i > 0 {
      PartitionErrorsFirst(results[1..], i - 1, lib);
    }
  }

  // ---------------------------------------------------------------------
  // Combining a list of errors into one

  function Messages(errors: seq<Error>): seq<string>
  {
    seq(|errors|, k requires 0 <= k < |errors| => errors[k].message)
  }

  /** The messages from the first non-empty one on. */
  function DropLeadingEmpty(msgs: seq<string>): (r: seq<string>)
    ensures |r| <= |msgs|
    ensures r == [] || r[0] != ""
  {
    if |msgs| == 0 || msgs[0] != "" then msgs else DropLeadingEmpty(msgs[1..])
  }

  /**
   * The combined error: the first error's code, and the messages joined
   * with "; ". Empty messages before the first non-empty one add no
   * separator; an empty list is success.
   */
  function Combine(errors: seq<Error>): Error
  {
    if |errors| == 0 then Success
    else Error(errors[0].code, Join(DropLeadingEmpty(Messages(errors)), "; "))
  }

  /** Empty messages before the first non-empty one add nothing to the combination. */
  lemma {:induction false} DropLeadingEmptySnoc(msgs: seq<string>, m: string)
    ensures DropLeadingEmpty(msgs + [m]) ==
      if DropLeadingEmpty(msgs) == [] then (if m == "" then [] else [m]) else DropLeadingEmpty(msgs) + [m]
  {
    if |msgs| > 0 {
      assert (msgs + [m])[0] == msgs[0];
      assert (msgs + [m])[1..] == msgs[1..] + [m];
      if msgs[0] == "" {
        DropLeadingEmptySnoc(msgs[1..], m);
      }
    } else {
      assert msgs + [m] == [m];
    }
  }

  /** When the first message is not empty, the combined message is the plain "; "-join of all messages. */
  lemma CombineJoinsAll(errors: seq<Error>)
    requires |errors| > 0 && errors[0].message != ""
    ensures Combine(errors).message == Join(Messages(errors), "; ")
    ensures Combine(errors).code == errors[0].code
  {
  }

  // ---------------------------------------------------------------------
  // Waiting for the result event

  /** Whether a poll returned an event of the expected result type. */
  predicate IsResultOf(p: Poll, expected: EventType)
  {
    p.Some? && p.value.kind == expected
  }

  /** The first polled event of the expected type, if any; every other event is discarded. */
  function FirstMatch(polls: seq<Poll>, expected: EventType): (r: Option<Event>)
    ensures r.Some? <==> exists i :: 0 <= i < |polls| && IsResultOf(polls[i], expected)
    ensures r.Some? ==> r.value.kind == expected
    ensures r.Some? ==>
      exists i :: 0 <= i < |polls| && polls[i] == r && forall j :: 0 <= j < i ==> !IsResultOf(polls[j], expected)
  {
    if |polls| == 0 then None
    else if IsResultOf(polls[0], expected) then polls[0]
    else
      var r := FirstMatch(polls[1..], expected);
      assert forall i :: 1 <= i < |polls| ==> polls[i] == polls[1..][i - 1];
      r
  }

  /** One poll at a time: the first match from poll `i` on is that poll's event if it matches, else the first match after it. */
  lemma FirstMatchStep(polls: seq<Poll>, i: nat, expected: EventType)
    requires i < |polls|
    ensures FirstMatch(polls[i..], expected) ==
      if IsResultOf(polls[i], expected) then polls[i]
      else if i + 1 == |polls| then None
      else FirstMatch(polls[i + 1..], expected)
  {
    assert polls[i..][0] == polls[i];
    assert polls[i..][1..] == polls[i + 1..];
  }

  /** The event-level error, if the event carries one. */
  function EventErrors(ev: Event): seq<Error>
  {
    if ev.err != NoError then [Error(ev.err, ev.errString)] else []
  }

  /** The combined outcome of a result event: event-level error first, then the per-entry errors. */
  function ResultOutcome(ev: Event, entries: seq<Error>): Error
  {
    Combine(EventErrors(ev) + entries)
  }

  /**
   * Precedence of errors in a result: an event-level error decides the
   * code; otherwise the first per-entry error does; with neither, the
   * result is success.
   */
  lemma ResultPrecedence(ev: Event, entries: seq<Error>)
    requires forall k :: 0 <= k < |entries| ==> entries[k].Failed()
    ensures ev.err != NoError ==> ResultOutcome(ev, entries).code == ev.err
    ensures ev.err == NoError && entries != [] ==> ResultOutcome(ev, entries).code == entries[0].code
    ensures ev.err == NoError && entries == [] ==> ResultOutcome(ev, entries) == Success
    ensures !ResultOutcome(ev, entries).Failed() <==> ev.err == NoError && entries == []
  {
    if ev.err == NoError {
      assert EventErrors(ev) + entries == entries;
    }
  }

  // ---------------------------------------------------------------------
  // deleteTopics and deleteRecords

  function DeleteTopicsOutcome(polls: seq<Poll>): Error
  {
    match FirstMatch(polls, DeleteTopicsResult)
    case None => NoResponse
    case Some(ev) => ResultOutcome(ev, PerTopicErrors(ev.topics))
  }

  function DeleteRecordsOutcome(polls: seq<Poll>, lib: Library): Error
  {
    match FirstMatch(polls, DeleteRecordsResult)
    case None => NoResponse
    case Some(ev) => ResultOutcome(ev, PerPartitionErrors(ev.offsets, lib))
  }

  /** Without a DeleteTopics result event among the polls, deleteTopics times out. */
  lemma DeleteTopicsTimesOut(polls: seq<Poll>)
    requires forall i :: 0 <= i < |polls| ==> !IsResultOf(polls[i], DeleteTopicsResult)
    ensures DeleteTopicsOutcome(polls) == NoResponse
    ensures DeleteTopicsOutcome(polls).code == TimedOut
  {
  }

  /**
   * deleteTopics with a result event `ev`: the event error decides the code
   * if there is one, otherwise the first failed topic does; success exactly
   * when neither exists.
   */
  lemma DeleteTopicsClassifies(polls: seq<Poll>, ev: Event)
    requires FirstMatch(polls, DeleteTopicsResult) == Some(ev)
    ensures ev.err != NoError ==> DeleteTopicsOutcome(polls).code == ev.err
    ensures forall i :: ev.err == NoError && FirstFailedTopic(ev.topics, i) ==>
      DeleteTopicsOutcome(polls).code == ev.topics[i].err
    ensures !DeleteTopicsOutcome(polls).Failed() <==>
      ev.err == NoError && forall i :: 0 <= i < |ev.topics| ==> ev.topics[i].err == NoError
    ensures !DeleteTopicsOutcome(polls).Failed() ==> DeleteTopicsOutcome(polls) == Success
  {
    var entries := PerTopicErrors(ev.topics);
    ResultPrecedence(ev, entries);
    PerTopicErrorsEmpty(ev.topics);
    forall i | ev.err == NoError && FirstFailedTopic(ev.topics, i)
      ensures DeleteTopicsOutcome(polls).code == ev.topics[i].err
    {
      PerTopicErrorsFirst(ev.topics, i);
    }
  }

  /** Without a DeleteRecords result event among the polls, deleteRecords times out. */
  lemma DeleteRecordsTimesOut(polls: seq<Poll>, lib: Library)
    requires forall i :: 0 <= i < |polls| ==> !IsResultOf(polls[i], DeleteRecordsResult)
    ensures DeleteRecordsOutcome(polls, lib) == NoResponse
  {
  }

  /**
   * deleteRecords with a result event `ev`: the event error first, then the
   * first failed partition; a null partition list contributes nothing.
   */
  lemma DeleteRecordsClassifies(polls: seq<Poll>, ev: Event, lib: Library)
    requires FirstMatch(polls, DeleteRecordsResult) == Some(ev)
    ensures ev.err != NoError ==> DeleteRecordsOutcome(polls, lib).code == ev.err
    ensures ev.offsets.None? ==> (DeleteRecordsOutcome(polls, lib).Failed() <==> ev.err != NoError)
    ensures ev.offsets.Some? ==> forall i :: ev.err == NoError && FirstFailedPartition(ev.offsets.value, i) ==>
      DeleteRecordsOutcome(polls, lib).code == ev.offsets.value[i].err
    ensures ev.offsets.Some? ==> (!DeleteRecordsOutcome(polls, lib).Failed() <==>
      ev.err == NoError && forall i :: 0 <= i < |ev.offsets.value| ==> ev.offsets.value[i].err == NoError)
  {
    var entries := PerPartitionErrors(ev.offsets, lib);
    ResultPrecedence(ev, entries);
    if ev.offsets.Some? {
      var rs := ev.offsets.value;
      PartitionErrorsEmpty(rs, lib);
      forall i | ev.err == NoError && FirstFailedPartition(rs, i)
        ensures DeleteRecordsOutcome(polls, lib).code == rs[i].err
      {
        PartitionErrorsFirst(rs, i, lib);
      }
    }
  }

  // ---------------------------------------------------------------------
  // listTopics

  function ListTopicsOutcome(reply: MetadataReply, lib: Library): ListTopicsResult
  {
    if reply.err != NoError then ListTopicsResult(Error(reply.err, lib.describe(reply.err)), {})
    else ListTopicsResult(NoErrorDefault, set t | t in reply.topics)
  }

  // ---------------------------------------------------------------------
  // createTopics

  /** The first configuration entry `rd_kafka_NewTopic_set_config` rejects, as an INVALID_ARG error. */
  function ConfigCheck(config: seq<(string, string)>, lib: Library): (r: Option<Error>)
    ensures r.None? <==> forall k :: 0 <= k < |config| ==> lib.configOk(config[k].0, config[k].1)
    ensures r.Some? ==> r.value.code == InvalidArg
  {
    if |config| == 0 then None
    else if !lib.configOk(config[0].0, config[0].1) then
      Some(Error(InvalidArg, "Invalid config[" + config[0].0 + "=" + config[0].1 + "]"))
    else
      assert forall k :: 1 <= k < |config| ==> config[k] == config[1..][k - 1];
      ConfigCheck(config[1..], lib)
  }

  /** Entry `k` is the first configuration entry the library rejects. */
  predicate FirstRejectedConfig(config: seq<(string, string)>, lib: Library, k: int)
  {
    && 0 <= k < |config|
    && !lib.configOk(config[k].0, config[k].1)
    && forall j :: 0 <= j < k ==> lib.configOk(config[j].0, config[j].1)
  }

  /** A rejected configuration is reported as "Invalid config[key=value]" of its first rejected entry. */
  lemma {:induction false} ConfigCheckNamesFirstRejected(config: seq<(string, string)>, lib: Library)
    ensures ConfigCheck(config, lib).Some? ==>
      exists k :: FirstRejectedConfig(config, lib, k)
        && ConfigCheck(config, lib).value.message == "Invalid config[" + config[k].0 + "=" + config[k].1 + "]"
  {
    if |config| == 0 || !lib.configOk(config[0].0, config[0].1) {
      if |config| > 0 {
        assert FirstRejectedConfig(config, lib, 0);
      }
    } else {
      var rest := config[1..];
      ConfigCheckNamesFirstRejected(rest, lib);
      if ConfigCheck(rest, lib).Some? {
        var k :| FirstRejectedConfig(rest, lib, k)
          && ConfigCheck(rest, lib).value.message == "Invalid config[" + rest[k].0 + "=" + rest[k].1 + "]";
        assert rest[k] == config[k + 1];
        forall j | 0 <= j < k + 1
          ensures lib.configOk(config[j].0, config[j].1)
        {
          if j > 0 {
            assert config[j] == rest[j - 1];
          }
        }
        assert FirstRejectedConfig(config, lib, k + 1);
      }
    }
  }

  /**
   * The argument check of createTopics over the remaining topics: each
   * topic object is created, then the whole configuration is set on it;
   * the first rejection ends the check.
   */
  function TopicsCheck(topics: seq<string>, req: CreateRequest, lib: Library): (r: Option<Error>)
    ensures r.None? <==>
      (forall i :: 0 <= i < |topics| ==> lib.newTopicOk(topics[i], req.numPartitions, req.replicationFactor)) &&
      (|topics| > 0 ==> ConfigCheck(req.config, lib).None?)
    ensures r.Some? ==> r.value.code == InvalidArg
  {
    if |topics| == 0 then None
    else if !lib.newTopicOk(topics[0], req.numPartitions, req.replicationFactor) then
      Some(Error(InvalidArg, lib.describe(InvalidArg)))
    else if ConfigCheck(req.config, lib).Some? then ConfigCheck(req.config, lib)
    else
      assert forall i :: 1 <= i < |topics| ==> topics[i] == topics[1..][i - 1];
      TopicsCheck(topics[1..], req, lib)
  }

  function ArgumentCheck(req: CreateRequest, lib: Library): Option<Error>
  {
    TopicsCheck(req.topics, req, lib)
  }

  /** Whether some metadata refresh made before the deadline succeeded. */
  predicate MetadataRefreshed(refreshes: seq<MetadataReply>)
  {
    exists k :: 0 <= k < |refreshes| && refreshes[k].err == NoError
  }

  function CreateTopicsOutcome(req: CreateRequest, lib: Library, polls: seq<Poll>, refreshes: seq<MetadataReply>): Error
  {
    match ArgumentCheck(req, lib)
    case Some(e) => e
    case None =>
      match FirstMatch(polls, CreateTopicsResult)
      case None => NoResponse
      case Some(ev) =>
        var errors := EventErrors(ev) + PerTopicErrors(ev.topics);
        if |errors| > 0 then Combine(errors)
        else if MetadataRefreshed(refreshes) then Success
        else MetadataTimedOut
  }

  /**
   * A rejected argument makes createTopics fail with INVALID_ARG before any
   * request is issued: the outcome does not depend on what the queue or the
   * metadata requests would return.
   */
  lemma CreateTopicsRejectsArguments(req: CreateRequest, lib: Library,
                                     polls: seq<Poll>, refreshes: seq<MetadataReply>,
                                     polls': seq<Poll>, refreshes': seq<MetadataReply>)
    requires ArgumentCheck(req, lib).Some?
    ensures CreateTopicsOutcome(req, lib, polls, refreshes).code == InvalidArg
    ensures CreateTopicsOutcome(req, lib, polls, refreshes) == CreateTopicsOutcome(req, lib, polls', refreshes')
  {
  }

  /**
   * createTopics succeeds exactly when the arguments are accepted, a result
   * event arrives, neither it nor any topic carries an error, and a later
   * metadata refresh succeeds before the deadline. The success value is
   * "Success".
   */
  lemma CreateTopicsSucceedsIff(req: CreateRequest, lib: Library, polls: seq<Poll>, refreshes: seq<MetadataReply>)
    ensures !CreateTopicsOutcome(req, lib, polls, refreshes).Failed() <==>
      && ArgumentCheck(req, lib).None?
      && FirstMatch(polls, CreateTopicsResult).Some?
      && FirstMatch(polls, CreateTopicsResult).value.err == NoError
      && (forall i :: 0 <= i < |FirstMatch(polls, CreateTopicsResult).value.topics| ==>
            FirstMatch(polls, CreateTopicsResult).value.topics[i].err == NoError)
      && MetadataRefreshed(refreshes)
    ensures !CreateTopicsOutcome(req, lib, polls, refreshes).Failed() ==>
      CreateTopicsOutcome(req, lib, polls, refreshes) == Success
  {
    if ArgumentCheck(req, lib).None? && FirstMatch(polls, CreateTopicsResult).Some? {
      var ev := FirstMatch(polls, CreateTopicsResult).value;
      ResultPrecedence(ev, PerTopicErrors(ev.topics));
      PerTopicErrorsEmpty(ev.topics);
    }
  }

  /**
   * Once the request itself succeeded, createTopics waits for the metadata:
   * without a successful refresh before the deadline it reports
   * "Updating metadata timed out".
   */
  lemma CreateTopicsMetadataTimeout(req: CreateRequest, lib: Library, polls: seq<Poll>, refreshes: seq<MetadataReply>)
    requires ArgumentCheck(req, lib).None?
    requires FirstMatch(polls, CreateTopicsResult).Some?
    requires FirstMatch(polls, CreateTopicsResult).value.err == NoError
    requires forall i :: 0 <= i < |FirstMatch(polls, CreateTopicsResult).value.topics| ==>
      FirstMatch(polls, CreateTopicsResult).value.topics[i].err == NoError
    requires !MetadataRefreshed(refreshes)
    ensures CreateTopicsOutcome(req, lib, polls, refreshes) == MetadataTimedOut
  {
    PerTopicErrorsEmpty(FirstMatch(polls, CreateTopicsResult).value.topics);
  }

  /** createTopics with accepted arguments and no result event times out. */
  lemma CreateTopicsTimesOut(req: CreateRequest, lib: Library, polls: seq<Poll>, refreshes: seq<MetadataReply>)
    requires ArgumentCheck(req, lib).None?
    requires forall i :: 0 <= i < |polls| ==> !IsResultOf(polls[i], CreateTopicsResult)
    ensures CreateTopicsOutcome(req, lib, polls, refreshes) == NoResponse
  {
  }

  /**
   * createTopics with a failing result event reports the event error, or
   * else the first failed topic's error, with all messages combined.
   */
  lemma CreateTopicsClassifies(req: CreateRequest, lib: Library, polls: seq<Poll>, refreshes: seq<MetadataReply>, ev: Event)
    requires ArgumentCheck(req, lib).None?
    requires FirstMatch(polls, CreateTopicsResult) == Some(ev)
    ensures ev.err != NoError ==> CreateTopicsOutcome(req, lib, polls, refreshes).code == ev.err
    ensures forall i :: ev.err == NoError && FirstFailedTopic(ev.topics, i) ==>
      CreateTopicsOutcome(req, lib, polls, refreshes).code == ev.topics[i].err
  {
    forall i | ev.err == NoError && FirstFailedTopic(ev.topics, i)
      ensures CreateTopicsOutcome(req, lib, polls, refreshes).code == ev.topics[i].err
    {
      PerTopicErrorsFirst(ev.topics, i);
      assert EventErrors(ev) + PerTopicErrors(ev.topics) == PerTopicErrors(ev.topics);
    }
  }
}
