/**
 * The admin client's operations as the header writes them: loops over
 * result arrays, a message accumulated step by step, a queue polled until
 * the expected result event arrives or the deadline passes. Each method is
 * proved equal to its specification in module AdminResults, where the
 * properties of the outcomes are proved.
 */
module AdminClient {
  import opened Wrappers
  import opened Strings
  import opened KafkaError
  import opened AdminResults

  /** `getPerTopicResults`: the errors of the failed topics, in order. */
  method GetPerTopicResults(topicResults: seq<TopicResult>) returns (errors: seq<Error>)
    ensures errors == PerTopicErrors(topicResults)
    ensures |errors| <= |topicResults|
    ensures errors == [] <==> forall i :: 0 <= i < |topicResults| ==> topicResults[i].err == NoError
  {
    errors := [];
    var i := 0;
    while i < |topicResults|
      invariant 0 <= i <= |topicResults|
      invariant errors == PerTopicErrors(topicResults[..i])
    {
      var topicResult := topicResults[i];
      if topicResult.err != NoError {
        errors := errors + [TopicError(topicResult)];
      }
      PerTopicErrorsAppend(topicResults[..i], [topicResult]);
      assert topicResults[..i + 1] == topicResults[..i] + [topicResult];
      i := i + 1;
    }
    assert topicResults[..i] == topicResults;
    PerTopicErrorsEmpty(topicResults);
  }

  /**
   * `getPerTopicPartitionResults`: the errors of the failed partitions, in
   * order; a null list gives none.
   */
  method GetPerTopicPartitionResults(partitionResults: Option<seq<PartitionResult>>, lib: Library)
    returns (errors: seq<Error>)
    ensures errors == PerPartitionErrors(partitionResults, lib)
    ensures partitionResults.None? ==> errors == []
  {
    errors := [];
    var count := if partitionResults.Some? then |partitionResults.value| else 0;
    var i := 0;
    while i < count
      invariant 0 <= i <= count
      invariant partitionResults.Some? ==> errors == PartitionErrors(partitionResults.value[..i], lib)
      invariant partitionResults.None? ==> errors == []
    {
      var elems := partitionResults.value;
      var partitionError := elems[i].err;
      if partitionError != NoError {
        errors := errors + [PartitionError(elems[i], lib)];
      }
      PartitionErrorsAppend(elems[..i], [elems[i]], lib);
      assert elems[..i + 1] == elems[..i] + [elems[i]];
      i := i + 1;
    }
    if partitionResults.Some? {
      assert partitionResults.value[..i] == partitionResults.value;
    }
  }

  /**
   * `combineErrors`: the first error's code and the messages joined with
   * "; " (the separator is added only once the accumulated message is not
   * empty); an empty list gives NO_ERROR with "Success".
   */
  method CombineErrors(errors: seq<Error>) returns (e: Error)
    ensures e == Combine(errors)
    ensures errors == [] ==> e == Success
    ensures errors != [] ==> e.code == errors[0].code
  {
    if |errors| == 0 {
      return Success;
    }
    var detailedMsg := "";
    var i := 0;
    while i < |errors|
      invariant 0 <= i <= |errors|
      invariant detailedMsg == Join(DropLeadingEmpty(Messages(errors[..i])), "; ")
    {
      var msgs := Messages(errors[..i]);
      assert Messages(errors[..i + 1]) == msgs + [errors[i].message];
      DropLeadingEmptySnoc(msgs, errors[i].message);
      var dropped := DropLeadingEmpty(msgs);
      if dropped != [] {
        JoinNonEmpty(dropped, "; ");
        JoinSnoc(dropped, errors[i].message, "; ");
      }
      if detailedMsg != "" {
        detailedMsg := detailedMsg + "; ";
      }
      detailedMsg := detailedMsg + errors[i].message;
      i := i + 1;
    }
    assert errors[..i] == errors;
    e := Error(errors[0].code, detailedMsg);
  }

  /**
   * The poll loop shared by createTopics, deleteTopics and deleteRecords:
   * poll (at least once) until an event of the expected type arrives or the
   * polls allowed before the deadline are used up; other events are
   * dropped. The result is the first event of the expected type, or none.
   */
  method PollForResult(polls: seq<Poll>, expected: EventType) returns (ev: Option<Event>)
    requires |polls| >= 1
    ensures ev == FirstMatch(polls, expected)
    ensures ev.Some? <==> exists i :: 0 <= i < |polls| && IsResultOf(polls[i], expected)
    ensures ev.Some? ==> ev.value.kind == expected
  {
    var i := 0;
    while true
      invariant 0 <= i < |polls|
      invariant FirstMatch(polls, expected) == FirstMatch(polls[i..], expected)
      decreases |polls| - i
    {
      ev := polls[i];
      FirstMatchStep(polls, i, expected);
      if IsResultOf(ev, expected) {
        break;
      }
      if ev.Some? {
        ev := None;
      }
      if i + 1 == |polls| {
        return;
      }
      i := i + 1;
    }
  }

  /**
   * `listTopics` over the reply of its metadata request: on error, that
   * error with the library's text and no topics; otherwise the set of the
   * reply's topic names.
   */
  method ListTopics(reply: MetadataReply, lib: Library) returns (r: ListTopicsResult)
    ensures r == ListTopicsOutcome(reply, lib)
    ensures reply.err != NoError ==> r.error == Error(reply.err, lib.describe(reply.err)) && r.topics == {}
    ensures reply.err == NoError ==> !r.error.Failed() && forall t :: t in r.topics <==> t in reply.topics
  {
    if reply.err != NoError {
      return ListTopicsResult(Error(reply.err, lib.describe(reply.err)), {});
    }
    var names: set<string> := {};
    var i := 0;
    while i < |reply.topics|
      invariant 0 <= i <= |reply.topics|
      invariant names == set t | t in reply.topics[..i]
    {
      assert reply.topics[..i + 1] == reply.topics[..i] + [reply.topics[i]];
      names := names + {reply.topics[i]};
      i := i + 1;
    }
    assert reply.topics[..i] == reply.topics;
    r := ListTopicsResult(NoErrorDefault, names);
  }

  /**
   * The argument check at the start of createTopics: create each topic
   * object, then set every configuration entry on it; the first rejection
   * returns INVALID_ARG.
   */
  method CheckArguments(req: CreateRequest, lib: Library) returns (err: Option<Error>)
    ensures err == ArgumentCheck(req, lib)
    ensures err.Some? ==> err.value.code == InvalidArg
  {
    var i := 0;
    while i < |req.topics|
      invariant 0 <= i <= |req.topics|
      invariant ArgumentCheck(req, lib) == TopicsCheck(req.topics[i..], req, lib)
    {
      var topic := req.topics[i];
      assert req.topics[i..][0] == topic;
      assert req.topics[i..][1..] == req.topics[i + 1..];
      if !lib.newTopicOk(topic, req.numPartitions, req.replicationFactor) {
        return Some(Error(InvalidArg, lib.describe(InvalidArg)));
      }
      var j := 0;
      while j < |req.config|
        invariant 0 <= j <= |req.config|
        invariant ConfigCheck(req.config, lib) == ConfigCheck(req.config[j..], lib)
      {
        var conf := req.config[j];
        assert req.config[j..][0] == conf;
        assert req.config[j..][1..] == req.config[j + 1..];
        if !lib.configOk(conf.0, conf.1) {
          return Some(Error(InvalidArg, "Invalid config[" + conf.0 + "=" + conf.1 + "]"));
        }
        j := j + 1;
      }
      i := i + 1;
    }
    return None;
  }

  /**
   * `createTopics`: check the arguments; issue the request and poll for its
   * result; combine the event error and the per-topic errors; with none,
   * refresh the metadata (at least once) until a refresh succeeds or the
   * deadline passes.
   */
  method CreateTopics(req: CreateRequest, lib: Library, polls: seq<Poll>, refreshes: seq<MetadataReply>)
    returns (r: Error)
    requires |polls| >= 1 && |refreshes| >= 1
    ensures r == CreateTopicsOutcome(req, lib, polls, refreshes)
  {
    var invalid := CheckArguments(req, lib);
    if invalid.Some? {
      return invalid.value;
    }
    var ev := PollForResult(polls, CreateTopicsResult);
    if ev.None? {
      return NoResponse;
    }
    var errors: seq<Error> := [];
    if ev.value.err != NoError {
      errors := [Error(ev.value.err, ev.value.errString)];
    }
    var perTopic := GetPerTopicResults(ev.value.topics);
    errors := errors + perTopic;
    assert errors == EventErrors(ev.value) + PerTopicErrors(ev.value.topics);
    if |errors| > 0 {
      r := CombineErrors(errors);
      return;
    }
    var k := 0;
    while k < |refreshes|
      invariant 0 <= k <= |refreshes|
      invariant forall j :: 0 <= j < k ==> refreshes[j].err != NoError
    {
      var listResult := ListTopics(refreshes[k], lib);
      if !listResult.error.Failed() {
        assert MetadataRefreshed(refreshes);
        return Success;
      }
      k := k + 1;
    }
    assert !MetadataRefreshed(refreshes);
    return MetadataTimedOut;
  }

  /** `deleteTopics`: issue the request, poll for its result, combine the errors. */
  method DeleteTopics(polls: seq<Poll>) returns (r: Error)
    requires |polls| >= 1
    ensures r == DeleteTopicsOutcome(polls)
  {
    var ev := PollForResult(polls, DeleteTopicsResult);
    if ev.None? {
      return NoResponse;
    }
    var errors: seq<Error> := [];
    if ev.value.err != NoError {
      errors := [Error(ev.value.err, ev.value.errString)];
    }
    var perTopic := GetPerTopicResults(ev.value.topics);
    errors := errors + perTopic;
    r := CombineErrors(errors);
  }

  /** `deleteRecords`: issue the request, poll for its result, combine the errors. */
  method DeleteRecords(polls: seq<Poll>, lib: Library) returns (r: Error)
    requires |polls| >= 1
    ensures r == DeleteRecordsOutcome(polls, lib)
  {
    var ev := PollForResult(polls, DeleteRecordsResult);
    if ev.None? {
      return NoResponse;
    }
    var errors: seq<Error> := [];
    if ev.value.err != NoError {
      errors := [Error(ev.value.err, ev.value.errString)];
    }
    var perPartition := GetPerTopicPartitionResults(ev.value.offsets, lib);
    errors := errors + perPartition;
    r := CombineErrors(errors);
  }
}
