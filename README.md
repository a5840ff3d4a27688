# Admin-client outcome logic and console-producer arguments of modern-cpp-kafka, in Dafny

This project models two small pieces of logic that modern-cpp-kafka, a C++ client for Kafka brokers, builds on top of librdkafka.

1. **How the admin client turns librdkafka results into one `Error`.** This covers `createTopics`, `deleteTopics`, `deleteRecords` and `listTopics` in `include/kafka/AdminClient.h`:
   - the per-topic and per-partition filters (`getPerTopicResults`, `getPerTopicPartitionResults`);
   - the error combination (`combineErrors`);
   - the loop that polls the result queue until the expected event arrives or the deadline passes;
   - the argument check of `createTopics`, and its metadata refresh after a successful request.
2. **How the console producer tool handles its arguments** (`tools/KafkaConsoleProducer.cc`):
   - the `--props key=value` tokens, split on every `'='`;
   - the partition sentinel `-1`;
   - the order in which `main` writes the producer properties, so that user properties override the bootstrap servers and the client id.

librdkafka is treated as an environment the model does not see into:
- **Polling.** A poll of the result queue returns nothing or an `Event`: its type, its event-level error and error string, and its per-topic or per-partition results. The polls made before the deadline form a finite sequence. The deadline is the length of that sequence.
- **Metadata.** A metadata request returns a `MetadataReply`. The `listTopics` calls that `createTopics` makes before its deadline form a second sequence.
- **Library checks.** Whether `rd_kafka_NewTopic_new` and `rd_kafka_NewTopic_set_config` accept their arguments, and the text `rd_kafka_err2str` gives for a code, are functions carried in a `Library` value.

Error codes are a datatype with a distinguished `NoError`. The two local codes the client raises itself are named: `TimedOut` and `InvalidArg`. Every other code is `Other(value)`, whose value is never 0 (0 is `NoError`).

Modules:
- `Strings` (strings.dfy): join, split on a character, decimal rendering of integers, and their round trips.
- `KafkaError` (kafka_error.dfy): codes and errors.
- `AdminResults` (admin_results.dfy): the outcome of each admin operation as a pure function, plus the lemmas that state what the client promises.
- `AdminClient` (admin_client.dfy): the header's loops as methods. Each method is proved equal to its function in `AdminResults`.
- `ConsoleProducer` (console_producer.dfy): argument parsing, property assembly, and a `ProducerConfig` class whose `Put` updates its map in place.

Some behaviours of the admin client are worth stating plainly:
- **Deleting a missing topic.** `deleteTopics` reports an unknown-topic error as a failure. Treating it as success is the caller's choice.
- **No transport-specific branch.** When no result event arrives before the deadline, the outcome is `TIMED_OUT` "No response within the time limit". When an event carries an event-level error, whatever its code, that code becomes the result's code.
- **Requests, concurrency and caching.** Each operation issues one batched admin request. `createTopics` then makes metadata requests one after another until one succeeds or the deadline passes. There are no concurrent sub-requests and no metadata cache.

## Model

| member | source | states |
|---|---|---|
| `AdminClient.GetPerTopicResults` | include/kafka/AdminClient.h:137-152 | The loop yields exactly `PerTopicErrors` of the topic results. That is never more entries than results, and it is empty iff every topic succeeded. |
| `AdminClient.GetPerTopicPartitionResults` | include/kafka/AdminClient.h:154-168 | The loop yields exactly `PerPartitionErrors` of the partition list. A null list yields no errors. |
| `AdminClient.CombineErrors` | include/kafka/AdminClient.h:170-187 | An empty list gives `NO_ERROR` with "Success". Otherwise the result has the first error's code. Its message is the step-by-step accumulated message, proved equal to the "; "-join of the messages from the first non-empty one on (`Combine`). |
| `AdminClient.PollForResult` | include/kafka/AdminClient.h:228-247 | The poll loop (also at 301-320 and 370-389) ends with an event iff some poll returned an event of the expected type. That event is the first such one, and every other event is dropped. |
| `AdminClient.ListTopics` | include/kafka/AdminClient.h:339-357 | On a metadata error, the result is that error with the library's text and an empty topic set. Otherwise it has no error, and a name is in the set iff it is one of the metadata topics. |
| `AdminClient.CheckArguments` | include/kafka/AdminClient.h:198-218 | The nested loop equals `ArgumentCheck`. Any rejection is an `INVALID_ARG` error. |
| `AdminClient.CreateTopics` | include/kafka/AdminClient.h:189-280 | Equals `CreateTopicsOutcome`: argument check, poll, combined errors, then the metadata refresh loop. |
| `AdminClient.DeleteTopics` | include/kafka/AdminClient.h:282-337 | Equals `DeleteTopicsOutcome`: poll, then the event error before the per-topic errors, combined. |
| `AdminClient.DeleteRecords` | include/kafka/AdminClient.h:359-404 | Equals `DeleteRecordsOutcome`: poll, then the event error before the per-partition errors, combined. |
| `AdminResults.PerTopicErrors` | include/kafka/AdminClient.h:137-152 | The filtered list is no longer than the input. Every kept entry has a non-zero code and a non-empty "topic[..] with error[..]" message. |
| `AdminResults.PerTopicErrorsAppend` | include/kafka/AdminClient.h:142-150 | The filter distributes over concatenation, so input order is kept. |
| `AdminResults.PerTopicErrorsMembers` | include/kafka/AdminClient.h:142-150 | An error is in the result iff it is the formatted error of some failed topic. |
| `AdminResults.PerTopicErrorsEmpty` | include/kafka/AdminClient.h:142-150 | The result is empty iff every topic's code is `NoError`. |
| `AdminResults.PerTopicErrorsFirst` | include/kafka/AdminClient.h:142-150 | The first reported error is that of the first failed topic. |
| `AdminResults.PartitionErrors` | include/kafka/AdminClient.h:159-167 | The filtered list is no longer than the input. Every kept entry has a non-zero code and a non-empty "topic-partition[..] with error[..]" message. |
| `AdminResults.PerPartitionErrors` | include/kafka/AdminClient.h:154-168 | A null partition list gives no errors. Otherwise the result is bounded by the list's length, with failing codes only. |
| `AdminResults.PartitionErrorsAppend` | include/kafka/AdminClient.h:159-166 | The partition filter distributes over concatenation, so order is kept. |
| `AdminResults.PartitionErrorsEmpty` | include/kafka/AdminClient.h:159-166 | No partition error is reported iff every partition's code is `NoError`. |
| `AdminResults.PartitionErrorsMembers` | include/kafka/AdminClient.h:159-166 | An error is in the result iff it is the formatted error of some failed partition. |
| `AdminResults.PartitionErrorsFirst` | include/kafka/AdminClient.h:159-166 | The first reported error is that of the first failed partition. |
| `AdminResults.DropLeadingEmpty` | include/kafka/AdminClient.h:178 | The kept messages are a list that is empty or starts with a non-empty message. |
| `AdminResults.DropLeadingEmptySnoc` | include/kafka/AdminClient.h:176-181 | Appending a message extends the kept messages by it, unless nothing non-empty has been seen yet and the message is empty. This matches the "add a separator only when not empty" step. |
| `AdminResults.CombineJoinsAll` | include/kafka/AdminClient.h:175-183 | When the first message is non-empty, the combined message is the plain "; "-join of all messages in list order, and the code is the first error's code. |
| `AdminResults.FirstMatch` | include/kafka/AdminClient.h:230-242 | The result is present iff some poll returned an event of the expected type. It is that type's event at the earliest such poll, and no earlier poll matched. |
| `AdminResults.FirstMatchStep` | include/kafka/AdminClient.h:231-242 | One iteration of the poll loop: a matching event ends the search, otherwise the search continues with the next poll, and no poll left means nothing found. |
| `AdminResults.ResultPrecedence` | include/kafka/AdminClient.h:249-266 | An event-level error decides the code. Without one, the first per-entry error decides it. With neither, the result is "Success". The result fails iff some error exists. |
| `AdminResults.DeleteTopicsTimesOut` | include/kafka/AdminClient.h:317-320 | With no DeleteTopics result among the polls, the outcome is `TIMED_OUT` "No response within the time limit". |
| `AdminResults.DeleteTopicsClassifies` | include/kafka/AdminClient.h:322-336 | The code is the event error if there is one, else the first failed topic's code. The outcome is success, equal to "Success", iff neither exists. |
| `AdminResults.DeleteRecordsTimesOut` | include/kafka/AdminClient.h:386-389 | With no DeleteRecords result among the polls, the outcome is `TIMED_OUT` "No response within the time limit". |
| `AdminResults.DeleteRecordsClassifies` | include/kafka/AdminClient.h:391-403 | The event error comes first, then the first failed partition. A null partition list fails only through the event error. Success holds iff there is no error at all. |
| `AdminResults.ConfigCheck` | include/kafka/AdminClient.h:208-217 | No error iff every configuration entry is accepted. A rejection is `INVALID_ARG`. |
| `AdminResults.ConfigCheckNamesFirstRejected` | include/kafka/AdminClient.h:208-217 | A rejection's message is "Invalid config[key=value]" for the first entry the library rejects; every earlier entry was accepted. |
| `AdminResults.TopicsCheck` | include/kafka/AdminClient.h:200-218 | No error iff every topic object is created and, when there is at least one topic, every configuration entry is accepted. A rejection is `INVALID_ARG`. |
| `AdminResults.CreateTopicsRejectsArguments` | include/kafka/AdminClient.h:200-218 | A rejected argument gives `INVALID_ARG`. The outcome is the same whatever the queue and the metadata requests would return, because no request is issued. |
| `AdminResults.CreateTopicsSucceedsIff` | include/kafka/AdminClient.h:249-279 | createTopics succeeds, with "Success", iff all of these hold: the arguments are accepted, a result event arrives, neither the event nor any topic carries an error, and some metadata refresh before the deadline succeeds. |
| `AdminResults.CreateTopicsMetadataTimeout` | include/kafka/AdminClient.h:269-279 | When the request succeeded but no refresh did, the outcome is `TIMED_OUT` "Updating metadata timed out". |
| `AdminResults.CreateTopicsTimesOut` | include/kafka/AdminClient.h:244-247 | With accepted arguments and no CreateTopics result among the polls, the outcome is `TIMED_OUT` "No response within the time limit". |
| `AdminResults.CreateTopicsClassifies` | include/kafka/AdminClient.h:249-267 | With accepted arguments and a result event, the code is the event error if there is one, else the first failed topic's code. |
| `Strings.SplitOn` | tools/KafkaConsoleProducer.cc:65 | Splitting gives at least one part, and no part contains the separator. |
| `Strings.SplitCount` | tools/KafkaConsoleProducer.cc:65-66 | There is one more part than there are separators in the token. |
| `Strings.SplitThenJoin` | tools/KafkaConsoleProducer.cc:65 | Joining the parts with the separator gives back the token. |
| `Strings.JoinThenSplit` | tools/KafkaConsoleProducer.cc:97 | A non-empty broker list whose names have no "," is recovered by splitting its ","-join. |
| `Strings.IntToString` | include/kafka/AdminClient.h:163 | The partition number's text is a minus sign for negative values followed by digits that read back as its absolute value, with no leading zero. |
| `Strings.NatToStringRoundTrip` | include/kafka/AdminClient.h:163 | Reading back the rendered digits gives the number. |
| `ConsoleProducer.KeyValueShape` | tools/KafkaConsoleProducer.cc:62-69 | A `--props` token is accepted iff it contains exactly one '='. Its key, "=" and its value then rebuild the token, and neither key nor value contains '='. |
| `ConsoleProducer.EmptyValueAccepted` | tools/KafkaConsoleProducer.cc:65-70 | "a=" is accepted with key "a" and an empty value. |
| `ConsoleProducer.TwoSeparatorsRejected` | tools/KafkaConsoleProducer.cc:65-69 | "a=b=c" is rejected. |
| `ConsoleProducer.NoSeparatorRejected` | tools/KafkaConsoleProducer.cc:65-69 | "ab" is rejected. |
| `ConsoleProducer.BuildMapKeys` | tools/KafkaConsoleProducer.cc:70 | A key is in the map built by successive writes iff some write used it. |
| `ConsoleProducer.BuildMapLastWins` | tools/KafkaConsoleProducer.cc:70 | The value of a key is that of the last write with that key. |
| `ConsoleProducer.PropsMapLastWins` | tools/KafkaConsoleProducer.cc:62-71 | For a repeated `--props` key, the last token with that key gives the value in `args->props`. |
| `ConsoleProducer.PropsMapOnlyGivenKeys` | tools/KafkaConsoleProducer.cc:62-71 | A key no token has is not in `args->props`. |
| `ConsoleProducer.ParseArguments` | tools/KafkaConsoleProducer.cc:20-74 | The outcome is "help" iff help was asked for or no argument was given. It is "missing required" iff, otherwise, the broker list or the topic is absent. It is "bad props", with its fixed message, iff, otherwise, some token is not `key=value`. It is parsed arguments iff none of these applies. Parsed arguments carry the given broker list and topic, a partition iff the value (default -1) is ≥ 0, and the last-wins map of the tokens. |
| `ConsoleProducer.ProducerConfig.constructor` | tools/KafkaConsoleProducer.cc:96 | A new property set is empty. |
| `ConsoleProducer.ProducerConfig.Put` | tools/KafkaConsoleProducer.cc:97-105 | `put` sets one key and leaves every other key unchanged. |
| `ConsoleProducer.AssembleProperties` | tools/KafkaConsoleProducer.cc:95-106 | The keys are the user keys plus bootstrap.servers and client.id. Every user key keeps its user value, so it overrides either default. Otherwise bootstrap.servers is the broker list joined with ",", and client.id is the given id. |
| `ConsoleProducer.RecordFor` | tools/KafkaConsoleProducer.cc:122-123 | A record carries an explicit partition iff one was parsed, and then carries that partition. |
| `ConsoleProducer.Start` | tools/KafkaConsoleProducer.cc:77-106 | The tool exits with EXIT_SUCCESS iff help was asked for or no argument was given. It exits with EXIT_FAILURE iff, otherwise, a required option is missing or a token is not `key=value`. It runs iff neither applies. A run carries the parsed arguments: the given broker list and topic, the partition (present iff the value, default -1, is ≥ 0, and then equal to it) and the last-wins props map. Its properties hold every user key with the user's value, plus bootstrap.servers (the ","-joined broker list) and client.id (the given id) unless the user set them. |

## Left out

- librdkafka calls are not modelled: queue creation, `rd_kafka_CreateTopics`, `rd_kafka_DeleteTopics` and `rd_kafka_DeleteRecords`, event destruction, and the metadata request. Their results enter only as the `Poll` and `MetadataReply` sequences and the `Library` functions.
- Wall-clock time, `EVENT_POLLING_INTERVAL_MS` and the timeout arguments are not modelled. The deadline is the number of polls, or of metadata refreshes, it leaves room for.
  - Both `do`/`while` loops always run once, so `PollForResult`, `CreateTopics`, `DeleteTopics` and `DeleteRecords` require at least one entry in each sequence.
  - The time that `createTopics`' polling takes away from its refresh loop is reflected only in how many refreshes the second sequence holds.
- Logging (`KAFKA_API_DO_LOG`, `LogBuffer`) and the error text that librdkafka writes into `errInfo` are not modelled.
- `DeleteTopics` takes no topic names. Building the delete objects cannot fail except through a C `assert`, and the outcome does not depend on the names.
- `kafka/Error.h` is not part of this model.
  - A default-constructed `Error`, which a successful `listTopics` carries, is modelled as `NoError` with an empty message.
  - The numeric values of codes are not modelled.
- The `Topics` set and the topic configuration map are modelled as sequences in their iteration order (keys sorted). Whether they hold duplicates is not checked.
- `fetchBrokerMetadata`, an `allowCached` flag, a metadata cache and concurrent sub-requests do not appear in this code and are not modelled.
- Treating "unknown topic" after a delete as success is a caller's policy in the robustness test, not client behaviour.
- Command-line parsing itself is not modelled: boost `program_options`, unknown options, and non-numeric partitions. The parsed options are the input.
  - A missing required option is modelled as `MissingRequired`, without the parser's message text.
- The console producer's stdin loop, `syncSend`, console output and logger setup are not modelled. The thread-id-based client id is a parameter.
- `ConsoleProducer.RecordFor`: states only which partition the record carries. The key and value encoding of `ProducerRecord` is not part of this model.
