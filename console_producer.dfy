/**
 * The argument handling of the console producer tool: turning the parsed
 * command line into `Arguments` (partition sentinel, `key=value` producer
 * properties), and assembling the producer's properties from them.
 *
 * The command line arrives already parsed into options (`CommandLine`);
 * the option parser itself, the stdin loop and the sending are not part of
 * this model.
 */
module ConsoleProducer {
  import opened Wrappers
  import opened Strings

  /**
   * The options as the option parser stores them: the argument count, the
   * help flag, the two required options (absent when not given), the
   * partition option (absent when not given) and the `--props` tokens.
   */
  datatype CommandLine = CommandLine(
    argc: int,
    help: bool,
    brokerList: Option<seq<string>>,
    topic: Option<string>,
    partition: Option<int>,
    props: seq<string>)

  datatype Arguments = Arguments(
    brokerList: seq<string>,
    topic: string,
    partition: Option<int>,
    props: map<string, string>)

  /**
   * What `ParseArguments` ends with: the help text was asked for (a null
   * result), a required option is missing (the option parser throws), a
   * `--props` token is malformed (`std::invalid_argument`), or the arguments.
   */
  datatype ParseOutcome = Help | MissingRequired | BadProps(message: string) | Parsed(args: Arguments)

  const PropsFormatMessage := "Unexpected --props value! Expected key=value format"

  /** The value of the local `partition` after option parsing: the option's value, or the sentinel -1. */
  function PartitionArg(cl: CommandLine): int
  {
    if cl.partition.Some? then cl.partition.value else -1
  }

  /** A `--props` token is accepted when splitting it on every '=' gives exactly two parts. */
  predicate IsKeyValue(prop: string)
  {
    |SplitOn(prop, '=')| == 2
  }

  /** A token is accepted exactly when it holds one '='; its key and value then rebuild it. */
  lemma KeyValueShape(prop: string)
    ensures IsKeyValue(prop) <==> multiset(prop)['='] == 1
    ensures IsKeyValue(prop) ==>
      var parts := SplitOn(prop, '=');
      parts[0] + "=" + parts[1] == prop && '=' !in parts[0] && '=' !in parts[1]
  {
    SplitCount(prop, '=');
    var parts := SplitOn(prop, '=');
    if |parts| == 2 {
      SplitThenJoin(prop, '=');
      assert Join(parts, "=") == parts[0] + "=" + Join(parts[1..], "=");
      assert parts[1..] == [parts[1]];
    }
  }

  /** "a=" is accepted, with an empty value. */
  lemma EmptyValueAccepted()
    ensures IsKeyValue("a=") && SplitOn("a=", '=') == ["a", ""]
  {
    SplitAtSeparator("a", "", '=');
    SplitWithout("a", '=');
    assert "a" + ['='] + "" == "a=";
  }

  /** "a=b=c" splits into three parts and is rejected. */
  lemma TwoSeparatorsRejected()
    ensures !IsKeyValue("a=b=c")
  {
    SplitAtSeparator("b", "c", '=');
    SplitAtSeparator("a", "b=c", '=');
    SplitWithout("a", '=');
    SplitWithout("b", '=');
    SplitWithout("c", '=');
    assert "b" + ['='] + "c" == "b=c";
    assert "a" + ['='] + "b=c" == "a=b=c";
  }

  /** "ab" has no separator and is rejected. */
  lemma NoSeparatorRejected()
    ensures !IsKeyValue("ab")
  {
    SplitWithout("ab", '=');
  }

  function Key(prop: string): string
    requires IsKeyValue(prop)
  {
    SplitOn(prop, '=')[0]
  }

  function Value(prop: string): string
    requires IsKeyValue(prop)
  {
    SplitOn(prop, '=')[1]
  }

  /** The key and value of every token, in order. */
  function Pairs(props: seq<string>): seq<(string, string)>
    requires forall i :: 0 <= i < |props| ==> IsKeyValue(props[i])
  {
    seq(|props|, i requires 0 <= i < |props| => (Key(props[i]), Value(props[i])))
  }

  /** The map built by writing the pairs in order, each overwriting its key. */
  function BuildMap(pairs: seq<(string, string)>): map<string, string>
  {
    if |pairs| == 0 then map[]
    else BuildMap(pairs[..|pairs| - 1])[pairs[|pairs| - 1].0 := pairs[|pairs| - 1].1]
  }

  /** The properties map built from well-formed tokens. */
  function PropsMap(props: seq<string>): map<string, string>
    requires forall i :: 0 <= i < |props| ==> IsKeyValue(props[i])
  {
    BuildMap(Pairs(props))
  }

  /** Pair `i` is the last pair whose key is `k`. */
  predicate LastWithKey(pairs: seq<(string, string)>, i: int, k: string)
  {
    0 <= i < |pairs| && pairs[i].0 == k && forall j :: i < j < |pairs| ==> pairs[j].0 != k
  }

  /** A key is in the built map exactly when some pair has it. */
  lemma {:induction false} BuildMapKeys(pairs: seq<(string, string)>, k: string)
    ensures k in BuildMap(pairs) <==> exists i :: 0 <= i < |pairs| && pairs[i].0 == k
  {
    if |pairs| > 0 {
      var n := |pairs| - 1;
      var init := pairs[..n];
      BuildMapKeys(init, k);
      if exists i :: 0 <= i < |pairs| && pairs[i].0 == k {
        var i :| 0 <= i < |pairs| && pairs[i].0 == k;
        if i < n {
          assert init[i] == pairs[i];
        }
      }
      if exists i :: 0 <= i < n && init[i].0 == k {
        var i :| 0 <= i < n && init[i].0 == k;
        assert pairs[i] == init[i];
      }
    }
  }

  /** For a repeated key the last write wins. */
  lemma {:induction false} BuildMapLastWins(pairs: seq<(string, string)>, i: int, k: string)
    requires LastWithKey(pairs, i, k)
    ensures k in BuildMap(pairs) && BuildMap(pairs)[k] == pairs[i].1
  {
    var n := |pairs| - 1;
    var init := pairs[..n];
    if i < n {
      assert pairs[n].0 != k;
      assert forall j :: i < j < n ==> init[j] == pairs[j];
      BuildMapLastWins(init, i, k);
    }
  }

  /**
   * For a repeated `--props` key the last token wins: a key is in the map
   * exactly when some token has it, with the value of the last such token.
   */
  lemma PropsMapLastWins(props: seq<string>, i: int, k: string)
    requires forall i :: 0 <= i < |props| ==> IsKeyValue(props[i])
    requires 0 <= i < |props| && Key(props[i]) == k
    requires forall j :: i < j < |props| ==> Key(props[j]) != k
    ensures k in PropsMap(props) && PropsMap(props)[k] == Value(props[i])
  {
    var pairs := Pairs(props);
    assert LastWithKey(pairs, i, k);
    BuildMapLastWins(pairs, i, k);
  }

  /** A key absent from every token is absent from the map. */
  lemma PropsMapOnlyGivenKeys(props: seq<string>, k: string)
    requires forall i :: 0 <= i < |props| ==> IsKeyValue(props[i])
    requires forall i :: 0 <= i < |props| ==> Key(props[i]) != k
    ensures k !in PropsMap(props)
  {
    var pairs := Pairs(props);
    BuildMapKeys(pairs, k);
  }

  /** `--help` was given, or no argument at all. */
  predicate HelpRequested(cl: CommandLine)
  {
    cl.help || cl.argc == 1
  }

  /** Both required options, `--broker-list` and `--topic`, were given. */
  predicate HasRequired(cl: CommandLine)
  {
    cl.brokerList.Some? && cl.topic.Some?
  }

  /** Every `--props` token has the `key=value` shape. */
  predicate AllKeyValue(props: seq<string>)
  {
    forall i :: 0 <= i < |props| ==> IsKeyValue(props[i])
  }

  /** A command line from which `ParseArguments` returns arguments. */
  predicate WellFormed(cl: CommandLine)
  {
    !HelpRequested(cl) && HasRequired(cl) && AllKeyValue(cl.props)
  }

  /**
   * `ParseArguments` after the options are stored: help or a bare command
   * returns nothing; then the required options are checked; a non-negative
   * partition becomes present; each `--props` token is split on '=' and
   * must give exactly a key and a value, which overwrite the map entry.
   */
  method ParseArguments(cl: CommandLine) returns (r: ParseOutcome)
    ensures r == Help <==> HelpRequested(cl)
    ensures r == MissingRequired <==> !HelpRequested(cl) && !HasRequired(cl)
    ensures r.BadProps? ==> r.message == PropsFormatMessage
    ensures r.BadProps? <==> !HelpRequested(cl) && HasRequired(cl) && !AllKeyValue(cl.props)
    ensures r.Parsed? <==> WellFormed(cl)
    ensures r.Parsed? ==>
      && cl.brokerList == Some(r.args.brokerList)
      && cl.topic == Some(r.args.topic)
      && (r.args.partition.Some? <==> PartitionArg(cl) >= 0)
      && (r.args.partition.Some? ==> r.args.partition.value == PartitionArg(cl))
      && AllKeyValue(cl.props)
      && r.args.props == PropsMap(cl.props)
  {
    var partition := -1;
    if cl.partition.Some? {
      partition := cl.partition.value;
    }
    if cl.help || cl.argc == 1 {
      return Help;
    }
    if cl.brokerList.None? || cl.topic.None? {
      return MissingRequired;
    }
    var part: Option<int> := None;
    if partition >= 0 {
      part := Some(partition);
    }
    var props: map<string, string> := map[];
    var i := 0;
    while i < |cl.props|
      invariant 0 <= i <= |cl.props|
      invariant forall j :: 0 <= j < i ==> IsKeyValue(cl.props[j])
      invariant props == PropsMap(cl.props[..i])
    {
      var keyValue := SplitOn(cl.props[i], '=');
      if |keyValue| != 2 {
        return BadProps(PropsFormatMessage);
      }
      assert Pairs(cl.props[..i + 1]) == Pairs(cl.props[..i]) + [(keyValue[0], keyValue[1])];
      props := props[keyValue[0] := keyValue[1]];
      i := i + 1;
    }
    assert cl.props[..i] == cl.props;
    r := Parsed(Arguments(cl.brokerList.value, cl.topic.value, part, props));
  }

  const BootstrapServers := "bootstrap.servers"
  const ClientId := "client.id"

  /** The producer's property set, updated in place by `Put`. */
  class ProducerConfig {
    var entries: map<string, string>

    constructor ()
      ensures entries == map[]
    {
      entries := map[];
    }

    method Put(key: string, value: string)
      modifies this
      ensures entries == old(entries)[key := value]
    {
      entries := entries[key := value];
    }
  }

  /**
   * The properties `main` gives the producer: bootstrap servers (the broker
   * list joined with ","), then the client id, then every user property,
   * which overrides either of the first two when it has the same key.
   */
  method AssembleProperties(args: Arguments, clientId: string) returns (props: map<string, string>)
    ensures props.Keys == args.props.Keys + {BootstrapServers, ClientId}
    ensures forall k :: k in args.props ==> props[k] == args.props[k]
    ensures BootstrapServers !in args.props ==> props[BootstrapServers] == Join(args.brokerList, ",")
    ensures ClientId !in args.props ==> props[ClientId] == clientId
  {
    var config := new ProducerConfig();
    config.Put(BootstrapServers, Join(args.brokerList, ","));
    config.Put(ClientId, clientId);
    ghost var base := config.entries;
    var rest := args.props.Keys;
    while rest != {}
      invariant rest <= args.props.Keys
      invariant config.entries.Keys == base.Keys + (args.props.Keys - rest)
      invariant forall k :: k in args.props.Keys - rest ==> config.entries[k] == args.props[k]
      invariant forall k :: k in base && k !in args.props.Keys - rest ==> config.entries[k] == base[k]
      decreases rest
    {
      var key :| key in rest;
      config.Put(key, args.props[key]);
      rest := rest - {key};
    }
    props := config.entries;
  }

  /** A record to send: topic, explicit partition if any, empty key, the line as value. */
  datatype ProducerRecord = ProducerRecord(topic: string, partition: Option<int>, key: string, value: string)

  /** The record built for one input line carries the parsed partition exactly when one was parsed. */
  function RecordFor(args: Arguments, line: string): (r: ProducerRecord)
    ensures r.topic == args.topic && r.value == line && r.key == ""
    ensures r.partition.Some? <==> args.partition.Some?
    ensures r.partition.Some? ==> r.partition.value == args.partition.value
  {
    if args.partition.Some? then ProducerRecord(args.topic, Some(args.partition.value), "", line)
    else ProducerRecord(args.topic, None, "", line)
  }

  const ExitSuccess := 0
  const ExitFailure := 1

  /** How `main` starts: it exits, or it goes on to read lines with these arguments and properties. */
  datatype Startup = Exit(status: int) | Run(args: Arguments, props: map<string, string>)

  /**
   * The start of `main`: a parse failure exits with EXIT_FAILURE, help with
   * EXIT_SUCCESS, before any property is assembled; otherwise the producer
   * properties are assembled from the arguments.
   */
  method Start(cl: CommandLine, clientId: string) returns (s: Startup)
    ensures s == Exit(ExitSuccess) <==> HelpRequested(cl)
    ensures s == Exit(ExitFailure) <==> !HelpRequested(cl) && (!HasRequired(cl) || !AllKeyValue(cl.props))
    ensures s.Run? <==> WellFormed(cl)
    ensures s.Run? ==>
      && AllKeyValue(cl.props)
      && cl.brokerList == Some(s.args.brokerList)
      && cl.topic == Some(s.args.topic)
      && (s.args.partition.Some? <==> PartitionArg(cl) >= 0)
      && (s.args.partition.Some? ==> s.args.partition.value == PartitionArg(cl))
      && s.args.props == PropsMap(cl.props)
      && s.props.Keys == s.args.props.Keys + {BootstrapServers, ClientId}
      && (forall k :: k in s.args.props ==> s.props[k] == s.args.props[k])
      && (BootstrapServers !in s.args.props ==> s.props[BootstrapServers] == Join(s.args.brokerList, ","))
      && (ClientId !in s.args.props ==> s.props[ClientId] == clientId)
  {
    var parsed := ParseArguments(cl);
    match parsed
    case Help =>
      return Exit(ExitSuccess);
    case MissingRequired =>
      return Exit(ExitFailure);
    case BadProps(_) =>
      return Exit(ExitFailure);
    case Parsed(args) =>
      var props := AssembleProperties(args, clientId);
      return Run(args, props);
  }
}
