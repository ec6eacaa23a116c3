/** The Redis guest agent's configuration helpers
    (`trove/guestagent/datastore/experimental/redis/service.py`): the status
    probe, the joining of multi-valued directives, the runtime `CONFIG SET` of
    overrides through `RedisAdmin` and its renamable `CONFIG` command, the
    lookup of the renamed command, and the `RedisApp` operations that hand
    overrides to the configuration manager.

    The configuration manager is not part of this model: its calls are
    recorded, in order, in `RedisApp.configOps`. The Redis server is a function
    from the command sent to its reply, and `StringConverter.to_strings`, the
    random password and the system file paths are parameters. */
module RedisService {
  import opened Wrappers
  import opened Text

  /** The instance statuses the probe reports. */
  datatype ServiceStatus = Running | Shutdown | Blocked | Crashed

  /** The exceptions `ping` can raise. In the Redis client library
      `BusyLoadingError` is a subclass of `ConnectionError`. */
  datatype PingError = ConnectionErr | BusyLoadingErr | OtherErr

  /** What `client.ping()` does: return a value of some truthiness, or raise. */
  datatype PingOutcome = PingReturned(truthy: bool) | PingRaised(error: PingError)

  /** `isinstance(e, ConnectionError)`. */
  predicate IsConnectionError(e: PingError) {
    e == ConnectionErr || e == BusyLoadingErr
  }

  /** `_get_actual_db_status` as written: the `except` clauses are tried in
      order, and `except ConnectionError` comes before `except BusyLoadingError`. */
  function ActualDbStatusAsWritten(ping: PingOutcome): ServiceStatus {
    match ping
    case PingReturned(truthy) => if truthy then Running else Crashed
    case PingRaised(e) =>
      if IsConnectionError(e) then Shutdown
      else if e == BusyLoadingErr then Blocked
      else Crashed
  }

  /** As written, a server still loading its data set is reported as shut down,
      and no ping outcome is ever reported as blocked. */
  lemma BusyLoadingShadowed()
    ensures ActualDbStatusAsWritten(PingRaised(BusyLoadingErr)) == Shutdown
    ensures forall p :: ActualDbStatusAsWritten(p) != Blocked
  {
  }

  /** The status probe with the evidently intended mapping: a truthy ping is
      running, a connection error shut down, a loading server blocked, and a
      falsy ping or any other error crashed. */
  function ActualDbStatus(ping: PingOutcome): (s: ServiceStatus)
    ensures s == Running <==> ping == PingReturned(true)
    ensures s == Shutdown <==> ping == PingRaised(ConnectionErr)
    ensures s == Blocked <==> ping == PingRaised(BusyLoadingErr)
    ensures s == Crashed <==> ping == PingReturned(false) || ping == PingRaised(OtherErr)
  {
    match ping
    case PingReturned(truthy) => if truthy then Running else Crashed
    case PingRaised(e) =>
      if e == BusyLoadingErr then Blocked
      else if IsConnectionError(e) then Shutdown
      else Crashed
  }

  /** One element of a directive's argument list: a string or a sub-list. */
  datatype Elem = Str(s: string) | Sub(parts: seq<string>)

  /** A directive's arguments after string conversion: a single value or a list. */
  datatype ArgValue = Scalar(s: string) | ListArg(elems: seq<Elem>)

  /** `_join_lists(items, sep)`: a non-list is returned as it is; a list is
      joined with `sep`, each sub-list joined with `sep` first. What the join
      of a list amounts to is stated by `JoinListsFlattens`. */
  function JoinLists(items: ArgValue, sep: string): (r: string)
    ensures items.Scalar? ==> r == items.s
    ensures items.ListArg? ==> r == Join(ElemStrings(items.elems, sep), sep)
  {
    match items
    case Scalar(s) => s
    case ListArg(elems) => Join(ElemStrings(elems, sep), sep)
  }

  /** The list comprehension inside `_join_lists`. */
  function ElemStrings(elems: seq<Elem>, sep: string): (r: seq<string>)
    ensures |r| == |elems|
    ensures forall i :: 0 <= i < |elems| ==> r[i] == (if elems[i].Sub? then Join(elems[i].parts, sep) else elems[i].s)
  {
    seq(|elems|, i requires 0 <= i < |elems| => match elems[i] case Str(s) => s case Sub(p) => Join(p, sep))
  }

  /** The strings of a list with its sub-lists spliced in. */
  function Flatten(elems: seq<Elem>): seq<string> {
    if |elems| == 0 then []
    else (match elems[0] case Str(s) => [s] case Sub(p) => p) + Flatten(elems[1..])
  }

  /** An element contributes at least one string. */
  predicate NonEmptyElem(e: Elem) {
    e.Sub? ==> |e.parts| > 0
  }

  /** Joining with sub-lists joined first is joining the flattened list, as
      long as no sub-list is empty (an empty one would add a separator). */
  lemma {:induction false} JoinListsFlattens(elems: seq<Elem>, sep: string)
    requires forall i :: 0 <= i < |elems| ==> NonEmptyElem(elems[i])
    ensures JoinLists(ListArg(elems), sep) == Join(Flatten(elems), sep)
    decreases |elems|
  {
    if |elems| > 1 {
      var rest := elems[1..];
      JoinListsFlattens(rest, sep);
      var head := match elems[0] case Str(s) => [s] case Sub(p) => p;
      var strs := ElemStrings(elems, sep);
      assert strs[1..] == ElemStrings(rest, sep);
      assert Join(head, sep) == strs[0];
      assert |Flatten(rest)| > 0 by {
        assert NonEmptyElem(rest[0]);
      }
      JoinAppend(head, Flatten(rest), sep);
    } else if |elems| == 1 {
      var head := match elems[0] case Str(s) => [s] case Sub(p) => p;
      assert Flatten(elems[1..]) == [];
      assert Flatten(elems) == head;
      var strs := ElemStrings(elems, sep);
      assert strs == [Join(head, sep)];
    }
  }

  /** The examples documented on `_join_lists`. */
  lemma JoinListsExamples()
    ensures JoinLists(Scalar("1234"), " ") == "1234"
    ensures JoinLists(ListArg([Str("1"), Str("2"), Str("3"), Str("4")]), " ") == "1 2 3 4"
    ensures JoinLists(ListArg([Sub(["1", "2"]), Sub(["3", "4"])]), " ") == "1 2 3 4"
  {
    var flat := ElemStrings([Str("1"), Str("2"), Str("3"), Str("4")], " ");
    assert flat == ["1", "2", "3", "4"];
    assert ["1", "2"][1..] == ["2"] && ["3", "4"][1..] == ["4"];
    assert Join(["1", "2"], " ") == "1 2" && Join(["3", "4"], " ") == "3 4";
    var nested := ElemStrings([Sub(["1", "2"]), Sub(["3", "4"])], " ");
    assert nested == ["1 2", "3 4"];
  }

  /** A command sent to the server: its name and arguments. */
  datatype Command = Command(name: string, args: seq<string>)

  /** The server's parsed reply, or the exception `execute_command` raised. */
  datatype Response = Reply(text: string) | NoReply | CommandRaised

  datatype RedisError =
      /** `execute` turns any exception into TroveError. */
    | CommandFailed(command: string, args: string)
      /** `config_set` got a reply other than OK (UnprocessableEntity). */
    | PropertyNotSet(name: string, value: string)
      /** `get_config_command_name` on a missing value (TypeError) or on a
          short pair (IndexError). */
    | RenameCommandMalformed
      /** `start_db_with_conf_changes` while the service runs (RuntimeError). */
    | StartWhileRunning
      /** A required key missing from an argument dictionary (KeyError). */
    | MissingKey(key: string)

  /** `_is_ok_response`: a reply that reads `OK`. */
  predicate IsOkResponse(resp: Response) {
    resp == Reply("OK")
  }

  const DefaultConfigCmd: string := "CONFIG"

  /** The `CONFIG SET` command for one property under the current command name. */
  function ConfigSetCommand(cmdName: string, name: string, value: string): Command {
    Command(cmdName + " SET", [name, value])
  }

  /** What `config_set` reports for the server's reply. */
  function ConfigSetResult(cmd: Command, resp: Response): (r: Outcome<RedisError>)
    requires |cmd.args| == 2
    ensures r == Pass <==> IsOkResponse(resp)
    ensures resp == CommandRaised ==> r == Fail(CommandFailed(cmd.name, Join(cmd.args, " ")))
    ensures resp != CommandRaised && !IsOkResponse(resp) ==> r == Fail(PropertyNotSet(cmd.args[0], cmd.args[1]))
  {
    if resp == CommandRaised then Fail(CommandFailed(cmd.name, Join(cmd.args, " ")))
    else if IsOkResponse(resp) then Pass
    else Fail(PropertyNotSet(cmd.args[0], cmd.args[1]))
  }

  /** The administrative client: the current name of the `CONFIG` command and
      the commands sent so far. */
  class RedisAdmin {
    var configCmdName: string
    var sent: seq<Command>

    constructor ()
      ensures configCmdName == DefaultConfigCmd && sent == []
    {
      configCmdName := DefaultConfigCmd;
      sent := [];
    }

    /** `set_config_command_name(name)`: a falsy name restores `CONFIG`. */
    method SetConfigCommandName(name: Option<string>)
      modifies this
      ensures configCmdName == (if name.Some? && name.value != "" then name.value else DefaultConfigCmd)
      ensures sent == old(sent)
    {
      if name.Some? && name.value != "" {
        configCmdName := name.value;
      } else {
        configCmdName := DefaultConfigCmd;
      }
    }

    /** `config_set(name, value)`: sends `<command name> SET name value` and
        fails unless the reply is OK. */
    method ConfigSet(name: string, value: string, server: Command -> Response) returns (r: Outcome<RedisError>)
      modifies this
      ensures sent == old(sent) + [ConfigSetCommand(configCmdName, name, value)]
      ensures configCmdName == old(configCmdName)
      ensures r == ConfigSetResult(ConfigSetCommand(configCmdName, name, value), server(ConfigSetCommand(configCmdName, name, value)))
    {
      var cmd := ConfigSetCommand(configCmdName, name, value);
      sent := sent + [cmd];
      var response := server(cmd);
      if response == CommandRaised {
        return Fail(CommandFailed(cmd.name, Join(cmd.args, " ")));
      }
      if response != Reply("OK") {
        return Fail(PropertyNotSet(name, value));
      }
      r := Pass;
    }
  }

  /** The `CONFIG SET` commands `apply_overrides` would send, one per override,
      in iteration order. */
  function SetCommands(cmdName: string, overrides: seq<(string, ArgValue)>, toStrings: ArgValue -> ArgValue)
    : (cmds: seq<Command>)
    ensures |cmds| == |overrides|
    ensures forall i :: 0 <= i < |overrides| ==>
      cmds[i] == ConfigSetCommand(cmdName, overrides[i].0, JoinLists(toStrings(overrides[i].1), " "))
  {
    seq(|overrides|, i requires 0 <= i < |overrides| =>
      ConfigSetCommand(cmdName, overrides[i].0, JoinLists(toStrings(overrides[i].1), " ")))
  }

  /** The position of the first command the server does not accept, or the
      number of commands. */
  function FirstRejected(cmds: seq<Command>, server: Command -> Response): (k: nat)
    ensures k <= |cmds|
    ensures forall i :: 0 <= i < k ==> IsOkResponse(server(cmds[i]))
    ensures k < |cmds| ==> !IsOkResponse(server(cmds[k]))
  {
    if |cmds| == 0 then 0
    else if !IsOkResponse(server(cmds[0])) then 0
    else 1 + FirstRejected(cmds[1..], server)
  }

  /** `apply_overrides(client, overrides)`: one `config_set` per override in
      order, stopping at the first failure; the properties set before it stay
      set. */
  method ApplyOverrides(admin: RedisAdmin, overrides: seq<(string, ArgValue)>,
                        toStrings: ArgValue -> ArgValue, server: Command -> Response)
    returns (r: Outcome<RedisError>)
    modifies admin
    ensures admin.configCmdName == old(admin.configCmdName)
    ensures var cmds := SetCommands(old(admin.configCmdName), overrides, toStrings);
      var k := FirstRejected(cmds, server);
      (r.Pass? <==> k == |cmds|) &&
      (k == |cmds| ==> admin.sent == old(admin.sent) + cmds) &&
      (k < |cmds| ==> admin.sent == old(admin.sent) + cmds[..k + 1] && r == ConfigSetResult(cmds[k], server(cmds[k])))
  {
    ghost var cmds := SetCommands(admin.configCmdName, overrides, toStrings);
    ghost var k := FirstRejected(cmds, server);
    for i := 0 to |overrides|
      invariant admin.configCmdName == old(admin.configCmdName)
      invariant i <= k
      invariant admin.sent == old(admin.sent) + cmds[..i]
    {
      var argsString := JoinLists(toStrings(overrides[i].1), " ");
      var result := admin.ConfigSet(overrides[i].0, argsString, server);
      assert cmds[..i + 1] == cmds[..i] + [cmds[i]];
      if result.Fail? {
        return result;
      }
    }
    assert cmds[..|overrides|] == cmds;
    r := Pass;
  }

  /** `get_config_command_name` over the `rename-command` value: None when the
      value is missing (iteration fails), else the pairs in order. */
  function GetConfigCommandName(renamed: Option<seq<seq<string>>>): (r: Result<Option<string>, RedisError>)
    ensures renamed.None? ==> r.Failure?
  {
    match renamed
    case None => Failure(RenameCommandMalformed)
    case Some(pairs) => FindRenamedConfig(pairs)
  }

  /** The loop of `get_config_command_name`. */
  function FindRenamedConfig(pairs: seq<seq<string>>): Result<Option<string>, RedisError> {
    if |pairs| == 0 then Success(None)
    else if |pairs[0]| == 0 then Failure(RenameCommandMalformed)
    else if pairs[0][0] == DefaultConfigCmd then
      if |pairs[0]| < 2 then Failure(RenameCommandMalformed) else Success(Some(pairs[0][1]))
    else FindRenamedConfig(pairs[1..])
  }

  /** The pair renames some other command (it has a first element that is not `CONFIG`). */
  predicate RenamesOther(pair: seq<string>) {
    |pair| > 0 && pair[0] != DefaultConfigCmd
  }

  /** The new name found is the second element of the first pair that renames
      `CONFIG`; None means no pair renames it. */
  lemma {:induction false} FindRenamedConfigCases(pairs: seq<seq<string>>)
    ensures FindRenamedConfig(pairs) == Success(None) <==>
      forall i :: 0 <= i < |pairs| ==> RenamesOther(pairs[i])
    ensures forall name :: FindRenamedConfig(pairs) == Success(Some(name)) <==>
      exists i :: 0 <= i < |pairs| && (forall j :: 0 <= j < i ==> RenamesOther(pairs[j])) &&
                  |pairs[i]| >= 2 && pairs[i][0] == DefaultConfigCmd && pairs[i][1] == name
    decreases |pairs|
  {
    if |pairs| > 0 && RenamesOther(pairs[0]) {
      var rest := pairs[1..];
      FindRenamedConfigCases(rest);
      assert forall j :: 1 <= j < |pairs| ==> pairs[j] == rest[j - 1];
      forall name | FindRenamedConfig(pairs) == Success(Some(name))
        ensures exists i :: 0 <= i < |pairs| && (forall j :: 0 <= j < i ==> RenamesOther(pairs[j])) &&
                            |pairs[i]| >= 2 && pairs[i][0] == DefaultConfigCmd && pairs[i][1] == name
      {
        var i :| 0 <= i < |rest| && (forall j :: 0 <= j < i ==> RenamesOther(rest[j])) &&
                 |rest[i]| >= 2 && rest[i][0] == DefaultConfigCmd && rest[i][1] == name;
        assert pairs[i + 1] == rest[i];
      }
      forall name | exists i :: 0 <= i < |pairs| && (forall j :: 0 <= j < i ==> RenamesOther(pairs[j])) &&
                                |pairs[i]| >= 2 && pairs[i][0] == DefaultConfigCmd && pairs[i][1] == name
        ensures FindRenamedConfig(pairs) == Success(Some(name))
      {
        var i :| 0 <= i < |pairs| && (forall j :: 0 <= j < i ==> RenamesOther(pairs[j])) &&
                 |pairs[i]| >= 2 && pairs[i][0] == DefaultConfigCmd && pairs[i][1] == name;
        assert i > 0;
        assert rest[i - 1] == pairs[i];
        assert forall j :: 0 <= j < i - 1 ==> RenamesOther(rest[j]) by {
          forall j | 0 <= j < i - 1 ensures RenamesOther(rest[j]) {
            assert rest[j] == pairs[j + 1];
          }
        }
      }
    } else if |pairs| > 0 {
      assert !RenamesOther(pairs[0]);
    }
  }

  /** A call the agent makes on the configuration manager. `layer` is the
      system-override change id; None is the manager's default. */
  datatype ConfigOp =
    | ApplyUserOverride(options: seq<(string, ArgValue)>)
    | ApplySystemOverride(options: seq<(string, ArgValue)>, layer: Option<string>)
    | RemoveUserOverride
    | SaveConfiguration(contents: string)

  /** The change id of the cluster settings. */
  const ClusterLayer: string := "clustering"

  /** The guest agent's own file locations, written into every configuration. */
  datatype RedisPaths = RedisPaths(pidFile: string, logFile: string, dataDir: string)

  /** The settings `apply_initial_guestagent_configuration` pins. */
  function GuestagentSettings(paths: RedisPaths): seq<(string, ArgValue)> {
    [("daemonize", Scalar("yes")), ("pidfile", Scalar(paths.pidFile)),
     ("logfile", Scalar(paths.logFile)), ("dir", Scalar(paths.dataDir))]
  }

  /** The system override `_rename_command(old, new)` applies. */
  function RenameOverride(oldName: string, newName: string): ConfigOp {
    ApplySystemOverride([("rename-command", ListArg([Str(oldName), Str(newName)]))], None)
  }

  /** The configuration side of `RedisApp`. */
  class RedisApp {
    var configOps: seq<ConfigOp>
    const admin: RedisAdmin

    constructor (admin0: RedisAdmin)
      ensures configOps == [] && admin == admin0
    {
      configOps := [];
      admin := admin0;
    }

    /** `update_overrides`: a user override only for a non-empty mapping. */
    method UpdateOverrides(overrides: seq<(string, ArgValue)>)
      modifies this
      ensures configOps == old(configOps) + (if |overrides| > 0 then [ApplyUserOverride(overrides)] else [])
    {
      if |overrides| > 0 {
        configOps := configOps + [ApplyUserOverride(overrides)];
      }
    }

    /** `remove_overrides`. */
    method RemoveOverrides()
      modifies this
      ensures configOps == old(configOps) + [RemoveUserOverride]
    {
      configOps := configOps + [RemoveUserOverride];
    }

    /** `reset_configuration`: the contents under `config_contents` replace the
        configuration; without that key nothing is written (KeyError). */
    method ResetConfiguration(configuration: map<string, string>) returns (r: Outcome<RedisError>)
      modifies this
      ensures "config_contents" !in configuration ==>
        r == Fail(MissingKey("config_contents")) && configOps == old(configOps)
      ensures "config_contents" in configuration ==>
        r == Pass && configOps == old(configOps) + [SaveConfiguration(configuration["config_contents"])]
    {
      if "config_contents" !in configuration {
        return Fail(MissingKey("config_contents"));
      }
      configOps := configOps + [SaveConfiguration(configuration["config_contents"])];
      r := Pass;
    }

    /** `_rename_command(old, new)`: a system override in the default layer. */
    method RenameCommand(oldName: string, newName: string)
      modifies this
      ensures configOps == old(configOps) + [RenameOverride(oldName, newName)]
    {
      configOps := configOps + [RenameOverride(oldName, newName)];
    }

    /** `apply_initial_guestagent_configuration`, given the random name
        `_mangle_config_command_name` draws: `CONFIG` is renamed to it, the
        admin client switches to it, and the agent's own settings are pinned,
        all in the default layer. */
    method ApplyInitialGuestagentConfiguration(mangled: string, paths: RedisPaths)
      modifies this, admin
      ensures configOps == old(configOps) +
        [RenameOverride(DefaultConfigCmd, mangled), ApplySystemOverride(GuestagentSettings(paths), None)]
      ensures admin.configCmdName == (if mangled != "" then mangled else DefaultConfigCmd)
      ensures admin.sent == old(admin.sent)
    {
      RenameCommand(DefaultConfigCmd, mangled);
      admin.SetConfigCommandName(Some(mangled));
      configOps := configOps + [ApplySystemOverride(GuestagentSettings(paths), None)];
    }

    /** `start_db_with_conf_changes`: refused while the service runs, before
        anything is written; otherwise the contents are saved and the agent's
        settings are applied on top (starting the server is not modelled). */
    method StartDbWithConfChanges(contents: string, isRunning: bool, mangled: string, paths: RedisPaths)
      returns (r: Outcome<RedisError>)
      modifies this, admin
      ensures isRunning ==>
        r == Fail(StartWhileRunning) && configOps == old(configOps) && admin.configCmdName == old(admin.configCmdName)
      ensures !isRunning ==>
        r == Pass && configOps == old(configOps) + [SaveConfiguration(contents), RenameOverride(DefaultConfigCmd, mangled),
                                                      ApplySystemOverride(GuestagentSettings(paths), None)]
      ensures admin.sent == old(admin.sent)
    {
      if isRunning {
        return Fail(StartWhileRunning);
      }
      configOps := configOps + [SaveConfiguration(contents)];
      ApplyInitialGuestagentConfiguration(mangled, paths);
      r := Pass;
    }

    /** `enable_cluster`: `cluster-enabled yes` in the cluster layer. */
    method EnableCluster()
      modifies this
      ensures configOps == old(configOps) +
        [ApplySystemOverride([("cluster-enabled", Scalar("yes"))], Some(ClusterLayer))]
    {
      configOps := configOps + [ApplySystemOverride([("cluster-enabled", Scalar("yes"))], Some(ClusterLayer))];
    }

    /** `set_cluster_config_filename(name)`: in the cluster layer. */
    method SetClusterConfigFilename(name: string)
      modifies this
      ensures configOps == old(configOps) +
        [ApplySystemOverride([("cluster-config-file", Scalar(name))], Some(ClusterLayer))]
    {
      configOps := configOps + [ApplySystemOverride([("cluster-config-file", Scalar(name))], Some(ClusterLayer))];
    }
  }
}
