/** The builtin table and flsh_execute. The side effects of the handlers and of the
    launcher are reported as tags; only their return values are computed. */
module Builtins {
  import opened Wrappers

  /** builtin_str: the builtin command names. */
  const BuiltinStr: seq<string> := ["cd", "help", "exit"]

  /** The handlers builtin_func points to. */
  datatype Handler = CdHandler | HelpHandler | ExitHandler

  /** builtin_func: the handlers, index for index with BuiltinStr. */
  const BuiltinFunc: seq<Handler> := [CdHandler, HelpHandler, ExitHandler]

  /** flsh_num_builtins: the size of builtin_str, which is also the size of builtin_func. */
  function NumBuiltins(): (n: nat)
    ensures n == |BuiltinFunc| == 3
  {
    |BuiltinStr|
  }

  /** What a builtin handler does besides returning its status. */
  datatype Effect =
    | CdUsageError                    // no argument to cd: a usage message, directory unchanged
    | ChangeDirectory(dir: string)    // chdir(dir); a failure is only reported
    | ListBuiltins(names: seq<string>) // help: the banner and every builtin name
    | Quit                            // exit: no effect, status 0

  /** How the parent side of the launcher went: fork succeeded and the parent waited for
      the child, or fork failed and the error was reported. */
  datatype Spawn = Waited | ForkFailed

  datatype Action =
    | NoCommand                          // empty argument vector
    | RunBuiltin(index: nat, effect: Effect)
    | Launch(argv: seq<string>, spawn: Spawn)

  /** What flsh_execute did, and the status it returned (non-zero: keep looping). */
  datatype Outcome = Outcome(action: Action, status: int)

  datatype HandlerResult = HandlerResult(effect: Effect, status: int)

  /** flsh_cd: args[0] is "cd"; without a second argument it only reports a usage error. */
  function Cd(args: seq<string>): (r: HandlerResult)
    requires args != []
    ensures r.status == 1
    ensures r.effect.CdUsageError? <==> |args| == 1
  {
    if |args| == 1 then HandlerResult(CdUsageError, 1)
    else HandlerResult(ChangeDirectory(args[1]), 1)
  }

  /** flsh_help: prints every name of the table, in order. */
  function Help(args: seq<string>): (r: HandlerResult)
    ensures r.status == 1
    ensures r.effect.ListBuiltins? && forall i :: 0 <= i < NumBuiltins() ==> BuiltinStr[i] in r.effect.names
  {
    HandlerResult(ListBuiltins(BuiltinStr[..NumBuiltins()]), 1)
  }

  /** flsh_exit: ignores its arguments and stops the loop. */
  function Exit(args: seq<string>): (r: HandlerResult)
    ensures r.status == 0
  {
    HandlerResult(Quit, 0)
  }

  /** (*builtin_func[i])(args) */
  function Call(h: Handler, args: seq<string>): HandlerResult
    requires args != []
  {
    match h
    case CdHandler => Cd(args)
    case HelpHandler => Help(args)
    case ExitHandler => Exit(args)
  }

  /** flsh_launch as its parent sees it: whatever fork and the child do, it returns 1. */
  function LaunchCommand(args: seq<string>, forkSucceeds: bool): (r: Outcome)
    ensures r.status == 1 && r.action.Launch? && r.action.argv == args
    ensures r.action.spawn == (if forkSucceeds then Waited else ForkFailed)
  {
    Outcome(Launch(args, if forkSucceeds then Waited else ForkFailed), 1)
  }

  /** The scan of flsh_execute from index i on: the first table index at or after i
      whose name equals name, if any. */
  function FindBuiltin(name: string, i: nat): (r: Option<nat>)
    requires i <= NumBuiltins()
    ensures r.Some? ==> i <= r.value < NumBuiltins() && BuiltinStr[r.value] == name
    ensures r.Some? ==> forall j :: i <= j < r.value ==> BuiltinStr[j] != name
    ensures r.None? ==> forall j :: i <= j < NumBuiltins() ==> BuiltinStr[j] != name
    decreases NumBuiltins() - i
  {
    if i == NumBuiltins() then None
    else if BuiltinStr[i] == name then Some(i)
    else FindBuiltin(name, i + 1)
  }

  /** flsh_execute. An empty vector does nothing and continues; otherwise the first table
      entry named args[0] runs, and a command that names no builtin is launched. The
      status is 0 exactly when args[0] is "exit", whatever the other arguments. */
  function Execute(args: seq<string>, forkSucceeds: bool): (r: Outcome)
    ensures args == [] ==> r == Outcome(NoCommand, 1)
    ensures args != [] && args[0] in BuiltinStr ==>
      r.action.RunBuiltin? && r.action.index < NumBuiltins() &&
      BuiltinStr[r.action.index] == args[0] &&
      forall j :: 0 <= j < r.action.index ==> BuiltinStr[j] != args[0]
    ensures args != [] && args[0] !in BuiltinStr ==>
      r == Outcome(Launch(args, if forkSucceeds then Waited else ForkFailed), 1)
    ensures r.status == 0 <==> args != [] && args[0] == "exit"
    ensures r.status == 0 || r.status == 1
  {
    if args == [] then
      Outcome(NoCommand, 1)
    else
      match FindBuiltin(args[0], 0)
      case Some(i) =>
        var res := Call(BuiltinFunc[i], args);
        Outcome(RunBuiltin(i, res.effect), res.status)
      case None => LaunchCommand(args, forkSucceeds)
  }

  /** No name appears twice in the table, so every builtin is reached by its own name. */
  lemma FindBuiltinOfEachName(k: nat)
    requires k < NumBuiltins()
    ensures FindBuiltin(BuiltinStr[k], 0) == Some(k)
  {
    assert forall i, j :: 0 <= i < j < NumBuiltins() ==> BuiltinStr[i] != BuiltinStr[j];
  }

  /** "exit" stops the loop whatever follows it. */
  lemma ExitIgnoresArguments(rest: seq<string>, forkSucceeds: bool)
    ensures Execute(["exit"] + rest, forkSucceeds) == Outcome(RunBuiltin(2, Quit), 0)
  {
    FindBuiltinOfEachName(2);
  }

  /** "cd" alone reports a usage error, leaves the directory alone and continues;
      "cd dir" changes to dir and continues. */
  lemma CdDispatch(args: seq<string>, forkSucceeds: bool)
    requires args != [] && args[0] == "cd"
    ensures |args| == 1 ==> Execute(args, forkSucceeds) == Outcome(RunBuiltin(0, CdUsageError), 1)
    ensures |args| > 1 ==> Execute(args, forkSucceeds) == Outcome(RunBuiltin(0, ChangeDirectory(args[1])), 1)
  {
    FindBuiltinOfEachName(0);
  }

  /** "help" continues and lists every builtin name. */
  lemma HelpDispatch(args: seq<string>, forkSucceeds: bool)
    requires args != [] && args[0] == "help"
    ensures Execute(args, forkSucceeds) == Outcome(RunBuiltin(1, ListBuiltins(BuiltinStr)), 1)
  {
    FindBuiltinOfEachName(1);
  }
}
