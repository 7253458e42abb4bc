/** The command registry: a mutable name -> action dictionary. Actions are
    represented by identities; every invocation is appended to a log, so
    that "the action ran exactly once" can be stated. */
module Commands {

  /** The identity of a registered callable. */
  datatype Action = Action(id: nat)

  class CommandHandler {
    var commands: map<string, Action>
    /** The actions invoked so far, oldest first. */
    var invoked: seq<Action>

    constructor ()
      ensures commands == map[] && invoked == []
    {
      commands := map[];
      invoked := [];
    }

    /** `register(name, func)`: binds `name`, replacing any earlier binding
        of it and leaving every other binding alone. */
    method Register(name: string, action: Action)
      modifies this`commands
      ensures commands == old(commands)[name := action]
      ensures forall n :: n in old(commands) && n != name ==> n in commands && commands[n] == old(commands)[n]
    {
      commands := commands[name := action];
    }

    /** `execute(command)`: runs the bound action once and reports true, or
        runs nothing and reports false. The map is not changed. */
    method Execute(command: string) returns (handled: bool)
      modifies this`invoked
      ensures handled <==> command in commands
      ensures handled ==> invoked == old(invoked) + [commands[command]]
      ensures !handled ==> invoked == old(invoked)
    {
      if command in commands {
        invoked := invoked + [commands[command]];
        return true;
      }
      return false;
    }

    /** `get_commands()`: the current map itself. */
    method GetCommands() returns (m: map<string, Action>)
      ensures m == commands
    {
      m := commands;
    }
  }

  /** How often `a` occurs in an invocation log. */
  function Occurrences(log: seq<Action>, a: Action): nat
  {
    if log == [] then 0 else Occurrences(log[..|log| - 1], a) + (if log[|log| - 1] == a then 1 else 0)
  }

  /** Appending one invocation counts one more run of that action and of no
      other (the log grows as Execute makes it grow). */
  lemma OccurrencesAppend(log: seq<Action>, a: Action, b: Action)
    ensures Occurrences(log + [a], b) == Occurrences(log, b) + (if a == b then 1 else 0)
  {
  }

  /** Register then execute, as a caller sees it through the contracts: the
      registered name is handled and runs its action exactly once, an
      unregistered name is refused and runs nothing. */
  method RegisterThenExecute(name: string, action: Action, other: string)
    returns (handled: bool, refused: bool, runs: nat, log: seq<Action>)
    requires other != name
    ensures handled && refused
    ensures log == [action] && runs == 1
  {
    var handler := new CommandHandler();
    handler.Register(name, action);
    handled := handler.Execute(name);
    assert other !in handler.commands;
    var h := handler.Execute(other);
    refused := !h;
    log := handler.invoked;
    OccurrencesAppend([], action, action);
    runs := Occurrences(log, action);
  }
}
