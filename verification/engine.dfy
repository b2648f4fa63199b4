/** `CommandEngine`: command registration, `execute`, the batch loop
    `manage`, and the busy guard of `runBatch` and `runLine`. Handlers are
    host functions; the promise scheduling is replaced by sequential calls. */
module CommandEngine {
  import opened Common
  import opened Text
  import opened Types
  import opened Registry
  import opened Tokenizer
  import opened Environment
  import opened Binder

  const UnknownCommand := 0x9

  /** What a handler sees of the engine it is bound to, and may change:
      the variables and the cursor `current_line`. */
  datatype Ctx = Ctx(env: Env, line: nat)

  /** A command's action: called with the mapped arguments, it returns a code. */
  type Handler = (seq<Value>, Ctx) -> (int, Ctx)

  /** A registered command. */
  datatype Command = Command(name: string, syntax: seq<string>, action: Handler, resultType: string, description: string)

  /** The configuration object of `registerCommand`; absent fields are `None`. */
  datatype Config = Config(enumerated: Option<bool>, name: string, action: Handler, resultType: Option<string>,
                           syntax: seq<string>, description: string)

  /** The fields of a `CommandEngine` instance (`error_code` is never read
      and is left out). */
  datatype Engine = Engine(cmds: map<string, Command>, enumerated: seq<string>, batch: seq<string>, line: nat,
                           done: bool, cmd: string, args: seq<Value>, types: seq<TypeRule>, env: Env)

  /** Every name `execute` can find in `enumerated_cmds` has a command. */
  ghost predicate Wf(e: Engine) {
    forall n :: n in e.enumerated ==> n in e.cmds
  }

  /** The constructor: no commands, an idle engine, and the five built-in
      types registered in order. */
  function NewEngine(): (e: Engine)
    ensures e.types == DefaultTypes && e.done && e.batch == [] && e.line == 0
    ensures e.cmds == map[] && e.enumerated == [] && e.env == map[] && Wf(e)
  {
    var r1 := Typedef([], NewType(NumberType, None));
    var r2 := Typedef(r1, NewType(BoolType, None));
    var r3 := Typedef(r2, NewType(SymbolType, None));
    var r4 := Typedef(r3, NewType(StringType, None));
    ConstructorRegistry();
    Engine(map[], [], [], 0, true, "", [], Typedef(r4, NewType(VariableType, None)), map[])
  }

  /** The syntax normalisation of `registerCommand` as written: join on
      NUL, lower-case, split on NUL. The result is never empty, so every
      command has at least one parameter. */
  function NormalizeAsWritten(syntax: seq<string>): (r: seq<string>)
    ensures |r| >= 1
  {
    Split(Lower(Join(syntax, '\0')), '\0')
  }

  /** The intended normalisation: each entry lower-cased. */
  function Normalize(syntax: seq<string>): (r: seq<string>)
    ensures |r| == |syntax| && forall k :: 0 <= k < |syntax| ==> r[k] == Lower(syntax[k])
  {
    seq(|syntax|, k requires 0 <= k < |syntax| => Lower(syntax[k]))
  }

  lemma LowerKeepsNul(s: string)
    requires '\0' !in s
    ensures '\0' !in Lower(s)
  {
    forall i | 0 <= i < |s|
      ensures Lower(s)[i] != '\0'
    {
      assert s[i] in s;
    }
  }

  /** For a non-empty syntax whose entries hold no NUL, the two agree. */
  lemma NormalizeAgrees(syntax: seq<string>)
    requires syntax != [] && forall k :: 0 <= k < |syntax| ==> '\0' !in syntax[k]
    ensures NormalizeAsWritten(syntax) == Normalize(syntax)
  {
    LowerJoin(syntax, '\0');
    var ls := Normalize(syntax);
    forall k | 0 <= k < |ls|
      ensures '\0' !in ls[k]
    {
      LowerKeepsNul(syntax[k]);
    }
    SplitJoin(ls, '\0');
  }

  /** As written, an entry holding a NUL falls apart at it: `a\0b` becomes
      the two entries `a` and `b`, where `Normalize` keeps one entry. */
  lemma NulEntrySplitAsWritten()
    ensures NormalizeAsWritten(["a\0b"]) == ["a", "b"]
    ensures Normalize(["a\0b"]) == ["a\0b"]
  {
    assert Join(["a\0b"], '\0') == "a\0b";
    var l := Lower("a\0b");
    assert l == "a\0b" by {
      assert |l| == 3 && l[0] == 'a' && l[1] == '\0' && l[2] == 'b';
    }
    assert "b"[1..] == [] && Split("b", '\0') == [['b'] + ""];
    assert "\0b"[1..] == "b" && Split("\0b", '\0') == [""] + ["b"];
    assert "a\0b"[1..] == "\0b" && Split("a\0b", '\0') == [['a'] + ""] + ["b"];
    assert ['a'] + "" == "a";
    assert [['a'] + ""] + ["b"] == ["a", "b"];
    assert NormalizeAsWritten(["a\0b"]) == Split(l, '\0');
  }

  /** As written, an empty syntax becomes the one entry "", so a command
      declared without parameters refuses to run without arguments (0x4);
      the intended normalisation keeps it empty and the check maps. */
  lemma EmptySyntaxAsWritten(env: Env)
    ensures NormalizeAsWritten([]) == [""]
    ensures Bind(NormalizeAsWritten([]), [], env) == Refused(TooFew)
    ensures Bind(Normalize([]), [], env) == Mapped([])
  {
    assert Lower("") == "";
    assert !IsOptional("");
    assert SlotAt([""], [], env, 0) == Fail(TooFew);
  }

  /** Whether `config.enumerated ?? true` holds. */
  predicate Listed(c: Config) {
    c.enumerated.None? || c.enumerated.value
  }

  /** `registerCommand(config)`. */
  function RegisterCommand(e: Engine, c: Config): (r: Engine)
    ensures Upper(c.name) in r.cmds && r.cmds[Upper(c.name)].syntax == Normalize(c.syntax)
    ensures r.cmds[Upper(c.name)].resultType == (if c.resultType.Some? then c.resultType.value else AnyTag)
    ensures forall n :: n in e.cmds && n != Upper(c.name) ==> n in r.cmds && r.cmds[n] == e.cmds[n]
    ensures r.cmds.Keys == e.cmds.Keys + {Upper(c.name)}
    ensures r.enumerated == e.enumerated + (if Listed(c) then [Upper(c.name)] else [])
    ensures r.types == e.types && r.env == e.env && r.done == e.done && r.batch == e.batch
    ensures Wf(e) ==> Wf(r)
  {
    var name := Upper(c.name);
    var cmd := Command(name, Normalize(c.syntax), c.action,
                       if c.resultType.Some? then c.resultType.value else AnyTag, c.description);
    e.(cmds := e.cmds[name := cmd],
       enumerated := if Listed(c) then e.enumerated + [name] else e.enumerated)
  }

  /** `interpret(line)` on the engine: the code, and the engine with
      `current_cmd` and `current_args` set. */
  function InterpretLine(e: Engine, line: string): (r: (int, Engine))
    ensures r.1 == e.(cmd := r.1.cmd, args := r.1.args)
    ensures r.0 != Success ==> r.1.cmd == "" && r.1.args == []
    ensures forall i :: 0 <= i < |r.1.args| ==> Produced(e.types, r.1.args[i])
  {
    var p := Interpret(e.types, line);
    (p.code, e.(cmd := p.cmd, args := p.args))
  }

  /** What `execute` does: return a code with the engine as the handler
      left it, or throw. */
  datatype Outcome = Returned(code: int, e: Engine) | Threw(e: Engine)

  /** `execute()`. */
  function Execute(e: Engine): (r: Outcome)
    requires Wf(e)
    ensures e.cmd == "" ==> r == Returned(Success, e)
    ensures e.cmd != "" && e.cmd !in e.enumerated ==> r == Returned(UnknownCommand, e)
    ensures r.e == e.(env := r.e.env, line := r.e.line)
  {
    if e.cmd == "" then Returned(Success, e)
    else if e.cmd !in e.enumerated then Returned(UnknownCommand, e)
    else
      var c := e.cmds[e.cmd];
      match Bind(c.syntax, e.args, e.env)
      case Refused(code) => Returned(code, e)
      case Thrown => Threw(e)
      case Mapped(m) =>
        var (code, ctx) := c.action(m, Ctx(e.env, e.line));
        Returned(code, e.(env := ctx.env, line := ctx.line))
  }

  /** The handler runs exactly when the check maps, with the mapped
      arguments, the variables and the cursor; a refusal returns its code
      and leaves the engine as it was. */
  lemma ExecuteBinds(e: Engine)
    requires Wf(e) && e.cmd != "" && e.cmd in e.enumerated
    ensures var c := e.cmds[e.cmd];
            match Bind(c.syntax, e.args, e.env)
            case Refused(code) => Execute(e) == Returned(code, e) && code in {WrongType, TooMany, TooFew, UnknownVariable}
            case Thrown => Execute(e) == Threw(e)
            case Mapped(m) =>
              var (code, ctx) := c.action(m, Ctx(e.env, e.line));
              Execute(e) == Returned(code, e.(env := ctx.env, line := ctx.line))
  {
    var c := e.cmds[e.cmd];
    RefusalCodes(c.syntax, e.args, e.env);
  }

  /** A command registered with `enumerated: false` is unknown to `execute`
      unless its name was listed before. */
  lemma HiddenCommandIsUnknown(e: Engine, c: Config, args: seq<Value>)
    requires Wf(e) && c.enumerated == Some(false) && Upper(c.name) !in e.enumerated && c.name != ""
    ensures var r := RegisterCommand(e, c).(cmd := Upper(c.name), args := args);
            Execute(r) == Returned(UnknownCommand, r)
  {
  }

  /** Arguments the tokenizer produced never make the check throw: a
      variable's payload is always its text. */
  lemma ProducedNeverThrows(types: seq<TypeRule>, syntax: seq<string>, args: seq<Value>, env: Env)
    requires forall i :: 0 <= i < |args| ==> Produced(types, args[i])
    ensures Bind(syntax, args, env) != Thrown
  {
    forall j | 0 <= j < Stop(syntax, args)
      ensures SlotAt(syntax, args, env, j) != Throw
    {
      if j < |syntax| && j < |args| {
        assert Produced(types, args[j]);
      }
    }
    BindFromStops(syntax, args, env, 0);
  }

  /** One turn of `manage`: interpret the line under the cursor, moving the
      cursor past it first, then execute it if it parsed. */
  function Turn(e: Engine): (r: Outcome)
    requires Wf(e) && e.line < |e.batch|
    ensures Wf(r.e)
    ensures r.e.batch == e.batch && r.e.cmds == e.cmds && r.e.enumerated == e.enumerated
    ensures r.e.types == e.types && r.e.done == e.done
  {
    var (code, e1) := InterpretLine(e.(line := e.line + 1), e.batch[e.line]);
    if code != Success then Returned(code, e1) else Execute(e1)
  }

  /** A line naming a listed command whose arguments pass the check runs
      the handler with the cursor already past that line; the turn returns
      the handler's code with the variables and the cursor it leaves. */
  lemma HandlerTurn(e: Engine, n: string, a: seq<Value>, m: seq<Value>)
    requires Wf(e) && e.line < |e.batch| && Interpret(e.types, e.batch[e.line]) == Parsed(Success, n, a)
    requires n != "" && n in e.enumerated && Bind(e.cmds[n].syntax, a, e.env) == Mapped(m)
    ensures var (code, ctx) := e.cmds[n].action(m, Ctx(e.env, e.line + 1));
            Turn(e) == Returned(code, e.(line := ctx.line, env := ctx.env, cmd := n, args := a))
  {
  }

  /** A turn never throws. */
  lemma TurnNeverThrows(e: Engine)
    requires Wf(e) && e.line < |e.batch|
    ensures Turn(e).Returned?
  {
    var (code, e1) := InterpretLine(e.(line := e.line + 1), e.batch[e.line]);
    if code == Success && e1.cmd != "" && e1.cmd in e1.enumerated {
      ProducedNeverThrows(e1.types, e1.cmds[e1.cmd].syntax, e1.args, e1.env);
    }
  }

  /** What `manage` ends with: its code and the engine, a throw out of
      `execute`, or the fuel ran out with lines still to run. */
  datatype Managed = Finished(code: int, e: Engine) | Crashed(e: Engine) | OutOfFuel

  /** `manage()`, running at most `fuel` lines. The cursor moves past a
      line before the line runs, so a handler that sets it jumps. The
      batch, the commands, the registry and `done` stay as they are while
      a batch runs; a run that finishes with 0 has moved the cursor to the
      end. */
  function Manage(e: Engine, fuel: nat): (r: Managed)
    requires Wf(e)
    ensures !r.OutOfFuel? ==>
              && r.e.batch == e.batch && r.e.cmds == e.cmds && r.e.enumerated == e.enumerated
              && r.e.types == e.types && r.e.done == e.done
              && (r.Finished? && r.code == Success ==> r.e.line >= |e.batch|)
    decreases fuel
  {
    if e.line >= |e.batch| then Finished(Success, e)
    else if fuel == 0 then OutOfFuel
    else match Turn(e)
      case Threw(e2) => Crashed(e2)
      case Returned(c, e2) => if c != Success then Finished(c, e2) else Manage(e2, fuel - 1)
  }

  /** A turn that returns 0 hands the rest of the run to the engine it left. */
  lemma ManageAfterTurn(e: Engine, fuel: nat, e2: Engine)
    requires Wf(e) && e.line < |e.batch| && fuel > 0 && Turn(e) == Returned(Success, e2)
    ensures Wf(e2) && Manage(e, fuel) == Manage(e2, fuel - 1)
  {
  }

  /** A turn that returns a non-zero code ends the run with it. */
  lemma ManageStopsAfterTurn(e: Engine, fuel: nat, c: int, e2: Engine)
    requires Wf(e) && e.line < |e.batch| && fuel > 0 && Turn(e) == Returned(c, e2) && c != Success
    ensures Manage(e, fuel) == Finished(c, e2)
  {
  }

  /** More fuel does not change a run that finished or crashed. */
  lemma {:induction false} FuelMonotone(e: Engine, fuel: nat, more: nat)
    requires Wf(e) && fuel <= more && !Manage(e, fuel).OutOfFuel?
    ensures Manage(e, more) == Manage(e, fuel)
    decreases fuel
  {
    if e.line < |e.batch| {
      var x := Turn(e);
      if x.Returned? && x.code == Success {
        FuelMonotone(x.e, fuel - 1, more - 1);
      }
    }
  }

  /** `manage` never ends in a throw: every argument it checks came from
      `interpret`. */
  lemma {:induction false} ManageNeverCrashes(e: Engine, fuel: nat)
    requires Wf(e)
    ensures !Manage(e, fuel).Crashed?
    decreases fuel
  {
    if e.line < |e.batch| && fuel > 0 {
      TurnNeverThrows(e);
      var x := Turn(e);
      if x.code == Success {
        ManageNeverCrashes(x.e, fuel - 1);
      }
    }
  }

  /** What `runBatch` and `runLine` lead to: refused because the engine is
      busy; `onerror` called with a code and the engine idle again; a throw
      that leaves `done` false for good; or still running when the fuel ran out. */
  datatype Reply = Busy | Reported(code: int, e: Engine) | Stuck(e: Engine) | Pending

  /** `runBatch(cmds)`, with the promise it starts run to completion. */
  function RunBatch(e: Engine, cmds: seq<string>, fuel: nat): (r: Reply)
    requires Wf(e)
    ensures r.Busy? <==> !e.done
    ensures r.Reported? ==> r.e.done && r.e.batch == cmds
    ensures r.Stuck? ==> !r.e.done
  {
    if !e.done then Busy
    else
      var e1 := e.(batch := cmds, line := 0, done := false);
      match Manage(e1, fuel)
      case Finished(code, e2) => Reported(code, e2.(done := true))
      case Crashed(e2) => Stuck(e2)
      case OutOfFuel => Pending
  }

  /** `runLine(line)`. */
  function RunLine(e: Engine, line: string): (r: Reply)
    requires Wf(e)
    ensures r.Busy? <==> !e.done
    ensures r.Reported? ==> r.e.done && r.e.batch == e.batch
    ensures r.Stuck? ==> !r.e.done
    ensures !r.Pending?
  {
    if !e.done then Busy
    else
      var (code, e1) := InterpretLine(e.(done := false), line);
      if code != Success then Reported(code, e1.(done := true))
      else match Execute(e1)
        case Threw(e2) => Stuck(e2)
        case Returned(c, e2) => Reported(c, e2.(done := true))
  }

  /** Neither entry point ever leaves the engine stuck. */
  lemma NeverStuck(e: Engine, cmds: seq<string>, line: string, fuel: nat)
    requires Wf(e)
    ensures !RunBatch(e, cmds, fuel).Stuck? && !RunLine(e, line).Stuck?
  {
    ManageNeverCrashes(e.(batch := cmds, line := 0, done := false), fuel);
    var (code, e1) := InterpretLine(e.(done := false), line);
    if code == Success && e1.cmd != "" && e1.cmd in e1.enumerated {
      ProducedNeverThrows(e1.types, e1.cmds[e1.cmd].syntax, e1.args, e1.env);
    }
  }

  /** An empty batch reports 0 at once, whatever the fuel, and runs no
      handler. */
  lemma EmptyBatch(e: Engine, fuel: nat)
    requires Wf(e) && e.done
    ensures RunBatch(e, [], fuel) == Reported(Success, e.(batch := [], line := 0))
  {
  }

  /** The messages of `getErrorDescription`, indexed by code. */
  const Descriptions: seq<string> := [
    "No errors were found.",
    "Thrown error.",
    "Unexpected argument type.",
    "Too many arguments provided.",
    "Too few arguments provided.",
    "Unknown type; perhaps you forgot a space?",
    "Unclosed argument; make sure strings, arrays, etc. have a closing mark.",
    "Syntax Error.",
    "No errors were found",
    "Unknown command; make sure you spelled it correctly.",
    "Unknown variable; make sure you spelled it correctly and the variable is defined.",
    "Unknown type; value could not be parsed."]

  /** `getErrorDescription(code)`; `None` for the codes the switch has no case for. */
  function Describe(code: int): (r: Option<string>)
    ensures r.Some? <==> 0 <= code <= 0xB
    ensures r.Some? ==> r.value == Descriptions[code]
  {
    if 0 <= code < |Descriptions| then Some(Descriptions[code]) else None
  }

  /** Every code `interpret` and the argument check produce has a
      description, and none of them is 0x6. */
  lemma CodesDescribed(types: seq<TypeRule>, line: string, syntax: seq<string>, args: seq<Value>, env: Env)
    ensures var c := Interpret(types, line).code; Describe(c).Some? && c != 0x6
    ensures Bind(syntax, args, env).Refused? ==>
              var c := Bind(syntax, args, env).code; Describe(c).Some? && c != 0x6
  {
    RefusalCodes(syntax, args, env);
  }
}
