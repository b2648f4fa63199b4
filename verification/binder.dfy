/** The argument check of `execute`: each position of the declared syntax
    against the argument at that position, with `?` for an optional
    parameter, `|` for a union of type names, `any` for every type, and a
    `variable` argument replaced by the stored value it names. */
module Binder {
  import opened Common
  import opened Text
  import opened Types
  import opened Environment

  const WrongType := 0x2
  const TooMany := 0x3
  const TooFew := 0x4
  const UnknownVariable := 0xA

  /** What one position of the loop does: skip an absent optional
      parameter, pass a value on to the handler, fail with a code, or throw. */
  datatype Slot = Skip | Take(v: Value) | Fail(code: int) | Throw

  /** A syntax entry that starts with `?` is optional. */
  predicate IsOptional(entry: string) {
    |entry| > 0 && entry[0] == '?'
  }

  /** The type names an entry accepts: the entry without its `?`, split on `|`. */
  function Union(entry: string): (u: seq<string>)
    ensures |u| >= 1
  {
    Split(if IsOptional(entry) then entry[1..] else entry, '|')
  }

  /** Does a type name satisfy a union? `any` satisfies every union. */
  predicate Admits(u: seq<string>, tag: string) {
    tag in u || AnyTag in u
  }

  /** The check of a present argument against a union, with the stored
      value handed on where the source means to (`this.env_vars[id]`).
      Upper-casing a payload that is not a string throws. */
  function Check(u: seq<string>, arg: Value, env: Env): (r: Slot)
    ensures r.Take? ==> Admits(u, r.v.tag)
    ensures r.Fail? ==> r.code in {WrongType, UnknownVariable}
  {
    if arg.tag == Name(VariableType) && Name(VariableType) !in u then
      if !arg.val.Str? then Throw
      else
        var id := Upper(arg.val.s);
        if id !in env then Fail(UnknownVariable)
        else if !Admits(u, env[id].tag) then Fail(WrongType)
        else Take(env[id])
    else if AnyTag in u then Take(arg)
    else if arg.tag in u then Take(arg)
    else Fail(WrongType)
  }

  /** `Check` as written: on the substitution path the source reads the
      undeclared name `env_vars`, which throws a ReferenceError. */
  function CheckAsWritten(u: seq<string>, arg: Value, env: Env): (r: Slot)
    ensures r.Take? ==> r.v == arg && Admits(u, arg.tag)
    ensures r.Fail? ==> r.code in {WrongType, UnknownVariable}
  {
    if arg.tag == Name(VariableType) && Name(VariableType) !in u then
      if !arg.val.Str? then Throw
      else
        var id := Upper(arg.val.s);
        if id !in env then Fail(UnknownVariable)
        else if !Admits(u, env[id].tag) then Fail(WrongType)
        else Throw
    else if AnyTag in u then Take(arg)
    else if arg.tag in u then Take(arg)
    else Fail(WrongType)
  }

  /** As written, a variable that reaches the substitution path never
      reaches the handler; the intended check hands the stored value on. */
  lemma SubstitutionThrows(u: seq<string>, arg: Value, env: Env)
    requires arg.tag == Name(VariableType) && Name(VariableType) !in u && arg.val.Str?
    requires Upper(arg.val.s) in env && Admits(u, env[Upper(arg.val.s)].tag)
    ensures CheckAsWritten(u, arg, env) == Throw
    ensures Check(u, arg, env) == Take(env[Upper(arg.val.s)])
  {
  }

  /** Everywhere off the substitution path the two agree. */
  lemma AsWrittenElsewhereAgrees(u: seq<string>, arg: Value, env: Env)
    requires CheckAsWritten(u, arg, env) != Throw || !arg.val.Str?
    ensures CheckAsWritten(u, arg, env) == Check(u, arg, env)
  {
  }

  /** The number of positions the loop visits: `Math.max` of the syntax
      length and the argument count. */
  function Stop(syntax: seq<string>, args: seq<Value>): nat {
    if |syntax| >= |args| then |syntax| else |args|
  }

  /** Position `i` of the loop. */
  function SlotAt(syntax: seq<string>, args: seq<Value>, env: Env, i: nat): (r: Slot)
    requires i < Stop(syntax, args)
    ensures r.Skip? <==> i < |syntax| && IsOptional(syntax[i]) && i >= |args|
    ensures r.Take? ==> i < |syntax| && i < |args|
  {
    if i >= |syntax| then Fail(TooMany)
    else if i >= |args| then (if IsOptional(syntax[i]) then Skip else Fail(TooFew))
    else Check(Union(syntax[i]), args[i], env)
  }

  /** What the loop of `execute` decides. */
  datatype Binding = Mapped(args: seq<Value>) | Refused(code: int) | Thrown

  /** The loop of `execute` from position `i` on. */
  function BindFrom(syntax: seq<string>, args: seq<Value>, env: Env, i: nat): (r: Binding)
    requires i <= Stop(syntax, args)
    ensures r.Refused? ==> r.code in {WrongType, TooMany, TooFew, UnknownVariable}
    ensures r.Mapped? ==> |r.args| == if i <= |args| then |args| - i else 0
    decreases Stop(syntax, args) - i
  {
    if i == Stop(syntax, args) then Mapped([])
    else match SlotAt(syntax, args, env, i)
      case Skip => BindFrom(syntax, args, env, i + 1)
      case Take(v) =>
        (match BindFrom(syntax, args, env, i + 1)
         case Mapped(m) => Mapped([v] + m)
         case other => other)
      case Fail(c) => Refused(c)
      case Throw => Thrown
  }

  /** `execute`'s check of the arguments against a command's syntax. */
  function Bind(syntax: seq<string>, args: seq<Value>, env: Env): (r: Binding)
    ensures r.Refused? ==> r.code in {WrongType, TooMany, TooFew, UnknownVariable}
    ensures r.Mapped? ==> |r.args| == |args|
  {
    BindFrom(syntax, args, env, 0)
  }

  /** A position that lets the loop go on. */
  predicate Passes(s: Slot) {
    s.Skip? || s.Take?
  }

  /** What the loop returns at a position that does not pass. */
  function Stopped(s: Slot): Binding
    requires !Passes(s)
  {
    if s.Fail? then Refused(s.code) else Thrown
  }

  /** The loop from `i` maps exactly when every remaining position passes,
      and then hands on the taken value of each argument from `i` on. */
  lemma {:induction false} BindFromMapped(syntax: seq<string>, args: seq<Value>, env: Env, i: nat)
    requires i <= Stop(syntax, args)
    ensures var r := BindFrom(syntax, args, env, i);
            && (r.Mapped? <==> forall j :: i <= j < Stop(syntax, args) ==> Passes(SlotAt(syntax, args, env, j)))
            && (r.Mapped? ==> (|r.args| == (if i <= |args| then |args| - i else 0) &&
                               forall j :: i <= j < |args| ==> SlotAt(syntax, args, env, j) == Take(r.args[j - i])))
    decreases Stop(syntax, args) - i
  {
    if i < Stop(syntax, args) {
      BindFromMapped(syntax, args, env, i + 1);
      var s := SlotAt(syntax, args, env, i);
      var rest := BindFrom(syntax, args, env, i + 1);
      if s.Take? && rest.Mapped? {
        var m := [s.v] + rest.args;
        forall j | i <= j < |args|
          ensures SlotAt(syntax, args, env, j) == Take(m[j - i])
        {
          if j > i {
            assert m[j - i] == rest.args[j - (i + 1)];
          }
        }
      }
    }
  }

  /** The loop from `i`, when it does not map, returns what the first
      position that does not pass returns. */
  lemma {:induction false} BindFromStops(syntax: seq<string>, args: seq<Value>, env: Env, i: nat)
    requires i <= Stop(syntax, args)
    ensures var r := BindFrom(syntax, args, env, i);
            !r.Mapped? ==> exists j :: i <= j < Stop(syntax, args) && !Passes(SlotAt(syntax, args, env, j)) &&
                             r == Stopped(SlotAt(syntax, args, env, j)) &&
                             forall k :: i <= k < j ==> Passes(SlotAt(syntax, args, env, k))
    decreases Stop(syntax, args) - i
  {
    if i < Stop(syntax, args) {
      BindFromStops(syntax, args, env, i + 1);
    }
  }

  /** Positions that pass up to a first failing one: the loop returns what
      that position returns. */
  lemma {:induction false} FirstStopFrom(syntax: seq<string>, args: seq<Value>, env: Env, i: nat, j: nat)
    requires i <= j < Stop(syntax, args) && !Passes(SlotAt(syntax, args, env, j))
    requires forall k :: i <= k < j ==> Passes(SlotAt(syntax, args, env, k))
    ensures BindFrom(syntax, args, env, i) == Stopped(SlotAt(syntax, args, env, j))
    decreases j - i
  {
    if i < j {
      FirstStopFrom(syntax, args, env, i + 1, j);
    }
  }

  /** The handler receives one value per argument exactly when the check
      maps: every argument position passes the check and every syntax
      position without an argument is optional. */
  lemma BindSpec(syntax: seq<string>, args: seq<Value>, env: Env)
    ensures var r := Bind(syntax, args, env);
            && (r.Mapped? <==> (|args| <= |syntax| &&
                                (forall j :: |args| <= j < |syntax| ==> IsOptional(syntax[j])) &&
                                (forall j :: 0 <= j < |args| ==> Check(Union(syntax[j]), args[j], env).Take?)))
            && (r.Mapped? ==> (|r.args| == |args| &&
                               forall j :: 0 <= j < |args| ==> Check(Union(syntax[j]), args[j], env) == Take(r.args[j])))
  {
    BindFromMapped(syntax, args, env, 0);
    var r := Bind(syntax, args, env);
    var n := Stop(syntax, args);
    if |args| <= |syntax| && (forall j :: |args| <= j < |syntax| ==> IsOptional(syntax[j])) &&
       (forall j :: 0 <= j < |args| ==> Check(Union(syntax[j]), args[j], env).Take?) {
      forall j | 0 <= j < n
        ensures Passes(SlotAt(syntax, args, env, j))
      {
        if j >= |args| {
          assert IsOptional(syntax[j]);
        }
      }
    }
    if r.Mapped? {
      assert |syntax| < Stop(syntax, args) ==> !Passes(SlotAt(syntax, args, env, |syntax|));
      forall j | |args| <= j < |syntax|
        ensures IsOptional(syntax[j])
      {
        assert Passes(SlotAt(syntax, args, env, j));
      }
      forall j | 0 <= j < |args|
        ensures Check(Union(syntax[j]), args[j], env) == Take(r.args[j])
      {
        assert SlotAt(syntax, args, env, j) == Take(r.args[j - 0]);
      }
    }
  }

  /** Every code the check refuses with is one of 0x2, 0x3, 0x4 and 0xA. */
  lemma RefusalCodes(syntax: seq<string>, args: seq<Value>, env: Env)
    ensures Bind(syntax, args, env).Refused? ==> Bind(syntax, args, env).code in {WrongType, TooMany, TooFew, UnknownVariable}
  {
    BindFromStops(syntax, args, env, 0);
  }

  /** More arguments than syntax entries is refused with 0x3 unless an
      earlier position has already failed. */
  lemma TooManyArguments(syntax: seq<string>, args: seq<Value>, env: Env)
    requires |args| > |syntax|
    requires forall j :: 0 <= j < |syntax| ==> Check(Union(syntax[j]), args[j], env).Take?
    ensures Bind(syntax, args, env) == Refused(TooMany)
  {
    forall k | 0 <= k < |syntax|
      ensures Passes(SlotAt(syntax, args, env, k))
    {
      assert SlotAt(syntax, args, env, k) == Check(Union(syntax[k]), args[k], env);
    }
    FirstStopFrom(syntax, args, env, 0, |syntax|);
  }

  /** A missing required parameter is refused with 0x4 unless an earlier
      position has already failed. */
  lemma MissingRequired(syntax: seq<string>, args: seq<Value>, env: Env, i: nat)
    requires |args| <= i < |syntax| && !IsOptional(syntax[i])
    requires forall j :: 0 <= j < |args| ==> Check(Union(syntax[j]), args[j], env).Take?
    requires forall j :: |args| <= j < i ==> IsOptional(syntax[j])
    ensures Bind(syntax, args, env) == Refused(TooFew)
  {
    forall k | 0 <= k < i
      ensures Passes(SlotAt(syntax, args, env, k))
    {
      if k < |args| {
        assert SlotAt(syntax, args, env, k) == Check(Union(syntax[k]), args[k], env);
      }
    }
    FirstStopFrom(syntax, args, env, 0, i);
  }

  /** A present argument is taken as it is when its own type is in the
      union or the union has `any`, unless it is a variable for a union
      without `variable`; otherwise a non-variable is refused with 0x2. */
  lemma CheckDirect(u: seq<string>, arg: Value, env: Env)
    requires arg.tag != Name(VariableType) || Name(VariableType) in u
    ensures Admits(u, arg.tag) ==> Check(u, arg, env) == Take(arg)
    ensures !Admits(u, arg.tag) ==> Check(u, arg, env) == Fail(WrongType)
  {
  }

  /** A variable for a union without `variable` is looked up under its
      upper-cased text, `$` included: absent gives 0xA, a stored type the
      union does not admit gives 0x2, otherwise the stored value is taken. */
  lemma CheckVariable(u: seq<string>, arg: Value, env: Env)
    requires arg.tag == Name(VariableType) && Name(VariableType) !in u && arg.val.Str?
    ensures Upper(arg.val.s) !in env ==> Check(u, arg, env) == Fail(UnknownVariable)
    ensures Upper(arg.val.s) in env && !Admits(u, env[Upper(arg.val.s)].tag) ==> Check(u, arg, env) == Fail(WrongType)
    ensures Upper(arg.val.s) in env && Admits(u, env[Upper(arg.val.s)].tag) ==> Check(u, arg, env) == Take(env[Upper(arg.val.s)])
  {
  }

  /** `setvar("x", …)` stores under `X`, but the argument `$x` is looked up
      under `$X`: unless `$X` is itself set, the variable is unknown. */
  lemma DollarKeyMisses(env: Env, name: string, val: Datum, tag: string, u: seq<string>, lit: Option<string>)
    requires Name(VariableType) !in u && "$" + Upper(name) !in env
    ensures Check(u, Value(Str("$" + name), Name(VariableType), lit), Setvar(env, name, val, tag)) == Fail(UnknownVariable)
  {
    var key := Upper("$" + name);
    assert key == "$" + Upper(name) by {
      assert forall i :: 0 <= i < |key| ==> key[i] == ("$" + Upper(name))[i];
    }
    assert |key| != |Upper(name)|;
  }
}
