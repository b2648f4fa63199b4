/** `env_vars` and its accessors `exists`, `setvar` and `getvar`: a map
    whose keys are the upper-cased variable names. */
module Environment {
  import opened Common
  import opened Text
  import opened Types

  type Env = map<string, Value>

  /** `exists(name)`. */
  predicate Exists(env: Env, name: string) {
    Upper(name) in env
  }

  /** `setvar(name, value, type)`: a fresh `Value` without a literal under
      the upper-cased name. */
  function Setvar(env: Env, name: string, val: Datum, tag: string): (r: Env)
    ensures r.Keys == env.Keys + {Upper(name)}
  {
    env[Upper(name) := Value(val, tag, None)]
  }

  /** `getvar(name)`; `None` stands for `undefined`. */
  function Getvar(env: Env, name: string): (r: Option<Value>)
    ensures r.Some? <==> Exists(env, name)
  {
    if Upper(name) in env then Some(env[Upper(name)]) else None
  }

  /** Upper-casing twice is upper-casing once. */
  lemma UpperTwice(s: string)
    ensures Upper(Upper(s)) == Upper(s)
  {
    assert forall i :: 0 <= i < |s| ==> UpperChar(UpperChar(s[i])) == UpperChar(s[i]);
  }

  /** A name and its upper-cased form denote the same variable. */
  lemma CaseInsensitive(env: Env, name: string)
    ensures Exists(env, name) <==> Exists(env, Upper(name))
    ensures Getvar(env, name) == Getvar(env, Upper(name))
  {
    UpperTwice(name);
  }

  /** After `setvar(m, v, t)`, every name that upper-cases like `m` exists
      and reads back `Value(v, t)`. */
  lemma SetThenGet(env: Env, m: string, n: string, val: Datum, tag: string)
    requires Upper(m) == Upper(n)
    ensures Exists(Setvar(env, m, val, tag), n)
    ensures Getvar(Setvar(env, m, val, tag), n) == Some(Value(val, tag, None))
  {
  }

  /** `setvar` leaves every other variable as it was, present or absent. */
  lemma SetLeavesOthers(env: Env, m: string, n: string, val: Datum, tag: string)
    requires Upper(m) != Upper(n)
    ensures Exists(Setvar(env, m, val, tag), n) <==> Exists(env, n)
    ensures Getvar(Setvar(env, m, val, tag), n) == Getvar(env, n)
  {
  }

  /** A second `setvar` of the same variable replaces the first. */
  lemma SetTwice(env: Env, m: string, n: string, v1: Datum, t1: string, v2: Datum, t2: string)
    requires Upper(m) == Upper(n)
    ensures Setvar(Setvar(env, m, v1, t1), n, v2, t2) == Setvar(env, n, v2, t2)
  {
  }
}
