/** The type registry (`valid_types`) and `typedef`, which inserts a rule
    by priority. A rule with a negative priority is appended; a rule with a
    priority p >= 0 belongs in front of the first entry whose priority is
    at most p, so that higher priorities are tried first. The source
    inserts one place too early; `TypedefAsWritten` keeps that behaviour and
    `Typedef` is the corrected insertion the engine uses. */
module Registry {
  import opened Common
  import opened Types

  /** The index of the first entry whose priority is at most `p`, or `|reg|`. */
  function FirstNotAbove(reg: seq<TypeRule>, p: int): (i: nat)
    ensures i <= |reg|
    ensures forall j :: 0 <= j < i ==> reg[j].priority > p
    ensures i < |reg| ==> reg[i].priority <= p
    decreases |reg|
  {
    if reg == [] || reg[0].priority <= p then 0 else 1 + FirstNotAbove(reg[1..], p)
  }

  /** `Array.prototype.splice(start, 0, t)` for `0 <= start <= |reg|`. */
  function InsertAt(reg: seq<TypeRule>, start: nat, t: TypeRule): (r: seq<TypeRule>)
    requires start <= |reg|
    ensures |r| == |reg| + 1 && r[start] == t
    ensures r[..start] == reg[..start] && r[start + 1..] == reg[start..]
  {
    reg[..start] + [t] + reg[start..]
  }

  /** `typedef` exactly as the source has it: the priority branch calls
      `splice(i - 1, 0, type)`, and for `i == 0` the start -1 counts from
      the end, so the rule lands before the last entry. */
  function TypedefAsWritten(reg: seq<TypeRule>, t: TypeRule): (r: seq<TypeRule>)
    ensures exists p :: 0 <= p <= |reg| && r == reg[..p] + [t] + reg[p..]
    ensures t.priority < 0 ==> r == reg + [t]
    ensures t.priority >= 0 && FirstNotAbove(reg, t.priority) == |reg| ==> r == reg + [t]
    ensures t.priority >= 0 && 0 < FirstNotAbove(reg, t.priority) < |reg| ==>
              r[FirstNotAbove(reg, t.priority) - 1] == t
    ensures t.priority >= 0 && 0 < FirstNotAbove(reg, t.priority) < |reg| ==>
              var i := FirstNotAbove(reg, t.priority); r == reg[..i - 1] + [t] + reg[i - 1..]
    ensures t.priority >= 0 && |reg| > 0 && FirstNotAbove(reg, t.priority) == 0 ==>
              r == reg[..|reg| - 1] + [t] + reg[|reg| - 1..]
  {
    var i := FirstNotAbove(reg, t.priority);
    var start := if t.priority < 0 || i == |reg| then |reg| else if i == 0 then |reg| - 1 else i - 1;
    assert reg[..|reg|] == reg && reg[|reg|..] == [];
    InsertAt(reg, start, t)
  }

  /** `typedef` with the insertion at the found index. */
  function Typedef(reg: seq<TypeRule>, t: TypeRule): (r: seq<TypeRule>)
    ensures t.priority < 0 ==> r == reg + [t]
    ensures t.priority >= 0 ==>
              exists p :: 0 <= p <= |reg| && r == reg[..p] + [t] + reg[p..] &&
                          (forall j :: 0 <= j < p ==> reg[j].priority > t.priority) &&
                          (p < |reg| ==> reg[p].priority <= t.priority)
  {
    var p := if t.priority < 0 then |reg| else FirstNotAbove(reg, t.priority);
    assert reg[..|reg|] == reg && reg[|reg|..] == [];
    InsertAt(reg, p, t)
  }

  /** Entries with a non-negative priority come first, by non-increasing
      priority; the negative ones follow. */
  ghost predicate Ordered(reg: seq<TypeRule>) {
    forall i, j :: 0 <= i < j < |reg| && reg[j].priority >= 0 ==> reg[i].priority >= reg[j].priority
  }

  lemma AfterFirstNotAbove(reg: seq<TypeRule>, p: int)
    requires Ordered(reg) && p >= 0
    ensures forall j :: FirstNotAbove(reg, p) <= j < |reg| ==> reg[j].priority <= p
  {
    var i := FirstNotAbove(reg, p);
    forall j | i <= j < |reg|
      ensures reg[j].priority <= p
    {
      if j > i && reg[j].priority >= 0 {
        assert reg[i].priority >= reg[j].priority;
      }
    }
  }

  /** Inserting between the entries it may follow and those it may precede
      keeps a registry ordered. */
  lemma InsertKeepsOrder(reg: seq<TypeRule>, p: nat, t: TypeRule)
    requires Ordered(reg) && p <= |reg|
    requires t.priority >= 0 ==> forall j :: 0 <= j < p ==> reg[j].priority >= t.priority
    requires forall j :: p <= j < |reg| && reg[j].priority >= 0 ==> t.priority >= reg[j].priority
    ensures Ordered(InsertAt(reg, p, t))
  {
    var r := InsertAt(reg, p, t);
    assert forall k :: 0 <= k < p ==> r[k] == reg[k];
    assert forall k :: p < k < |r| ==> r[k] == reg[k - 1];
    forall i, j | 0 <= i < j < |r| && r[j].priority >= 0
      ensures r[i].priority >= r[j].priority
    {
      if j < p {
        assert r[i] == reg[i] && r[j] == reg[j];
      } else if j == p {
        assert r[i] == reg[i];
      } else if i == p {
        assert r[j] == reg[j - 1];
      } else if i < p {
        assert r[i] == reg[i] && r[j] == reg[j - 1];
      } else {
        assert r[i] == reg[i - 1] && r[j] == reg[j - 1];
      }
    }
  }

  /** The corrected `typedef` keeps the registry ordered. */
  lemma TypedefKeepsOrder(reg: seq<TypeRule>, t: TypeRule)
    requires Ordered(reg)
    ensures Ordered(Typedef(reg, t))
  {
    if t.priority >= 0 {
      var p := FirstNotAbove(reg, t.priority);
      AfterFirstNotAbove(reg, t.priority);
      InsertKeepsOrder(reg, p, t);
      assert Typedef(reg, t) == InsertAt(reg, p, t);
    } else {
      InsertKeepsOrder(reg, |reg|, t);
      assert Typedef(reg, t) == InsertAt(reg, |reg|, t);
    }
  }

  /** In an ordered registry the corrected `typedef` puts a rule with
      priority p >= 0 behind exactly the entries whose priority exceeds p. */
  lemma TypedefPosition(reg: seq<TypeRule>, t: TypeRule)
    requires Ordered(reg) && t.priority >= 0
    ensures exists p :: 0 <= p <= |reg| && Typedef(reg, t) == reg[..p] + [t] + reg[p..] &&
                        (forall j :: 0 <= j < p ==> reg[j].priority > t.priority) &&
                        (forall j :: p <= j < |reg| ==> reg[j].priority <= t.priority)
  {
    var p := FirstNotAbove(reg, t.priority);
    AfterFirstNotAbove(reg, t.priority);
    assert Typedef(reg, t) == reg[..p] + [t] + reg[p..];
  }

  /** The registry of a new engine: the built-in rules with the default
      priority -1, tried in the order number, bool, symbol, string, variable. */
  const DefaultTypes: seq<TypeRule> := [
    TypeRule(NumberType, -1), TypeRule(BoolType, -1), TypeRule(SymbolType, -1),
    TypeRule(StringType, -1), TypeRule(VariableType, -1)
  ]

  /** Ties go to the newest rule: the search stops at the first entry whose
      priority is not above the new one, an equal one included, so a rule
      with priority p >= 0 lands in front of every rule already registered
      with priority p, whether or not the registry is ordered. */
  lemma TypedefTiesNewestFirst(reg: seq<TypeRule>, t: TypeRule)
    requires t.priority >= 0
    ensures var r := Typedef(reg, t);
            var p := FirstNotAbove(reg, t.priority);
            r[p] == t &&
            forall j :: 0 <= j < |reg| && reg[j].priority == t.priority ==> p <= j && r[j + 1] == reg[j]
  {
    var p := FirstNotAbove(reg, t.priority);
    assert Typedef(reg, t) == InsertAt(reg, p, t);
    forall j | 0 <= j < |reg| && reg[j].priority == t.priority
      ensures p <= j && Typedef(reg, t)[j + 1] == reg[j]
    {
      assert InsertAt(reg, p, t)[p + 1..] == reg[p..];
      assert InsertAt(reg, p, t)[j + 1] == InsertAt(reg, p, t)[p + 1..][j - p];
    }
  }

  /** The constructor's five `typedef` calls, each of a rule with the
      default priority, append in call order and so build `DefaultTypes`. */
  lemma ConstructorRegistry()
    ensures var r1 := Typedef([], NewType(NumberType, None));
            var r2 := Typedef(r1, NewType(BoolType, None));
            var r3 := Typedef(r2, NewType(SymbolType, None));
            var r4 := Typedef(r3, NewType(StringType, None));
            Typedef(r4, NewType(VariableType, None)) == DefaultTypes
  {
    var r1 := Typedef([], NewType(NumberType, None));
    assert r1 == [TypeRule(NumberType, -1)];
    var r2 := Typedef(r1, NewType(BoolType, None));
    assert r2 == r1 + [TypeRule(BoolType, -1)];
    var r3 := Typedef(r2, NewType(SymbolType, None));
    assert r3 == r2 + [TypeRule(SymbolType, -1)];
    var r4 := Typedef(r3, NewType(StringType, None));
    assert r4 == r3 + [TypeRule(StringType, -1)];
    assert Typedef(r4, NewType(VariableType, None)) == r4 + [TypeRule(VariableType, -1)];
  }

  /** The one-place-early insertion only affects rules with a priority:
      for a negative priority the source's `typedef` and the corrected one
      agree, both appending. */
  lemma AsWrittenNegativeAgrees(reg: seq<TypeRule>, t: TypeRule)
    requires t.priority < 0
    ensures TypedefAsWritten(reg, t) == Typedef(reg, t) == reg + [t]
  {}

  /** The constructor's five `typedef` calls, run through `typedef` as the
      source writes it, build `DefaultTypes` too, so the corrected registry
      of a new engine is the one the source builds. */
  lemma ConstructorAsWritten()
    ensures var r1 := TypedefAsWritten([], NewType(NumberType, None));
            var r2 := TypedefAsWritten(r1, NewType(BoolType, None));
            var r3 := TypedefAsWritten(r2, NewType(SymbolType, None));
            var r4 := TypedefAsWritten(r3, NewType(StringType, None));
            TypedefAsWritten(r4, NewType(VariableType, None)) == DefaultTypes
  {
    var r1 := TypedefAsWritten([], NewType(NumberType, None));
    assert r1 == [TypeRule(NumberType, -1)];
    var r2 := TypedefAsWritten(r1, NewType(BoolType, None));
    assert r2 == r1 + [TypeRule(BoolType, -1)];
    var r3 := TypedefAsWritten(r2, NewType(SymbolType, None));
    assert r3 == r2 + [TypeRule(SymbolType, -1)];
    var r4 := TypedefAsWritten(r3, NewType(StringType, None));
    assert r4 == r3 + [TypeRule(StringType, -1)];
    assert TypedefAsWritten(r4, NewType(VariableType, None)) == r4 + [TypeRule(VariableType, -1)];
  }

  /** As written, registering a priority-0 rule into the default registry
      puts it fifth of six, behind number, bool, symbol and string and just
      before variable, where the corrected insertion puts it first. */
  lemma AsWrittenPriorityLandsLate()
    ensures TypedefAsWritten(DefaultTypes, TypeRule(StringType, 0))[4] == TypeRule(StringType, 0)
    ensures TypedefAsWritten(DefaultTypes, TypeRule(StringType, 0))[0] == TypeRule(NumberType, -1)
    ensures Typedef(DefaultTypes, TypeRule(StringType, 0))[0] == TypeRule(StringType, 0)
  {
    var reg := DefaultTypes;
    assert FirstNotAbove(reg, 0) == 0;
  }

  /** As written, inserting priority 7 into the ordered registry [5, 3]
      gives [5, 7, 3], which is no longer ordered. */
  lemma AsWrittenBreaksOrder()
    ensures Ordered([TypeRule(NumberType, 5), TypeRule(BoolType, 3)])
    ensures !Ordered(TypedefAsWritten([TypeRule(NumberType, 5), TypeRule(BoolType, 3)], TypeRule(SymbolType, 7)))
  {
    var reg := [TypeRule(NumberType, 5), TypeRule(BoolType, 3)];
    assert FirstNotAbove(reg, 7) == 0;
    var r := TypedefAsWritten(reg, TypeRule(SymbolType, 7));
    assert r == [TypeRule(NumberType, 5), TypeRule(SymbolType, 7), TypeRule(BoolType, 3)];
    assert r[0].priority < r[1].priority;
  }
}
