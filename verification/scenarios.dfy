/** Whole-batch consequences of `manage`: blank and comment lines are
    passed over one by one, the first line that fails stops the batch, and
    a handler that moves the cursor back onto its own line keeps it going
    for ever. */
module Scenarios {
  import opened Common
  import opened Text
  import opened Types
  import opened Tokenizer
  import opened TokenizerFacts
  import opened Binder
  import opened Encoding
  import opened CommandEngine

  /** A command called without arguments (every syntax entry optional,
      such as `["?number"]`) that jumps back to line `k` and returns 0 makes
      line `k` run again and again: no amount of fuel finishes it. */
  lemma {:induction false} JumpBackNeverEnds(e: Engine, k: nat, w: string, fuel: nat)
    requires Wf(e) && e.line == k < |e.batch| && e.batch[k] == w && NameText(w)
    requires Upper(w) in e.enumerated && Bind(e.cmds[Upper(w)].syntax, [], e.env).Mapped?
    requires forall m, ctx :: e.cmds[Upper(w)].action(m, ctx) == (Success, ctx.(line := k))
    ensures Manage(e, fuel) == OutOfFuel
    decreases fuel
  {
    if fuel > 0 {
      InterpretName(e.types, w);
      var m := Bind(e.cmds[Upper(w)].syntax, [], e.env).args;
      HandlerTurn(e, Upper(w), [], m);
      var e2 := e.(line := k, cmd := Upper(w), args := []);
      assert Turn(e) == Returned(Success, e2);
      ManageAfterTurn(e, fuel, e2);
      JumpBackNeverEnds(e2, k, w, fuel - 1);
    }
  }

  /** A line `interpret` passes over: blank after trimming, or a comment. */
  predicate NoOp(line: string) {
    Trim(line) == "" || Trim(line)[0] == '#'
  }

  /** A no-op line is a turn that returns 0 and clears the command. */
  lemma NoOpTurn(e: Engine)
    requires Wf(e) && e.line < |e.batch| && NoOp(e.batch[e.line])
    ensures Turn(e) == Returned(Success, e.(line := e.line + 1, cmd := "", args := []))
  {
    BlankOrCommentLine(e.types, e.batch[e.line]);
  }

  /** A line `interpret` rejects is a turn that returns its code. */
  lemma RejectedTurn(e: Engine)
    requires Wf(e) && e.line < |e.batch| && Interpret(e.types, e.batch[e.line]).code != Success
    ensures Turn(e) == Returned(Interpret(e.types, e.batch[e.line]).code, e.(line := e.line + 1, cmd := "", args := []))
  {
  }

  /** A line naming an unlisted command is a turn that returns 0x9. */
  lemma UnknownTurn(e: Engine, p: Parsed)
    requires Wf(e) && e.line < |e.batch| && p == Interpret(e.types, e.batch[e.line])
    requires p.code == Success && p.cmd != "" && p.cmd !in e.enumerated
    ensures Turn(e) == Returned(UnknownCommand, e.(line := e.line + 1, cmd := p.cmd, args := p.args))
  {
  }

  /** A batch of no-op lines finishes with 0 and the cursor at its end,
      given one unit of fuel per line. */
  lemma {:induction false} NoOpBatch(e: Engine, fuel: nat)
    requires Wf(e) && e.line < |e.batch| && fuel >= |e.batch| - e.line
    requires forall j :: e.line <= j < |e.batch| ==> NoOp(e.batch[j])
    ensures Manage(e, fuel) == Finished(Success, e.(line := |e.batch|, cmd := "", args := []))
    decreases |e.batch| - e.line
  {
    var e1 := e.(line := e.line + 1, cmd := "", args := []);
    NoOpTurn(e);
    ManageAfterTurn(e, fuel, e1);
    if e1.line < |e.batch| {
      NoOpBatch(e1, fuel - 1);
      assert e1.(line := |e.batch|, cmd := "", args := []) == e.(line := |e.batch|, cmd := "", args := []);
    }
  }

  /** A turn does not read the command and arguments left by the line before. */
  lemma TurnIgnoresCommand(e: Engine, cmd: string, args: seq<Value>)
    requires Wf(e) && e.line < |e.batch|
    ensures Turn(e.(cmd := cmd, args := args)) == Turn(e)
  {
    assert e.(cmd := cmd, args := args).(line := e.line + 1) == e.(line := e.line + 1).(cmd := cmd, args := args);
  }

  /** After no-op lines, a line whose turn returns a non-zero code ends the
      batch with that code and that turn's engine. */
  lemma {:induction false} NoOpsThenStop(e: Engine, k: nat, fuel: nat, c: int, e2: Engine)
    requires Wf(e) && e.line <= k < |e.batch| && fuel > k - e.line
    requires forall j :: e.line <= j < k ==> NoOp(e.batch[j])
    requires Turn(e.(line := k)) == Returned(c, e2) && c != Success
    ensures Manage(e, fuel) == Finished(c, e2)
    decreases k - e.line
  {
    if e.line < k {
      var e1 := e.(line := e.line + 1, cmd := "", args := []);
      NoOpTurn(e);
      ManageAfterTurn(e, fuel, e1);
      TurnIgnoresCommand(e.(line := k), "", []);
      assert e1.(line := k) == e.(line := k).(cmd := "", args := []);
      NoOpsThenStop(e1, k, fuel - 1, c, e2);
    } else {
      assert e.(line := k) == e;
      ManageStopsAfterTurn(e, fuel, c, e2);
    }
  }

  /** After no-op lines, the first line `interpret` rejects ends the batch
      with its code, the cursor just past it: no later line runs. */
  lemma StopsAtParseError(e: Engine, k: nat, fuel: nat)
    requires Wf(e) && e.line <= k < |e.batch| && fuel > k - e.line
    requires forall j :: e.line <= j < k ==> NoOp(e.batch[j])
    requires Interpret(e.types, e.batch[k]).code != Success
    ensures Manage(e, fuel) == Finished(Interpret(e.types, e.batch[k]).code, e.(line := k + 1, cmd := "", args := []))
  {
    RejectedTurn(e.(line := k));
    NoOpsThenStop(e, k, fuel, Interpret(e.types, e.batch[k]).code, e.(line := k + 1, cmd := "", args := []));
  }

  /** After no-op lines, a line naming a command that is not listed ends
      the batch with 0x9, the cursor just past it. */
  lemma StopsAtUnknownCommand(e: Engine, k: nat, fuel: nat)
    requires Wf(e) && e.line <= k < |e.batch| && fuel > k - e.line
    requires forall j :: e.line <= j < k ==> NoOp(e.batch[j])
    requires var p := Interpret(e.types, e.batch[k]); p.code == Success && p.cmd != "" && p.cmd !in e.enumerated
    ensures var p := Interpret(e.types, e.batch[k]);
            Manage(e, fuel) == Finished(UnknownCommand, e.(line := k + 1, cmd := p.cmd, args := p.args))
  {
    var p := Interpret(e.types, e.batch[k]);
    UnknownTurn(e.(line := k), p);
    NoOpsThenStop(e, k, fuel, UnknownCommand, e.(line := k + 1, cmd := p.cmd, args := p.args));
  }
}
