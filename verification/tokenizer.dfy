/** `interpret`: the one-pass character state machine that reads a command
    name and then typed argument tokens from one line. */
module Tokenizer {
  import opened Common
  import opened Text
  import opened Types

  const Success := 0x0
  const UnknownType := 0x5
  const SyntaxError := 0x7
  const ParseFailure := 0xB
  /** The code of a branch the source marks "This shouldn't ever happen". */
  const Impossible := 0xF1

  /** The rule of the token being read. `Idle`: no type chosen
      (`this_type` is null). `Reading(k)`: `k` is active and its `end` is
      consulted. `Closed(k)`: `k`'s `end` has fired on a non-blank character;
      the token waits for a blank. */
  datatype Mode = Idle | Reading(k: Kind) | Closed(k: Kind)

  /** The local variables of `interpret` between two characters. */
  datatype Scan = Scan(cmd: string, word: string, mode: Mode, flags: Flags, args: seq<Value>)

  const Start := Scan("", "", Idle, InitialFlags, [])

  /** What one character does: go on with a new state, or return a code. */
  datatype Progress = Next(s: Scan) | Halt(code: int)

  /** The first rule in registry order whose `begin` accepts `c`. */
  function Choose(types: seq<TypeRule>, c: char): (r: Option<Kind>)
    ensures r.Some? ==> Begins(r.value, c)
    decreases |types|
  {
    if types == [] then None
    else if Begins(types[0].kind, c) then Some(types[0].kind)
    else Choose(types[1..], c)
  }

  /** `Choose` fails exactly when no registered `begin` accepts the
      character, and otherwise picks the earliest rule that does. */
  lemma {:induction false} ChooseIsFirstMatch(types: seq<TypeRule>, c: char)
    ensures Choose(types, c).None? <==> forall i :: 0 <= i < |types| ==> !Begins(types[i].kind, c)
    ensures Choose(types, c).Some? ==>
      exists i :: 0 <= i < |types| && types[i].kind == Choose(types, c).value && Begins(types[i].kind, c) &&
                  (forall j :: 0 <= j < i ==> !Begins(types[j].kind, c))
    decreases |types|
  {
    if types != [] && !Begins(types[0].kind, c) {
      ChooseIsFirstMatch(types[1..], c);
      assert forall i :: 1 <= i < |types| ==> types[i] == types[1..][i - 1];
      var r := Choose(types[1..], c);
      if r.Some? {
        var i :| 0 <= i < |types[1..]| && types[1..][i].kind == r.value && Begins(types[1..][i].kind, c) &&
                 (forall j :: 0 <= j < i ==> !Begins(types[1..][j].kind, c));
        assert types[i + 1].kind == r.value;
      }
    } else if types != [] {
      assert types[0].kind == Choose(types, c).value;
    }
  }

  /** Appends `c` to the current word (the shared tail of the loop body). */
  function Append(s: Scan, c: char): Scan {
    s.(word := s.word + [c], flags := s.flags.(wasSpace := false))
  }

  /** Parses the finished word as `k`, keeps its trimmed text as the
      literal, and either fails with 0x07 or records the argument. */
  function Finish(s: Scan, k: Kind): (r: Progress)
    ensures r.Halt? <==> Parse(k, s.word).tag == ErrorTag
    ensures r.Halt? ==> r.code == SyntaxError
    ensures r.Next? ==> r.s.cmd == s.cmd && r.s.word == "" && r.s.mode == Idle && r.s.flags.wasSpace
    ensures r.Next? ==> |r.s.args| == |s.args| + 1 && r.s.args[..|s.args|] == s.args
    ensures r.Next? ==> r.s.args[|s.args|].tag == Parse(k, s.word).tag && r.s.args[|s.args|].literal == Some(Trim(s.word))
  {
    var v := Parse(k, s.word);
    if v.tag == ErrorTag then Halt(SyntaxError)
    else Next(s.(word := "", mode := Idle, flags := s.flags.(wasSpace := true),
                 args := s.args + [v.(literal := Some(Trim(s.word)))]))
  }

  /** A blank with no active rule: skipped after a separator, otherwise it
      completes the token of rule `closed`. */
  function Gap(s: Scan, closed: Option<Kind>): (r: Progress)
    ensures s.flags.wasSpace ==> r == Next(s)
    ensures r.Halt? ==> r.code in {Impossible, ParseFailure, SyntaxError}
    ensures r.Next? ==> r.s.cmd == s.cmd && s.args <= r.s.args
  {
    if s.flags.wasSpace then Next(s)
    else if s.word == "" then Halt(Impossible)
    else match closed
      case None => Halt(ParseFailure)
      case Some(k) => Finish(s, k)
  }

  /** One iteration of the character loop of `interpret`. */
  function Step(types: seq<TypeRule>, s: Scan, c: char): (r: Progress)
    ensures r.Next? ==> s.args <= r.s.args
    ensures s.cmd != "" ==> r != Halt(Success) && (r.Next? ==> r.s.cmd == s.cmd)
    ensures s.cmd == "" && r.Halt? ==> r.code == Success && c == '#'
  {
    if s.cmd == "" then
      if IsBlank(c) then
        if s.word != "" then Next(s.(cmd := s.word, word := "", flags := s.flags.(wasSpace := true)))
        else Next(s)
      else if s.word == "" && c == '#' then Halt(Success)
      else Next(Append(s, c))
    else
      match s.mode
      case Reading(k) =>
        var (ends, f) := End(k, c, s.flags);
        if !ends then Next(Append(s.(flags := f), c))
        else if IsBlank(c) then Finish(s.(flags := f), k)
        else if f.skipChar then Next(s.(mode := Closed(k), flags := f.(skipChar := false)))
        else Next(Append(s.(mode := Closed(k), flags := f), c))
      case Closed(k) =>
        if IsBlank(c) then Gap(s, Some(k)) else Halt(UnknownType)
      case Idle =>
        if IsBlank(c) then Gap(s, None)
        else match Choose(types, c)
          case None => Halt(ParseFailure)
          case Some(k) => Next(Append(s.(mode := Reading(k), flags := OnBegin(k, c, s.flags)), c))
  }

  /** The loop over the characters of `line`. */
  function Run(types: seq<TypeRule>, s: Scan, line: string): (r: Progress)
    ensures r.Next? ==> s.args <= r.s.args
    decreases |line|
  {
    if line == [] then Next(s)
    else match Step(types, s, line[0])
      case Halt(code) => Halt(code)
      case Next(s') => Run(types, s', line[1..])
  }

  /** The code `interpret` returns together with the `current_cmd` and
      `current_args` it leaves behind. */
  datatype Parsed = Parsed(code: int, cmd: string, args: seq<Value>)

  /** `interpret(line)` against the registry `types`. */
  function Interpret(types: seq<TypeRule>, line: string): (r: Parsed)
    ensures r.code != Success ==> r.cmd == "" && r.args == []
    ensures r.code in {Success, UnknownType, SyntaxError, ParseFailure}
    ensures forall i :: 0 <= i < |r.args| ==> Produced(types, r.args[i])
  {
    var t := Trim(line);
    if t == "" || t[0] == '#' then Parsed(Success, "", [])
    else
      RunKeepsValid(types, Start, t + " ");
      match Run(types, Start, t + " ")
      case Halt(code) => Parsed(code, "", [])
      case Next(s) => Parsed(Success, Upper(s.cmd), s.args)
  }

  function Kinds(types: seq<TypeRule>): seq<Kind> {
    seq(|types|, i requires 0 <= i < |types| => types[i].kind)
  }

  /** The type names of a registry, in order. */
  function Names(types: seq<TypeRule>): seq<string> {
    seq(|types|, i requires 0 <= i < |types| => Name(types[i].kind))
  }

  /** A value the tokenizer can produce from registry `types`: tagged with
      the name of a registered rule, never the error tag, carrying its
      literal, and holding its own text when it is a variable. */
  ghost predicate Produced(types: seq<TypeRule>, v: Value) {
    && v.tag in Names(types)
    && v.tag != ErrorTag
    && v.literal.Some?
    && (v.tag == Name(VariableType) ==> v.val.Str?)
  }

  /** What holds between any two characters of the loop. */
  ghost predicate Valid(types: seq<TypeRule>, s: Scan) {
    && (s.cmd == "" ==> s.mode == Idle && s.args == [])
    && (s.cmd != "" ==> (s.flags.wasSpace || s.word != ""))
    && (s.cmd != "" ==> (s.word == "" <==> s.mode == Idle))
    && (s.mode.Reading? || s.mode.Closed? ==> s.mode.k in Kinds(types))
    && (forall i :: 0 <= i < |s.args| ==> Produced(types, s.args[i]))
  }

  lemma StepKeepsValid(types: seq<TypeRule>, s: Scan, c: char)
    requires Valid(types, s)
    ensures Step(types, s, c).Next? ==> Valid(types, Step(types, s, c).s)
    ensures Step(types, s, c).Halt? ==> Step(types, s, c).code in {Success, UnknownType, SyntaxError, ParseFailure}
  {
    if s.cmd != "" && s.mode.Reading? {
      var k := s.mode.k;
      var (ends, f) := End(k, c, s.flags);
      if ends && IsBlank(c) {
        FinishKeepsValid(types, s.(flags := f), k);
      }
    } else if s.cmd != "" && s.mode.Idle? && !IsBlank(c) {
      ChooseIsFirstMatch(types, c);
      if Choose(types, c).Some? {
        var i :| 0 <= i < |types| && types[i].kind == Choose(types, c).value;
        assert Kinds(types)[i] == Choose(types, c).value;
      }
    } else if s.cmd != "" && s.mode.Closed? && IsBlank(c) && !s.flags.wasSpace {
      FinishKeepsValid(types, s, s.mode.k);
    }
  }

  lemma FinishKeepsValid(types: seq<TypeRule>, s: Scan, k: Kind)
    requires Valid(types, s) && s.cmd != ""
    requires k in Kinds(types)
    ensures Finish(s, k).Next? ==> Valid(types, Finish(s, k).s)
    ensures Finish(s, k).Halt? ==> Finish(s, k).code == SyntaxError
  {
    var v := Parse(k, s.word);
    if v.tag != ErrorTag {
      var ki :| 0 <= ki < |types| && Kinds(types)[ki] == k;
      assert Names(types)[ki] == v.tag;
      var s' := Finish(s, k).s;
      assert s'.args == s.args + [v.(literal := Some(Trim(s.word)))];
      assert forall i :: 0 <= i < |s'.args| ==> Produced(types, s'.args[i]) by {
        forall i | 0 <= i < |s'.args|
          ensures Produced(types, s'.args[i])
        {
          if i < |s.args| {
            assert s'.args[i] == s.args[i];
          }
        }
      }
    }
  }

  lemma {:induction false} RunKeepsValid(types: seq<TypeRule>, s: Scan, line: string)
    requires Valid(types, s)
    ensures Run(types, s, line).Next? ==> Valid(types, Run(types, s, line).s)
    ensures Run(types, s, line).Halt? ==> Run(types, s, line).code in {Success, UnknownType, SyntaxError, ParseFailure}
    decreases |line|
  {
    if line != [] {
      StepKeepsValid(types, s, line[0]);
      if Step(types, s, line[0]).Next? {
        RunKeepsValid(types, Step(types, s, line[0]).s, line[1..]);
      }
    }
  }
}

/** Facts about `interpret`: blank and comment lines, the command name, the
    origin of code 0xB, and the quirks of unclosed and escaped strings. */
module TokenizerFacts {
  import opened Common
  import opened Text
  import opened Types
  import opened Tokenizer

  /** The loop over a concatenation is the loop over each part in turn. */
  lemma {:induction false} RunConcat(types: seq<TypeRule>, s: Scan, a: string, b: string)
    ensures Run(types, s, a + b) == match Run(types, s, a)
                                    case Halt(code) => Halt(code)
                                    case Next(s') => Run(types, s', b)
    decreases |a|
  {
    if a != [] {
      assert (a + b)[0] == a[0] && (a + b)[1..] == a[1..] + b;
      if Step(types, s, a[0]).Next? {
        RunConcat(types, Step(types, s, a[0]).s, a[1..], b);
      }
    } else {
      assert a + b == b;
    }
  }

  /** Running two pieces in turn, when the first leaves the loop going. */
  lemma RunThen(types: seq<TypeRule>, s: Scan, a: string, b: string, s1: Scan)
    requires Run(types, s, a) == Next(s1)
    ensures Run(types, s, a + b) == Run(types, s1, b)
  {
    RunConcat(types, s, a, b);
  }

  /** Once the command name is known, the loop never changes it, and it
      can no longer stop with success. */
  lemma {:induction false} RunKeepsCmd(types: seq<TypeRule>, s: Scan, line: string)
    requires s.cmd != ""
    ensures Run(types, s, line).Next? ==> Run(types, s, line).s.cmd == s.cmd
    ensures Run(types, s, line).Halt? ==> Run(types, s, line).code != Success
    decreases |line|
  {
    if line != [] && Step(types, s, line[0]).Next? {
      RunKeepsCmd(types, Step(types, s, line[0]).s, line[1..]);
    }
  }

  /** Before the name is complete, non-blank characters accumulate into it. */
  lemma {:induction false} ReadName(types: seq<TypeRule>, u: string, f: Flags, w: string)
    requires forall i :: 0 <= i < |w| ==> !IsBlank(w[i])
    requires u != "" || w == "" || w[0] != '#'
    ensures Run(types, Scan("", u, Idle, f, []), w) ==
            Next(Scan("", u + w, Idle, if w == "" then f else f.(wasSpace := false), []))
    decreases |w|
  {
    if w != "" {
      assert Step(types, Scan("", u, Idle, f, []), w[0]) ==
             Next(Scan("", u + [w[0]], Idle, f.(wasSpace := false), []));
      ReadName(types, u + [w[0]], f.(wasSpace := false), w[1..]);
      assert u + [w[0]] + w[1..] == u + w;
    } else {
      assert u + w == u;
    }
  }

  /** The index of the first blank of `t`, or `|t|`. */
  function BlankIndex(t: string): (n: nat)
    ensures n <= |t|
    ensures forall i :: 0 <= i < n ==> !IsBlank(t[i])
    ensures n < |t| ==> IsBlank(t[n])
    decreases |t|
  {
    if t == [] || IsBlank(t[0]) then 0 else 1 + BlankIndex(t[1..])
  }

  /** The first blank-delimited word. */
  function FirstWord(t: string): string {
    t[..BlankIndex(t)]
  }

  /** A line that is blank after trimming, or whose first non-blank
      character is `#`, is a successful no-op that leaves no command. */
  lemma BlankOrCommentLine(types: seq<TypeRule>, line: string)
    requires Trim(line) == "" || Trim(line)[0] == '#'
    ensures Interpret(types, line) == Parsed(Success, "", [])
  {
  }

  /** The loop reads the first word of a non-blank, non-comment line into
      the command name and continues from there. */
  lemma NameThenRest(types: seq<TypeRule>, t: string)
    requires t != "" && !IsTrimSpace(t[0]) && t[0] != '#'
    ensures var n := BlankIndex(t);
            0 < n && Run(types, Start, t + " ") ==
              Run(types, Scan(t[..n], "", Idle, InitialFlags.(wasSpace := true), []), (t + " ")[n + 1..])
  {
    var n := BlankIndex(t);
    var line := t + " ";
    var w := t[..n];
    assert n > 0;
    assert line == w + ([line[n]] + line[n + 1..]);
    assert IsBlank(line[n]);
    ReadName(types, "", InitialFlags, w);
    assert "" + w == w;
    RunConcat(types, Start, w, [line[n]] + line[n + 1..]);
    var s1 := Scan("", w, Idle, InitialFlags.(wasSpace := false), []);
    assert Run(types, Start, w) == Next(s1);
    RunConcat(types, s1, [line[n]], line[n + 1..]);
    var s2 := Scan(w, "", Idle, InitialFlags.(wasSpace := true), []);
    assert Step(types, s1, line[n]) == Next(s2);
    assert ([line[n]])[1..] == [];
    assert Run(types, s1, [line[n]]) == Next(s2);
  }

  /** On success with a line that is neither blank nor a comment, the
      command is the upper-cased first blank-delimited word. */
  lemma CommandIsFirstWord(types: seq<TypeRule>, line: string)
    requires Trim(line) != "" && Trim(line)[0] != '#'
    ensures Interpret(types, line).code == Success ==>
              Interpret(types, line).cmd == Upper(FirstWord(Trim(line))) && Interpret(types, line).cmd != ""
  {
    var t := Trim(line);
    TrimEndPrefix(TrimStart(line));
    NameThenRest(types, t);
    var n := BlankIndex(t);
    var s2 := Scan(t[..n], "", Idle, InitialFlags.(wasSpace := true), []);
    RunKeepsCmd(types, s2, (t + " ")[n + 1..]);
    var r := Run(types, Start, t + " ");
    if r.Next? {
      assert Interpret(types, line) == Parsed(Success, Upper(r.s.cmd), r.s.args);
      assert r.s.cmd == t[..n];
    }
  }

  /** Code 0xB arises only from a character no registered `begin` accepts. */
  lemma {:induction false} ParseFailureOrigin(types: seq<TypeRule>, s: Scan, line: string)
    requires Valid(types, s)
    ensures Run(types, s, line) == Halt(ParseFailure) ==>
              exists i :: 0 <= i < |line| && !IsBlank(line[i]) && Choose(types, line[i]).None?
    decreases |line|
  {
    if line != [] {
      StepKeepsValid(types, s, line[0]);
      var p := Step(types, s, line[0]);
      if p.Next? {
        ParseFailureOrigin(types, p.s, line[1..]);
        if Run(types, p.s, line[1..]) == Halt(ParseFailure) {
          var i :| 0 <= i < |line[1..]| && !IsBlank(line[1..][i]) && Choose(types, line[1..][i]).None?;
          assert line[i + 1] == line[1..][i];
        }
      }
    }
  }

  /** `interpret` returns 0xB only when some non-blank character of the
      trimmed line is accepted by no registered type. */
  lemma InterpretParseFailure(types: seq<TypeRule>, line: string)
    ensures Interpret(types, line).code == ParseFailure ==>
              exists i :: 0 <= i < |Trim(line)| && !IsBlank(Trim(line)[i]) && Choose(types, Trim(line)[i]).None?
  {
    var t := Trim(line);
    if t != "" && t[0] != '#' {
      ParseFailureOrigin(types, Start, t + " ");
      if Run(types, Start, t + " ") == Halt(ParseFailure) {
        var i :| 0 <= i < |t + " "| && !IsBlank((t + " ")[i]) && Choose(types, (t + " ")[i]).None?;
        assert i < |t|;
      }
    }
  }

  /** Blanks after a separator are skipped. */
  lemma {:induction false} SkipBlanks(types: seq<TypeRule>, s: Scan, g: string)
    requires s.cmd != "" && s.mode == Idle && s.flags.wasSpace
    requires forall i :: 0 <= i < |g| ==> IsBlank(g[i])
    ensures Run(types, s, g) == Next(s)
    decreases |g|
  {
    if g != [] {
      SkipBlanks(types, s, g[1..]);
    }
  }

  /** If no registered type begins with the first character of the first
      argument, `interpret` fails with 0xB. */
  lemma UnknownFirstArgument(types: seq<TypeRule>, line: string, w: string, g: string, c: char, rest: string)
    requires Trim(line) == w + g + [c] + rest
    requires w != "" && w[0] != '#' && forall i :: 0 <= i < |w| ==> !IsBlank(w[i])
    requires g != [] && forall i :: 0 <= i < |g| ==> IsBlank(g[i])
    requires !IsBlank(c) && Choose(types, c).None?
    ensures Interpret(types, line) == Parsed(ParseFailure, "", [])
  {
    var t := Trim(line);
    assert t[0] == w[0];
    UnknownAfterName(types, w, g, c, rest + " ");
    assert t + " " == w + g + [c] + (rest + " ");
  }

  /** The state right after the command name `w` has been read. */
  function NameDone(w: string): Scan {
    Scan(w, "", Idle, InitialFlags.(wasSpace := true), [])
  }

  /** The blank after a name completes it. */
  lemma BlankEndsName(types: seq<TypeRule>, w: string, b: char)
    requires w != "" && IsBlank(b)
    ensures Run(types, Scan("", w, Idle, InitialFlags.(wasSpace := false), []), [b]) == Next(NameDone(w))
  {
    var s1 := Scan("", w, Idle, InitialFlags.(wasSpace := false), []);
    assert Step(types, s1, b) == Next(NameDone(w));
  }

  /** A name followed by a blank leaves the loop in `NameDone`. */
  lemma NameBlank(types: seq<TypeRule>, w: string, b: char)
    requires w != "" && w[0] != '#' && forall i :: 0 <= i < |w| ==> !IsBlank(w[i])
    requires IsBlank(b)
    ensures Run(types, Start, w + [b]) == Next(NameDone(w))
  {
    ReadName(types, "", InitialFlags, w);
    assert "" + w == w;
    BlankEndsName(types, w, b);
    RunThen(types, Start, w, [b], Scan("", w, Idle, InitialFlags.(wasSpace := false), []));
  }

  lemma AfterName(types: seq<TypeRule>, w: string, b: char, rest: string)
    requires w != "" && w[0] != '#' && forall i :: 0 <= i < |w| ==> !IsBlank(w[i])
    requires IsBlank(b)
    ensures Run(types, Start, w + [b] + rest) == Run(types, NameDone(w), rest)
  {
    NameBlank(types, w, b);
    RunThen(types, Start, w + [b], rest, NameDone(w));
  }

  lemma UnknownAfterName(types: seq<TypeRule>, w: string, g: string, c: char, rest: string)
    requires w != "" && w[0] != '#' && forall i :: 0 <= i < |w| ==> !IsBlank(w[i])
    requires g != [] && forall i :: 0 <= i < |g| ==> IsBlank(g[i])
    requires !IsBlank(c) && Choose(types, c).None?
    ensures Run(types, Start, w + g + [c] + rest) == Halt(ParseFailure)
  {
    var s2 := NameDone(w);
    SkipBlanks(types, s2, g[1..]);
    assert Step(types, s2, c) == Halt(ParseFailure);
    assert Run(types, s2, [c] + rest) == Halt(ParseFailure);
    RunConcat(types, s2, g[1..], [c] + rest);
    assert g == [g[0]] + g[1..];
    assert w + g + [c] + rest == w + [g[0]] + (g[1..] + ([c] + rest));
    AfterName(types, w, g[0], g[1..] + ([c] + rest));
  }
}
