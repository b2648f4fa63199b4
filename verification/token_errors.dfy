/** The error codes `interpret` returns after the command name: 0x7 for a
    token its rule cannot parse, 0x5 for text glued to a finished token. */
module TokenErrors {
  import opened Common
  import opened Text
  import opened Types
  import opened Registry
  import opened Tokenizer
  import opened TokenizerFacts
  import opened Encoding

  /** A run of symbol characters that is not an operator is read as one
      symbol token, whose parse fails: `interpret` returns 0x7. */
  lemma MisparsedSymbol(name: string, l: string)
    requires NameText(name) && |l| >= 1 && l[0] != '-' && !IsOperator(l)
    requires forall i :: 0 <= i < |l| ==> IsSymbolChar(l[i])
    ensures Interpret(DefaultTypes, name + " " + l) == Parsed(SyntaxError, "", [])
  {
    var s := NameDone(name);
    DefaultTypesChoose();
    SymbolStartsNoNumber(l[0]);
    assert Choose(DefaultTypes, l[0]) == DefaultChoice(l[0]) == Some(SymbolType);
    var f := s.flags.(wasSpace := false);
    ReadToken(DefaultTypes, s, SymbolType, l);
    var s2 := Scan(name, l, Reading(SymbolType), f, []);
    assert Step(DefaultTypes, s2, ' ') == Halt(SyntaxError);
    assert Run(DefaultTypes, s2, " ") == Halt(SyntaxError);
    RunThen(DefaultTypes, s, l, " ", s2);
    CharClasses(l[|l| - 1]);
    InterpretHaltAfterName(DefaultTypes, name + " " + l, name, l, SyntaxError);
  }

  /** The loop halts with 0x5 on the first non-blank character after a
      closed string. */
  lemma GluedAfterString(types: seq<TypeRule>, name: string, q: char, body: string, c: char, rest: string)
    requires Choose(types, q) == Some(StringType) && IsQuote(q) && name != "" && !IsBlank(c)
    requires forall i :: 0 <= i < |body| ==> body[i] != q && body[i] != '\\'
    ensures Run(types, NameDone(name), ([q] + body) + ([q] + ([c] + rest))) == Halt(UnknownType)
  {
    OpenString(types, name, q, body);
    var f := InitialFlags.(quote := Some(q));
    var s2 := Scan(name, [q] + body, Reading(StringType), f, []);
    CloseQuote(types, s2, q);
    var s3 := Append(s2.(mode := Closed(StringType)), q);
    assert Run(types, s2, [q]) == Next(s3);
    assert Step(types, s3, c) == Halt(UnknownType);
    assert Run(types, s3, [c] + rest) == Halt(UnknownType);
    RunThen(types, s2, [q], [c] + rest, s3);
    RunThen(types, NameDone(name), [q] + body, [q] + ([c] + rest), s2);
  }

  lemma GluedShape(name: string, q: char, body: string, c: char, rest: string)
    requires !IsTrimSpace(c) && (rest == [] || !IsTrimSpace(rest[|rest| - 1]))
    ensures var r := [q] + body + [q] + [c] + rest;
            && name + " " + [q] + body + [q] + [c] + rest == name + [' '] + r
            && r + " " == ([q] + body) + ([q] + ([c] + (rest + " ")))
            && r != [] && !IsTrimSpace(r[|r| - 1])
  {
    var r := [q] + body + [q] + [c] + rest;
    assert r[|r| - 1] == if rest == [] then c else rest[|rest| - 1];
  }

  /** A non-blank character right after the closing quote of a string is
      glued to the finished token: `interpret` returns 0x5. */
  lemma TextAfterString(name: string, q: char, body: string, c: char, rest: string)
    requires NameText(name) && IsQuote(q) && !IsTrimSpace(c)
    requires forall i :: 0 <= i < |body| ==> body[i] != q && body[i] != '\\'
    requires rest == [] || !IsTrimSpace(rest[|rest| - 1])
    ensures Interpret(DefaultTypes, name + " " + [q] + body + [q] + [c] + rest) == Parsed(UnknownType, "", [])
  {
    assert Choose(DefaultTypes, q) == Some(StringType) by {
      DefaultTypesChoose();
      assert Choose(DefaultTypes, q) == DefaultChoice(q);
    }
    GluedAfterString(DefaultTypes, name, q, body, c, rest + " ");
    GluedShape(name, q, body, c, rest);
    var r := [q] + body + [q] + [c] + rest;
    InterpretHaltAfterName(DefaultTypes, name + [' '] + r, name, r, UnknownType);
  }

  /** A token is finished by a blank its active rule ends on, or by a
      blank after the token closed on another character. Either way the
      loop halts with 0x7 exactly when the rule's parse is tagged error. */
  lemma FinishedParseError(types: seq<TypeRule>, s: Scan, c: char, k: Kind)
    requires s.cmd != "" && IsBlank(c)
    requires (s.mode == Reading(k) && End(k, c, s.flags).0) || (s.mode == Closed(k) && !s.flags.wasSpace && s.word != "")
    ensures Step(types, s, c) == Halt(SyntaxError) <==> Parse(k, s.word).tag == ErrorTag
  {
  }

  /** A rule that ends on a non-blank character closes the token, which
      then waits for a blank. */
  lemma EndClosesToken(types: seq<TypeRule>, s: Scan, c: char, k: Kind)
    requires s.cmd != "" && s.mode == Reading(k) && End(k, c, s.flags).0 && !IsBlank(c)
    ensures Step(types, s, c).Next? && Step(types, s, c).s.mode == Closed(k) && Step(types, s, c).s.cmd == s.cmd
  {
  }

  /** Any non-blank character while a closed token waits for its blank
      halts the loop with 0x5, whatever the rule. */
  lemma GluedHalts(types: seq<TypeRule>, s: Scan, c: char, k: Kind)
    requires s.cmd != "" && s.mode == Closed(k) && !IsBlank(c)
    ensures Step(types, s, c) == Halt(UnknownType)
  {
  }

  /** A character that ends the active rule, followed by another non-blank
      character, halts the loop with 0x5. */
  lemma GluedAfterEnd(types: seq<TypeRule>, s: Scan, c: char, d: char, rest: string, k: Kind)
    requires s.cmd != "" && s.mode == Reading(k) && End(k, c, s.flags).0 && !IsBlank(c) && !IsBlank(d)
    ensures Run(types, s, [c, d] + rest) == Halt(UnknownType)
  {
    EndClosesToken(types, s, c, k);
    var s1 := Step(types, s, c).s;
    GluedHalts(types, s1, d, k);
    assert ([c, d] + rest)[0] == c && ([c, d] + rest)[1..] == [d] + rest;
  }

  /** The characters of a token of a rule other than string, read right
      after the name. */
  lemma TokenAfterName(types: seq<TypeRule>, name: string, k: Kind, l: string)
    requires name != "" && |l| >= 1 && k != StringType && Choose(types, l[0]) == Some(k)
    requires forall i :: 1 <= i < |l| ==> End(k, l[i], InitialFlags) == (false, InitialFlags)
    ensures Run(types, NameDone(name), l) == Next(Scan(name, l, Reading(k), InitialFlags, []))
  {
    ReadToken(types, NameDone(name), k, l);
  }

  /** A token of a rule other than string, read after the name up to the
      blank that ends it, is finished there. */
  lemma TokenToBlank(types: seq<TypeRule>, name: string, k: Kind, l: string)
    requires name != "" && |l| >= 1 && k != StringType && Choose(types, l[0]) == Some(k)
    requires forall i :: 1 <= i < |l| ==> End(k, l[i], InitialFlags) == (false, InitialFlags)
    ensures Run(types, NameDone(name), l + " ") == Finish(Scan(name, l, Reading(k), InitialFlags, []), k)
  {
    TokenAfterName(types, name, k, l);
    var s2 := Scan(name, l, Reading(k), InitialFlags, []);
    BlankFinishes(types, s2, k);
    RunThen(types, NameDone(name), l, " ", s2);
  }

  /** Every rule other than string ends on a blank, which finishes the token. */
  lemma BlankFinishes(types: seq<TypeRule>, s: Scan, k: Kind)
    requires s.cmd != "" && s.mode == Reading(k) && s.flags == InitialFlags && k != StringType
    ensures Run(types, s, " ") == Finish(s, k)
  {
    assert End(k, ' ', InitialFlags) == (true, InitialFlags);
    CompleteToken(types, s, k);
  }

  /** A first argument that its rule reads up to the closing blank makes
      `interpret` return 0x7 exactly when the rule's parse is tagged error,
      and succeed otherwise. */
  lemma MisparsedToken(types: seq<TypeRule>, name: string, k: Kind, l: string)
    requires NameText(name) && |l| >= 1 && k != StringType && Choose(types, l[0]) == Some(k)
    requires forall i :: 1 <= i < |l| ==> End(k, l[i], InitialFlags) == (false, InitialFlags)
    requires !IsTrimSpace(l[|l| - 1])
    ensures Parse(k, l).tag == ErrorTag ==> Interpret(types, name + " " + l) == Parsed(SyntaxError, "", [])
    ensures Parse(k, l).tag != ErrorTag ==> Interpret(types, name + " " + l).code == Success
  {
    TokenToBlank(types, name, k, l);
    var f := Finish(Scan(name, l, Reading(k), InitialFlags, []), k);
    assert name + " " + l == name + [' '] + l;
    if f.Halt? {
      InterpretHaltAfterName(types, name + [' '] + l, name, l, SyntaxError);
    } else {
      InterpretAfterName(types, name + [' '] + l, name, l, f.s);
    }
  }

  /** A token closed on the non-blank character `c` that ends its rule is
      finished by the blank after it, halting with 0x7 when its parse fails. */
  lemma ClosedToBlank(types: seq<TypeRule>, name: string, k: Kind, l: string, c: char)
    requires name != "" && |l| >= 1 && k != StringType && Choose(types, l[0]) == Some(k)
    requires forall i :: 1 <= i < |l| ==> End(k, l[i], InitialFlags) == (false, InitialFlags)
    requires End(k, c, InitialFlags).0 && !IsBlank(c)
    requires Parse(k, l + [c]).tag == ErrorTag
    ensures Run(types, NameDone(name), (l + [c]) + " ") == Halt(SyntaxError)
  {
    TokenAfterName(types, name, k, l);
    var s2 := Scan(name, l, Reading(k), InitialFlags, []);
    var s3 := Scan(name, l + [c], Closed(k), InitialFlags, []);
    assert Step(types, s2, c) == Next(s3);
    FinishedParseError(types, s3, ' ', k);
    assert Run(types, s2, [c] + " ") == Halt(SyntaxError);
    RunThen(types, NameDone(name), l, [c] + " ", s2);
    assert (l + [c]) + " " == l + ([c] + " ");
  }

  /** A first argument whose rule ends on its last, non-blank character
      is closed with that character in it; the blank after it completes it,
      and `interpret` returns 0x7 when the parse of the whole text fails. */
  lemma MisparsedClosedToken(types: seq<TypeRule>, name: string, k: Kind, l: string, c: char)
    requires NameText(name) && |l| >= 1 && k != StringType && Choose(types, l[0]) == Some(k)
    requires forall i :: 1 <= i < |l| ==> End(k, l[i], InitialFlags) == (false, InitialFlags)
    requires End(k, c, InitialFlags).0 && !IsTrimSpace(c)
    requires Parse(k, l + [c]).tag == ErrorTag
    ensures Interpret(types, name + " " + l + [c]) == Parsed(SyntaxError, "", [])
  {
    ClosedToBlank(types, name, k, l, c);
    assert name + " " + l + [c] == name + [' '] + (l + [c]);
    InterpretHaltAfterName(types, name + [' '] + (l + [c]), name, l + [c], SyntaxError);
  }

  /** A first argument whose rule ends on a non-blank character followed
      by more text makes `interpret` return 0x5. */
  lemma TextAfterToken(types: seq<TypeRule>, name: string, k: Kind, l: string, c: char, d: char, rest: string)
    requires NameText(name) && |l| >= 1 && k != StringType && Choose(types, l[0]) == Some(k)
    requires forall i :: 1 <= i < |l| ==> End(k, l[i], InitialFlags) == (false, InitialFlags)
    requires End(k, c, InitialFlags).0 && !IsTrimSpace(c) && !IsTrimSpace(d)
    requires rest == [] || !IsTrimSpace(rest[|rest| - 1])
    ensures Interpret(types, name + " " + l + [c, d] + rest) == Parsed(UnknownType, "", [])
  {
    TokenAfterName(types, name, k, l);
    var s2 := Scan(name, l, Reading(k), InitialFlags, []);
    GluedAfterEnd(types, s2, c, d, rest + " ", k);
    RunThen(types, NameDone(name), l, [c, d] + (rest + " "), s2);
    GluedTokenShape(name, l, c, d, rest);
    var r := l + [c, d] + rest;
    InterpretHaltAfterName(types, name + [' '] + r, name, r, UnknownType);
  }

  lemma GluedTokenShape(name: string, l: string, c: char, d: char, rest: string)
    requires !IsTrimSpace(d) && (rest == [] || !IsTrimSpace(rest[|rest| - 1]))
    ensures var r := l + [c, d] + rest;
            && name + " " + l + [c, d] + rest == name + [' '] + r
            && r + " " == l + ([c, d] + (rest + " "))
            && r != [] && !IsTrimSpace(r[|r| - 1])
  {
    var r := l + [c, d] + rest;
    assert r[|r| - 1] == if rest == [] then d else rest[|rest| - 1];
  }

  /** `5ab`: the number ends on `a`, and `b` is glued to it: 0x5. */
  lemma NumberGlued(name: string)
    requires NameText(name)
    ensures Interpret(DefaultTypes, name + " 5ab") == Parsed(UnknownType, "", [])
  {
    DefaultTypesChoose();
    assert Choose(DefaultTypes, '5') == DefaultChoice('5') == Some(NumberType);
    TextAfterToken(DefaultTypes, name, NumberType, "5", 'a', 'b', "");
    assert name + " " + "5" + ['a', 'b'] + "" == name + " 5ab";
  }

  /** `tx`: the bool rule reads up to the blank, and its parse fails: 0x7. */
  lemma BoolMisparsed(name: string)
    requires NameText(name)
    ensures Interpret(DefaultTypes, name + " tx") == Parsed(SyntaxError, "", [])
  {
    DefaultTypesChoose();
    assert Choose(DefaultTypes, 't') == DefaultChoice('t') == Some(BoolType);
    assert !UpperEquals("tx", "T") && !UpperEquals("tx", "TRUE") && !UpperEquals("tx", "F") && !UpperEquals("tx", "FALSE");
    MisparsedToken(DefaultTypes, name, BoolType, "tx");
    assert name + " " + "tx" == name + " tx";
  }

  /** The minus starts a number, since the number rule is tried before the
      symbol rule: the operator `-` is never read as a symbol, and
      `interpret` returns 0x7. */
  lemma MinusNeverSymbol(name: string)
    requires NameText(name)
    ensures Choose(DefaultTypes, '-') == Some(NumberType)
    ensures Interpret(DefaultTypes, name + " -") == Parsed(SyntaxError, "", [])
  {
    DefaultTypesChoose();
    assert Choose(DefaultTypes, '-') == DefaultChoice('-') == Some(NumberType);
    assert NumberPrefix("-").None?;
    MisparsedToken(DefaultTypes, name, NumberType, "-");
    assert name + " " + "-" == name + " -";
  }

  /** Likewise `-=`: the number rule ends on `=`, and the parse of `-=`
      fails, so `interpret` returns 0x7. */
  lemma MinusAssignNeverSymbol(name: string)
    requires NameText(name)
    ensures Interpret(DefaultTypes, name + " -=") == Parsed(SyntaxError, "", [])
  {
    DefaultTypesChoose();
    assert Choose(DefaultTypes, '-') == DefaultChoice('-') == Some(NumberType);
    assert NumberPrefix("-=").None? by {
      assert "-="[1..] == "=";
    }
    assert "-" + ['='] == "-=";
    MisparsedClosedToken(DefaultTypes, name, NumberType, "-", '=');
    assert name + " " + "-" + ['='] == name + " -=";
  }

  /** A blank after a closed token completes it under its rule, and the
      scan stops there. */
  lemma ClosedBlankFinishes(types: seq<TypeRule>, s: Scan, k: Kind)
    requires s.cmd != "" && s.mode == Closed(k) && !s.flags.wasSpace && s.word != ""
    requires Finish(s, k).Next?
    ensures Run(types, s, " ") == Finish(s, k)
  {
    assert Step(types, s, ' ') == Finish(s, k);
    assert " "[1..] == [];
  }

  /** A character the active rule ends on, not a blank, closes the token
      with that character in it. */
  lemma ClosesOn(types: seq<TypeRule>, name: string, k: Kind, l: string, c: char)
    requires name != "" && k != StringType && End(k, c, InitialFlags).0 && !IsBlank(c)
    ensures Step(types, Scan(name, l, Reading(k), InitialFlags, []), c) ==
              Next(Scan(name, l + [c], Closed(k), InitialFlags, []))
  {
  }

  /** While a rule reads, its closing character followed by a blank
      completes the token. */
  lemma ClosedThenBlank(types: seq<TypeRule>, name: string, k: Kind, l: string, c: char)
    requires name != "" && k != StringType && End(k, c, InitialFlags).0 && !IsBlank(c)
    requires Parse(k, l + [c]).tag != ErrorTag
    ensures Run(types, Scan(name, l, Reading(k), InitialFlags, []), [c] + " ") ==
              Finish(Scan(name, l + [c], Closed(k), InitialFlags, []), k)
  {
    var s2 := Scan(name, l, Reading(k), InitialFlags, []);
    var s3 := Scan(name, l + [c], Closed(k), InitialFlags, []);
    ClosesOn(types, name, k, l, c);
    assert Run(types, s2, [c]) == Next(s3) by {
      assert [c][1..] == [];
    }
    ClosedBlankFinishes(types, s3, k);
    RunThen(types, s2, [c], " ", s3);
  }

  /** A token closed on the non-blank character `c` that ends its rule is
      finished by the blank after it, and the scan stops there with the
      token parsed when its parse succeeds. */
  lemma ClosedToBlankParsed(types: seq<TypeRule>, name: string, k: Kind, l: string, c: char)
    requires name != "" && |l| >= 1 && k != StringType && Choose(types, l[0]) == Some(k)
    requires forall i :: 1 <= i < |l| ==> End(k, l[i], InitialFlags) == (false, InitialFlags)
    requires End(k, c, InitialFlags).0 && !IsBlank(c)
    requires Parse(k, l + [c]).tag != ErrorTag
    ensures Run(types, NameDone(name), (l + [c]) + " ") == Finish(Scan(name, l + [c], Closed(k), InitialFlags, []), k)
  {
    TokenAfterName(types, name, k, l);
    ClosedThenBlank(types, name, k, l, c);
    RunThen(types, NameDone(name), l, [c] + " ", Scan(name, l, Reading(k), InitialFlags, []));
    assert (l + [c]) + " " == l + ([c] + " ");
  }

  /** A first argument whose rule ends on its last, non-blank character is
      closed with that character in it, and when the parse of the whole text
      succeeds `interpret` returns it as the one argument. */
  lemma ParsedClosedToken(types: seq<TypeRule>, line: string, name: string, k: Kind, l: string, c: char)
    requires line == name + " " + l + [c]
    requires NameText(name) && |l| >= 1 && k != StringType && Choose(types, l[0]) == Some(k)
    requires forall i :: 1 <= i < |l| ==> End(k, l[i], InitialFlags) == (false, InitialFlags)
    requires End(k, c, InitialFlags).0 && !IsTrimSpace(c)
    requires Parse(k, l + [c]).tag != ErrorTag
    ensures Interpret(types, line) ==
              Parsed(Success, Upper(name), [Parse(k, l + [c]).(literal := Some(Trim(l + [c])))])
  {
    ClosedToBlankParsed(types, name, k, l, c);
    var f := Finish(Scan(name, l + [c], Closed(k), InitialFlags, []), k);
    assert f.Next? && f.s.cmd == name && f.s.args == [Parse(k, l + [c]).(literal := Some(Trim(l + [c])))];
    assert line == name + [' '] + (l + [c]);
    InterpretAfterName(types, line, name, l + [c], f.s);
  }

  /** The number rule starts on `5` and ends on U+1F600, and `parseFloat`
      reads `5\U{1F600}`, which trims to itself, as 5. */
  lemma AstralNumberText()
    ensures Choose(DefaultTypes, '5') == Some(NumberType)
    ensures End(NumberType, '\U{1F600}', InitialFlags).0
    ensures Parse(NumberType, "5\U{1F600}") == Value(Number("5"), "number", None)
    ensures Trim("5\U{1F600}") == "5\U{1F600}"
  {
    DefaultTypesChoose();
    assert Choose(DefaultTypes, '5') == DefaultChoice('5');
    var l := "5\U{1F600}";
    assert NumberPrefix(l) == Some("5") by {
      assert l[0..] == l && !IsDigit(l[1]);
      assert LeadingDigits(l[1..]) == 0;
      assert LeadingDigits(l) == 1;
      assert l[1..] == ['\U{1F600}'] && l[..1] == "5";
    }
  }

  /** A character above U+FFFF after a number: the number rule ends on it,
      the blank completes `5\U{1F600}`, and `parseFloat` reads 5, so
      `interpret` succeeds. */
  lemma AstralAfterNumber(name: string)
    requires NameText(name)
    ensures Interpret(DefaultTypes, name + " 5\U{1F600}") ==
              Parsed(Success, Upper(name), [Value(Number("5"), "number", Some("5\U{1F600}"))])
  {
    AstralNumberText();
    assert "5" + ['\U{1F600}'] == "5\U{1F600}";
    ParsedClosedToken(DefaultTypes, name + " 5\U{1F600}", name, NumberType, "5", '\U{1F600}');
  }

  /** The variable rule starts on `$`, keeps `a` and ends on U+1F600, and
      `$a\U{1F600}` trims to itself. */
  lemma AstralVariableText()
    ensures Choose(DefaultTypes, '$') == Some(VariableType)
    ensures End(VariableType, 'a', InitialFlags) == (false, InitialFlags)
    ensures End(VariableType, '\U{1F600}', InitialFlags).0
    ensures Trim("$a\U{1F600}") == "$a\U{1F600}"
  {
    DefaultTypesChoose();
    assert Choose(DefaultTypes, '$') == DefaultChoice('$');
  }

  /** Likewise after a variable: `$a\U{1F600}` becomes one variable argument. */
  lemma AstralAfterVariable(name: string)
    requires NameText(name)
    ensures Interpret(DefaultTypes, name + " $a\U{1F600}") ==
              Parsed(Success, Upper(name), [Value(Str("$a\U{1F600}"), "variable", Some("$a\U{1F600}"))])
  {
    AstralVariableText();
    assert "$a" + ['\U{1F600}'] == "$a\U{1F600}";
    ParsedClosedToken(DefaultTypes, name + " $a\U{1F600}", name, VariableType, "$a", '\U{1F600}');
  }

  /** After a symbol the closed text `+\U{1F600}` is no operator: 0x7. */
  lemma AstralAfterSymbol(name: string)
    requires NameText(name)
    ensures Interpret(DefaultTypes, name + " +\U{1F600}") == Parsed(SyntaxError, "", [])
  {
    DefaultTypesChoose();
    assert Choose(DefaultTypes, '+') == DefaultChoice('+') == Some(SymbolType);
    assert !IsOperator("+" + ['\U{1F600}']);
    MisparsedClosedToken(DefaultTypes, name, SymbolType, "+", '\U{1F600}');
    assert name + " " + "+" + ['\U{1F600}'] == name + " +\U{1F600}";
  }
}
