/** Writing a command line from a name and argument values, and the round
    trip through `interpret` with the built-in registry. Also the two string
    quirks: an unclosed string is dropped, and a backslash makes the string
    swallow the rest of the line. */
module Encoding {
  import opened Common
  import opened Text
  import opened Types
  import opened Registry
  import opened Tokenizer
  import opened TokenizerFacts

  /** Text the number rule reads in full and `parseFloat` consumes entirely. */
  ghost predicate NumberText(l: string) {
    && |l| >= 1
    && (l[0] == '-' || IsNumeral(l[0]))
    && (forall i :: 1 <= i < |l| ==> IsNumeral(l[i]))
    && NumberPrefix(l) == Some(l)
  }

  /** A number whose literal is a decimal the number rule reads whole. */
  ghost predicate NumberLit(v: Value) {
    v.tag == "number" && v.literal.Some? && NumberText(v.literal.value) && v.val == Number(v.literal.value)
  }

  /** A boolean written `t`, `true`, `f` or `false`. */
  ghost predicate BoolLit(v: Value) {
    && v.tag == "bool" && v.literal.Some? && v.val.Boolean?
    && var l := v.literal.value;
       if v.val.b then l == "t" || l == "true" else l == "f" || l == "false"
  }

  /** An operator that does not start with a minus (which would start a number). */
  ghost predicate SymbolLit(v: Value) {
    && v.tag == "symbol" && v.literal.Some?
    && var l := v.literal.value;
       v.val == Str(l) && IsOperator(l) && l[0] != '-'
  }

  /** A quoted string with neither its quote nor a backslash inside. */
  ghost predicate StringLit(v: Value) {
    && v.tag == "string" && v.literal.Some?
    && var l := v.literal.value;
       && |l| >= 2 && IsQuote(l[0]) && l[|l| - 1] == l[0] && v.val == Str(l[1..|l| - 1])
       && forall i :: 1 <= i < |l| - 1 ==> l[i] != l[0] && l[i] != '\\'
  }

  /** A `$` followed by variable characters; the payload keeps the `$`. */
  ghost predicate VariableLit(v: Value) {
    && v.tag == "variable" && v.literal.Some?
    && var l := v.literal.value;
       && v.val == Str(l) && |l| >= 1 && l[0] == VariableMark
       && forall i :: 1 <= i < |l| ==> IsVarChar(l[i])
  }

  /** A value whose literal the built-in rules read back as the same value. */
  ghost predicate Canonical(v: Value) {
    NumberLit(v) || BoolLit(v) || SymbolLit(v) || StringLit(v) || VariableLit(v)
  }

  /** A command name the line can start with. */
  ghost predicate NameText(w: string) {
    w != "" && w[0] != '#' && forall i :: 0 <= i < |w| ==> !IsTrimSpace(w[i])
  }

  ghost predicate AllCanonical(args: seq<Value>) {
    && (forall i :: 0 <= i < |args| ==> args[i].literal.Some?)
    && (forall i :: 0 <= i < |args| ==> Canonical(args[i]))
  }

  function Lit(v: Value): string
    requires v.literal.Some?
  {
    v.literal.value
  }

  /** The literals of a non-empty argument list, separated by one space. */
  function Joined(args: seq<Value>): string
    requires args != [] && forall i :: 0 <= i < |args| ==> args[i].literal.Some?
    decreases |args|
  {
    if |args| == 1 then Lit(args[0]) else Lit(args[0]) + " " + Joined(args[1..])
  }

  /** The arguments, each followed by one space. */
  function Spaced(args: seq<Value>): string
    requires forall i :: 0 <= i < |args| ==> args[i].literal.Some?
    decreases |args|
  {
    if args == [] then "" else Lit(args[0]) + " " + Spaced(args[1..])
  }

  /** The line `name arg1 arg2 ...`. */
  function Render(name: string, args: seq<Value>): string
    requires forall i :: 0 <= i < |args| ==> args[i].literal.Some?
  {
    if args == [] then name else name + " " + Joined(args)
  }

  lemma {:induction false} JoinedSpaced(args: seq<Value>)
    requires args != [] && forall i :: 0 <= i < |args| ==> args[i].literal.Some?
    ensures Joined(args) + " " == Spaced(args)
    decreases |args|
  {
    if |args| == 1 {
      assert Spaced(args) == Lit(args[0]) + " " + Spaced(args[1..]);
      assert Spaced(args[1..]) == "";
    } else {
      JoinedSpaced(args[1..]);
      assert Joined(args) + " " == Lit(args[0]) + " " + (Joined(args[1..]) + " ");
    }
  }

  /** Between two tokens: the name is read, nothing is pending, and no
      backslash has been seen. */
  ghost predicate Between(s: Scan) {
    s.cmd != "" && s.word == "" && s.mode == Idle && s.flags.wasSpace && !s.flags.escape && !s.flags.skipChar
  }

  /** The rule the built-in registry picks for a first character. */
  function DefaultChoice(c: char): Option<Kind> {
    if Begins(NumberType, c) then Some(NumberType)
    else if Begins(BoolType, c) then Some(BoolType)
    else if Begins(SymbolType, c) then Some(SymbolType)
    else if Begins(StringType, c) then Some(StringType)
    else if Begins(VariableType, c) then Some(VariableType)
    else None
  }

  /** A registry that picks rules as the built-in one does. */
  ghost predicate ChoosesAsDefault(types: seq<TypeRule>) {
    forall c :: Choose(types, c) == DefaultChoice(c)
  }

  lemma DefaultTypesChoose()
    ensures ChoosesAsDefault(DefaultTypes)
  {
    forall c
      ensures Choose(DefaultTypes, c) == DefaultChoice(c)
    {
    }
  }

  /** Characters the active rule does not end on accumulate into the word. */
  lemma {:induction false} ReadThrough(types: seq<TypeRule>, s: Scan, x: string)
    requires s.cmd != "" && s.mode.Reading? && !s.flags.wasSpace
    requires forall i :: 0 <= i < |x| ==> End(s.mode.k, x[i], s.flags) == (false, s.flags)
    ensures Run(types, s, x) == Next(s.(word := s.word + x))
    decreases |x|
  {
    if x != [] {
      var s1 := s.(word := s.word + [x[0]]);
      assert Step(types, s, x[0]) == Next(s1);
      ReadThrough(types, s1, x[1..]);
      assert s.word + [x[0]] + x[1..] == s.word + x;
    } else {
      assert s.word + x == s.word;
    }
  }

  /** The first character of a token selects its rule. */
  lemma BeginToken(types: seq<TypeRule>, s: Scan, c: char, k: Kind)
    requires Between(s) && Choose(types, c) == Some(k)
    ensures Step(types, s, c) == Next(Scan(s.cmd, [c], Reading(k), OnBegin(k, c, s.flags).(wasSpace := false), s.args))
  {
  }

  /** A blank that ends the active rule completes its token. */
  lemma CompleteToken(types: seq<TypeRule>, s: Scan, k: Kind)
    requires s.cmd != "" && s.mode == Reading(k) && End(k, ' ', s.flags) == (true, s.flags)
    ensures Step(types, s, ' ') == Finish(s, k)
  {
  }

  /** The characters of a token its rule does not end on, read from
      between tokens, leave that rule active with the token as its word. */
  lemma ReadToken(types: seq<TypeRule>, s: Scan, k: Kind, l: string)
    requires Between(s) && |l| >= 1 && k != StringType
    requires Choose(types, l[0]) == Some(k)
    requires forall i :: 1 <= i < |l| ==> End(k, l[i], s.flags.(wasSpace := false)) == (false, s.flags.(wasSpace := false))
    ensures Run(types, s, l) == Next(Scan(s.cmd, l, Reading(k), s.flags.(wasSpace := false), s.args))
  {
    var s1 := Scan(s.cmd, [l[0]], Reading(k), s.flags.(wasSpace := false), s.args);
    BeginToken(types, s, l[0], k);
    assert Run(types, s, [l[0]]) == Next(s1);
    ReadThrough(types, s1, l[1..]);
    assert [l[0]] + l[1..] == l;
    RunThen(types, s, [l[0]], l[1..], s1);
  }

  /** A token of a rule that ends on a blank: its first character selects
      the rule, the others do not end it, and the blank after it completes it. */
  lemma BlankEndedToken(types: seq<TypeRule>, s: Scan, k: Kind, l: string, v: Value)
    requires Between(s) && |l| >= 1 && k != StringType
    requires Choose(types, l[0]) == Some(k)
    requires forall i :: 1 <= i < |l| ==> End(k, l[i], s.flags.(wasSpace := false)) == (false, s.flags.(wasSpace := false))
    requires End(k, ' ', s.flags.(wasSpace := false)) == (true, s.flags.(wasSpace := false))
    requires Finish(Scan(s.cmd, l, Reading(k), s.flags.(wasSpace := false), s.args), k) == Next(s.(args := s.args + [v]))
    ensures Run(types, s, l + " ") == Next(s.(args := s.args + [v]))
  {
    var s2 := Scan(s.cmd, l, Reading(k), s.flags.(wasSpace := false), s.args);
    ReadToken(types, s, k, l);
    CompleteToken(types, s2, k);
    assert Run(types, s2, " ") == Next(s.(args := s.args + [v]));
    RunThen(types, s, l, " ", s2);
  }

  /** The quote that opened a string, with no backslash seen, closes it. */
  lemma CloseQuote(types: seq<TypeRule>, s: Scan, q: char)
    requires s.cmd != "" && s.mode == Reading(StringType)
    requires !s.flags.escape && !s.flags.skipChar && s.flags.quote == Some(q) && IsQuote(q)
    ensures Step(types, s, q) == Next(Append(s.(mode := Closed(StringType)), q))
  {
  }

  /** A blank after a closed token completes it. */
  lemma CompleteClosed(types: seq<TypeRule>, s: Scan, k: Kind)
    requires s.cmd != "" && s.mode == Closed(k) && !s.flags.wasSpace && s.word != ""
    ensures Step(types, s, ' ') == Finish(s, k)
  {
  }

  /** The opening quote and a body without that quote or a backslash
      leave the string rule reading. */
  lemma OpenQuoted(types: seq<TypeRule>, s: Scan, q: char, body: string)
    requires Between(s) && IsQuote(q) && Choose(types, q) == Some(StringType)
    requires forall i :: 0 <= i < |body| ==> body[i] != q && body[i] != '\\'
    ensures Run(types, s, [q] + body) ==
            Next(Scan(s.cmd, [q] + body, Reading(StringType), s.flags.(wasSpace := false, quote := Some(q)), s.args))
  {
    var f := s.flags.(wasSpace := false, quote := Some(q));
    var s1 := Scan(s.cmd, [q], Reading(StringType), f, s.args);
    BeginToken(types, s, q, StringType);
    assert Run(types, s, [q]) == Next(s1);
    ReadThrough(types, s1, body);
    RunThen(types, s, [q], body, s1);
  }

  /** The closing quote and the blank after it complete the string. */
  lemma CloseQuoted(types: seq<TypeRule>, s: Scan, q: char, body: string, v: Value)
    requires Between(s) && IsQuote(q)
    requires v == Value(Str(body), "string", Some([q] + body + [q]))
    ensures var s2 := Scan(s.cmd, [q] + body, Reading(StringType), s.flags.(wasSpace := false, quote := Some(q)), s.args);
            Run(types, s2, [q] + " ") == Next(s.(args := s.args + [v], flags := s.flags.(quote := Some(q))))
  {
    var l := [q] + body + [q];
    var f := s.flags.(wasSpace := false, quote := Some(q));
    var s2 := Scan(s.cmd, [q] + body, Reading(StringType), f, s.args);
    CloseQuote(types, s2, q);
    var s3 := Scan(s.cmd, l, Closed(StringType), f, s.args);
    assert Run(types, s2, [q]) == Next(s3);
    CharClasses(q);
    TrimOfTrimmed(l);
    assert Unquote(l) == body;
    CompleteClosed(types, s3, StringType);
    assert Run(types, s3, " ") == Next(s.(args := s.args + [v], flags := s.flags.(quote := Some(q))));
    RunThen(types, s2, [q], " ", s3);
  }

  /** A quoted string without its quote or a backslash inside: the quote
      selects the string rule, the closing quote ends it, the blank after
      completes it. */
  lemma QuotedToken(types: seq<TypeRule>, s: Scan, q: char, body: string, v: Value)
    requires Between(s) && IsQuote(q) && Choose(types, q) == Some(StringType)
    requires forall i :: 0 <= i < |body| ==> body[i] != q && body[i] != '\\'
    requires v == Value(Str(body), "string", Some([q] + body + [q]))
    ensures Run(types, s, [q] + body + [q] + " ") == Next(s.(args := s.args + [v], flags := s.flags.(quote := Some(q))))
  {
    OpenQuoted(types, s, q, body);
    CloseQuoted(types, s, q, body, v);
    var s2 := Scan(s.cmd, [q] + body, Reading(StringType), s.flags.(wasSpace := false, quote := Some(q)), s.args);
    RunThen(types, s, [q] + body, [q] + " ", s2);
    assert [q] + body + [q] + " " == ([q] + body) + ([q] + " ");
  }

  lemma QuotedText(q: char, body: string)
    ensures [q] + body + [q] + " " == [q] + (body + ([q] + " "))
  {
  }

  /** The operators are one or two symbol characters. */
  lemma OperatorText(l: string)
    requires IsOperator(l)
    ensures 1 <= |l| <= 2 && forall i :: 0 <= i < |l| ==> IsSymbolChar(l[i])
  {
  }

  /** Facts about the character classes of the built-in rules. */
  lemma CharClasses(c: char)
    ensures IsNumeral(c) || c == '-' || IsSymbolChar(c) || IsVarChar(c) || c == VariableMark || IsQuote(c) ==> !IsTrimSpace(c)
    ensures !IsNumeral(' ') && !IsSymbolChar(' ') && !IsVarChar(' ')
  {
  }

  /** A symbol character other than the minus starts no number. */
  lemma SymbolStartsNoNumber(c: char)
    requires IsSymbolChar(c) && c != '-'
    ensures !Begins(NumberType, c) && !Begins(BoolType, c)
  {
    assert IsNumeral(c) ==> c == '.' || IsDigit(c);
    assert c != '.' && !IsDigit(c);
  }

  lemma EndBlank(c: char, f: Flags)
    requires !IsBlank(c)
    ensures End(BoolType, c, f) == (false, f)
  {
  }

  /** The four boolean words have no blank, are their own trim and parse to their value. */
  lemma BoolWord(l: string, b: bool)
    requires if b then l == "t" || l == "true" else l == "f" || l == "false"
    ensures forall i :: 0 <= i < |l| ==> !IsBlank(l[i])
    ensures Trim(l) == l && Parse(BoolType, l) == Value(Boolean(b), "bool", None)
    ensures Parse(BoolType, l).(literal := Some(Trim(l))) == Value(Boolean(b), "bool", Some(l))
  {
    TrimOfTrimmed(l);
  }

  /** A blank-free word the bool rule parses to `v` meets the demands of
      `BlankEndedToken`. */
  lemma BlankFreeEnds(s: Scan, l: string, v: Value)
    requires Between(s) && forall i :: 0 <= i < |l| ==> !IsBlank(l[i])
    requires v.tag == "bool" && Parse(BoolType, l).(literal := Some(Trim(l))) == v
    ensures var f := s.flags.(wasSpace := false);
            && (forall i :: 1 <= i < |l| ==> End(BoolType, l[i], f) == (false, f))
            && End(BoolType, ' ', f) == (true, f)
            && Finish(Scan(s.cmd, l, Reading(BoolType), f, s.args), BoolType) == Next(s.(args := s.args + [v]))
  {
    var f := s.flags.(wasSpace := false);
    forall i | 1 <= i < |l|
      ensures End(BoolType, l[i], f) == (false, f)
    {
      EndBlank(l[i], f);
    }
    var sc := Scan(s.cmd, l, Reading(BoolType), f, s.args);
    assert f.(wasSpace := true) == s.flags;
    assert Finish(sc, BoolType) == Next(sc.(word := "", mode := Idle, flags := s.flags, args := s.args + [v]));
  }

  /** A boolean literal meets the demands of `BlankEndedToken`. */
  lemma BoolEnds(s: Scan, v: Value)
    requires Between(s) && BoolLit(v)
    ensures var l, f := Lit(v), s.flags.(wasSpace := false);
            && (forall i :: 1 <= i < |l| ==> End(BoolType, l[i], f) == (false, f))
            && End(BoolType, ' ', f) == (true, f)
            && Finish(Scan(s.cmd, l, Reading(BoolType), f, s.args), BoolType) == Next(s.(args := s.args + [v]))
  {
    var l := Lit(v);
    BoolWord(l, v.val.b);
    BlankFreeEnds(s, l, v);
  }

  lemma NumberToken(types: seq<TypeRule>, s: Scan, v: Value)
    requires Between(s) && NumberLit(v) && Choose(types, Lit(v)[0]) == Some(NumberType)
    ensures Run(types, s, Lit(v) + " ") == Next(s.(args := s.args + [v]))
  {
    var l := Lit(v);
    CharClasses(l[0]);
    CharClasses(l[|l| - 1]);
    CharClasses(' ');
    TrimOfTrimmed(l);
    BlankEndedToken(types, s, NumberType, l, v);
  }

  lemma BoolToken(types: seq<TypeRule>, s: Scan, v: Value)
    requires Between(s) && BoolLit(v) && Choose(types, Lit(v)[0]) == Some(BoolType)
    ensures Run(types, s, Lit(v) + " ") == Next(s.(args := s.args + [v]))
  {
    BoolEnds(s, v);
    BlankEndedToken(types, s, BoolType, Lit(v), v);
  }

  lemma SymbolToken(types: seq<TypeRule>, s: Scan, v: Value)
    requires Between(s) && SymbolLit(v) && Choose(types, Lit(v)[0]) == Some(SymbolType)
    ensures Run(types, s, Lit(v) + " ") == Next(s.(args := s.args + [v]))
  {
    var l := Lit(v);
    OperatorText(l);
    CharClasses(l[0]);
    CharClasses(l[|l| - 1]);
    TrimOfTrimmed(l);
    CharClasses(' ');
    BlankEndedToken(types, s, SymbolType, Lit(v), v);
  }

  lemma VariableToken(types: seq<TypeRule>, s: Scan, v: Value)
    requires Between(s) && VariableLit(v) && Choose(types, Lit(v)[0]) == Some(VariableType)
    ensures Run(types, s, Lit(v) + " ") == Next(s.(args := s.args + [v]))
  {
    var l := Lit(v);
    CharClasses(l[0]);
    CharClasses(l[|l| - 1]);
    TrimOfTrimmed(l);
    CharClasses(' ');
    BlankEndedToken(types, s, VariableType, Lit(v), v);
  }

  /** The built-in registry picks the rule of each canonical literal from its
      first character. */
  lemma CanonicalChoice(types: seq<TypeRule>, v: Value)
    requires Canonical(v) && Choose(types, Lit(v)[0]) == DefaultChoice(Lit(v)[0])
    ensures NumberLit(v) ==> Choose(types, Lit(v)[0]) == Some(NumberType)
    ensures BoolLit(v) ==> Choose(types, Lit(v)[0]) == Some(BoolType)
    ensures SymbolLit(v) ==> Choose(types, Lit(v)[0]) == Some(SymbolType)
    ensures StringLit(v) ==> Choose(types, Lit(v)[0]) == Some(StringType)
    ensures VariableLit(v) ==> Choose(types, Lit(v)[0]) == Some(VariableType)
  {
    var c := Lit(v)[0];
    if SymbolLit(v) {
      OperatorText(Lit(v));
      SymbolStartsNoNumber(c);
    }
  }

  /** The quote a token leaves in the shared flags: a string's own quote,
      otherwise the one already there. */
  function TokenQuote(q: Option<char>, v: Value): Option<char> {
    if v.tag == "string" && v.literal.Some? && Lit(v) != [] then Some(Lit(v)[0]) else q
  }

  /** The loop state after the token of `v`. */
  function After(s: Scan, v: Value): Scan {
    s.(args := s.args + [v], flags := s.flags.(quote := TokenQuote(s.flags.quote, v)))
  }

  /** The loop state after the tokens of `args`, in order. */
  function AfterAll(s: Scan, args: seq<Value>): (r: Scan)
    ensures r.cmd == s.cmd && r.word == s.word && r.mode == s.mode
    ensures r.flags.wasSpace == s.flags.wasSpace && r.flags.skipChar == s.flags.skipChar
    ensures r.flags.escape == s.flags.escape
    decreases |args|
  {
    if args == [] then s else AfterAll(After(s, args[0]), args[1..])
  }

  /** The tokens of `args` append exactly `args`. */
  lemma {:induction false} AfterAllArgs(s: Scan, args: seq<Value>)
    ensures AfterAll(s, args).args == s.args + args
    decreases |args|
  {
    if args == [] {
      assert s.args + args == s.args;
    } else {
      AfterAllArgs(After(s, args[0]), args[1..]);
      assert s.args + [args[0]] + args[1..] == s.args + args;
    }
  }

  /** Every canonical value's literal, followed by a blank, is read back as
      that value, and the loop is again between tokens. */
  lemma CanonicalToken(types: seq<TypeRule>, s: Scan, v: Value)
    requires Between(s) && Canonical(v) && Choose(types, Lit(v)[0]) == DefaultChoice(Lit(v)[0])
    ensures Run(types, s, Lit(v) + " ") == Next(After(s, v))
  {
    CanonicalChoice(types, v);
    if NumberLit(v) {
      NumberToken(types, s, v);
    } else if BoolLit(v) {
      BoolToken(types, s, v);
    } else if SymbolLit(v) {
      SymbolToken(types, s, v);
    } else if StringLit(v) {
      var l := Lit(v);
      assert l == [l[0]] + l[1..|l| - 1] + [l[0]];
      QuotedToken(types, s, l[0], l[1..|l| - 1], v);
    } else {
      VariableToken(types, s, v);
    }
  }

  /** The registry picks the rule of each argument's first character as the
      built-in one does. */
  ghost predicate FirstCharsAsDefault(types: seq<TypeRule>, args: seq<Value>)
    requires forall i :: 0 <= i < |args| ==> args[i].literal.Some?
  {
    forall i :: 0 <= i < |args| && Lit(args[i]) != [] ==> Choose(types, Lit(args[i])[0]) == DefaultChoice(Lit(args[i])[0])
  }

  lemma FirstChars(types: seq<TypeRule>, args: seq<Value>)
    requires ChoosesAsDefault(types) && forall i :: 0 <= i < |args| ==> args[i].literal.Some?
    ensures FirstCharsAsDefault(types, args)
  {
  }

  /** What the token loop needs from the first argument and the rest. */
  lemma ArgsSplit(types: seq<TypeRule>, args: seq<Value>)
    requires args != [] && AllCanonical(args) && FirstCharsAsDefault(types, args)
    ensures Canonical(args[0]) && |Lit(args[0])| >= 1
    ensures Choose(types, Lit(args[0])[0]) == DefaultChoice(Lit(args[0])[0])
    ensures AllCanonical(args[1..]) && FirstCharsAsDefault(types, args[1..])
    ensures Spaced(args) == (Lit(args[0]) + " ") + Spaced(args[1..])
  {
    assert Canonical(args[0]);
    LitEnds(args[0]);
    forall i | 0 <= i < |args[1..]| && Lit(args[1..][i]) != []
      ensures Choose(types, Lit(args[1..][i])[0]) == DefaultChoice(Lit(args[1..][i])[0])
    {
      assert args[1..][i] == args[i + 1];
    }
  }

  lemma {:induction false} CanonicalTokens(types: seq<TypeRule>, s: Scan, args: seq<Value>)
    requires Between(s) && AllCanonical(args) && FirstCharsAsDefault(types, args)
    ensures Run(types, s, Spaced(args)) == Next(AfterAll(s, args))
    decreases |args|
  {
    if args != [] {
      var v := args[0];
      ArgsSplit(types, args);
      CanonicalToken(types, s, v);
      CanonicalTokens(types, After(s, v), args[1..]);
      RunThen(types, s, Lit(v) + " ", Spaced(args[1..]), After(s, v));
    }
  }

  /** A canonical literal is not empty and does not end in a trim-space. */
  lemma LitEnds(v: Value)
    requires Canonical(v)
    ensures |Lit(v)| >= 1 && !IsTrimSpace(Lit(v)[|Lit(v)| - 1])
  {
    var l := Lit(v);
    var c := l[|l| - 1];
    if NumberLit(v) {
      assert IsNumeral(c) || c == '-';
    } else if BoolLit(v) {
      assert c == 't' || c == 'e' || c == 'f';
    } else if SymbolLit(v) {
      OperatorText(l);
      assert IsSymbolChar(c);
    } else if StringLit(v) {
      assert IsQuote(c);
    } else {
      assert IsVarChar(c) || c == VariableMark;
    }
    CharClasses(c);
  }

  /** The joined literals end with the last literal's last character. */
  lemma {:induction false} JoinedEnds(args: seq<Value>)
    requires args != [] && AllCanonical(args)
    ensures var t := Joined(args); t != [] && !IsTrimSpace(t[|t| - 1])
    decreases |args|
  {
    if |args| == 1 {
      assert Canonical(args[0]);
      LitEnds(args[0]);
    } else {
      assert AllCanonical(args[1..]) by {
        forall i | 0 <= i < |args[1..]|
          ensures args[1..][i].literal.Some? && Canonical(args[1..][i])
        {
          assert args[1..][i] == args[i + 1];
        }
      }
      JoinedEnds(args[1..]);
    }
  }

  /** `interpret` of a name followed by a blank and more text, when the loop
      gets through the rest with the name unchanged. */
  lemma InterpretAfterName(types: seq<TypeRule>, line: string, name: string, rest: string, st: Scan)
    requires line == name + [' '] + rest
    requires NameText(name) && rest != [] && !IsTrimSpace(rest[|rest| - 1])
    requires Run(types, NameDone(name), rest + " ") == Next(st) && st.cmd == name
    ensures Interpret(types, line) == Parsed(Success, Upper(name), st.args)
  {
    assert line[0] == name[0] && line[|line| - 1] == rest[|rest| - 1];
    TrimOfTrimmed(line);
    assert line + " " == name + [' '] + (rest + " ");
    AfterName(types, name, ' ', rest + " ");
  }

  /** `interpret` of a name followed by a blank and more text, when the loop
      halts on the rest: the code, with no command and no arguments. */
  lemma InterpretHaltAfterName(types: seq<TypeRule>, line: string, name: string, rest: string, code: int)
    requires line == name + [' '] + rest
    requires NameText(name) && rest != [] && !IsTrimSpace(rest[|rest| - 1])
    requires Run(types, NameDone(name), rest + " ") == Halt(code)
    ensures Interpret(types, line) == Parsed(code, "", [])
  {
    assert line[0] == name[0] && line[|line| - 1] == rest[|rest| - 1];
    TrimOfTrimmed(line);
    assert line + " " == name + [' '] + (rest + " ");
    AfterName(types, name, ' ', rest + " ");
  }

  /** `interpret` of a bare name. */
  lemma InterpretName(types: seq<TypeRule>, name: string)
    requires NameText(name)
    ensures Interpret(types, name) == Parsed(Success, Upper(name), [])
  {
    TrimOfTrimmed(name);
    AfterName(types, name, ' ', "");
    assert name + [' '] + "" == name + " ";
  }

  /** The round trip, for any registry that picks rules as the built-in one
      does. */
  lemma RenderInterpretWith(types: seq<TypeRule>, name: string, args: seq<Value>)
    requires NameText(name) && AllCanonical(args) && FirstCharsAsDefault(types, args)
    ensures Interpret(types, Render(name, args)) == Parsed(Success, Upper(name), args)
  {
    if args == [] {
      InterpretName(types, name);
    } else {
      JoinedEnds(args);
      JoinedSpaced(args);
      CanonicalTokens(types, NameDone(name), args);
      AfterAllArgs(NameDone(name), args);
      assert [] + args == args;
      InterpretAfterName(types, Render(name, args), name, Joined(args), AfterAll(NameDone(name), args));
    }
  }

  /** The round trip: rendering a name and canonical arguments and then
      interpreting the line with the built-in registry gives success, the
      upper-cased name, and exactly those arguments. */
  lemma RenderInterpret(name: string, args: seq<Value>)
    requires NameText(name) && AllCanonical(args)
    ensures Interpret(DefaultTypes, Render(name, args)) == Parsed(Success, Upper(name), args)
  {
    DefaultTypesChoose();
    FirstChars(DefaultTypes, args);
    RenderInterpretWith(DefaultTypes, name, args);
  }

  /** A string opened by quote `q` and never closed reads to the end of the
      line without producing a value. */
  lemma OpenString(types: seq<TypeRule>, name: string, q: char, body: string)
    requires Choose(types, q) == Some(StringType) && IsQuote(q) && name != ""
    requires forall i :: 0 <= i < |body| ==> body[i] != q && body[i] != '\\'
    ensures Run(types, NameDone(name), [q] + body) ==
            Next(Scan(name, [q] + body, Reading(StringType), InitialFlags.(quote := Some(q)), []))
  {
    var s := NameDone(name);
    var f := InitialFlags.(quote := Some(q));
    assert s.flags.(wasSpace := false, quote := Some(q)) == f;
    var s1 := Scan(name, [q], Reading(StringType), f, []);
    BeginToken(types, s, q, StringType);
    assert Run(types, s, [q]) == Next(s1);
    ReadThrough(types, s1, body);
    RunThen(types, s, [q], body, s1);
  }

  lemma UnclosedRun(types: seq<TypeRule>, name: string, q: char, body: string)
    requires Choose(types, q) == Some(StringType) && IsQuote(q) && name != ""
    requires forall i :: 0 <= i < |body| ==> body[i] != q && body[i] != '\\'
    ensures Run(types, NameDone(name), [q] + body + " ") ==
            Next(Scan(name, [q] + body + " ", Reading(StringType), InitialFlags.(quote := Some(q)), []))
  {
    var b := body + " ";
    assert forall i :: 0 <= i < |b| ==> b[i] != q && b[i] != '\\';
    OpenString(types, name, q, b);
    assert [q] + body + " " == [q] + b;
  }

  lemma UnclosedWith(types: seq<TypeRule>, name: string, q: char, body: string)
    requires NameText(name) && IsQuote(q) && Choose(types, q) == Some(StringType)
    requires forall i :: 0 <= i < |body| ==> body[i] != q && body[i] != '\\'
    requires body == [] || !IsTrimSpace(body[|body| - 1])
    ensures Interpret(types, name + " " + [q] + body) == Parsed(Success, Upper(name), [])
  {
    UnclosedRun(types, name, q, body);
    CharClasses(q);
    var st := Scan(name, [q] + body + " ", Reading(StringType), InitialFlags.(quote := Some(q)), []);
    InterpretAfterName(types, name + " " + [q] + body, name, [q] + body, st);
  }

  /** A string whose closing quote never comes is dropped: `interpret`
      succeeds without that argument. */
  lemma UnclosedStringDropped(name: string, q: char, body: string)
    requires NameText(name) && IsQuote(q)
    requires forall i :: 0 <= i < |body| ==> body[i] != q && body[i] != '\\'
    requires body == [] || !IsTrimSpace(body[|body| - 1])
    ensures Interpret(DefaultTypes, name + " " + [q] + body) == Parsed(Success, Upper(name), [])
  {
    DefaultTypesChoose();
    assert Choose(DefaultTypes, q) == DefaultChoice(q);
    UnclosedWith(DefaultTypes, name, q, body);
  }

  /** After a backslash the string rule accepts every character. */
  lemma Escaped(types: seq<TypeRule>, s: Scan, q: char, y: string)
    requires s.cmd != "" && s.mode == Reading(StringType) && !s.flags.wasSpace
    requires s.flags.quote == Some(q) && !s.flags.escape && !s.flags.skipChar
    ensures Run(types, s, "\\" + y) ==
            Next(s.(word := s.word + "\\" + y, flags := s.flags.(escape := true, skipChar := true)))
  {
    var s1 := s.(word := s.word + "\\", flags := s.flags.(escape := true, skipChar := true));
    assert Step(types, s, '\\') == Next(s1);
    assert Run(types, s, "\\") == Next(s1);
    ReadThrough(types, s1, y);
    RunThen(types, s, "\\", y, s1);
  }

  lemma EscapeRun(types: seq<TypeRule>, name: string, q: char, x: string, y: string)
    requires Choose(types, q) == Some(StringType) && IsQuote(q) && name != ""
    requires forall i :: 0 <= i < |x| ==> x[i] != q && x[i] != '\\'
    ensures Run(types, NameDone(name), [q] + x + "\\" + y + " ") ==
            Next(Scan(name, [q] + x + "\\" + y + " ", Reading(StringType),
                      InitialFlags.(quote := Some(q), escape := true, skipChar := true), []))
  {
    OpenString(types, name, q, x);
    var f := InitialFlags.(quote := Some(q));
    var s2 := Scan(name, [q] + x, Reading(StringType), f, []);
    Escaped(types, s2, q, y + " ");
    RunThen(types, NameDone(name), [q] + x, "\\" + (y + " "), s2);
    assert [q] + x + "\\" + y + " " == ([q] + x) + ("\\" + (y + " "));
  }

  lemma EscapeShape(name: string, q: char, x: string, y: string)
    requires y == [] || !IsTrimSpace(y[|y| - 1])
    ensures var r := [q] + x + "\\" + y;
            && name + " " + [q] + x + "\\" + y == name + [' '] + r
            && r != [] && !IsTrimSpace(r[|r| - 1])
  {
    var r := [q] + x + "\\" + y;
    assert r[|r| - 1] == if y == [] then '\\' else y[|y| - 1];
  }

  lemma EscapeWith(types: seq<TypeRule>, name: string, q: char, x: string, y: string)
    requires NameText(name) && IsQuote(q) && Choose(types, q) == Some(StringType)
    requires forall i :: 0 <= i < |x| ==> x[i] != q && x[i] != '\\'
    requires y == [] || !IsTrimSpace(y[|y| - 1])
    ensures Interpret(types, name + " " + [q] + x + "\\" + y) == Parsed(Success, Upper(name), [])
  {
    EscapeRun(types, name, q, x, y);
    EscapeShape(name, q, x, y);
    var st := Scan(name, [q] + x + "\\" + y + " ", Reading(StringType),
                   InitialFlags.(quote := Some(q), escape := true, skipChar := true), []);
    InterpretAfterName(types, name + [' '] + ([q] + x + "\\" + y), name, [q] + x + "\\" + y, st);
  }

  /** A backslash inside a string sets the escape flag for good, so the
      string never closes and swallows everything after it: `interpret`
      succeeds with neither that string nor any later argument. */
  lemma EscapeSwallowsLine(name: string, q: char, x: string, y: string)
    requires NameText(name) && IsQuote(q)
    requires forall i :: 0 <= i < |x| ==> x[i] != q && x[i] != '\\'
    requires y == [] || !IsTrimSpace(y[|y| - 1])
    ensures Interpret(DefaultTypes, name + " " + [q] + x + "\\" + y) == Parsed(Success, Upper(name), [])
  {
    DefaultTypesChoose();
    assert Choose(DefaultTypes, q) == DefaultChoice(q);
    EscapeWith(DefaultTypes, name, q, x, y);
  }
}
