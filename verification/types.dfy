/** Values, the five built-in grammar rules (`number`, `bool`, `symbol`,
    `string`, `variable`) and the scratch flags they share while a line is
    being tokenized. */
module Types {
  import opened Common
  import opened Text

  /** The JavaScript payload of a value. `Number` holds the decimal text that
      `parseFloat` reads (its conversion to a double is not modelled); `NaN`
      is what `parseFloat` yields on text without a leading decimal. */
  datatype Datum = Number(text: string) | NaN | Boolean(b: bool) | Str(s: string) | Null

  /** A payload tagged with the name of the type that produced it. `literal`
      is the trimmed source text when the tokenizer made the value, and
      absent for values made by `setvar` or by a parser. */
  datatype Value = Value(val: Datum, tag: string, literal: Option<string>)

  /** The built-in types. */
  datatype Kind = NumberType | BoolType | SymbolType | StringType | VariableType

  function Name(k: Kind): string {
    match k
    case NumberType => "number"
    case BoolType => "bool"
    case SymbolType => "symbol"
    case StringType => "string"
    case VariableType => "variable"
  }

  /** The tag a parser returns when the literal could not be parsed. */
  const ErrorTag := "error"
  /** The syntax entry that accepts every type. */
  const AnyTag := "any"

  /** A `Type` instance: which rule, and its priority (-1 unless given). */
  datatype TypeRule = TypeRule(kind: Kind, priority: int)

  function NewType(k: Kind, priority: Option<int>): (t: TypeRule)
    ensures t.kind == k
    ensures priority.None? ==> t.priority == -1
    ensures priority.Some? ==> t.priority == priority.value
  {
    TypeRule(k, match priority case Some(p) => p case None => -1)
  }

  /** The `flags` object of one `interpret` call, shared by all its tokens.
      `escape` and `quote` (the source's `string_qoutes`) start undefined,
      modelled as false and `None`. */
  datatype Flags = Flags(wasSpace: bool, skipChar: bool, escape: bool, quote: Option<char>)

  const InitialFlags := Flags(false, false, false, None)

  /** `CommandEngine.numerals`: the point and the decimal digits. */
  predicate IsNumeral(c: char) { c == '.' || IsDigit(c) }
  /** `CommandEngine.symbols`: the characters `+=-><*&^%!~/?|`. */
  predicate IsSymbolChar(c: char) {
    c == '+' || c == '=' || c == '-' || c == '>' || c == '<' || c == '*' || c == '&' ||
    c == '^' || c == '%' || c == '!' || c == '~' || c == '/' || c == '?' || c == '|'
  }
  /** `CommandEngine.quotes`: the double and the single quote. */
  predicate IsQuote(c: char) { c == '"' || c == '\'' }
  const VariableMark := '$'
  /** `var_chars`: the ASCII letters, the digits and the underscore. */
  predicate IsVarChar(c: char) {
    ('a' <= c <= 'z') || ('A' <= c <= 'Z') || ('0' <= c <= '9') || c == '_'
  }
  /** `CommandEngine.operators`. */
  const Operators: seq<string> := [
    "=", "+", "-", "/", "*", "&", "|", "^", "%", ">", "<",
    "==", "+=", "-=", "/=", "*=", "&=", "|=", "^=", "%=", ">=", "<="
  ]

  /** The operators are the eleven one-character ones, alone or followed by `=`. */
  predicate IsOperatorChar(c: char) {
    c == '=' || c == '+' || c == '-' || c == '/' || c == '*' || c == '&' ||
    c == '|' || c == '^' || c == '%' || c == '>' || c == '<'
  }

  predicate IsOperator(l: string) {
    (|l| == 1 || (|l| == 2 && l[1] == '=')) && IsOperatorChar(l[0])
  }

  /** `IsOperator` is membership in `Operators`. */
  lemma OperatorsAre(l: string)
    ensures l in Operators <==> IsOperator(l)
  {
    if IsOperator(l) {
      if |l| == 1 {
        assert l == [l[0]];
      } else {
        assert l == [l[0], '='];
      }
    }
  }

  /** The `begin` predicate of each built-in rule. None of them reads the
      flags, and none accepts a blank, so blanks always separate tokens. */
  predicate Begins(k: Kind, c: char)
    ensures Begins(k, c) ==> !IsBlank(c)
  {
    match k
    case NumberType => IsNumeral(c) || c == '-'
    case BoolType => c == 't' || c == 'f'
    case SymbolType => IsSymbolChar(c)
    case StringType => IsQuote(c)
    case VariableType => c == VariableMark
  }

  /** The flag writes of a successful `begin`: a string remembers its quote. */
  function OnBegin(k: Kind, c: char, f: Flags): (f': Flags)
    ensures f'.wasSpace == f.wasSpace && f'.skipChar == f.skipChar && f'.escape == f.escape
    ensures k == StringType ==> f'.quote == Some(c)
    ensures k != StringType ==> f' == f
  {
    if k == StringType then f.(quote := Some(c)) else f
  }

  /** The `end` predicate of each built-in rule, with its flag writes. A
      backslash marks the string as escaped and never un-marks it. */
  function End(k: Kind, c: char, f: Flags): (r: (bool, Flags))
    ensures r.1.wasSpace == f.wasSpace && r.1.quote == f.quote
    ensures k != StringType ==> r.1 == f
    ensures k == StringType && (f.escape || c == '\\') ==> !r.0 && r.1.escape
    ensures k == StringType && r.0 ==> f.quote == Some(c)
  {
    match k
    case NumberType => (!IsNumeral(c), f)
    case BoolType => (IsBlank(c), f)
    case SymbolType => (!IsSymbolChar(c), f)
    case VariableType => (!IsVarChar(c), f)
    case StringType =>
      if c == '\\' then (false, f.(escape := true, skipChar := true))
      else if f.escape then (false, f)
      else (f.quote == Some(c), f)
  }

  /** The number of leading decimal digits of `s`. */
  function LeadingDigits(s: string): (n: nat)
    ensures n <= |s|
    ensures forall i :: 0 <= i < n ==> IsDigit(s[i])
    ensures n == |s| || !IsDigit(s[n])
    decreases |s|
  {
    if s != [] && IsDigit(s[0]) then 1 + LeadingDigits(s[1..]) else 0
  }

  /** The longest prefix of `lit` that `parseFloat` reads as a decimal
      (an optional minus, digits, optionally a point and more digits), or
      `None` when that prefix holds no digit and the result is NaN. */
  function NumberPrefix(lit: string): (r: Option<string>)
    ensures r.Some? ==> r.value != "" && r.value <= lit
    ensures r.Some? ==> exists i :: 0 <= i < |r.value| && IsDigit(r.value[i])
  {
    var sign := if |lit| > 0 && lit[0] == '-' then 1 else 0;
    var rest := lit[sign..];
    var n := LeadingDigits(rest);
    var after := rest[n..];
    var m := if |after| > 0 && after[0] == '.' then 1 + LeadingDigits(after[1..]) else 0;
    var digits := n + (if m > 0 then m - 1 else 0);
    if digits == 0 then None else Some(lit[..sign + n + m])
  }

  /** `value.slice(1, -1)`. */
  function Unquote(lit: string): (r: string)
    ensures |lit| >= 2 ==> lit == [lit[0]] + r + [lit[|lit| - 1]]
    ensures |lit| < 2 ==> r == ""
  {
    if |lit| >= 2 then lit[1..|lit| - 1] else ""
  }

  /** The `parse` function of each built-in rule. */
  function Parse(k: Kind, lit: string): (v: Value)
    ensures v.tag == Name(k) || v.tag == ErrorTag
    ensures v.literal.None?
    ensures v.tag == Name(VariableType) ==> v.val == Str(lit)
  {
    match k
    case NumberType =>
      (match NumberPrefix(lit)
       case Some(t) => Value(Number(t), "number", None)
       case None => Value(NaN, ErrorTag, None))
    case BoolType =>
      if UpperEquals(lit, "T") || UpperEquals(lit, "TRUE") then Value(Boolean(true), "bool", None)
      else if UpperEquals(lit, "F") || UpperEquals(lit, "FALSE") then Value(Boolean(false), "bool", None)
      else Value(Null, ErrorTag, None)
    case SymbolType =>
      if IsOperator(lit) then Value(Str(lit), "symbol", None) else Value(Null, ErrorTag, None)
    case VariableType => Value(Str(lit), "variable", None)
    case StringType => Value(Str(Unquote(lit)), "string", None)
  }

  /** A non-empty run of digits reads as itself. */
  lemma {:induction false} DigitsArePrefix(s: string)
    requires |s| > 0 && forall i :: 0 <= i < |s| ==> IsDigit(s[i])
    ensures NumberPrefix(s) == Some(s)
  {
    assert s[0] != '-';
    assert s[0..] == s;
    AllDigitsLeading(s);
    assert s[|s|..] == [];
    assert s[..|s|] == s;
  }

  lemma {:induction false} AllDigitsLeading(s: string)
    requires forall i :: 0 <= i < |s| ==> IsDigit(s[i])
    ensures LeadingDigits(s) == |s|
    decreases |s|
  {
    if s != [] {
      AllDigitsLeading(s[1..]);
    }
  }

  /** A number parse succeeds exactly when the literal, after an optional
      minus, starts with a digit or with a point followed by a digit. */
  lemma NumberParseSucceeds(lit: string)
    ensures var rest := if |lit| > 0 && lit[0] == '-' then lit[1..] else lit;
            Parse(NumberType, lit).tag == "number" <==>
              ((|rest| > 0 && IsDigit(rest[0])) || (|rest| > 1 && rest[0] == '.' && IsDigit(rest[1])))
  {
  }
}
