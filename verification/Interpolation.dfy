/** `$VAR` interpolation of one line (`pkg/libcompose/config/interpolation.go`). Lines are byte
    strings; each char stands for one byte. */
module Interpolation {
  import opened Text

  /** A line without a result is either invalid, or makes the code index past its end. */
  datatype Outcome = Ok(text: string) | Invalid | Panic

  function Prepend(text: string, o: Outcome): Outcome {
    if o.Ok? then Ok(text + o.text) else o
  }

  /** What an expression stands for and how many bytes it takes up. */
  datatype Expr = NoExpr | Expr(text: string, size: nat)

  /** The expression that the line, after a dollar sign, starts with. */
  function Expression(line: string, mapping: string -> string): (e: Expr)
    requires line != ""
    ensures e.Expr? ==> 0 < e.size <= |line|
  {
    if line[0] == '$' then Expr("$", 1)
    else if line[0] == '{' then
      var n := NameLength(line[1..]);
      if n > 0 && 1 + n < |line| && line[1 + n] == '}' then Expr(mapping(line[1..1 + n]), n + 2) else NoExpr
    else
      var n := NameLength(line);
      if n > 0 && !IsNum(line[0]) then Expr(mapping(line[..n]), n) else NoExpr
  }

  /** The result of `parseLine`. */
  function Interpolated(line: string, mapping: string -> string): Outcome
    decreases |line|
  {
    if line == "" then Ok("")
    else if line[0] != '$' then Prepend([line[0]], Interpolated(line[1..], mapping))
    else if |line| == 1 then Panic
    else
      var e := Expression(line[1..], mapping);
      if e.NoExpr? then Invalid else Prepend(e.text, Interpolated(line[1 + e.size..], mapping))
  }

  // ---------- The code ----------

  method ParseVariable(line: string, start: nat, mapping: string -> string) returns (text: string, end: int, ok: bool)
    requires start < |line| && ValidVariableNameChar(line[start])
    ensures ok && text == mapping(line[start..start + NameLength(line[start..])])
    ensures start <= end && (end + 1 == start + NameLength(line[start..]) || (end == |line| && start + NameLength(line[start..]) == |line|))
  {
    var buffer := "";
    var pos := start;
    while pos < |line|
      invariant start <= pos <= |line| && buffer == line[start..pos]
      invariant pos - start <= NameLength(line[start..]) == pos - start + NameLength(line[pos..])
    {
      var c := line[pos];
      if ValidVariableNameChar(c) {
        buffer := buffer + [c];
        assert line[pos..][1..] == line[pos + 1..];
      } else {
        return mapping(buffer), pos - 1, true;
      }
      pos := pos + 1;
    }
    return mapping(buffer), pos, true;
  }

  method ParseVariableWithBraces(line: string, start: nat, mapping: string -> string) returns (text: string, end: int, ok: bool)
    requires start <= |line|
    ensures var n := NameLength(line[start..]);
      && ok == (n > 0 && start + n < |line| && line[start + n] == '}')
      && (ok ==> end == start + n && text == mapping(line[start..start + n]))
  {
    var buffer := "";
    var pos := start;
    while pos < |line|
      invariant start <= pos <= |line| && buffer == line[start..pos]
      invariant NameLength(line[start..]) == pos - start + NameLength(line[pos..])
    {
      var c := line[pos];
      if c == '}' {
        if buffer == "" {
          return "", 0, false;
        }
        return mapping(buffer), pos, true;
      } else if ValidVariableNameChar(c) {
        buffer := buffer + [c];
        assert line[pos..][1..] == line[pos + 1..];
      } else {
        return "", 0, false;
      }
      pos := pos + 1;
    }
    return "", 0, false;
  }

  /** The expression at `pos`, just after a dollar sign; the caller must not be at the end. */
  method ParseInterpolationExpression(line: string, pos: nat, mapping: string -> string) returns (text: string, end: int, ok: bool)
    requires pos < |line|
    ensures var e := Expression(line[pos..], mapping);
      && ok == e.Expr?
      && (ok ==> text == e.text && (end + 1 == pos + e.size || (end == |line| && pos + e.size == |line|)))
  {
    var c := line[pos];
    assert line[pos..][0] == c && line[pos..][1..] == line[pos + 1..];
    ghost var m, n := NameLength(line[pos + 1..]), NameLength(line[pos..]);
    assert line[pos..][1..1 + m] == line[pos + 1..pos + 1 + m] && line[pos..][..n] == line[pos..pos + n];
    if c == '$' {
      return "$", pos, true;
    } else if c == '{' {
      text, end, ok := ParseVariableWithBraces(line, pos + 1, mapping);
    } else if !IsNum(c) && ValidVariableNameChar(c) {
      text, end, ok := ParseVariable(line, pos, mapping);
    } else {
      return "", 0, false;
    }
  }

  method ParseLine(line: string, mapping: string -> string) returns (r: Outcome)
    ensures r == Interpolated(line, mapping)
  {
    var buffer := "";
    var pos := 0;
    while pos < |line|
      invariant 0 <= pos
      invariant Interpolated(line, mapping) == Prepend(buffer, Interpolated(if pos <= |line| then line[pos..] else "", mapping))
      decreases |line| - pos
    {
      var c := line[pos];
      assert line[pos..][0] == c && line[pos..][1..] == line[pos + 1..];
      if c == '$' {
        if pos + 1 == |line| {
          return Panic;
        }
        var replaced, end, ok := ParseInterpolationExpression(line, pos + 1, mapping);
        if !ok {
          return Invalid;
        }
        ghost var size := Expression(line[pos + 1..], mapping).size;
        assert line[pos..][1 + size..] == line[pos + 1 + size..];
        PrependTwice(buffer, replaced, Interpolated(line[pos + 1 + size..], mapping));
        pos := end;
        buffer := buffer + replaced;
      } else {
        PrependTwice(buffer, [c], Interpolated(line[pos + 1..], mapping));
        buffer := buffer + [c];
      }
      pos := pos + 1;
    }
    return Ok(buffer);
  }

  lemma PrependTwice(a: string, b: string, o: Outcome)
    ensures Prepend(a, Prepend(b, o)) == Prepend(a + b, o)
  {
    if o.Ok? {
      assert a + (b + o.text) == (a + b) + o.text;
    }
  }

  // ---------- Lines as token lists ----------

  /** The pieces of a line: a literal byte, a doubled dollar, `${name}` and `$name`. */
  datatype Token = Lit(c: char) | Dollar | Braced(name: string) | Bare(name: string)

  function Printed(t: Token): string {
    match t
    case Lit(c) => [c]
    case Dollar => "$$"
    case Braced(name) => "${" + name + "}"
    case Bare(name) => "$" + name
  }

  function PrintedAll(ts: seq<Token>): string {
    if ts == [] then "" else Printed(ts[0]) + PrintedAll(ts[1..])
  }

  function MeaningOf(t: Token, mapping: string -> string): string {
    match t
    case Lit(c) => [c]
    case Dollar => "$"
    case Braced(name) => mapping(name)
    case Bare(name) => mapping(name)
  }

  function Meaning(ts: seq<Token>, mapping: string -> string): string {
    if ts == [] then "" else MeaningOf(ts[0], mapping) + Meaning(ts[1..], mapping)
  }

  /** Literals are not dollars, names are names, and what follows a bare name does not continue
      it. */
  predicate GoodToken(t: Token, rest: string) {
    match t
    case Lit(c) => c != '$'
    case Dollar => true
    case Braced(name) => IsName(name)
    case Bare(name) => IsName(name) && !IsNum(name[0]) && !StartsWithNameChar(rest)
  }

  /** A token list that can be told apart again when it is printed before `tail`. */
  predicate WellFormed(ts: seq<Token>, tail: string) {
    ts == [] || (GoodToken(ts[0], PrintedAll(ts[1..]) + tail) && WellFormed(ts[1..], tail))
  }

  lemma OneToken(t: Token, rest: string, mapping: string -> string)
    requires GoodToken(t, rest)
    ensures Interpolated(Printed(t) + rest, mapping) == Prepend(MeaningOf(t, mapping), Interpolated(rest, mapping))
  {
    var line := Printed(t) + rest;
    match t
    case Lit(c) => assert line[1..] == rest;
    case Dollar => assert line[1..][0] == '$' && line[2..] == rest;
    case Braced(name) => BracedToken(name, rest, mapping);
    case Bare(name) => BareToken(name, rest, mapping);
  }

  lemma BracedToken(name: string, rest: string, mapping: string -> string)
    requires IsName(name)
    ensures Interpolated("${" + name + "}" + rest, mapping) == Prepend(mapping(name), Interpolated(rest, mapping))
  {
    var line := "${" + name + "}" + rest;
    var after := line[1..];
    assert after[0] == '{' && after[1..] == name + ("}" + rest);
    NameLengthIs(name, "}" + rest);
    assert after[1..1 + |name|] == name && after[1 + |name|] == '}';
    assert line[1 + (|name| + 2)..] == rest;
  }

  lemma BareToken(name: string, rest: string, mapping: string -> string)
    requires IsName(name) && !IsNum(name[0]) && !StartsWithNameChar(rest)
    ensures Interpolated("$" + name + rest, mapping) == Prepend(mapping(name), Interpolated(rest, mapping))
  {
    var line := "$" + name + rest;
    var after := line[1..];
    assert after == name + rest && after[0] == name[0];
    NameLengthIs(name, rest);
    assert after[..|name|] == name && line[1 + |name|..] == rest;
  }

  lemma {:induction false} TokensThen(ts: seq<Token>, tail: string, mapping: string -> string)
    requires WellFormed(ts, tail)
    ensures Interpolated(PrintedAll(ts) + tail, mapping) == Prepend(Meaning(ts, mapping), Interpolated(tail, mapping))
  {
    hide Interpolated, GoodToken;
    if ts == [] {
      assert PrintedAll(ts) + tail == tail;
      PrependNothing(Interpolated(tail, mapping));
    } else {
      var rest := PrintedAll(ts[1..]) + tail;
      assert PrintedAll(ts) + tail == Printed(ts[0]) + rest;
      OneToken(ts[0], rest, mapping);
      TokensThen(ts[1..], tail, mapping);
      PrependTwice(MeaningOf(ts[0], mapping), Meaning(ts[1..], mapping), Interpolated(tail, mapping));
    }
  }

  lemma PrependNothing(o: Outcome)
    ensures Prepend("", o) == o
  {
    if o.Ok? {
      assert "" + o.text == o.text;
    }
  }

  /** Printing any token list and interpolating it gives the literals and mapped values. */
  lemma RoundTrip(ts: seq<Token>, mapping: string -> string)
    requires WellFormed(ts, "")
    ensures Interpolated(PrintedAll(ts), mapping) == Ok(Meaning(ts, mapping))
  {
    TokensThen(ts, "", mapping);
    assert PrintedAll(ts) + "" == PrintedAll(ts);
  }

  /** The longest token list that a line starts with, and what is left of it. */
  function Tokens(line: string): (seq<Token>, string)
    decreases |line|
  {
    if line == "" || line == "$" then ([], line)
    else if line[0] != '$' then
      var (ts, tail) := Tokens(line[1..]); ([Lit(line[0])] + ts, tail)
    else if line[1] == '$' then
      var (ts, tail) := Tokens(line[2..]); ([Dollar] + ts, tail)
    else if line[1] == '{' then
      var n := NameLength(line[2..]);
      if n > 0 && 2 + n < |line| && line[2 + n] == '}' then
        var (ts, tail) := Tokens(line[3 + n..]); ([Braced(line[2..2 + n])] + ts, tail)
      else ([], line)
    else
      var n := NameLength(line[1..]);
      if n > 0 && !IsNum(line[1]) then
        var (ts, tail) := Tokens(line[1 + n..]); ([Bare(line[1..1 + n])] + ts, tail)
      else ([], line)
  }

  lemma {:induction false} TokensAre(line: string, mapping: string -> string)
    ensures var (ts, tail) := Tokens(line);
      && PrintedAll(ts) + tail == line && WellFormed(ts, tail)
      && (tail == "" || tail == "$" || Interpolated(tail, mapping) == Invalid)
    decreases |line|, 2
  {
    if line == "" || line == "$" {
    } else if line[0] != '$' {
      Consume(line, Lit(line[0]), line[1..], mapping);
    } else if line[1] == '$' {
      Consume(line, Dollar, line[2..], mapping);
    } else if line[1] == '{' {
      BracedTokens(line, mapping);
    } else {
      BareTokens(line, mapping);
    }
  }

  lemma {:induction false} BracedTokens(line: string, mapping: string -> string)
    requires |line| > 1 && line[0] == '$' && line[1] == '{'
    ensures var (ts, tail) := Tokens(line);
      && PrintedAll(ts) + tail == line && WellFormed(ts, tail)
      && (tail == "" || tail == "$" || Interpolated(tail, mapping) == Invalid)
    decreases |line|, 1
  {
    hide Interpolated, Expression, PrintedAll, WellFormed;
    var n := NameLength(line[2..]);
    if n > 0 && 2 + n < |line| && line[2 + n] == '}' {
      Consume(line, Braced(line[2..2 + n]), line[3 + n..], mapping);
    } else {
      assert Tokens(line) == ([], line);
      NoToken(line, mapping);
    }
  }

  lemma {:induction false} BareTokens(line: string, mapping: string -> string)
    requires |line| > 1 && line[0] == '$' && line[1] != '$' && line[1] != '{'
    ensures var (ts, tail) := Tokens(line);
      && PrintedAll(ts) + tail == line && WellFormed(ts, tail)
      && (tail == "" || tail == "$" || Interpolated(tail, mapping) == Invalid)
    decreases |line|, 1
  {
    hide Interpolated, Expression, PrintedAll, WellFormed;
    var n := NameLength(line[1..]);
    if n > 0 && !IsNum(line[1]) {
      Consume(line, Bare(line[1..1 + n]), line[1 + n..], mapping);
    } else {
      assert Tokens(line) == ([], line);
      NoToken(line, mapping);
    }
  }

  lemma NoToken(line: string, mapping: string -> string)
    requires |line| > 1 && line[0] == '$' && Tokens(line) == ([], line)
    requires if line[1] == '{' then var n := NameLength(line[2..]); n == 0 || 2 + n >= |line| || line[2 + n] != '}'
             else line[1] != '$' && (NameLength(line[1..]) == 0 || IsNum(line[1]))
    ensures PrintedAll(Tokens(line).0) + line == line && WellFormed(Tokens(line).0, line)
    ensures Interpolated(line, mapping) == Invalid
  {
    assert line[1..][1..] == line[2..];
    assert Expression(line[1..], mapping) == NoExpr;
  }

  lemma {:induction false} Consume(line: string, t: Token, rest: string, mapping: string -> string)
    requires line == Printed(t) + rest && |rest| < |line|
    requires Tokens(line) == ([t] + Tokens(rest).0, Tokens(rest).1)
    requires GoodToken(t, rest)
    ensures var (ts, tail) := Tokens(line);
      && PrintedAll(ts) + tail == line && WellFormed(ts, tail)
      && (tail == "" || tail == "$" || Interpolated(tail, mapping) == Invalid)
    decreases |line|, 0
  {
    TokensAre(rest, mapping);
    var (ts, tail) := Tokens(rest);
    assert ([t] + ts)[1..] == ts;
    assert PrintedAll([t] + ts) + tail == Printed(t) + (PrintedAll(ts) + tail);
  }

  /** A line is accepted exactly when it is the print of a token list, and it makes the code
      index past its end exactly when a lone dollar follows such a list. */
  lemma AcceptedIffPrinted(line: string, mapping: string -> string)
    ensures Interpolated(line, mapping).Ok? <==> exists ts :: WellFormed(ts, "") && line == PrintedAll(ts)
    ensures Interpolated(line, mapping).Panic? <==> exists ts :: WellFormed(ts, "$") && line == PrintedAll(ts) + "$"
  {
    var (ts, tail) := Tokens(line);
    TokensAre(line, mapping);
    TokensThen(ts, tail, mapping);
    if tail == "" {
      assert line == PrintedAll(ts);
    }
    forall ts | WellFormed(ts, "") && line == PrintedAll(ts)
      ensures Interpolated(line, mapping).Ok?
    {
      RoundTrip(ts, mapping);
    }
    forall ts | WellFormed(ts, "$") && line == PrintedAll(ts) + "$"
      ensures Interpolated(line, mapping).Panic?
    {
      TokensThen(ts, "$", mapping);
    }
  }

  /** Every dollar of the text doubled. */
  function Doubled(s: string): string {
    if s == "" then "" else (if s[0] == '$' then "$$" else [s[0]]) + Doubled(s[1..])
  }

  lemma {:induction false} DoublingThen(s: string, tail: string, mapping: string -> string)
    ensures Interpolated(Doubled(s) + tail, mapping) == Prepend(s, Interpolated(tail, mapping))
  {
    hide Interpolated;
    if s == "" {
      assert Doubled(s) + tail == tail;
      PrependNothing(Interpolated(tail, mapping));
    } else {
      var t := if s[0] == '$' then Dollar else Lit(s[0]);
      DoublingThen(s[1..], tail, mapping);
      assert Doubled(s) + tail == Printed(t) + (Doubled(s[1..]) + tail);
      OneToken(t, Doubled(s[1..]) + tail, mapping);
      PrependTwice([s[0]], s[1..], Interpolated(tail, mapping));
      assert s == [s[0]] + s[1..] && MeaningOf(t, mapping) == [s[0]];
    }
  }

  /** Doubling every dollar is undone exactly. */
  lemma DoublingIsUndone(s: string, mapping: string -> string)
    ensures Interpolated(Doubled(s), mapping) == Ok(s)
  {
    DoublingThen(s, "", mapping);
    assert Doubled(s) + "" == Doubled(s) && s + "" == s;
  }

  /** A lone dollar after any text makes the code index past the end of the line. */
  lemma LoneDollarPanics(s: string, mapping: string -> string)
    ensures Interpolated(Doubled(s) + "$", mapping) == Panic
  {
    DoublingThen(s, "$", mapping);
  }
}
