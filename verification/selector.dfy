/**
 Validation of a caller's selector: a one-pass scan over the characters with a stack of
 open brackets, a current quote and an escape flag, against a grammar of balanced text.
 */
module Selectors {
  import opened Text

  /** What a request may carry in its selector field. */
  datatype Argument = Missing | NotAString | Given(text: string)

  datatype Verdict = Accepted | EmptyOrNotAString | TextFunctionSyntax | InvalidSyntax

  predicate IsBlank(s: string) {
    forall i :: 0 <= i < |s| ==> IsSpace(s[i])
  }

  /** Trimming leaves nothing exactly when every character is white space. */
  lemma {:induction false} BlankIsTrimmedEmpty(s: string)
    ensures TrimEnd(TrimStart(s)) == "" <==> IsBlank(s)
  {
    if s != "" {
      if IsSpace(s[0]) {
        BlankIsTrimmedEmpty(s[1..]);
        assert s == [s[0]] + s[1..];
      } else {
        TrimEndKeepsFirst(s);
      }
    }
  }

  lemma {:induction false} TrimEndKeepsFirst(s: string)
    requires s != "" && !IsSpace(s[0])
    ensures TrimEnd(s) != ""
  {
    if IsSpace(s[|s| - 1]) {
      TrimEndKeepsFirst(s[..|s| - 1]);
    }
  }

  predicate SameLetter(c: char, lower: char)
    requires 'a' <= lower <= 'z'
  {
    c == lower || c as int == lower as int - 32
  }

  predicate SpacesThenParen(s: string) {
    s != "" && (s[0] == '(' || (IsSpace(s[0]) && SpacesThenParen(s[1..])))
  }

  /** The text starts with `text`, in any case, then spaces, then an opening parenthesis. */
  predicate IsTextFunction(s: string) {
    && |s| >= 4
    && SameLetter(s[0], 't') && SameLetter(s[1], 'e') && SameLetter(s[2], 'x') && SameLetter(s[3], 't')
    && SpacesThenParen(s[4..])
  }

  ghost predicate OneOf(c: char, lower: char, upper: char) { c == lower || c == upper }

  /** The `text(...)` form, letter by letter: the word in any case, white space, a parenthesis. */
  ghost predicate TextForm(s: string) {
    && |s| >= 4 && OneOf(s[0], 't', 'T') && OneOf(s[1], 'e', 'E') && OneOf(s[2], 'x', 'X') && OneOf(s[3], 't', 'T')
    && exists k :: 4 <= k < |s| && s[k] == '(' && forall i :: 4 <= i < k ==> IsSpace(s[i])
  }

  lemma {:induction false} SpacesThenParenIs(s: string, from: nat)
    requires from <= |s|
    ensures SpacesThenParen(s[from..]) <==> exists k :: from <= k < |s| && s[k] == '(' && forall i :: from <= i < k ==> IsSpace(s[i])
    decreases |s| - from
  {
    hide IsSpace;
    if from < |s| {
      SpacesThenParenIs(s, from + 1);
      assert s[from..][1..] == s[from + 1..];
    }
  }

  lemma TextFunctionIs(s: string)
    ensures IsTextFunction(s) <==> TextForm(s)
  {
    if |s| >= 4 {
      SpacesThenParenIs(s, 4);
    }
  }

  // ----- the language of balanced text

  predicate IsOpen(c: char) { c == '(' || c == '[' || c == '{' }

  predicate IsClose(c: char) { c == ')' || c == ']' || c == '}' }

  function Partner(open: char): char
    requires IsOpen(open)
  {
    if open == '(' then ')' else if open == '[' then ']' else '}'
  }

  /** A derivation in the grammar  B ::= empty | plain B | ( B ) B | [ B ] B | { B } B. */
  datatype Derivation =
    | Nothing
    | Plain(c: char, rest: Derivation)
    | Bracketed(open: char, inner: Derivation, close: char, rest: Derivation)

  ghost predicate Sound(d: Derivation) {
    match d
    case Nothing => true
    case Plain(c, rest) => c !in "()[]{}" && Sound(rest)
    case Bracketed(open, inner, close, rest) => [open, close] in ["()", "[]", "{}"] && Sound(inner) && Sound(rest)
  }

  ghost function Yield(d: Derivation): string
    requires Sound(d)
  {
    match d
    case Nothing => ""
    case Plain(c, rest) => [c] + Yield(rest)
    case Bracketed(open, inner, close, rest) => [open] + Yield(inner) + [close] + Yield(rest)
  }

  lemma BracketsAre(open: char, close: char)
    ensures [open, close] in ["()", "[]", "{}"] <==> IsOpen(open) && close == Partner(open)
  {
    assert [open, close] == "()" <==> open == '(' && close == ')';
    assert [open, close] == "[]" <==> open == '[' && close == ']';
    assert [open, close] == "{}" <==> open == '{' && close == '}';
  }

  lemma PlainIs(c: char)
    ensures c !in "()[]{}" <==> !IsOpen(c) && !IsClose(c)
  {
  }

  ghost predicate Derives(d: Derivation, s: string) {
    Sound(d) && Yield(d) == s
  }

  ghost predicate Balanced(s: string) {
    exists d :: Derives(d, s)
  }

  // ----- what is left of a selector once escapes and quoted runs are dropped

  /** The text after the end of a run quoted by `quote`; nothing when the run never ends. */
  function AfterQuote(s: string, quote: char): (r: string)
    ensures |r| <= |s|
    decreases |s|
  {
    if s == "" then ""
    else if s[0] == '\\' then AfterQuote(s[if |s| >= 2 then 2 else 1..], quote)
    else if s[0] == quote then s[1..]
    else AfterQuote(s[1..], quote)
  }

  predicate QuoteEnds(s: string, quote: char)
    decreases |s|
  {
    s != "" &&
    if s[0] == '\\' then QuoteEnds(s[if |s| >= 2 then 2 else 1..], quote)
    else s[0] == quote || QuoteEnds(s[1..], quote)
  }

  predicate IsQuote(c: char) { c == '"' || c == '\'' }

  /** The characters outside escapes and quoted runs, in order. */
  function Visible(s: string): string
    decreases |s|
  {
    if s == "" then ""
    else if s[0] == '\\' then Visible(s[if |s| >= 2 then 2 else 1..])
    else if IsQuote(s[0]) then Visible(AfterQuote(s[1..], s[0]))
    else [s[0]] + Visible(s[1..])
  }

  predicate QuotesClosed(s: string)
    decreases |s|
  {
    if s == "" then true
    else if s[0] == '\\' then QuotesClosed(s[if |s| >= 2 then 2 else 1..])
    else if IsQuote(s[0]) then QuoteEnds(s[1..], s[0]) && QuotesClosed(AfterQuote(s[1..], s[0]))
    else QuotesClosed(s[1..])
  }

  // ----- the lexical grammar those functions decide

  /** The inside of a quoted run up to and including its closing mark. */
  datatype Body = Close | BodyEscape(c: char, rest: Body) | BodyChar(c: char, rest: Body)

  /** A selector cut into lexemes; a backslash may be the very last character. */
  datatype Lexemes =
    | End
    | LoneBackslash
    | Escape(c: char, rest: Lexemes)
    | Run(mark: char, body: Body, rest: Lexemes)
    | Char(c: char, rest: Lexemes)

  ghost predicate BodySound(b: Body, mark: char) {
    match b
    case Close => true
    case BodyEscape(_, rest) => BodySound(rest, mark)
    case BodyChar(c, rest) => c != '\\' && c != mark && BodySound(rest, mark)
  }

  ghost predicate LexSound(l: Lexemes) {
    match l
    case End => true
    case LoneBackslash => true
    case Escape(_, rest) => LexSound(rest)
    case Run(mark, body, rest) => (mark == '"' || mark == '\'') && BodySound(body, mark) && LexSound(rest)
    case Char(c, rest) => c != '\\' && c != '"' && c != '\'' && LexSound(rest)
  }

  ghost function SpellBody(b: Body, mark: char): string {
    match b
    case Close => [mark]
    case BodyEscape(c, rest) => ['\\', c] + SpellBody(rest, mark)
    case BodyChar(c, rest) => [c] + SpellBody(rest, mark)
  }

  ghost function Spell(l: Lexemes): string {
    match l
    case End => ""
    case LoneBackslash => ['\\']
    case Escape(c, rest) => ['\\', c] + Spell(rest)
    case Run(mark, body, rest) => [mark] + (SpellBody(body, mark) + Spell(rest))
    case Char(c, rest) => [c] + Spell(rest)
  }

  /** The characters that are lexemes of their own. */
  ghost function CharsOf(l: Lexemes): string {
    match l
    case End => ""
    case LoneBackslash => ""
    case Escape(_, rest) => CharsOf(rest)
    case Run(_, _, rest) => CharsOf(rest)
    case Char(c, rest) => [c] + CharsOf(rest)
  }

  ghost predicate Lexes(l: Lexemes, s: string) {
    LexSound(l) && Spell(l) == s
  }

  lemma {:induction false} BodyIsSkipped(b: Body, mark: char, after: string)
    requires IsQuote(mark) && BodySound(b, mark)
    ensures QuoteEnds(SpellBody(b, mark) + after, mark)
    ensures AfterQuote(SpellBody(b, mark) + after, mark) == after
    decreases b
  {
    var s := SpellBody(b, mark) + after;
    match b
    case Close =>
      assert s[1..] == after;
    case BodyEscape(c, rest) =>
      assert s[2..] == SpellBody(rest, mark) + after;
      BodyIsSkipped(rest, mark, after);
    case BodyChar(c, rest) =>
      assert s[1..] == SpellBody(rest, mark) + after;
      BodyIsSkipped(rest, mark, after);
  }

  lemma {:induction false} LexemesAreVisible(l: Lexemes)
    requires LexSound(l)
    ensures QuotesClosed(Spell(l)) && Visible(Spell(l)) == CharsOf(l)
    decreases l
  {
    var s := Spell(l);
    match l
    case End =>
    case LoneBackslash =>
      assert s[1..] == "";
    case Escape(c, rest) =>
      assert s[2..] == Spell(rest);
      LexemesAreVisible(rest);
    case Run(mark, body, rest) =>
      assert s[1..] == SpellBody(body, mark) + Spell(rest);
      BodyIsSkipped(body, mark, Spell(rest));
      LexemesAreVisible(rest);
    case Char(c, rest) =>
      assert s[1..] == Spell(rest);
      LexemesAreVisible(rest);
  }

  lemma Prepend(s: string, n: nat, body: string, after: string)
    requires n <= |s| && body + after == s[n..]
    ensures (s[..n] + body) + after == s
  {
    assert s == s[..n] + s[n..];
    assert (s[..n] + body) + after == s[..n] + (body + after);
  }

  lemma {:induction false} BodyOf(s: string, mark: char) returns (b: Body)
    requires IsQuote(mark) && QuoteEnds(s, mark)
    ensures BodySound(b, mark) && SpellBody(b, mark) + AfterQuote(s, mark) == s
    decreases |s|
  {
    if s[0] == '\\' {
      assert |s| >= 2;
      var rest := BodyOf(s[2..], mark);
      b := BodyEscape(s[1], rest);
      Prepend(s, 2, SpellBody(rest, mark), AfterQuote(s, mark));
      assert s[..2] == ['\\', s[1]];
    } else if s[0] == mark {
      b := Close;
    } else {
      var rest := BodyOf(s[1..], mark);
      b := BodyChar(s[0], rest);
      Prepend(s, 1, SpellBody(rest, mark), AfterQuote(s, mark));
      assert s[..1] == [s[0]];
    }
  }

  lemma {:induction false} LexemesOf(s: string) returns (l: Lexemes)
    requires QuotesClosed(s)
    ensures Lexes(l, s)
    decreases |s|
  {
    if s == "" {
      l := End;
    } else if s[0] == '\\' {
      if |s| == 1 {
        l := LoneBackslash;
      } else {
        var rest := LexemesOf(s[2..]);
        l := Escape(s[1], rest);
        assert s == ['\\', s[1]] + s[2..];
      }
    } else if IsQuote(s[0]) {
      var body := BodyOf(s[1..], s[0]);
      var rest := LexemesOf(AfterQuote(s[1..], s[0]));
      l := Run(s[0], body, rest);
      assert s == [s[0]] + s[1..];
    } else {
      var rest := LexemesOf(s[1..]);
      l := Char(s[0], rest);
      assert s == [s[0]] + s[1..];
    }
  }

  /** A selector of the language: it cuts into lexemes whose plain characters are balanced. */
  ghost predicate WellFormed(s: string) {
    exists l :: Lexes(l, s) && Balanced(CharsOf(l))
  }

  /** Closed quotes mean the text has lexemes, and every way to cut it shows the same characters. */
  lemma VisibleDecidesWellFormed(s: string)
    ensures WellFormed(s) <==> QuotesClosed(s) && Balanced(Visible(s))
  {
    if QuotesClosed(s) && Balanced(Visible(s)) {
      var l := LexemesOf(s);
      LexemesAreVisible(l);
      assert Lexes(l, s) && Balanced(CharsOf(l));
    }
    if WellFormed(s) {
      var l :| Lexes(l, s) && Balanced(CharsOf(l));
      LexemesAreVisible(l);
    }
  }

  // ----- the stack machine on visible characters

  /** Whether the text closes exactly the brackets in `stack`, last opened first. */
  predicate Matches(s: string, stack: string) {
    if s == "" then stack == ""
    else if IsOpen(s[0]) then Matches(s[1..], stack + [s[0]])
    else if IsClose(s[0]) then
      && stack != "" && IsOpen(stack[|stack| - 1]) && Partner(stack[|stack| - 1]) == s[0]
      && Matches(s[1..], stack[..|stack| - 1])
    else Matches(s[1..], stack)
  }

  /** A derivable text in front leaves the stack as it was. */
  lemma {:induction false} DerivedIsTransparent(d: Derivation, rest: string, stack: string)
    requires Sound(d)
    ensures Matches(Yield(d) + rest, stack) == Matches(rest, stack)
    decreases d
  {
    match d
    case Nothing =>
      assert "" + rest == rest;
    case Plain(c, more) =>
      PlainIs(c);
      assert (Yield(d) + rest)[1..] == Yield(more) + rest;
      DerivedIsTransparent(more, rest, stack);
    case Bracketed(open, inner, close, more) =>
      BracketsAre(open, close);
      var tail := [close] + Yield(more) + rest;
      assert (Yield(d) + rest)[1..] == Yield(inner) + tail;
      DerivedIsTransparent(inner, tail, stack + [open]);
      assert tail[1..] == Yield(more) + rest;
      assert (stack + [open])[..|stack|] == stack;
      DerivedIsTransparent(more, rest, stack);
  }

  lemma Glue(s: string, inner: string, close: char, more: string, rest: string)
    requires s != "" && s[1..] == inner + ([close] + (more + rest))
    ensures s == ([s[0]] + inner + [close] + more) + rest
  {
    assert s == [s[0]] + s[1..];
  }

  /**
   A text that closes a non-empty stack splits into a derivable part, the bracket closing
   the top of the stack, and a text that closes the rest.
   */
  lemma {:induction false} SplitAtClose(s: string, stack: string) returns (d: Derivation, rest: string)
    requires stack != "" && IsOpen(stack[|stack| - 1]) && Matches(s, stack)
    ensures Sound(d) && s == Yield(d) + ([Partner(stack[|stack| - 1])] + rest)
    ensures Matches(rest, stack[..|stack| - 1]) && |rest| < |s|
    decreases |s|
  {
    var top := stack[|stack| - 1];
    if IsClose(s[0]) {
      d, rest := Nothing, s[1..];
      assert s == "" + ([Partner(top)] + rest);
    } else if IsOpen(s[0]) {
      assert (stack + [s[0]])[..|stack|] == stack;
      var inner, mid := SplitAtClose(s[1..], stack + [s[0]]);
      var more, last := SplitAtClose(mid, stack);
      BracketsAre(s[0], Partner(s[0]));
      d, rest := Bracketed(s[0], inner, Partner(s[0]), more), last;
      Glue(s, Yield(inner), Partner(s[0]), Yield(more), [Partner(top)] + rest);
    } else {
      var more, last := SplitAtClose(s[1..], stack);
      PlainIs(s[0]);
      d, rest := Plain(s[0], more), last;
      assert s == ([s[0]] + Yield(more)) + ([Partner(top)] + rest);
    }
  }

  lemma SplitOnly(s: string, open: char) returns (d: Derivation, rest: string)
    requires IsOpen(open) && Matches(s, "" + [open])
    ensures Sound(d) && s == Yield(d) + ([Partner(open)] + rest)
    ensures Matches(rest, "") && |rest| < |s|
  {
    assert "" + [open] == [open];
    assert [open][..0] == "";
    d, rest := SplitAtClose(s, [open]);
  }

  lemma {:induction false} MatchedIsDerivable(s: string) returns (d: Derivation)
    requires Matches(s, "")
    ensures Derives(d, s)
    decreases |s|
  {
    if s == "" {
      d := Nothing;
    } else if IsOpen(s[0]) {
      var open := s[0];
      var inner, mid := SplitOnly(s[1..], open);
      var more := MatchedIsDerivable(mid);
      BracketsAre(open, Partner(open));
      d := Bracketed(open, inner, Partner(open), more);
      assert mid == Yield(more) + "";
      Glue(s, Yield(inner), Partner(open), Yield(more), "");
      assert s == Yield(d) + "";
    } else {
      var more := MatchedIsDerivable(s[1..]);
      PlainIs(s[0]);
      d := Plain(s[0], more);
      assert s == [s[0]] + s[1..];
    }
  }

  /** The stack machine accepts exactly the derivable texts. */
  lemma StackMachineIsGrammar(s: string)
    ensures Matches(s, "") <==> Balanced(s)
  {
    if Matches(s, "") {
      var d := MatchedIsDerivable(s);
      assert Derives(d, s);
    }
    if Balanced(s) {
      var d :| Derives(d, s);
      assert Yield(d) + "" == s;
      DerivedIsTransparent(d, "", "");
    }
  }

  // ----- the scanner

  datatype Quote = NoQuote | In(mark: char)

  /** What the rest of the text must satisfy for the scan to accept from a given state. */
  ghost predicate RestAccepted(rest: string, stack: string, quote: Quote, escaped: bool) {
    var s := if escaped && rest != "" then rest[1..] else rest;
    match quote
    case NoQuote => QuotesClosed(s) && Matches(Visible(s), stack)
    case In(q) => QuoteEnds(s, q) && QuotesClosed(AfterQuote(s, q)) && Matches(Visible(AfterQuote(s, q)), stack)
  }

  /** How one character moves the scan, in terms of what the rest must satisfy. */
  lemma Advance(rest: string, stack: string, quote: Quote, escaped: bool)
    requires rest != ""
    ensures
      var c, after := rest[0], rest[1..];
      RestAccepted(rest, stack, quote, escaped) ==
      if escaped then RestAccepted(after, stack, quote, false)
      else if c == '\\' then RestAccepted(after, stack, quote, true)
      else if quote.In? then RestAccepted(after, stack, if c == quote.mark then NoQuote else quote, false)
      else if IsQuote(c) then RestAccepted(after, stack, In(c), false)
      else if IsOpen(c) then RestAccepted(after, stack + [c], NoQuote, false)
      else if IsClose(c) then
        && stack != "" && IsOpen(stack[|stack| - 1]) && Partner(stack[|stack| - 1]) == c
        && RestAccepted(after, stack[..|stack| - 1], NoQuote, false)
      else RestAccepted(after, stack, NoQuote, false)
  {
    var c, after := rest[0], rest[1..];
    if escaped {
    } else if c == '\\' {
      assert |rest| >= 2 ==> rest[2..] == after[1..];
    } else if quote.NoQuote? && !IsQuote(c) {
      assert Visible(rest) == [c] + Visible(after);
      assert ([c] + Visible(after))[1..] == Visible(after);
    }
  }

  lemma AtTheEnd(stack: string, quote: Quote, escaped: bool)
    ensures RestAccepted("", stack, quote, escaped) <==> quote.NoQuote? && stack == ""
  {
  }

  lemma AtTheStart(s: string)
    ensures RestAccepted(s[0..], "", NoQuote, false) <==> WellFormed(s)
  {
    assert s[0..] == s;
    VisibleDecidesWellFormed(s);
    StackMachineIsGrammar(Visible(s));
  }

  /** The scan itself accepts exactly the selectors of the language. */
  method Scan(s: string) returns (ok: bool)
    ensures ok == WellFormed(s)
  {
    hide RestAccepted, WellFormed;
    var stack: string := "";
    var quote := NoQuote;
    var escaped := false;
    var i := 0;
    AtTheStart(s);
    while i < |s|
      invariant 0 <= i <= |s|
      invariant RestAccepted(s[i..], stack, quote, escaped) == WellFormed(s)
    {
      var ch := s[i];
      Advance(s[i..], stack, quote, escaped);
      assert s[i..][1..] == s[i + 1..];
      i := i + 1;
      if escaped {
        escaped := false;
        continue;
      }
      if ch == '\\' {
        escaped := true;
        continue;
      }
      if quote.In? {
        if ch == quote.mark {
          quote := NoQuote;
        }
        continue;
      }
      if IsQuote(ch) {
        quote := In(ch);
        continue;
      }
      if IsOpen(ch) {
        stack := stack + [ch];
      }
      if IsClose(ch) {
        if stack == "" || !IsOpen(stack[|stack| - 1]) || Partner(stack[|stack| - 1]) != ch {
          return false;
        }
        stack := stack[..|stack| - 1];
      }
    }
    assert s[i..] == "";
    AtTheEnd(stack, quote, escaped);
    return !(quote.In? || |stack| > 0);
  }

  /**
   Accepts a string exactly when it belongs to the language; a missing selector is accepted
   and a blank one, or the `text(...)` form, refused.
   */
  method Validate(selector: Argument) returns (verdict: Verdict)
    ensures selector.Missing? ==> verdict == Accepted
    ensures selector.NotAString? ==> verdict == EmptyOrNotAString
    ensures selector.Given? && IsBlank(selector.text) ==> verdict == EmptyOrNotAString
    ensures selector.Given? && !IsBlank(selector.text) && TextForm(selector.text) ==>
      verdict == TextFunctionSyntax
    ensures selector.Given? && !IsBlank(selector.text) && !TextForm(selector.text) ==>
      verdict == if WellFormed(selector.text) then Accepted else InvalidSyntax
  {
    if selector.Missing? {
      return Accepted;
    }
    if selector.NotAString? {
      return EmptyOrNotAString;
    }
    var s := selector.text;
    BlankIsTrimmedEmpty(s);
    if TrimEnd(TrimStart(s)) == "" {
      return EmptyOrNotAString;
    }
    TextFunctionIs(s);
    if IsTextFunction(s) {
      return TextFunctionSyntax;
    }
    var ok := Scan(s);
    return if ok then Accepted else InvalidSyntax;
  }
}
