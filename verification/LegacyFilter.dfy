/** The rewriting of numeric operands in legacy filter texts. */
module LegacyFilter {
  import opened Options

  type Operator = s: string | s == "&&" || s == "||" witness "&&"

  predicate IsQuote(c: char) { c == '\'' || c == '"' }
  predicate IsBlank(c: char) { c == ' ' || c == '\t' }
  predicate IsSign(c: char) { c == '+' || c == '-' }
  predicate IsDigit(c: char) { '0' <= c <= '9' }

  /** The number of leading blanks, and of leading digits. */
  function Blanks(s: string): (n: nat)
    ensures n <= |s| && (forall i | 0 <= i < n :: IsBlank(s[i])) && (n < |s| ==> !IsBlank(s[n]))
  {
    if s != "" && IsBlank(s[0]) then 1 + Blanks(s[1..]) else 0
  }

  function Digits(s: string): (n: nat)
    ensures n <= |s| && (forall i | 0 <= i < n :: IsDigit(s[i])) && (n < |s| ==> !IsDigit(s[n]))
  {
    if s != "" && IsDigit(s[0]) then 1 + Digits(s[1..]) else 0
  }

  /** The length of a leading optional sign and the digits after it; a sign alone counts. */
  function NumberLength(s: string): (n: nat)
    ensures n <= |s| && (n == 0 <==> s == "" || !(IsSign(s[0]) || IsDigit(s[0])))
    ensures n > 0 ==> IsSign(s[0]) || IsDigit(s[0])
    ensures forall i | 1 <= i < n :: IsDigit(s[i])
    ensures 0 < n < |s| ==> !IsDigit(s[n])
  {
    if s != "" && IsSign(s[0]) then 1 + Digits(s[1..]) else Digits(s)
  }

  /** Where the blanks and the number after an operator end. */
  function AfterBlanks(s: string, op: Operator): (n: nat)
    requires op <= s
    ensures |op| <= n <= |s|
  {
    |op| + Blanks(s[|op|..])
  }

  function AfterNumber(s: string, op: Operator): (n: nat)
    requires op <= s
    ensures AfterBlanks(s, op) <= n <= |s|
  {
    AfterBlanks(s, op) + NumberLength(s[AfterBlanks(s, op)..])
  }

  function Wrapped(number: string): string { if number == "" then "" else "(" + number + " != 0)" }

  /** The length of the next piece inside quotes, where a backslash takes the next character along, and the
      quote after it. */
  function QuotedStep(s: string): nat
    requires s != ""
  {
    if s[0] == '\\' && |s| > 1 then 2 else 1
  }

  function QuoteAfter(s: string, quote: char): Option<char>
    requires s != ""
  {
    if s[0] == '\\' && |s| > 1 then Some(quote) else if s[0] == quote then None else Some(quote)
  }

  /** The rewriting of what is left of the text when `quote` is open. */
  function Rewrite(s: string, quote: Option<char>, op: Operator): string
    decreases |s|
  {
    if s == "" then ""
    else if quote.Some? then s[..QuotedStep(s)] + Rewrite(s[QuotedStep(s)..], QuoteAfter(s, quote.value), op)
    else if IsQuote(s[0]) then [s[0]] + Rewrite(s[1..], Some(s[0]), op)
    else if op <= s then
      s[..AfterBlanks(s, op)] + Wrapped(s[AfterBlanks(s, op)..AfterNumber(s, op)]) +
        Rewrite(s[AfterNumber(s, op)..], None, op)
    else [s[0]] + Rewrite(s[1..], None, op)
  }

  method RewriteNumericLogicalOperand(expr: string, op: Operator) returns (result: string)
    ensures result == Rewrite(expr, None, op)
  {
    hide Rewrite, AfterBlanks, AfterNumber, Wrapped;
    var builder := "";
    var n, i := |expr|, 0;
    var inQuote: Option<char> := None;
    assert expr[0..] == expr;
    while i < n
      invariant 0 <= i <= n
      invariant builder + Rewrite(expr[i..], inQuote, op) == Rewrite(expr, None, op)
    {
      var ch := expr[i];
      if inQuote.Some? {
        QuotedAdvance(expr, i, inQuote.value, op, builder);
        builder := builder + [ch];
        if ch == '\\' && i + 1 < n {
          builder := builder + [expr[i + 1]];
          i := i + 2;
          continue;
        }
        if ch == inQuote.value {
          inQuote := None;
        }
        i := i + 1;
        continue;
      }
      if ch == '\'' || ch == '"' {
        PlainAdvance(expr, i, op, builder);
        inQuote := Some(ch);
        builder := builder + [ch];
        i := i + 1;
        continue;
      }
      if op <= expr[i..] {
        var literal, wsEnd, end := ReadOperand(expr, i, op);
        OperandAdvance(expr, i, op, builder);
        builder := builder + expr[i..wsEnd] + Wrapped(literal);
        i := end;
        continue;
      }
      PlainAdvance(expr, i, op, builder);
      builder := builder + [ch];
      i := i + 1;
    }
    assert expr[n..] == "";
    RewriteNothing(op, inQuote);
    result := builder;
  }

  lemma QuotedAdvance(expr: string, i: nat, quote: char, op: Operator, builder: string)
    requires i < |expr|
    ensures builder + Rewrite(expr[i..], Some(quote), op) ==
            if expr[i] == '\\' && i + 1 < |expr| then
              builder + [expr[i]] + [expr[i + 1]] + Rewrite(expr[i + 2..], Some(quote), op)
            else builder + [expr[i]] + Rewrite(expr[i + 1..], if expr[i] == quote then None else Some(quote), op)
  {
    hide AfterBlanks, AfterNumber, Wrapped, Rewrite;
    var rest := expr[i..];
    QuotedAt(rest, quote, op);
    if expr[i] == '\\' && i + 1 < |expr| {
      assert rest[..2] == [expr[i]] + [expr[i + 1]] && rest[2..] == expr[i + 2..];
    } else {
      assert rest[..1] == [expr[i]] && rest[1..] == expr[i + 1..];
    }
  }

  lemma QuotedAt(s: string, quote: char, op: Operator)
    requires s != ""
    ensures Rewrite(s, Some(quote), op) == s[..QuotedStep(s)] + Rewrite(s[QuotedStep(s)..], QuoteAfter(s, quote), op)
  {
    hide AfterBlanks, AfterNumber, Wrapped;
  }

  lemma PlainAdvance(expr: string, i: nat, op: Operator, builder: string)
    requires i < |expr|
    ensures IsQuote(expr[i]) || !(op <= expr[i..]) ==>
              builder + Rewrite(expr[i..], None, op)
              == builder + [expr[i]] + Rewrite(expr[i + 1..], if IsQuote(expr[i]) then Some(expr[i]) else None, op)
  {
    hide AfterBlanks, AfterNumber, Wrapped;
    assert expr[i..][1..] == expr[i + 1..];
  }

  lemma OperandAdvance(expr: string, i: nat, op: Operator, builder: string)
    requires i < |expr| && !IsQuote(expr[i]) && op <= expr[i..]
    ensures var a, b := i + AfterBlanks(expr[i..], op), i + AfterNumber(expr[i..], op);
            builder + Rewrite(expr[i..], None, op) == builder + expr[i..a] + Wrapped(expr[a..b]) +
              Rewrite(expr[b..], None, op)
  {
    hide AfterBlanks, AfterNumber, Wrapped;
    var rest := expr[i..];
    var a, b := AfterBlanks(rest, op), AfterNumber(rest, op);
    SliceOfTail(expr, i, 0, a);
    SliceOfTail(expr, i, a, b);
    SliceOfTail(expr, i, b, |rest|);
    ConcatFour(builder, rest[..a], Wrapped(rest[a..b]), Rewrite(rest[b..], None, op));
  }

  /** The operator at `i`, the blanks after it and the number after those. */
  method ReadOperand(expr: string, start: nat, op: Operator) returns (literal: string, wsEnd: nat, end: nat)
    requires start <= |expr| && op <= expr[start..]
    ensures wsEnd == start + AfterBlanks(expr[start..], op) <= end == start + AfterNumber(expr[start..], op) <= |expr|
    ensures literal == expr[wsEnd..end]
  {
    hide Blanks, Digits, NumberLength;
    wsEnd := SkipBlanks(expr, start + |op|);
    end := SkipNumber(expr, wsEnd);
    TailOfTail(expr, start, |op|);
    TailOfTail(expr, start, wsEnd - start);
    literal := expr[wsEnd..end];
  }

  lemma TailOfTail(s: string, i: nat, k: nat)
    requires i + k <= |s|
    ensures s[i..][k..] == s[i + k..]
  {}

  method SkipNumber(expr: string, start: nat) returns (i: nat)
    requires start <= |expr|
    ensures i == start + NumberLength(expr[start..]) <= |expr|
  {
    hide Digits;
    i := start;
    if i < |expr| && (expr[i] == '+' || expr[i] == '-') {
      i := i + 1;
      TailOfTail(expr, start, 1);
    }
    i := SkipDigits(expr, i);
  }

  method SkipBlanks(expr: string, start: nat) returns (i: nat)
    requires start <= |expr|
    ensures i == start + Blanks(expr[start..]) <= |expr|
  {
    i := start;
    while i < |expr| && (expr[i] == ' ' || expr[i] == '\t')
      invariant start <= i <= |expr|
      invariant i + Blanks(expr[i..]) == start + Blanks(expr[start..])
    {
      assert expr[i..][1..] == expr[i + 1..];
      i := i + 1;
    }
  }

  method SkipDigits(expr: string, start: nat) returns (i: nat)
    requires start <= |expr|
    ensures i == start + Digits(expr[start..]) <= |expr|
  {
    i := start;
    while i < |expr| && '0' <= expr[i] <= '9'
      invariant start <= i <= |expr|
      invariant i + Digits(expr[i..]) == start + Digits(expr[start..])
    {
      assert expr[i..][1..] == expr[i + 1..];
      i := i + 1;
    }
  }

  lemma ConcatFour(a: string, b: string, c: string, d: string)
    ensures a + b + c + d == a + (b + c + d)
  {}

  lemma SliceOfTail(s: string, i: nat, a: nat, b: nat)
    requires i <= |s| && a <= b <= |s| - i
    ensures s[i..][a..b] == s[i + a..i + b]
    ensures a == 0 ==> s[i..][..b] == s[i..i + b]
    ensures b == |s| - i ==> s[i..][a..] == s[i + a..]
  {}

  lemma RewriteNothing(op: Operator, quote: Option<char>)
    ensures Rewrite("", quote, op) == ""
  {}

  function NormalizeLegacyFilter(expr: string): string { Rewrite(Rewrite(expr, None, "&&"), None, "||") }

  method Normalize(expr: string) returns (result: string)
    ensures result == NormalizeLegacyFilter(expr)
  {
    result := RewriteNumericLogicalOperand(expr, "&&");
    result := RewriteNumericLogicalOperand(result, "||");
  }

  // ----- deleting what was inserted -----

  /** A piece of the text: copied, or a number that is put between `(` and ` != 0)`. */
  datatype Piece = Copied(text: string) | Number(literal: string)

  function Source(ps: seq<Piece>): string {
    if ps == [] then "" else (if ps[0].Copied? then ps[0].text else ps[0].literal) + Source(ps[1..])
  }

  function Target(ps: seq<Piece>): string {
    if ps == [] then "" else (if ps[0].Copied? then ps[0].text else "(" + ps[0].literal + " != 0)") + Target(ps[1..])
  }

  /** A sign or digit, and digits. */
  predicate IsNumber(s: string) {
    s != "" && (IsSign(s[0]) || IsDigit(s[0])) && forall i | 1 <= i < |s| :: IsDigit(s[i])
  }

  predicate NumbersAreNumbers(ps: seq<Piece>) { forall p <- ps :: p.Number? ==> IsNumber(p.literal) }

  /** The text in pieces, its numbers in operand position apart. */
  function Pieces(s: string, quote: Option<char>, op: Operator): seq<Piece>
    decreases |s|
  {
    if s == "" then []
    else if quote.Some? then [Copied(s[..QuotedStep(s)])] + Pieces(s[QuotedStep(s)..], QuoteAfter(s, quote.value), op)
    else if IsQuote(s[0]) then [Copied([s[0]])] + Pieces(s[1..], Some(s[0]), op)
    else if op <= s then
      var a, b := AfterBlanks(s, op), AfterNumber(s, op);
      [Copied(s[..a])] + (if b > a then [Number(s[a..b])] else []) + Pieces(s[b..], None, op)
    else [Copied([s[0]])] + Pieces(s[1..], None, op)
  }

  lemma CopiedInFront(text: string, ps: seq<Piece>)
    ensures Source([Copied(text)] + ps) == text + Source(ps) && Target([Copied(text)] + ps) == text + Target(ps)
    ensures NumbersAreNumbers(ps) ==> NumbersAreNumbers([Copied(text)] + ps)
  {
    assert ([Copied(text)] + ps)[1..] == ps;
  }

  lemma NumberInFront(literal: string, ps: seq<Piece>)
    ensures Source([Number(literal)] + ps) == literal + Source(ps)
    ensures Target([Number(literal)] + ps) == "(" + literal + " != 0)" + Target(ps)
    ensures NumbersAreNumbers(ps) && IsNumber(literal) ==> NumbersAreNumbers([Number(literal)] + ps)
  {
    assert ([Number(literal)] + ps)[1..] == ps;
  }

  /** The pieces give the text before and after the rewriting. */
  ghost predicate Account(ps: seq<Piece>, s: string, t: string) {
    Source(ps) == s && Target(ps) == t && NumbersAreNumbers(ps)
  }

  /** An operator outside quotes is next. */
  predicate OperandNext(s: string, quote: Option<char>, op: Operator) {
    s != "" && quote.None? && !IsQuote(s[0]) && op <= s
  }

  /** How much of the text is copied otherwise, and which quote is open then. */
  function CopyLength(s: string, quote: Option<char>): (k: nat)
    requires s != ""
    ensures 1 <= k <= |s|
  {
    if quote.Some? then QuotedStep(s) else 1
  }

  function CopyQuote(s: string, quote: Option<char>): Option<char>
    requires s != ""
  {
    if quote.Some? then QuoteAfter(s, quote.value) else if IsQuote(s[0]) then Some(s[0]) else None
  }

  lemma CopyStep(s: string, quote: Option<char>, op: Operator)
    requires s != "" && !OperandNext(s, quote, op)
    ensures var k, q := CopyLength(s, quote), CopyQuote(s, quote);
            s == s[..k] + s[k..] && Pieces(s, quote, op) == [Copied(s[..k])] + Pieces(s[k..], q, op) &&
            Rewrite(s, quote, op) == s[..k] + Rewrite(s[k..], q, op)
  {
    hide AfterBlanks, AfterNumber;
    assert quote.None? ==> s[..1] == [s[0]];
  }

  /** The rewritten text is the original with `(` and ` != 0)` put around numbers: deleting them gives it back. */
  lemma {:induction false} DeletingInsertionsRecovers(s: string, quote: Option<char>, op: Operator)
    ensures Account(Pieces(s, quote, op), s, Rewrite(s, quote, op))
    decreases |s|
  {
    hide AfterBlanks, AfterNumber, Account, Pieces, Rewrite, CopyLength, CopyQuote;
    if s == "" {
      NothingAccounted(quote, op);
    } else if OperandNext(s, quote, op) {
      DeletingInsertionsRecovers(s[AfterNumber(s, op)..], None, op);
      OperandPieces(s, op);
    } else {
      var k, q := CopyLength(s, quote), CopyQuote(s, quote);
      CopyStep(s, quote, op);
      DeletingInsertionsRecovers(s[k..], q, op);
      CopiedAccount(s[..k], Pieces(s[k..], q, op), s[k..], Rewrite(s[k..], q, op));
    }
  }

  lemma NothingAccounted(quote: Option<char>, op: Operator)
    ensures Account(Pieces("", quote, op), "", Rewrite("", quote, op))
  {}

  lemma OperandPieces(s: string, op: Operator)
    requires op <= s && !IsQuote(s[0])
    requires var b := AfterNumber(s, op); Account(Pieces(s[b..], None, op), s[b..], Rewrite(s[b..], None, op))
    ensures Account(Pieces(s, None, op), s, Rewrite(s, None, op))
  {
    hide AfterBlanks, AfterNumber, Account, Pieces, Rewrite, IsNumber, Wrapped;
    var a, b := AfterBlanks(s, op), AfterNumber(s, op);
    var rest, after := Pieces(s[b..], None, op), Rewrite(s[b..], None, op);
    NumberAt(s, op);
    AtOperand(s, op);
    if b > a {
      NumberAccount(s[a..b], rest, s[b..], after);
      CopiedAccount(s[..a], [Number(s[a..b])] + rest, s[a..b] + s[b..], Wrapped(s[a..b]) + after);
    } else {
      CopiedAccount(s[..a], rest, s[b..], after);
    }
  }

  /** Text, pieces and rewriting at an operator. */
  lemma AtOperand(s: string, op: Operator)
    requires op <= s && !IsQuote(s[0])
    ensures var a, b := AfterBlanks(s, op), AfterNumber(s, op);
            var rest, after := Pieces(s[b..], None, op), Rewrite(s[b..], None, op);
            if b > a then
              s == s[..a] + (s[a..b] + s[b..]) &&
              Pieces(s, None, op) == [Copied(s[..a])] + ([Number(s[a..b])] + rest) &&
              Rewrite(s, None, op) == s[..a] + (Wrapped(s[a..b]) + after)
            else
              s == s[..a] + s[b..] && Pieces(s, None, op) == [Copied(s[..a])] + rest &&
              Rewrite(s, None, op) == s[..a] + after
  {
    hide AfterBlanks, AfterNumber, Pieces, Rewrite, Wrapped;
    var a, b := AfterBlanks(s, op), AfterNumber(s, op);
    PiecesAtOperand(s, op);
    RewriteAtOperand(s, op);
    assert s == s[..a] + (s[a..b] + s[b..]);
  }

  lemma PiecesAtOperand(s: string, op: Operator)
    requires op <= s && !IsQuote(s[0])
    ensures var a, b := AfterBlanks(s, op), AfterNumber(s, op);
            Pieces(s, None, op) == [Copied(s[..a])] + (if b > a then [Number(s[a..b])] + Pieces(s[b..], None, op)
                                                       else Pieces(s[b..], None, op))
  {
    hide AfterBlanks, AfterNumber;
  }

  lemma RewriteAtOperand(s: string, op: Operator)
    requires op <= s && !IsQuote(s[0])
    ensures var a, b := AfterBlanks(s, op), AfterNumber(s, op);
            Rewrite(s, None, op) == s[..a] + (if b > a then Wrapped(s[a..b]) + Rewrite(s[b..], None, op)
                                              else Rewrite(s[b..], None, op))
  {
    hide AfterBlanks, AfterNumber;
    var a, b := AfterBlanks(s, op), AfterNumber(s, op);
    ConcatThree(s[..a], Wrapped(s[a..b]), Rewrite(s[b..], None, op));
    if b == a { assert Wrapped(s[a..b]) == ""; }
  }

  lemma CopiedAccount(text: string, ps: seq<Piece>, s: string, t: string)
    requires Account(ps, s, t)
    ensures Account([Copied(text)] + ps, text + s, text + t)
  {
    CopiedInFront(text, ps);
  }

  lemma NumberAccount(literal: string, ps: seq<Piece>, s: string, t: string)
    requires Account(ps, s, t) && IsNumber(literal)
    ensures Account([Number(literal)] + ps, literal + s, Wrapped(literal) + t)
  {
    NumberInFront(literal, ps);
  }

  lemma ConcatThree(a: string, b: string, c: string)
    ensures a + b + c == a + (b + c)
  {}

  lemma NumberAt(s: string, op: Operator)
    requires op <= s
    ensures var a, b := AfterBlanks(s, op), AfterNumber(s, op); b > a ==> IsNumber(s[a..b])
  {
    var a, b := AfterBlanks(s, op), AfterNumber(s, op);
    if b > a { assert s[a..b][0] == s[a..][0]; }
    forall i | 1 <= i < b - a ensures IsDigit(s[a..b][i]) { assert s[a..b][i] == s[a..][i]; }
  }

  // ----- quoted text -----

  /** The text inside quotes, with the quotes. */
  function Quoted(s: string, quote: Option<char>): string
    decreases |s|
  {
    if s == "" then ""
    else if quote.Some? then s[..QuotedStep(s)] + Quoted(s[QuotedStep(s)..], QuoteAfter(s, quote.value))
    else if IsQuote(s[0]) then [s[0]] + Quoted(s[1..], Some(s[0]))
    else Quoted(s[1..], None)
  }

  /** A text without quotes in front adds nothing. */
  lemma {:induction false} QuotelessFront(p: string, t: string)
    requires forall i | 0 <= i < |p| :: !IsQuote(p[i])
    ensures Quoted(p + t, None) == Quoted(t, None)
  {
    if p == "" {
      assert p + t == t;
    } else {
      assert (p + t)[1..] == p[1..] + t;
      QuotelessFront(p[1..], t);
    }
  }

  lemma OperandHasNoQuotes(s: string, op: Operator)
    requires op <= s
    ensures var a, b := AfterBlanks(s, op), AfterNumber(s, op);
            (forall i | 0 <= i < b :: !IsQuote(s[i])) &&
            forall i | 0 <= i < |Wrapped(s[a..b])| :: !IsQuote(Wrapped(s[a..b])[i])
  {
    var a, b := AfterBlanks(s, op), AfterNumber(s, op);
    forall i | 0 <= i < b ensures !IsQuote(s[i]) {
      if |op| <= i < a { assert s[i] == s[|op|..][i - |op|]; }
      if a <= i { assert s[i] == s[a..][i - a]; }
    }
    NumberAt(s, op);
    NumberHasNoQuotes(s[a..b]);
  }

  lemma NumberHasNoQuotes(number: string)
    requires number == "" || IsNumber(number)
    ensures forall i | 0 <= i < |Wrapped(number)| :: !IsQuote(Wrapped(number)[i])
  {
    var w := Wrapped(number);
    forall i | 0 <= i < |w| ensures !IsQuote(w[i]) {
      if number != "" && 1 <= i < 1 + |number| { assert w[i] == number[i - 1]; }
    }
  }

  /** Every quoted region is copied byte for byte. */
  lemma {:induction false} QuotedTextIsCopied(s: string, quote: Option<char>, op: Operator)
    ensures Quoted(Rewrite(s, quote, op), quote) == Quoted(s, quote)
    decreases |s|
  {
    hide AfterBlanks, AfterNumber, Wrapped, Pieces, Rewrite, CopyLength, CopyQuote, Quoted;
    if s == "" {
      RewriteNothing(op, quote);
    } else if OperandNext(s, quote, op) {
      var a, b := AfterBlanks(s, op), AfterNumber(s, op);
      var t := Rewrite(s[b..], None, op);
      QuotedTextIsCopied(s[b..], None, op);
      OperandHasNoQuotes(s, op);
      RewriteAtOperand(s, op);
      QuotelessFront(s[..b], s[b..]);
      assert s == s[..b] + s[b..];
      QuotelessFront(s[..a], if b > a then Wrapped(s[a..b]) + t else t);
      QuotelessFront(Wrapped(s[a..b]), t);
    } else {
      var k, q := CopyLength(s, quote), CopyQuote(s, quote);
      CopyStep(s, quote, op);
      QuotedTextIsCopied(s[k..], q, op);
      RewriteKeepsFirst(s[k..], q, op);
      QuotedCopy(s, quote, Rewrite(s[k..], q, op));
      QuotedCopy(s, quote, s[k..]);
    }
  }

  /** A copied step contributes the same quoted text whatever follows, if something follows or nothing did. */
  lemma QuotedCopy(s: string, quote: Option<char>, t: string)
    requires s != "" && (t == "" <==> CopyLength(s, quote) == |s|)
    ensures var k, q := CopyLength(s, quote), CopyQuote(s, quote);
            Quoted(s[..k] + t, quote) == (if quote.Some? || IsQuote(s[0]) then s[..k] else "") + Quoted(t, q)
  {
    var k := CopyLength(s, quote);
    var r := s[..k] + t;
    assert r[0] == s[0] && r[..k] == s[..k] && r[k..] == t;
    if quote.Some? { assert QuotedStep(r) == k && QuoteAfter(r, quote.value) == QuoteAfter(s, quote.value); }
  }

  /** The rewritten text begins with the same character. */
  lemma RewriteKeepsFirst(s: string, quote: Option<char>, op: Operator)
    ensures s == "" <==> Rewrite(s, quote, op) == ""
    ensures s != "" ==> Rewrite(s, quote, op)[0] == s[0]
  {}

  // ----- texts the rewriting leaves alone -----

  /** No operator the rewriting stops at is followed by blanks and a sign or digit. */
  predicate Settled(s: string, quote: Option<char>, op: Operator)
    decreases |s|
  {
    if s == "" then true
    else if OperandNext(s, quote, op) then
      AfterNumber(s, op) == AfterBlanks(s, op) && Settled(s[AfterBlanks(s, op)..], None, op)
    else Settled(s[CopyLength(s, quote)..], CopyQuote(s, quote), op)
  }

  /** The rewriting is the identity exactly on settled texts. */
  lemma {:induction false} IdentityIffSettled(s: string, quote: Option<char>, op: Operator)
    ensures |Rewrite(s, quote, op)| >= |s|
    ensures Rewrite(s, quote, op) == s <==> Settled(s, quote, op)
    ensures |Rewrite(s, quote, op)| == |s| <==> Settled(s, quote, op)
    decreases |s|
  {
    hide AfterBlanks, AfterNumber, Wrapped, Pieces, Rewrite, CopyLength, CopyQuote;
    if s == "" {
      RewriteNothing(op, quote);
    } else if OperandNext(s, quote, op) {
      var a, b := AfterBlanks(s, op), AfterNumber(s, op);
      IdentityIffSettled(s[b..], None, op);
      RewriteAtOperand(s, op);
      assert b > a ==> |Wrapped(s[a..b])| > b - a by { WrappedLength(s[a..b]); }
      assert s == s[..a] + s[a..];
    } else {
      var k, q := CopyLength(s, quote), CopyQuote(s, quote);
      CopyStep(s, quote, op);
      IdentityIffSettled(s[k..], q, op);
      assert Rewrite(s, quote, op) == s ==> Rewrite(s, quote, op)[k..] == s[k..];
    }
  }

  lemma WrappedLength(number: string)
    ensures number != "" ==> |Wrapped(number)| == |number| + 7
  {}

  /** No place outside quotes, aligned or not, has the operator, blanks and a sign or digit. */
  predicate NoNumericOperand(s: string, quote: Option<char>, op: Operator)
    decreases |s|
  {
    if s == "" then true
    else (OperandNext(s, quote, op) ==> AfterNumber(s, op) == AfterBlanks(s, op)) &&
         NoNumericOperand(s[CopyLength(s, quote)..], CopyQuote(s, quote), op)
  }

  lemma {:induction false} NoNumericOperandDrop(s: string, op: Operator, n: nat)
    requires NoNumericOperand(s, None, op) && n <= |s| && forall i | 0 <= i < n :: !IsQuote(s[i])
    ensures NoNumericOperand(s[n..], None, op)
  {
    if n > 0 {
      assert s[1..][n - 1..] == s[n..];
      NoNumericOperandDrop(s[1..], op, n - 1);
    } else {
      assert s[0..] == s;
    }
  }

  /** A text without numeric operands is left alone. */
  lemma {:induction false} WithoutOperandsIsIdentity(s: string, quote: Option<char>, op: Operator)
    requires NoNumericOperand(s, quote, op)
    ensures Settled(s, quote, op) && Rewrite(s, quote, op) == s
    decreases |s|
  {
    hide AfterBlanks, AfterNumber, Rewrite;
    IdentityIffSettled(s, quote, op);
    if s == "" {
    } else if OperandNext(s, quote, op) {
      OperandHasNoQuotes(s, op);
      NoNumericOperandDrop(s, op, AfterBlanks(s, op));
      WithoutOperandsIsIdentity(s[AfterBlanks(s, op)..], None, op);
    } else {
      WithoutOperandsIsIdentity(s[CopyLength(s, quote)..], CopyQuote(s, quote), op);
    }
  }

  // ----- idempotence -----

  predicate Inert(p: string, op: Operator) { forall i | 0 <= i < |p| :: !IsQuote(p[i]) && p[i] != op[0] }

  /** A text without quotes and operator characters in front is copied and settles nothing. */
  lemma {:induction false} InertFront(p: string, t: string, op: Operator)
    requires Inert(p, op)
    ensures Rewrite(p + t, None, op) == p + Rewrite(t, None, op)
    ensures Settled(p + t, None, op) <==> Settled(t, None, op)
  {
    hide AfterBlanks, AfterNumber, Rewrite;
    if p == "" {
      assert p + t == t && p + Rewrite(t, None, op) == Rewrite(t, None, op);
    } else {
      var s := p + t;
      assert s[0] == p[0] && s[1..] == p[1..] + t;
      InertFront(p[1..], t, op);
      CopyStep(s, None, op);
      assert s[..1] == p[..1];
      assert p == p[..1] + p[1..];
    }
  }

  /** An operator and blanks, followed by nothing or by something that is neither a blank nor a number. */
  lemma SettledOperand(x: string, t: string, op: Operator)
    requires op <= x && (forall i | |op| <= i < |x| :: IsBlank(x[i]))
    requires t == "" || !(IsBlank(t[0]) || IsSign(t[0]) || IsDigit(t[0]))
    ensures OperandNext(x + t, None, op) && AfterBlanks(x + t, op) == AfterNumber(x + t, op) == |x|
    ensures Settled(x + t, None, op) <==> Settled(t, None, op)
  {
    hide Settled, AfterBlanks, AfterNumber;
    OperandEnds(x, t, op);
    assert (x + t)[0] == op[0] && (x + t)[|x|..] == t;
    SettledAtOperand(x + t, op);
  }

  lemma OperandEnds(x: string, t: string, op: Operator)
    requires op <= x && (forall i | |op| <= i < |x| :: IsBlank(x[i]))
    requires t == "" || !(IsBlank(t[0]) || IsSign(t[0]) || IsDigit(t[0]))
    ensures op <= x + t && AfterBlanks(x + t, op) == AfterNumber(x + t, op) == |x|
  {
    hide Blanks, NumberLength;
    var s := x + t;
    assert s[..|op|] == op;
    assert s[|op|..] == x[|op|..] + t;
    BlanksThen(x[|op|..], t);
    assert s[|x|..] == t;
  }

  lemma SettledAtOperand(s: string, op: Operator)
    requires OperandNext(s, None, op)
    ensures Settled(s, None, op) <==>
            AfterNumber(s, op) == AfterBlanks(s, op) && Settled(s[AfterBlanks(s, op)..], None, op)
  {}

  lemma {:induction false} BlanksThen(x: string, t: string)
    requires (forall i | 0 <= i < |x| :: IsBlank(x[i])) && (t == "" || !IsBlank(t[0]))
    ensures Blanks(x + t) == |x|
  {
    if x == "" { assert x + t == t; } else { BlanksThen(x[1..], t); assert (x + t)[1..] == x[1..] + t; }
  }

  /** What stands at an operator: the operator and blanks, then neither blank, and a number only if there is one. */
  lemma OperandParts(s: string, op: Operator)
    requires op <= s
    ensures var a, b := AfterBlanks(s, op), AfterNumber(s, op);
            op <= s[..a] && (forall i | |op| <= i < a :: IsBlank(s[..a][i])) && (a < |s| ==> !IsBlank(s[a])) &&
            (b == a && a < |s| ==> !IsSign(s[a]) && !IsDigit(s[a]))
  {
    var a := AfterBlanks(s, op);
    forall i | |op| <= i < a ensures IsBlank(s[..a][i]) { assert s[i] == s[|op|..][i - |op|]; }
    if a < |s| { assert s[a] == s[|op|..][a - |op|] && s[a] == s[a..][0]; }
  }

  lemma WrappedIsInert(s: string, op: Operator, other: Operator)
    requires op <= s
    ensures Inert(Wrapped(s[AfterBlanks(s, op)..AfterNumber(s, op)]), other)
  {
    hide AfterBlanks, AfterNumber;
    NumberAt(s, op);
    NumberIsInert(s[AfterBlanks(s, op)..AfterNumber(s, op)], other);
  }

  lemma NumberIsInert(number: string, op: Operator)
    requires number == "" || IsNumber(number)
    ensures Inert(Wrapped(number), op)
  {
    var w := Wrapped(number);
    forall i | 0 <= i < |w| ensures !IsQuote(w[i]) && w[i] != op[0] {
      if number != "" && 1 <= i < 1 + |number| { assert w[i] == number[i - 1]; }
    }
  }

  /** A copied step stays a copied step when what follows keeps its first character. */
  lemma CopySettled(s: string, quote: Option<char>, t: string, op: Operator)
    requires s != "" && !OperandNext(s, quote, op)
    requires var k := CopyLength(s, quote); (t == "" <==> k == |s|) && (t != "" ==> t[0] == s[k])
    ensures var k, q := CopyLength(s, quote), CopyQuote(s, quote);
            Settled(s[..k] + t, quote, op) <==> Settled(t, q, op)
  {
    hide AfterBlanks, AfterNumber;
    var k := CopyLength(s, quote);
    var r := s[..k] + t;
    assert r[0] == s[0] && r[k..] == t;
    if quote.Some? { assert QuotedStep(r) == k && QuoteAfter(r, quote.value) == QuoteAfter(s, quote.value); }
    if quote.None? && op <= r { assert r[1] == t[0]; assert op <= s; }
  }

  /** What the rewriting returns is settled. */
  lemma {:induction false} RewriteSettles(s: string, quote: Option<char>, op: Operator)
    ensures Settled(Rewrite(s, quote, op), quote, op)
    decreases |s|
  {
    hide AfterBlanks, AfterNumber, Wrapped, Rewrite, CopyLength, CopyQuote, Settled, Inert;
    if s == "" {
      RewriteNothing(op, quote);
      NothingSettled(quote, op);
    } else if OperandNext(s, quote, op) {
      var a, b := AfterBlanks(s, op), AfterNumber(s, op);
      var t := Rewrite(s[b..], None, op);
      RewriteSettles(s[b..], None, op);
      RewriteAtOperand(s, op);
      OperandParts(s, op);
      RewriteKeepsFirst(s[b..], None, op);
      if b > a {
        WrappedIsInert(s, op, op);
        InertFront(Wrapped(s[a..b]), t, op);
        WrappedStarts(s[a..b], t);
        SettledOperand(s[..a], Wrapped(s[a..b]) + t, op);
      } else {
        SettledOperand(s[..a], t, op);
      }
    } else {
      var k, q := CopyLength(s, quote), CopyQuote(s, quote);
      CopyStep(s, quote, op);
      RewriteSettles(s[k..], q, op);
      RewriteKeepsFirst(s[k..], q, op);
      CopySettled(s, quote, Rewrite(s[k..], q, op), op);
    }
  }

  lemma NothingSettled(quote: Option<char>, op: Operator)
    ensures Settled("", quote, op)
  {}

  lemma WrappedStarts(number: string, t: string)
    requires number != ""
    ensures Wrapped(number) + t != "" && (Wrapped(number) + t)[0] == '('
  {}

  /** Rewriting the operands of `||` makes no new operand of `&&`. */
  lemma {:induction false} OrKeepsAndSettled(s: string, quote: Option<char>)
    requires Settled(s, quote, "&&")
    ensures Settled(Rewrite(s, quote, "||"), quote, "&&")
    decreases |s|
  {
    hide AfterBlanks, AfterNumber, Wrapped, Rewrite, CopyLength, CopyQuote, Settled, Inert;
    if s == "" {
      RewriteNothing("||", quote);
    } else if OperandNext(s, quote, "||") {
      OrOperandKeeps(s);
    } else if OperandNext(s, quote, "&&") {
      AndOperandKeeps(s);
    } else {
      var k, q := CopyLength(s, quote), CopyQuote(s, quote);
      CopyStep(s, quote, "||");
      RewriteKeepsFirst(s[k..], q, "||");
      CopySettled(s, quote, s[k..], "&&");
      OrKeepsAndSettled(s[k..], q);
      CopySettled(s, quote, Rewrite(s[k..], q, "||"), "&&");
    }
  }

  lemma {:induction false} OrOperandKeeps(s: string)
    requires OperandNext(s, None, "||") && Settled(s, None, "&&")
    ensures Settled(Rewrite(s, None, "||"), None, "&&")
    decreases |s|, 0
  {
    hide AfterBlanks, AfterNumber, Wrapped, Rewrite, Settled, Inert;
    var a, b := AfterBlanks(s, "||"), AfterNumber(s, "||");
    var t := Rewrite(s[b..], None, "||");
    RewriteAtOperand(s, "||");
    OperandIsInert(s);
    WrappedIsInert(s, "||", "&&");
    assert s == s[..b] + s[b..];
    InertFront(s[..b], s[b..], "&&");
    OrKeepsAndSettled(s[b..], None);
    InertFront(Wrapped(s[a..b]), t, "&&");
    InertFront(s[..a], if b > a then Wrapped(s[a..b]) + t else t, "&&");
  }

  lemma OperandIsInert(s: string)
    requires OperandNext(s, None, "||")
    ensures Inert(s[..AfterBlanks(s, "||")], "&&") && Inert(s[..AfterNumber(s, "||")], "&&")
  {
    var a, b := AfterBlanks(s, "||"), AfterNumber(s, "||");
    OperandHasNoQuotes(s, "||");
    forall i | 0 <= i < b ensures s[i] != '&' {
      if 2 <= i < a { assert s[i] == s[2..][i - 2]; }
      if a <= i { assert s[i] == s[a..][i - a]; }
    }
  }

  lemma {:induction false} AndOperandKeeps(s: string)
    requires OperandNext(s, None, "&&") && Settled(s, None, "&&")
    ensures Settled(Rewrite(s, None, "||"), None, "&&")
    decreases |s|, 0
  {
    hide AfterBlanks, AfterNumber, Wrapped, Rewrite, Settled;
    var a := AfterBlanks(s, "&&");
    SettledAtOperand(s, "&&");
    OperandParts(s, "&&");
    OrKeepsAndSettled(s[a..], None);
    RewriteKeepsFirst(s[a..], None, "||");
    assert s == s[..a] + s[a..];
    assert Inert(s[..a], "||");
    InertFront(s[..a], s[a..], "||");
    SettledOperand(s[..a], Rewrite(s[a..], None, "||"), "&&");
  }

  /** Normalising a normalised filter changes nothing. */
  lemma NormalizeIsIdempotent(expr: string)
    ensures NormalizeLegacyFilter(NormalizeLegacyFilter(expr)) == NormalizeLegacyFilter(expr)
  {
    var t := Rewrite(expr, None, "&&");
    var u := Rewrite(t, None, "||");
    RewriteSettles(expr, None, "&&");
    OrKeepsAndSettled(t, None);
    RewriteSettles(t, None, "||");
    IdentityIffSettled(u, None, "&&");
    IdentityIffSettled(u, None, "||");
  }

  /** The normalised filter has the quoted text of the filter. */
  lemma NormalizeCopiesQuotes(expr: string)
    ensures Quoted(NormalizeLegacyFilter(expr), None) == Quoted(expr, None)
  {
    QuotedTextIsCopied(expr, None, "&&");
    QuotedTextIsCopied(Rewrite(expr, None, "&&"), None, "||");
  }

  /** A sign that begins no number is wrapped too, and what follows it is left outside: `&&-b` becomes
      `&&(- != 0)b`. */
  lemma SignAloneIsWrapped(op: Operator, sign: char, t: string)
    requires IsSign(sign) && (t == "" || !IsDigit(t[0]))
    ensures Rewrite(op + [sign] + t, None, op) == op + ("(" + [sign] + " != 0)" + Rewrite(t, None, op))
  {
    hide Rewrite;
    var s := op + [sign] + t;
    assert s[|op|..] == [sign] + t && ([sign] + t)[1..] == t;
    assert AfterBlanks(s, op) == |op|;
    assert NumberLength([sign] + t) == 1;
    assert s[..|op|] == op && s[|op|..|op| + 1] == [sign] && s[|op| + 1..] == t;
    RewriteAtOperand(s, op);
  }

  predicate HasDigit(s: string) { exists c <- s :: IsDigit(c) }

  /** Some operator the rewriting stops at is followed by blanks and a sign without a digit. */
  predicate SignWithoutDigit(s: string, quote: Option<char>, op: Operator)
    decreases |s|
  {
    if s == "" then false
    else if OperandNext(s, quote, op) then
      SignAloneAt(s, AfterBlanks(s, op)) || SignWithoutDigit(s[AfterNumber(s, op)..], None, op)
    else SignWithoutDigit(s[CopyLength(s, quote)..], CopyQuote(s, quote), op)
  }

  predicate SignAloneAt(s: string, a: nat) {
    a < |s| && IsSign(s[a]) && (a + 1 < |s| ==> !IsDigit(s[a + 1]))
  }

  ghost predicate SomeDigitless(ps: seq<Piece>) { exists p <- ps :: p.Number? && !HasDigit(p.literal) }

  /** A literal is wrapped that has no digit exactly when an operator is followed by blanks and a sign without a
      digit. */
  lemma {:induction false} DigitlessIff(s: string, quote: Option<char>, op: Operator)
    ensures SomeDigitless(Pieces(s, quote, op)) <==> SignWithoutDigit(s, quote, op)
    decreases |s|
  {
    hide AfterBlanks, AfterNumber, Pieces, CopyLength, CopyQuote, SomeDigitless, SignAloneAt;
    if s == "" {
      assert Pieces(s, quote, op) == [] by { NothingToWrap(quote, op); }
      NoPieceIsDigitless();
    } else if OperandNext(s, quote, op) {
      var a, b := AfterBlanks(s, op), AfterNumber(s, op);
      var rest := Pieces(s[b..], None, op);
      DigitlessIff(s[b..], None, op);
      PiecesAtOperand(s, op);
      OneMorePiece(Copied(s[..a]), if b > a then [Number(s[a..b])] + rest else rest);
      OperandHasDigit(s, op);
      if b > a { OneMorePiece(Number(s[a..b]), rest); }
    } else {
      var k, q := CopyLength(s, quote), CopyQuote(s, quote);
      CopyStep(s, quote, op);
      DigitlessIff(s[k..], q, op);
      OneMorePiece(Copied(s[..k]), Pieces(s[k..], q, op));
    }
  }

  lemma NothingToWrap(quote: Option<char>, op: Operator)
    ensures Pieces("", quote, op) == []
  {}

  lemma NoPieceIsDigitless()
    ensures !SomeDigitless([])
  {}

  lemma OneMorePiece(p: Piece, ps: seq<Piece>)
    ensures SomeDigitless([p] + ps) <==> (p.Number? && !HasDigit(p.literal)) || SomeDigitless(ps)
  {
    var all := [p] + ps;
    if SomeDigitless(ps) {
      var q :| q in ps && q.Number? && !HasDigit(q.literal);
      assert q in all;
    }
    assert p in all;
  }

  lemma OperandHasDigit(s: string, op: Operator)
    requires op <= s
    ensures var a, b := AfterBlanks(s, op), AfterNumber(s, op);
            SignAloneAt(s, a) <==> b > a && !HasDigit(s[a..b])
  {
    var a := AfterBlanks(s, op);
    var t := s[a..];
    var n := NumberLength(t);
    assert s[a..a + n] == t[..n];
    if n > 0 {
      assert t[0] == s[a] && t[..n][0] == t[0];
      if n > 1 { assert t[1] == s[a + 1] && t[..n][1] == t[1]; assert HasDigit(t[..n]); }
      if n == 1 && a + 1 < |s| { assert t[1] == s[a + 1]; }
    }
  }

  // ----- what the rewriting is, text by text -----

  /** The rest of a text goes on with no digit. */
  predicate NumberEnds(t: string) { t == "" || !('0' <= t[0] <= '9') }

  predicate AllBlank(s: string) { forall c <- s :: c == ' ' || c == '\t' }

  /** Digits, with or without a sign before them. */
  predicate SignedDigits(s: string) {
    var digits := if s != "" && (s[0] == '+' || s[0] == '-') then s[1..] else s;
    digits != "" && forall c <- digits :: '0' <= c <= '9'
  }

  lemma {:induction false} DigitsThen(digits: string, t: string)
    requires (forall c <- digits :: '0' <= c <= '9') && NumberEnds(t)
    ensures Digits(digits + t) == |digits|
  {
    if digits == "" {
      assert digits + t == t;
    } else {
      assert forall c <- digits[1..] :: c in digits;
      DigitsThen(digits[1..], t);
      assert digits[0] in digits && (digits + t)[1..] == digits[1..] + t;
    }
  }

  lemma NumberThen(number: string, t: string)
    requires SignedDigits(number) && NumberEnds(t)
    ensures number != "" && NumberLength(number + t) == |number| && !IsBlank((number + t)[0])
  {
    if number[0] == '+' || number[0] == '-' {
      DigitsThen(number[1..], t);
      assert (number + t)[1..] == number[1..] + t;
    } else {
      DigitsThen(number, t);
    }
  }

  /** The places of an operator, blanks and what follows. */
  lemma OperandSlices(op: Operator, blanks: string, number: string, t: string)
    ensures var s, a, b := op + blanks + (number + t), |op| + |blanks|, |op| + |blanks| + |number|;
            op <= s && s[|op|..] == blanks + (number + t) && s[a..] == number + t && s[..a] == op + blanks &&
            s[a..b] == number && s[b..] == t
  {
    var s, front := op + blanks + (number + t), op + blanks;
    assert s == op + (blanks + (number + t)) && s[..|op|] == op;
    assert s[|front|..] == number + t;
    assert s[|front|..][..|number|] == number && s[|front|..][|number|..] == t;
  }

  lemma OperandEndsAt(op: Operator, blanks: string, number: string, t: string)
    requires AllBlank(blanks) && (number + t == "" || !IsBlank((number + t)[0])) && NumberLength(number + t) == |number|
    ensures var s := op + blanks + (number + t);
            op <= s && AfterBlanks(s, op) == |op| + |blanks| && AfterNumber(s, op) == |op| + |blanks| + |number|
  {
    hide Blanks, NumberLength;
    OperandSlices(op, blanks, number, t);
    forall i | 0 <= i < |blanks| ensures IsBlank(blanks[i]) { assert blanks[i] in blanks; }
    BlanksThen(blanks, number + t);
  }

  /** A number after an operator and blanks is put between `(` and ` != 0)`, whole. */
  lemma NumberIsWrapped(op: Operator, blanks: string, number: string, t: string)
    requires AllBlank(blanks) && SignedDigits(number) && NumberEnds(t)
    ensures Rewrite(op + blanks + (number + t), None, op)
            == op + blanks + ("(" + number + " != 0)" + Rewrite(t, None, op))
  {
    hide Rewrite, AfterBlanks, AfterNumber, AllBlank, NumberLength, Wrapped, SignedDigits, NumberEnds;
    var s := op + blanks + (number + t);
    NumberThen(number, t);
    OperandEndsAt(op, blanks, number, t);
    OperandSlices(op, blanks, number, t);
    RewriteAtOperand(s, op);
    WrappedText(number);
  }

  lemma WrappedText(number: string)
    requires number != ""
    ensures Wrapped(number) == "(" + number + " != 0)"
  {}

  /** Anything else after an operator and blanks is left as it is. */
  lemma OtherOperandIsCopied(op: Operator, blanks: string, t: string)
    requires AllBlank(blanks)
    requires t == "" || !(t[0] == ' ' || t[0] == '\t' || t[0] == '+' || t[0] == '-' || '0' <= t[0] <= '9')
    ensures Rewrite(op + blanks + t, None, op) == op + blanks + Rewrite(t, None, op)
  {
    hide Rewrite, AfterBlanks, AfterNumber, AllBlank;
    assert "" + t == t;
    OperandEndsAt(op, blanks, "", t);
    OperandSlices(op, blanks, "", t);
    RewriteAtOperand(op + blanks + t, op);
  }

  /** The inside of a literal: a backslash takes the next character along, and the quote does not occur otherwise. */
  predicate Inside(s: string, quote: char) {
    s == "" ||
    if s[0] == '\\' then |s| >= 2 && Inside(s[2..], quote) else s[0] != quote && Inside(s[1..], quote)
  }

  lemma {:induction false} InsideIsCopied(s: string, quote: char, t: string, op: Operator)
    requires Inside(s, quote) && quote != '\\'
    ensures Rewrite(s + [quote] + t, Some(quote), op) == s + [quote] + Rewrite(t, None, op)
    decreases |s|
  {
    hide Rewrite;
    var all := s + [quote] + t;
    if s == "" {
      assert all[1..] == t && all[..1] == [quote];
    } else {
      var k := if s[0] == '\\' then 2 else 1;
      assert all[..k] == s[..k] && all[k..] == s[k..] + [quote] + t && all[0] == s[0];
      InsideIsCopied(s[k..], quote, t, op);
      ConcatThree(s[..k], s[k..] + [quote], Rewrite(t, None, op));
      assert s + [quote] == s[..k] + (s[k..] + [quote]);
    }
    QuotedAt(all, quote, op);
  }

  /** A quoted literal is copied whole, with whatever operators and numbers stand in it. */
  lemma LiteralIsCopied(s: string, quote: char, t: string, op: Operator)
    requires Inside(s, quote) && (quote == '\'' || quote == '"')
    ensures Rewrite([quote] + (s + [quote] + t), None, op) == [quote] + (s + [quote] + Rewrite(t, None, op))
  {
    var all := [quote] + (s + [quote] + t);
    assert all[1..] == s + [quote] + t;
    InsideIsCopied(s, quote, t, op);
    hide Rewrite;
    QuoteOpens(all, op);
  }

  lemma QuoteOpens(s: string, op: Operator)
    requires s != "" && IsQuote(s[0])
    ensures Rewrite(s, None, op) == [s[0]] + Rewrite(s[1..], Some(s[0]), op)
  {}

  /** Outside literals everything but the operator is copied. */
  lemma OtherIsCopied(c: char, t: string, op: Operator)
    requires c != '\'' && c != '"' && !(op <= [c] + t)
    ensures Rewrite([c] + t, None, op) == [c] + Rewrite(t, None, op)
  {
    assert ([c] + t)[1..] == t;
  }
}
