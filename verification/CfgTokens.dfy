/**
 Line splitting and tokenizing in src/cfgcomp_assembler.c, and the proof that they
 recover exactly what the code generator wrote.
 */
module CfgTokens {
  import opened Wrappers
  import opened CfgText
  import opened CfgAssembly
  import opened CfgListing

  // ----- lines -----

  function NewlineFrom(input: string, pos: nat): (k: nat)
    requires pos <= |input|
    ensures pos <= k <= |input| && '\n' !in input[pos..k]
    ensures k < |input| ==> input[k] == '\n'
    decreases |input| - pos
  {
    if pos == |input| || input[pos] == '\n' then pos else NewlineFrom(input, pos + 1)
  }

  /** `cf_cfg_asm_line` on a non-empty input: the line at pos and where the next one
      starts.  Without a final line break it returns the whole input. */
  function LineAt(input: string, pos: nat): Option<(string, nat)>
    requires pos <= |input|
  {
    if pos == |input| then None
    else
      var k := NewlineFrom(input, pos);
      if k < |input| then Some((input[pos..k], k + 1)) else Some((input, k))
  }

  method AsmLine(input: string, pos: nat) returns (line: Option<string>, next: nat)
    requires pos <= |input|
    ensures LineAt(input, pos) == if line.Some? then Some((line.value, next)) else None
    ensures pos <= next <= |input| && (line.Some? ==> pos < next)
  {
    next := pos;
    if pos == |input| { return None, next; }
    var ptr := pos;
    while ptr < |input|
      invariant pos <= ptr <= |input| && NewlineFrom(input, pos) == NewlineFrom(input, ptr)
    {
      if input[ptr] == '\n' { return Some(input[pos..ptr]), ptr + 1; }
      ptr := ptr + 1;
    }
    return Some(input), ptr;
  }

  // ----- tokens -----

  datatype Kind = TStr | TAtom | TLbl
  datatype Tok = Tok(kind: Kind, val: string)

  function CommandEnd(line: string): (k: nat)
    ensures k <= |line|
  {
    if line == [] || IsSpace(line[0]) then 0 else 1 + CommandEnd(line[1..])
  }

  /** The next comma behind the first character, or the end. */
  function WordEnd(s: string): (m: nat)
    requires s != []
    ensures 1 <= m <= |s|
  {
    if |s| == 1 || s[1] == ',' then 1 else 1 + WordEnd(s[1..])
  }

  function InsertTok(t: Tok, rest: Option<seq<Tok>>): Option<seq<Tok>> {
    if rest.None? then None else Some([t] + rest.value)
  }

  /** The arguments behind the directive; None where the source leaves the line. */
  function ArgTokens(s: string): Option<seq<Tok>>
    decreases |s|
  {
    if s == [] then Some([])
    else
      var t := SkipSpaces(s);
      if t == [] then None
      else if t[0] == '"' then
        (match ReadStr(t[1..])
         case None => None
         case Some((v, rest)) => InsertTok(Tok(TStr, v), ArgTokens(rest[1..])))
      else if |t| > 1 && t[1] == '"' then ArgTokens(t[1..])
      else if t == [','] then Some([])
      else
        var m := WordEnd(t);
        InsertTok(Tok(TAtom, if t[0] == ',' then t[1..m] else t[..m]), ArgTokens(t[m..]))
  }

  /** `cf_cfg_asm_tokenizer`. */
  function Tokenize(line: string): Option<seq<Tok>> {
    var k := CommandEnd(line);
    if line == [] then None
    else if k == |line| && line[k - 1] == ':' then Some([Tok(TLbl, line[..k - 1])])
    else InsertTok(Tok(TAtom, line[..k]), ArgTokens(line[k..]))
  }

  // ----- what was written is what is read -----

  function TokOf(a: Operand): Tok {
    if a.Lit? then Tok(TStr, a.s) else Tok(TAtom, OperandText(a))
  }

  function ArgToks(args: seq<Operand>): (r: seq<Tok>)
    ensures |r| == |args| && forall k :: 0 <= k < |args| ==> r[k] == TokOf(args[k])
  {
    if args == [] then [] else [TokOf(args[0])] + ArgToks(args[1..])
  }

  function LineToks(line: Line): seq<Tok> {
    match line
    case Label(id) => [Tok(TLbl, LabelName(id))]
    case Instr(mn, args) => [Tok(TAtom, Name(mn))] + ArgToks(args)
  }

  /** A character of a register, number or label. */
  predicate WordChar(c: char) { IsDigit(c) || 'a' <= c <= 'z' || c == '-' }

  predicate IsWord(s: string) { s != [] && forall k :: 0 <= k < |s| ==> WordChar(s[k]) }

  lemma OperandIsWord(a: Operand)
    ensures !a.Lit? ==> IsWord(OperandText(a))
  {
  }

  /** What follows an operand: nothing, or a comma and the next one. */
  predicate Separated(tail: string) { tail == [] || tail[0] == ',' }

  lemma {:induction false} WordEndsAtTail(c: char, w: string, tail: string)
    requires (forall k :: 0 <= k < |w| ==> WordChar(w[k])) && Separated(tail)
    ensures WordEnd([c] + w + tail) == 1 + |w|
    decreases |w|
  {
    var s := [c] + w + tail;
    if w != [] {
      WordEndsAtTail(w[0], w[1..], tail);
      assert s[1..] == [w[0]] + w[1..] + tail;
    }
  }

  lemma ReadFirstWord(w: string, tail: string)
    requires IsWord(w) && Separated(tail)
    ensures ArgTokens([' '] + w + tail) == InsertTok(Tok(TAtom, w), ArgTokens(tail))
  {
    hide WordEnd;
    var s := [' '] + w + tail;
    var t := w + tail;
    assert s[1..] == t && WordChar(t[0]) && t[0] == w[0];
    assert SkipSpaces(s) == t;
    assert t == [w[0]] + w[1..] + tail;
    WordEndsAtTail(w[0], w[1..], tail);
    assert |t| > 1 ==> t[1] == if |w| > 1 then w[1] else tail[0];
    assert t[..|w|] == w && t[|w|..] == tail;
  }

  lemma ReadNextWord(w: string, tail: string)
    requires IsWord(w) && Separated(tail)
    ensures ArgTokens([','] + w + tail) == InsertTok(Tok(TAtom, w), ArgTokens(tail))
  {
    hide WordEnd;
    var s := [','] + w + tail;
    assert SkipSpaces(s) == s;
    assert s[1] == w[0];
    WordEndsAtTail(',', w, tail);
    assert s[1..1 + |w|] == w && s[1 + |w|..] == tail;
  }

  lemma ReadLiteral(sep: char, v: string, tail: string)
    requires (sep == ' ' || sep == ',') && Separated(tail)
    ensures ArgTokens([sep] + ("\"" + Escape(v) + "\"") + tail) == InsertTok(Tok(TStr, v), ArgTokens(tail))
  {
    hide Escape, ReadStr;
    var u := "\"" + Escape(v) + "\"" + tail;
    var s := [sep] + ("\"" + Escape(v) + "\"") + tail;
    assert s[1..] == u;
    EscapeRoundTrip(v, "\"" + tail);
    assert u[1..] == Escape(v) + ("\"" + tail);
    assert ("\"" + tail)[1..] == tail;
    ReadQuoted(u, v, "\"" + tail);
    assert SkipSpaces(s) == if sep == ' ' then u else s;
  }

  lemma ReadQuoted(u: string, v: string, rest: string)
    requires u != [] && u[0] == '"' && rest != [] && ReadStr(u[1..]) == Some((v, rest))
    ensures ArgTokens(u) == InsertTok(Tok(TStr, v), ArgTokens(rest[1..]))
    ensures SkipSpaces(u) == u
  {
  }

  lemma ArgsSeparated(args: seq<Operand>)
    ensures Separated(ArgsText(",", args))
  {
  }

  lemma {:induction false} ReadArgs(sep: char, args: seq<Operand>)
    requires sep == ' ' || sep == ','
    ensures ArgTokens(ArgsText([sep], args)) == Some(ArgToks(args))
    decreases |args|
  {
    hide ArgTokens, OperandText;
    if args == [] {
      ReadNothing();
    } else {
      var a, tail := args[0], ArgsText(",", args[1..]);
      ReadArgs(',', args[1..]);
      ArgsSeparated(args[1..]);
      OperandIsWord(a);
      if a.Lit? {
        ReadLiteral(sep, a.s, tail);
        LiteralText(a);
      } else {
        if sep == ' ' {
          ReadFirstWord(OperandText(a), tail);
        } else {
          ReadNextWord(OperandText(a), tail);
        }
      }
    }
  }

  lemma LiteralText(a: Operand)
    requires a.Lit?
    ensures OperandText(a) == "\"" + Escape(a.s) + "\""
  {
  }

  lemma ReadNothing()
    ensures ArgTokens("") == Some([])
  {
  }

  lemma {:induction false} CommandEndsAt(cmd: string, rest: string)
    requires (forall k :: 0 <= k < |cmd| ==> !IsSpace(cmd[k])) && (rest == [] || IsSpace(rest[0]))
    ensures CommandEnd(cmd + rest) == |cmd|
  {
    if cmd != [] {
      CommandEndsAt(cmd[1..], rest);
      assert (cmd + rest)[1..] == cmd[1..] + rest;
    } else {
      assert cmd + rest == rest;
    }
  }

  /** Tokenizing a generated line recovers its directive or label and all its operands. */
  lemma TokenizeLine(line: Line)
    ensures Tokenize(LineText(line)) == Some(LineToks(line))
  {
    match line
    case Label(id) =>
      hide DecNat;
      var s := LabelName(id) + ":";
      assert s + [] == s;
      CommandEndsAt(s, []);
      assert s[..|s| - 1] == LabelName(id);
    case Instr(mn, args) =>
      hide Name, ArgsText, ArgTokens;
      var rest := ArgsText(" ", args);
      ArgsStartWithSpace(args);
      CommandEndsAt(Name(mn), rest);
      ReadArgs(' ', args);
      var s := Name(mn) + rest;
      assert s[..|Name(mn)|] == Name(mn) && s[|Name(mn)|..] == rest;
      assert rest == [] ==> s[|s| - 1] == Name(mn)[|Name(mn)| - 1];
  }

  lemma ArgsStartWithSpace(args: seq<Operand>)
    ensures ArgsText(" ", args) == [] || ArgsText(" ", args)[0] == ' '
    ensures args != [] ==> ArgsText(" ", args) != []
  {
  }

  lemma {:induction false} ArgsHaveNoNewline(sep: string, args: seq<Operand>)
    requires '\n' !in sep
    ensures '\n' !in ArgsText(sep, args)
    decreases |args|
  {
    hide OperandText;
    if args != [] {
      ArgsHaveNoNewline(",", args[1..]);
      OperandHasNoNewline(args[0]);
    }
  }

  lemma OperandHasNoNewline(a: Operand)
    ensures '\n' !in OperandText(a)
  {
    hide Escape, Dec, DecNat;
    match a
    case Lit(s) => EscapeHasNoNewline(s);
    case Reg(r) => OperandIsWord(a);
    case Imm(n) => OperandIsWord(a);
    case Lbl(id) => OperandIsWord(a);
  }

  lemma LineHasNoNewline(line: Line)
    ensures '\n' !in LineText(line) && LineText(line) != []
  {
    match line
    case Label(id) => OperandIsWord(Lbl(id));
    case Instr(mn, args) =>
      hide Name;
      ArgsHaveNoNewline(" ", args);
  }

  lemma {:induction false} NewlineAt(input: string, pos: nat, k: nat)
    requires pos <= k < |input| && '\n' !in input[pos..k] && input[k] == '\n'
    ensures NewlineFrom(input, pos) == k
    decreases k - pos
  {
    if pos < k {
      assert input[pos] in input[pos..k];
      assert forall c :: c in input[pos + 1..k] ==> c in input[pos..k];
      NewlineAt(input, pos + 1, k);
    }
  }

  /** Splitting the generated text returns the generated lines one after the other. */
  lemma SplitText(before: seq<Line>, line: Line, after: seq<Line>)
    ensures |Text(before)| < |Text(before + [line])| <= |Text(before + [line] + after)|
    ensures LineAt(Text(before + [line] + after), |Text(before)|) ==
            Some((LineText(line), |Text(before + [line])|))
  {
    hide Text, LineText;
    var input := Text(before + [line] + after);
    TextConcat(before + [line], after);
    TextConcat(before, [line]);
    SingleLine(line);
    LineHasNoNewline(line);
    var pos, k := |Text(before)|, |Text(before)| + |LineText(line)|;
    assert input == Text(before) + LineText(line) + "\n" + Text(after);
    assert input[pos..k] == LineText(line);
    NewlineAt(input, pos, k);
  }

  lemma SingleLine(line: Line)
    ensures Text([line]) == LineText(line) + "\n"
  {
    assert Text([line]) == LineOut(line) + "";
  }

  // ----- the source's loops -----

  /** Tokens already found in front of those still to come. */
  function Found(toks: seq<Tok>, rest: Option<seq<Tok>>): Option<seq<Tok>> {
    if rest.None? then None else Some(toks + rest.value)
  }

  method SkipBlanks(line: string, start: nat) returns (ptr: nat)
    requires start <= |line|
    ensures start <= ptr <= |line| && SkipSpaces(line[start..]) == line[ptr..]
    ensures ptr < |line| ==> !IsSpace(line[ptr])
  {
    ptr := start;
    while ptr < |line| && IsSpace(line[ptr])
      invariant start <= ptr <= |line| && SkipSpaces(line[start..]) == SkipSpaces(line[ptr..])
    {
      assert line[ptr..][1..] == line[ptr + 1..];
      ptr := ptr + 1;
    }
  }

  method ScanWord(line: string, start: nat) returns (ptr: nat)
    requires start < |line|
    ensures start < ptr <= |line| && ptr - start == WordEnd(line[start..])
  {
    ptr := start + 1;
    while ptr < |line| && line[ptr] != ','
      invariant start < ptr <= |line|
      invariant ptr - start - 1 + WordEnd(line[ptr - 1..]) == WordEnd(line[start..])
    {
      assert line[ptr - 1..][1..] == line[ptr..];
      ptr := ptr + 1;
    }
  }

  method FirstToken(line: string) returns (ptr: nat)
    ensures ptr <= |line| && ptr == CommandEnd(line)
  {
    ptr := 0;
    assert line[0..] == line;
    while ptr < |line| && !IsSpace(line[ptr])
      invariant 0 <= ptr <= |line| && ptr + CommandEnd(line[ptr..]) == CommandEnd(line)
    {
      assert line[ptr..][1..] == line[ptr + 1..];
      ptr := ptr + 1;
    }
  }

  /** One turn of the argument loop: the tokens it adds, and where it goes on. */
  method NextArgument(line: string, start: nat) returns (toks: seq<Tok>, ptr: nat)
    requires start < |line| && ArgTokens(line[start..]).Some?
    ensures start < ptr <= |line|
    ensures ArgTokens(line[start..]) == Found(toks, ArgTokens(line[ptr..]))
  {
    hide ReadStr, SkipSpaces, WordEnd;
    ptr := SkipBlanks(line, start);
    ghost var t := line[ptr..];
    assert ptr < |line|;
    toks := [];
    if line[ptr] == '"' {
      assert t[1..] == line[ptr + 1..];
      var ok, val, close := AsmReadStr(line, ptr + 1);
      assert line[close..][1..] == line[close + 1..];
      toks := [Tok(TStr, val)];
      ptr := close + 1;
    } else if ptr + 1 < |line| && line[ptr + 1] == '"' {
      assert t[1..] == line[ptr + 1..];
      ptr := ptr + 1;
      FoundNothing(ArgTokens(line[ptr..]));
    } else {
      var last := ptr;
      ptr := ScanWord(line, ptr);
      WordSlices(line, last, ptr);
      if line[last] == ',' { last := last + 1; }
      if last < |line| {
        toks := [Tok(TAtom, line[last..ptr])];
      } else {
        assert t == [','] && line[ptr..] == [];
        ReadNothing();
        FoundNothing(ArgTokens([]));
      }
    }
  }

  lemma WordSlices(line: string, last: nat, ptr: nat)
    requires last < ptr <= |line|
    ensures var t := line[last..];
            t[ptr - last..] == line[ptr..] && t[1..ptr - last] == line[last + 1..ptr] && t[..ptr - last] == line[last..ptr]
  {
  }

  lemma FoundNothing(rest: Option<seq<Tok>>)
    ensures Found([], rest) == rest
  {
    if rest.Some? {
      assert [] + rest.value == rest.value;
    }
  }

  lemma FoundTwice(a: seq<Tok>, b: seq<Tok>, rest: Option<seq<Tok>>)
    ensures Found(a, Found(b, rest)) == Found(a + b, rest)
  {
    if rest.Some? {
      assert a + (b + rest.value) == a + b + rest.value;
    }
  }

  /** `cf_cfg_asm_tokenizer`, on lines it does not run out of. */
  method Tokenizer(line: string) returns (toks: seq<Tok>)
    requires Tokenize(line).Some?
    ensures Tokenize(line) == Some(toks)
  {
    var ptr := FirstToken(line);
    toks := [Tok(TAtom, line[..ptr])];
    if ptr == |line| && line[ptr - 1] == ':' { return [Tok(TLbl, line[..ptr - 1])]; }
    while ptr < |line|
      invariant 0 <= ptr <= |line| && Tokenize(line) == Found(toks, ArgTokens(line[ptr..]))
    {
      hide Tokenize, ArgTokens;
      var more;
      more, ptr := NextArgument(line, ptr);
      FoundTwice(toks, more, ArgTokens(line[ptr..]));
      toks := toks + more;
    }
    assert line[ptr..] == [] && toks + [] == toks;
  }
}
