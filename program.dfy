/**
 * The driver: reads the program line by line, skips blank and comment
 * lines, requires the `.IPPcode24` header before anything else, cuts
 * comments off instruction lines and numbers the instructions 1..N.
 *
 * The driver is stated for any parser of one instruction line; the front
 * end is that driver with `InstructionOf`.
 */
module Program {
  import opened Text
  import opened Lexer
  import opened Diagnostics
  import opened Instructions

  /** A parser of one instruction line, given the order number it is to carry. */
  type LineParser = (string, nat) -> Result<Instruction>

  /** A stripped input line: skipped (blank or a comment), or the text before its first '#'. */
  datatype Line = Skip | Content(code: string)

  /**
   * Strip the line; skip it when empty or starting with '#', otherwise cut it
   * at '#' and strip again. The code of a kept line is never empty, so the
   * check for an empty code never skips one.
   */
  function Classify(raw: string): (l: Line)
    ensures l.Content? <==> Trim(raw) != [] && Trim(raw)[0] != '#'
    ensures l.Content? ==> l.code != [] && '#' !in l.code
  {
    var line := Trim(raw);
    if (line != [] && line[0] == '#') || line == [] then Skip
    else
      CutCode(line);
      Content(Trim(BeforeHash(line)))
  }

  /** The variables of the driver loop: whether the header was seen, the last order number, the instructions so far. */
  datatype State = State(headerFound: bool, order: nat, instructions: seq<Instruction>)

  const Start: State := State(false, 0, [])

  /** One classified line through the body of the driver loop. */
  function Step(parse: LineParser, st: State, line: Line): Result<State> {
    match line
    case Skip => Ok(st)
    case Content(code) =>
      if !st.headerFound then
        if IsHeader(code) then Ok(st.(headerFound := true)) else Err(MissingHeader)
      else if code != [] then Extend(st, parse(code, st.order + 1))
      else Ok(st)
  }

  /** The state after an instruction line: the parsed instruction appended under the next order number, or the error. */
  function Extend(st: State, parsed: Result<Instruction>): Result<State> {
    match parsed
    case Err(e) => Err(e)
    case Ok(ins) => Ok(State(true, st.order + 1, st.instructions + [ins]))
  }

  /** The driver loop over a sequence of lines, stopping at the first error. */
  function Run(parse: LineParser, lines: seq<string>): Result<State>
    decreases |lines|
  {
    if lines == [] then Ok(Start)
    else
      match Run(parse, lines[..|lines| - 1])
      case Err(e) => Err(e)
      case Ok(st) => Step(parse, st, Classify(lines[|lines| - 1]))
  }

  /** The driver over a whole program: its instructions, or the error it exits with. */
  function Drive(parse: LineParser, lines: seq<string>): Result<seq<Instruction>> {
    match Run(parse, lines)
    case Err(e) => Err(e)
    case Ok(st) => if !st.headerFound then Err(MissingHeader) else Ok(st.instructions)
  }

  /** The front end: the driver with the instruction parser. */
  function Parse(lines: seq<string>): Result<seq<Instruction>> {
    Drive(InstructionOf, lines)
  }

  /** The driver loop of the front end. */
  method ParseProgram(lines: seq<string>) returns (r: Result<seq<Instruction>>)
    ensures r == Parse(lines)
  {
    var st := Start;
    var k := 0;
    while k < |lines|
      invariant 0 <= k <= |lines|
      invariant Run(InstructionOf, lines[..k]) == Ok(st)
    {
      RunStep(InstructionOf, lines, k);
      var next := Advance(st, lines[k]);
      if next.Err? {
        ErrorPersists(InstructionOf, lines, k + 1);
        return Err(next.error);
      }
      st := next.value;
      k := k + 1;
    }
    assert lines[..k] == lines;
    if !st.headerFound {
      return Err(MissingHeader);
    }
    return Ok(st.instructions);
  }

  /** The body of the driver loop for one line. */
  method Advance(st: State, raw: string) returns (r: Result<State>)
    ensures r == Step(InstructionOf, st, Classify(raw))
  {
    var line := Classify(raw);
    if line.Skip? {
      return Ok(st);
    }
    if !st.headerFound {
      if IsHeader(line.code) {
        return Ok(st.(headerFound := true));
      }
      return Err(MissingHeader);
    }
    r := Append(st, line.code);
  }

  /** After the header: a non-empty code line takes the next order number and is parsed as an instruction. */
  method Append(st: State, code: string) returns (r: Result<State>)
    requires st.headerFound
    ensures r == Step(InstructionOf, st, Content(code))
  {
    if code == [] {
      return Ok(st);
    }
    var order := st.order + 1;
    var parsed := ParseInstruction(code, order);
    StepParses(st, code, parsed);
    if parsed.Err? {
      return Err(parsed.error);
    }
    return Ok(State(true, order, st.instructions + [parsed.value]));
  }

  /** After the header, a non-empty code line is parsed under the next order number. */
  lemma StepParses(st: State, code: string, parsed: Result<Instruction>)
    requires st.headerFound && code != []
    requires parsed == InstructionOf(code, st.order + 1)
    ensures Step(InstructionOf, st, Content(code)) == Extend(st, parsed)
  {
  }

  /** Extending the lines by one runs one more step. */
  lemma RunStep(parse: LineParser, lines: seq<string>, k: nat)
    requires k < |lines| && Run(parse, lines[..k]).Ok?
    ensures Run(parse, lines[..k + 1]) == Step(parse, Run(parse, lines[..k]).value, Classify(lines[k]))
  {
    assert lines[..k + 1][..k] == lines[..k];
  }

  /** Once the loop has failed on some line, the run over all lines fails with that error. */
  lemma {:induction false} ErrorPersists(parse: LineParser, lines: seq<string>, k: nat)
    requires k <= |lines| && Run(parse, lines[..k]).Err?
    ensures Run(parse, lines) == Run(parse, lines[..k])
    decreases |lines| - k
  {
    if k < |lines| {
      assert lines[..k + 1][..k] == lines[..k];
      ErrorPersists(parse, lines, k + 1);
    } else {
      assert lines[..k] == lines;
    }
  }

  // A reference reading of the driver: take the code of every line that is
  // not blank or a comment, check the first against the header and parse the
  // rest, numbering them from 1.

  /** The code of every line that is neither blank nor a comment, in input order. */
  function Codes(lines: seq<string>): (c: seq<string>)
    ensures |c| <= |lines|
    decreases |lines|
  {
    if lines == [] then []
    else
      var n := |lines| - 1;
      match Classify(lines[n])
      case Skip => Codes(lines[..n])
      case Content(code) => Codes(lines[..n]) + [code]
  }

  /** The instructions so far with the parse of one more line added, or that line's error. */
  function Collect(done: seq<Instruction>, parsed: Result<Instruction>): Result<seq<Instruction>> {
    match parsed
    case Err(e) => Err(e)
    case Ok(ins) => Ok(done + [ins])
  }

  /** The lines after the header, each parsed with its position (from 1) as order number; the first failure wins. */
  function ParseBody(parse: LineParser, body: seq<string>): (r: Result<seq<Instruction>>)
    ensures r.Ok? ==> |r.value| == |body|
    decreases |body|
  {
    if body == [] then Ok([])
    else
      var n := |body| - 1;
      match ParseBody(parse, body[..n])
      case Err(e) => Err(e)
      case Ok(done) => Collect(done, parse(body[n], n + 1))
  }

  /** The body parses exactly when every line does under its position, into those instructions; otherwise some line's error is reported. */
  lemma {:induction false} ParseBodyLines(parse: LineParser, body: seq<string>)
    ensures ParseBody(parse, body).Ok? ==>
      forall i :: 0 <= i < |body| ==> parse(body[i], i + 1) == Ok(ParseBody(parse, body).value[i])
    ensures ParseBody(parse, body).Err? ==>
      exists i :: 0 <= i < |body| && parse(body[i], i + 1) == Err(ParseBody(parse, body).error)
    decreases |body|
  {
    if body != [] {
      var n := |body| - 1;
      var prefix := body[..n];
      ParseBodyLines(parse, prefix);
      var p := parse(body[n], n + 1);
      match ParseBody(parse, prefix)
      case Err(e) =>
        var i :| 0 <= i < n && parse(prefix[i], i + 1) == Err(e);
        assert prefix[i] == body[i];
      case Ok(done) =>
        if p.Ok? {
          var all := done + [p.value];
          forall i | 0 <= i < |body|
            ensures parse(body[i], i + 1) == Ok(all[i])
          {
            if i < n {
              assert prefix[i] == body[i];
            }
          }
        }
    }
  }

  /** What the loop holds after a given sequence of codes: nothing yet, a header error, or the header and the parsed body. */
  function RunCodes(parse: LineParser, codes: seq<string>): Result<State> {
    if codes == [] then Ok(Start)
    else if !IsHeader(codes[0]) then Err(MissingHeader)
    else
      match ParseBody(parse, codes[1..])
      case Err(e) => Err(e)
      case Ok(done) => Ok(State(true, |done|, done))
  }

  /** The loop over the lines is the reference reading of their codes. */
  lemma {:induction false} RunReference(parse: LineParser, lines: seq<string>)
    ensures Run(parse, lines) == RunCodes(parse, Codes(lines))
    decreases |lines|
  {
    if lines != [] {
      var n := |lines| - 1;
      var prefix := lines[..n];
      RunReference(parse, prefix);
      var line := Classify(lines[n]);
      assert Run(parse, lines) == match Run(parse, prefix) case Err(e) => Err(e) case Ok(st) => Step(parse, st, line);
      if line.Content? {
        assert Codes(lines) == Codes(prefix) + [line.code];
        RunCodesStep(parse, Codes(prefix), line.code);
      }
    }
  }

  /** One more code line takes the reference reading one step further. */
  lemma RunCodesStep(parse: LineParser, c0: seq<string>, code: string)
    requires code != []
    ensures RunCodes(parse, c0 + [code]) ==
      match RunCodes(parse, c0) case Err(e) => Err(e) case Ok(st) => Step(parse, st, Content(code))
  {
    var c := c0 + [code];
    if c0 == [] {
      assert c == [code] && c[1..] == [];
    } else {
      assert c[0] == c0[0];
      if IsHeader(c0[0]) {
        var body := c[1..];
        assert body == c0[1..] + [code];
        assert body[..|body| - 1] == c0[1..];
      }
    }
  }

  /**
   * The front end over a program: when its first code line is the header, it
   * yields the parse of the remaining code lines; otherwise (no such line, or
   * a different one) it fails with the header error.
   */
  lemma DriveReference(parse: LineParser, lines: seq<string>)
    ensures var c := Codes(lines);
      Drive(parse, lines) == if c == [] || !IsHeader(c[0]) then Err(MissingHeader) else ParseBody(parse, c[1..])
  {
    RunReference(parse, lines);
  }

  /** The codes of two runs of lines are the codes of each, in order. */
  lemma {:induction false} CodesAppend(a: seq<string>, b: seq<string>)
    ensures Codes(a + b) == Codes(a) + Codes(b)
    decreases |b|
  {
    if b != [] {
      var n := |b| - 1;
      CodesAppend(a, b[..n]);
      assert (a + b)[..|a + b| - 1] == a + b[..n];
    } else {
      assert a + b == a;
    }
  }

  /** Blank and comment lines play no part: dropping one anywhere leaves the outcome unchanged. */
  lemma SkippedLine(parse: LineParser, a: seq<string>, x: string, b: seq<string>)
    requires Classify(x) == Skip
    ensures Drive(parse, a + [x] + b) == Drive(parse, a + b)
  {
    CodesAppend(a + [x], b);
    CodesAppend(a, [x]);
    CodesAppend(a, b);
    assert Codes([x]) == [] by {
      assert [x][..0] == [];
    }
    DriveReference(parse, a + [x] + b);
    DriveReference(parse, a + b);
  }

  /** Every instruction carries its position (from 1) as order number when the parser numbers as told. */
  lemma DriveOrders(parse: LineParser, lines: seq<string>)
    requires forall code, order :: parse(code, order).Ok? ==> parse(code, order).value.order == order
    ensures Drive(parse, lines).Ok? ==>
      var c := Codes(lines);
      var p := Drive(parse, lines).value;
      && |c| >= 1 && IsHeader(c[0])
      && |p| == |c| - 1
      && forall i :: 0 <= i < |p| ==> p[i].order == i + 1 && parse(c[i + 1], i + 1) == Ok(p[i])
  {
    DriveReference(parse, lines);
    var c := Codes(lines);
    if Drive(parse, lines).Ok? {
      ParseBodyLines(parse, c[1..]);
    }
  }

  /** The front end numbers the instructions 1..N, one per code line after the header, each the parse of its line. */
  lemma OrderNumbers(lines: seq<string>)
    ensures Parse(lines).Ok? ==>
      var c := Codes(lines);
      var p := Parse(lines).value;
      && |c| >= 1 && IsHeader(c[0])
      && |p| == |c| - 1
      && forall i :: 0 <= i < |p| ==> p[i].order == i + 1 && InstructionOf(c[i + 1], i + 1) == Ok(p[i])
  {
    forall code, order ensures InstructionOf(code, order).Ok? ==> InstructionOf(code, order).value.order == order {
      InstructionOrder(code, order);
    }
    DriveOrders(InstructionOf, lines);
  }

  /** A header error arises exactly when the first code line is missing or is not the header, when the parser never reports one itself. */
  lemma DriveHeaderError(parse: LineParser, lines: seq<string>)
    requires forall code, order :: parse(code, order).Err? ==> parse(code, order).error != MissingHeader
    ensures var c := Codes(lines);
      Drive(parse, lines) == Err(MissingHeader) <==> c == [] || !IsHeader(c[0])
  {
    DriveReference(parse, lines);
    var c := Codes(lines);
    if c != [] && IsHeader(c[0]) {
      ParseBodyLines(parse, c[1..]);
    }
  }

  /**
   * The front end exits with code 21 exactly when the header is missing or
   * wrong (no code line at all, or a first code line that is not the header),
   * and with code 23 on every other error.
   */
  lemma ExitCodes(lines: seq<string>)
    ensures var c := Codes(lines);
      c == [] || !IsHeader(c[0]) ==> Parse(lines) == Err(MissingHeader)
    ensures var c := Codes(lines);
      Parse(lines).Err? ==> (ExitCode(Parse(lines).error) == 21 <==> c == [] || !IsHeader(c[0]))
  {
    forall code, order ensures InstructionOf(code, order).Err? ==> InstructionOf(code, order).error != MissingHeader {
      InstructionErrors(code, order);
    }
    DriveHeaderError(InstructionOf, lines);
  }

  /** Input with no code line fails on the header; input whose only code line is the header yields no instructions. */
  lemma HeaderOnly(lines: seq<string>)
    ensures Codes(lines) == [] ==> Parse(lines) == Err(MissingHeader)
    ensures |Codes(lines)| == 1 && IsHeader(Codes(lines)[0]) ==> Parse(lines) == Ok([])
  {
    DriveReference(InstructionOf, lines);
  }

  /** A line made only of whitespace, or whose first non-blank character is '#', is skipped. */
  lemma SkippedLines(pre: string, rest: string)
    requires AllSpace(pre)
    ensures Classify(pre) == Skip
    ensures Classify(pre + "#" + rest) == Skip
  {
    AllSpaceTrimStart(pre);
    assert TrimEnd([]) == [];
    TrimStartPadded(pre, "#" + rest);
    assert pre + "#" + rest == pre + ("#" + rest);
  }

  /** A line is classified by its stripped text and the code cut from it. */
  lemma ClassifyAs(raw: string, code: string)
    requires Trim(raw) != [] && Trim(raw)[0] != '#'
    requires Trim(BeforeHash(Trim(raw))) == code
    ensures Classify(raw) == Content(code)
  {
  }

  /** Text from the first '#' on is dropped, and the rest stripped, before the line is parsed. */
  lemma CommentCut(pre: string, code: string, post: string, rest: string)
    requires AllSpace(pre) && AllSpace(post)
    requires code != [] && !IsSpace(code[0]) && !IsSpace(code[|code| - 1])
    requires code[0] != '#' && '#' !in code
    ensures Classify(pre + code + post) == Content(code)
    ensures Classify(pre + code + post + "#" + rest) == Content(code)
  {
    PaddedCode(pre, code, post);
    ClassifyAs(pre + code + post, code);
    CodeBeforeHash(pre, code, post, rest);
    ClassifyAs(pre + code + post + "#" + rest, code);
  }

  /** The header may be written in any letter case, padded with whitespace and followed by a comment. */
  lemma HeaderLine(pre: string, v: string, post: string, rest: string)
    requires AllSpace(pre) && AllSpace(post)
    requires Lower(v) == Lower(Header)
    ensures Classify(pre + v + post) == Content(v) && IsHeader(v)
    ensures Classify(pre + v + post + "#" + rest) == Content(v)
  {
    assert |v| == 10;
    assert v[0] == '.' by { assert LowerChar(v[0]) == '.'; }
    assert !IsSpace(v[9]) by { assert LowerChar(v[9]) == '4'; }
    assert '#' !in v by {
      forall i | 0 <= i < |v| ensures v[i] != '#' {
        assert LowerChar(v[i]) == Lower(Header)[i];
      }
    }
    HeaderVariants([], v, []);
    assert [] + v + [] == v;
    CommentCut(pre, v, post, rest);
  }

  /** A second header line after the first is parsed as an instruction and refused as an unknown opcode. */
  lemma SecondHeader(lines: seq<string>)
    requires |Codes(lines)| >= 2 && IsHeader(Codes(lines)[0]) && IsHeader(Codes(lines)[1])
    ensures Parse(lines) == Err(UnknownInstruction)
  {
    DriveReference(InstructionOf, lines);
    var body := Codes(lines)[1..];
    HeaderLineIsUnknown(body[0], 1);
    FirstLineFails(InstructionOf, body);
  }

  /** When the first line after the header fails, its error is the outcome of the body. */
  lemma {:induction false} FirstLineFails(parse: LineParser, body: seq<string>)
    requires body != [] && parse(body[0], 1).Err?
    ensures ParseBody(parse, body) == Err(parse(body[0], 1).error)
    decreases |body|
  {
    var n := |body| - 1;
    if n > 0 {
      assert body[..n][0] == body[0];
      FirstLineFails(parse, body[..n]);
    } else {
      assert body[..n] == [];
    }
  }
}
