/**
 * The instruction signature table and the parser of one instruction line:
 * the opcode is looked up case-insensitively, the operand count must match
 * the signature exactly, and every operand is resolved and checked against
 * the category of its position.
 */
module Instructions {
  import opened Text
  import opened Lexer
  import opened Diagnostics
  import opened Operands

  /** Opcode (lower case) to the categories of its operands, in order. */
  const Signatures: map<string, seq<Category>> := map[
    "move" := [VarSlot, SymbSlot],
    "createframe" := [],
    "pushframe" := [],
    "popframe" := [],
    "defvar" := [VarSlot],
    "call" := [LabelSlot],
    "return" := [],
    "pushs" := [SymbSlot],
    "pops" := [VarSlot],
    "add" := [VarSlot, SymbSlot, SymbSlot],
    "sub" := [VarSlot, SymbSlot, SymbSlot],
    "mul" := [VarSlot, SymbSlot, SymbSlot],
    "idiv" := [VarSlot, SymbSlot, SymbSlot],
    "lt" := [VarSlot, SymbSlot, SymbSlot],
    "gt" := [VarSlot, SymbSlot, SymbSlot],
    "eq" := [VarSlot, SymbSlot, SymbSlot],
    "and" := [VarSlot, SymbSlot, SymbSlot],
    "or" := [VarSlot, SymbSlot, SymbSlot],
    "not" := [VarSlot, SymbSlot],
    "int2char" := [VarSlot, SymbSlot],
    "stri2int" := [VarSlot, SymbSlot, SymbSlot],
    "read" := [VarSlot, TypeSlot],
    "write" := [SymbSlot],
    "concat" := [VarSlot, SymbSlot, SymbSlot],
    "strlen" := [VarSlot, SymbSlot],
    "getchar" := [VarSlot, SymbSlot, SymbSlot],
    "setchar" := [VarSlot, SymbSlot, SymbSlot],
    "type" := [VarSlot, SymbSlot],
    "label" := [LabelSlot],
    "jump" := [LabelSlot],
    "jumpifeq" := [LabelSlot, SymbSlot, SymbSlot],
    "jumpifneq" := [LabelSlot, SymbSlot, SymbSlot],
    "exit" := [SymbSlot],
    "dprint" := [SymbSlot],
    "break" := []
  ]

  /** Every opcode has at most three operands, so `arg1`..`arg3` are the only argument elements. */
  lemma SignatureTable()
    ensures forall name :: name in Signatures ==> |Signatures[name]| <= 3
  {
  }

  /** One instruction: its order number, upper-case opcode and arguments `arg1`..`argk` in order. */
  datatype Instruction = Instruction(order: nat, opcode: string, args: seq<Operand>)

  /** Position i is the first operand refused, with error e. */
  predicate FirstFailure(tokens: seq<string>, expected: seq<Category>, i: nat, e: Error)
    requires |tokens| == |expected| && i < |tokens|
  {
    && CheckOperand(tokens[i], expected[i]) == Err(e)
    && forall j :: 0 <= j < i ==> CheckOperand(tokens[j], expected[j]).Ok?
  }

  /** The operands, checked left to right; the first refusal ends the parse. */
  function CheckOperands(tokens: seq<string>, expected: seq<Category>): (r: Result<seq<Operand>>)
    requires |tokens| == |expected|
    ensures r.Ok? <==> forall i :: 0 <= i < |tokens| ==> CheckOperand(tokens[i], expected[i]).Ok?
    ensures r.Ok? ==> |r.value| == |tokens|
    ensures r.Ok? ==> forall i :: 0 <= i < |tokens| ==> CheckOperand(tokens[i], expected[i]) == Ok(r.value[i])
    ensures r.Err? ==> exists i :: 0 <= i < |tokens| && FirstFailure(tokens, expected, i, r.error)
    decreases |tokens|
  {
    if tokens == [] then Ok([])
    else
      var n := |tokens| - 1;
      match CheckOperands(tokens[..n], expected[..n])
      case Err(e) =>
        PrefixFailure(tokens, expected, n, e);
        Err(e)
      case Ok(args) =>
        PrefixAccepted(tokens, expected, n, args);
        match CheckOperand(tokens[n], expected[n])
        case Err(e) => assert FirstFailure(tokens, expected, n, e); Err(e)
        case Ok(op) => Ok(args + [op])
  }

  /** What the first n operands were accepted as, read back on the whole list. */
  lemma PrefixAccepted(tokens: seq<string>, expected: seq<Category>, n: nat, args: seq<Operand>)
    requires |tokens| == |expected| && n <= |tokens| && |args| == n
    requires forall i :: 0 <= i < n ==> CheckOperand(tokens[..n][i], expected[..n][i]) == Ok(args[i])
    ensures forall i :: 0 <= i < n ==> CheckOperand(tokens[i], expected[i]) == Ok(args[i])
  {
    forall i | 0 <= i < n
      ensures CheckOperand(tokens[i], expected[i]) == Ok(args[i])
    {
      assert tokens[..n][i] == tokens[i] && expected[..n][i] == expected[i];
    }
  }

  /** The operand tokens: re.split on whitespace of the stripped remainder, none when there is no remainder. */
  function OperandTokens(words: seq<string>): seq<string>
    requires |words| <= 2
  {
    var raw := if |words| > 1 then words[1] else "";
    if raw == "" then [] else SplitOnSpaceRuns(Trim(raw))
  }

  /** How parse_instruction cuts a line: the opcode word, then the operand tokens of the remainder. */
  function Words(line: string): seq<string> {
    var words := SplitOnce(line);
    if |words| < 1 then [] else [words[0]] + OperandTokens(words)
  }

  /** The checks of parse_instruction on the cut line, in their order: presence, opcode, count, operands. */
  function Assemble(f: seq<string>, order: nat): Result<Instruction> {
    if f == [] then Err(MissingInstruction)
    else
      var name := Lower(f[0]);
      if name !in Signatures then Err(UnknownInstruction)
      else
        var expected := Signatures[name];
        if |f| - 1 != |expected| then Err(OperandCount)
        else
          match CheckOperands(f[1..], expected)
          case Err(e) => Err(e)
          case Ok(args) => Ok(Instruction(order, Upper(name), args))
  }

  /** parse_instruction, as the value it returns or the error it exits with. */
  function InstructionOf(line: string, order: nat): Result<Instruction> {
    Assemble(Words(line), order)
  }

  /** parse_instruction: split the line, look up the opcode, check the count, then build the arguments. */
  method ParseInstruction(line: string, order: nat) returns (r: Result<Instruction>)
    ensures r == InstructionOf(line, order)
  {
    var words := SplitOnce(line);
    if |words| < 1 {
      return Err(MissingInstruction);
    }
    var name := Lower(words[0]);
    var raw := if |words| > 1 then words[1] else "";
    if name !in Signatures {
      return Err(UnknownInstruction);
    }
    var expected := Signatures[name];
    var tokens := if raw == "" then [] else SplitOnSpaceRuns(Trim(raw));
    assert Words(line) == [words[0]] + tokens && ([words[0]] + tokens)[1..] == tokens;
    if |tokens| != |expected| {
      return Err(OperandCount);
    }
    var checked := BuildArguments(tokens, expected);
    match checked
    case Err(e) => return Err(e);
    case Ok(args) => return Ok(Instruction(order, Upper(name), args));
  }

  /** The argument loop of parse_instruction: resolve, check, append, one position at a time. */
  method BuildArguments(tokens: seq<string>, expected: seq<Category>) returns (r: Result<seq<Operand>>)
    requires |tokens| == |expected|
    ensures r == CheckOperands(tokens, expected)
  {
    var args: seq<Operand> := [];
    var i := 0;
    while i < |tokens|
      invariant 0 <= i <= |tokens|
      invariant CheckOperands(tokens[..i], expected[..i]) == Ok(args)
    {
      var resolved := Resolve(tokens[i], expected[i]);
      if resolved.Err? {
        FailureStops(tokens, expected, i, resolved.error);
        return Err(resolved.error);
      }
      if !Compatible(expected[i], resolved.value.kind) {
        FailureStops(tokens, expected, i, OperandTypeMismatch);
        return Err(OperandTypeMismatch);
      }
      assert tokens[..i + 1][..i] == tokens[..i] && expected[..i + 1][..i] == expected[..i];
      args := args + [resolved.value];
      i := i + 1;
    }
    assert tokens[..i] == tokens && expected[..i] == expected;
    return Ok(args);
  }

  /** A refusal among the first n operands is the first refusal among all of them. */
  lemma PrefixFailure(tokens: seq<string>, expected: seq<Category>, n: nat, e: Error)
    requires |tokens| == |expected| && n <= |tokens|
    requires exists k :: 0 <= k < n && FirstFailure(tokens[..n], expected[..n], k, e)
    ensures exists i :: 0 <= i < |tokens| && FirstFailure(tokens, expected, i, e)
  {
    var k :| 0 <= k < n && FirstFailure(tokens[..n], expected[..n], k, e);
    assert forall j :: 0 <= j <= k ==> tokens[..n][j] == tokens[j] && expected[..n][j] == expected[j];
    assert FirstFailure(tokens, expected, k, e);
  }

  /** When every operand before position i is accepted and position i is refused, the parse ends with i's error. */
  lemma FailureStops(tokens: seq<string>, expected: seq<Category>, i: nat, e: Error)
    requires |tokens| == |expected| && i < |tokens|
    requires CheckOperands(tokens[..i], expected[..i]).Ok?
    requires CheckOperand(tokens[i], expected[i]) == Err(e)
    ensures CheckOperands(tokens, expected) == Err(e)
  {
    assert forall j :: 0 <= j < i ==> tokens[..i][j] == tokens[j] && expected[..i][j] == expected[j];
    var r := CheckOperands(tokens, expected);
    var k :| 0 <= k < |tokens| && FirstFailure(tokens, expected, k, r.error);
    assert k == i;
  }

  // ---------------------------------------------------------------------
  // Properties of the instruction parser
  // ---------------------------------------------------------------------

  /** The opcode word and the operand tokens are the fields of the line, as str.split() would give them. */
  lemma WordsAreFields(line: string)
    ensures Words(line) == Fields(line)
  {
    SplitOnceFields(line);
    var f := Fields(line);
    if f != [] {
      assert f == [f[0]] + f[1..];
    }
  }

  /**
   * In order of the checks: an empty line is a missing instruction, an opcode
   * not in the table (compared in lower case) is unknown, a field count other
   * than the signature length is an operand-count error; otherwise the result
   * is the operand check, under the upper-cased opcode.
   */
  lemma ParseOutcome(line: string, order: nat)
    ensures InstructionOf(line, order) == Assemble(Fields(line), order)
  {
    WordsAreFields(line);
  }

  /**
   * A line is accepted exactly when it names a known opcode, has as many
   * operands as its signature and every operand is accepted in its position;
   * the record then carries the given order, the upper-cased opcode and one
   * argument per operand, in source order.
   */
  lemma ParseAccepts(line: string, order: nat)
    ensures var f := Fields(line);
      InstructionOf(line, order).Ok? <==>
        && f != []
        && Lower(f[0]) in Signatures
        && |f| - 1 == |Signatures[Lower(f[0])]|
        && forall i :: 0 <= i < |f| - 1 ==> CheckOperand(f[1..][i], Signatures[Lower(f[0])][i]).Ok?
    ensures InstructionOf(line, order).Ok? ==>
      var f := Fields(line);
      var ins := InstructionOf(line, order).value;
      && ins.order == order
      && ins.opcode == Upper(Lower(f[0]))
      && |ins.args| == |f| - 1
      && forall i :: 0 <= i < |ins.args| ==> CheckOperand(f[1..][i], Signatures[Lower(f[0])][i]) == Ok(ins.args[i])
  {
    ParseOutcome(line, order);
  }

  /** A parsed instruction carries the order number it was given. */
  lemma InstructionOrder(line: string, order: nat)
    ensures InstructionOf(line, order).Ok? ==> InstructionOf(line, order).value.order == order
  {
  }

  /** Every way an instruction line can fail is a syntax error, exit code 23, never a header error. */
  lemma InstructionErrors(line: string, order: nat)
    ensures InstructionOf(line, order).Err? ==> ExitCode(InstructionOf(line, order).error) == 23
  {
    var f := Words(line);
    if f != [] && Lower(f[0]) in Signatures && |f| - 1 == |Signatures[Lower(f[0])]| {
      OperandErrors(f[1..], Signatures[Lower(f[0])]);
    }
  }

  /** The operands can only be refused as invalid or as of the wrong kind. */
  lemma OperandErrors(tokens: seq<string>, expected: seq<Category>)
    requires |tokens| == |expected|
    ensures CheckOperands(tokens, expected).Err? ==>
      CheckOperands(tokens, expected).error in {InvalidOperand, OperandTypeMismatch}
  {
    var r := CheckOperands(tokens, expected);
    if r.Err? {
      var i :| 0 <= i < |tokens| && FirstFailure(tokens, expected, i, r.error);
    }
  }

  /** Lines that differ only in the letter case of the opcode parse alike; the opcode is emitted upper-cased. */
  lemma OpcodeCaseInsensitive(line1: string, line2: string, order: nat)
    requires Fields(line1) != [] && Fields(line2) != []
    requires Lower(Fields(line1)[0]) == Lower(Fields(line2)[0])
    requires Fields(line1)[1..] == Fields(line2)[1..]
    ensures InstructionOf(line1, order) == InstructionOf(line2, order)
    ensures InstructionOf(line1, order).Ok? ==>
      InstructionOf(line1, order).value.opcode == Upper(Lower(Fields(line1)[0]))
  {
    ParseOutcome(line1, order);
    ParseOutcome(line2, order);
    AssembleCase(Fields(line1), Fields(line2), order);
  }

  lemma AssembleCase(f1: seq<string>, f2: seq<string>, order: nat)
    requires f1 != [] && f2 != [] && Lower(f1[0]) == Lower(f2[0]) && f1[1..] == f2[1..]
    ensures Assemble(f1, order) == Assemble(f2, order)
    ensures Assemble(f1, order).Ok? ==> Assemble(f1, order).value.opcode == Upper(Lower(f1[0]))
  {
  }

  /** A header line met among the instructions is an unknown opcode. */
  lemma HeaderLineIsUnknown(line: string, order: nat)
    requires IsHeader(line)
    ensures InstructionOf(line, order) == Err(UnknownInstruction)
  {
    HeaderFields(line);
    HeaderNotOpcode(line);
    ParseOutcome(line, order);
  }

  /** The header word, in whatever case, names no opcode. */
  lemma HeaderNotOpcode(line: string)
    requires IsHeader(line)
    ensures Lower(Trim(line)) !in Signatures
  {
    assert Lower(Header)[0] == '.';
    NotAnOpcode(Lower(Trim(line)));
  }

  /** A header line is a single word. */
  lemma HeaderFields(line: string)
    requires IsHeader(line)
    ensures Fields(line) == [Trim(line)]
  {
    HeaderIsWord(line);
    FieldsOfPaddedWord(line);
  }

  /** Every opcode starts with a letter. */
  lemma NotAnOpcode(w: string)
    requires w != [] && !IsAsciiLetter(w[0])
    ensures w !in Signatures
  {
  }

  /** The IPPcode24 text of an instruction: its opcode and its operand tokens, separated by single spaces. */
  function RenderInstruction(ins: Instruction): string {
    JoinWords([ins.opcode] + RenderArgs(ins.args))
  }

  function RenderArgs(args: seq<Operand>): (r: seq<string>)
    ensures |r| == |args|
    ensures forall i :: 0 <= i < |args| ==> r[i] == RenderOperand(args[i])
  {
    seq(|args|, i requires 0 <= i < |args| => RenderOperand(args[i]))
  }

  lemma LowerUpperLower(s: string)
    ensures Lower(Upper(Lower(s))) == Lower(s)
  {
  }

  lemma UpperKeepsWord(s: string)
    requires IsWord(s)
    ensures IsWord(Upper(s)) && IsWord(Lower(s))
  {
  }

  /** Writing a parsed instruction back as a line and parsing that line gives the same record. */
  lemma PrintParseRoundTrip(line: string, order: nat)
    requires InstructionOf(line, order).Ok?
    ensures InstructionOf(RenderInstruction(InstructionOf(line, order).value), order) == InstructionOf(line, order)
  {
    ParseOutcome(line, order);
    RenderFields(line, order);
    ParseOutcome(RenderInstruction(InstructionOf(line, order).value), order);
  }

  /** The rendered line has the original fields, up to the case of the opcode. */
  lemma RenderFields(line: string, order: nat)
    requires Assemble(Fields(line), order).Ok?
    ensures Assemble(Fields(RenderInstruction(Assemble(Fields(line), order).value)), order) == Assemble(Fields(line), order)
  {
    var f := Fields(line);
    var name := Lower(f[0]);
    var args := CheckOperands(f[1..], Signatures[name]).value;
    var ins := Instruction(order, Upper(name), args);
    assert Assemble(f, order) == Ok(ins);
    RenderedArgs(f[1..], Signatures[name]);
    UpperKeepsWord(f[0]);
    FieldsJoinCons(ins.opcode, f[1..]);
    LowerUpperLower(f[0]);
  }

  /** Each argument renders back to the operand token it was resolved from. */
  lemma RenderedArgs(tokens: seq<string>, expected: seq<Category>)
    requires |tokens| == |expected| && CheckOperands(tokens, expected).Ok?
    ensures RenderArgs(CheckOperands(tokens, expected).value) == tokens
  {
    var args := CheckOperands(tokens, expected).value;
    forall i | 0 <= i < |tokens|
      ensures RenderOperand(args[i]) == tokens[i]
    {
      RenderOperandInverse(tokens[i], expected[i]);
    }
  }

  lemma FieldsJoinCons(w: string, words: seq<string>)
    requires IsWord(w)
    requires forall i :: 0 <= i < |words| ==> IsWord(words[i])
    ensures Fields(JoinWords([w] + words)) == [w] + words
  {
    var g := [w] + words;
    forall i | 0 <= i < |g| ensures IsWord(g[i]) {
      if i > 0 {
        assert g[i] == words[i - 1];
      }
    }
    FieldsJoinWords(g);
  }
}
