# IPPcode24 front end, modelled in Dafny

`parse.py` is the front end of the IPPcode24 toolchain. It reads a program in
the IPPcode24 assembly-like language, checks its lexical and syntactic form,
and emits the program as XML. This project models the checks and the
resulting list of instructions:

- the `.IPPcode24` header,
- variables (`GF@x`, `TF@x`, `LF@x`), type keywords, labels and
  `type@value` literals,
- the opcode table with the operand categories of each opcode,
- how each operand is resolved and matched against the category of its
  position,
- the driver loop that skips blank and comment lines, requires the header
  first, and numbers the instructions 1..N.

Every `sys.exit` of the checks is an `Err` value carrying the error class.
`Diagnostics.ExitCode` maps each class to the process exit code: 21 for
header errors, 23 for everything else. An `Ok` result means that the program
passes the front-end checks; the XML stage that follows can still fail (see
"Left out").

Modules (one file each):

- `text.dfy`, `Text`: the Python string behaviour the program relies on:
  - whitespace as `str.isspace()` sees it,
  - `strip()`, `split()`, `split(maxsplit=1)`, `re.split(r'\s+')`,
    `split("#")[0]` and `split("@", 1)`,
  - ASCII case mapping.
- `diagnostics.dfy`, `Diagnostics`: error classes, the `Result` type, exit
  codes.
- `lexer.dfy`, `Lexer`: `is_header`, `is_var`, `is_symb`, `is_type` and
  `is_label`. The regular expressions are written as character predicates;
  the string-literal regex is a recursive matcher.
- `operands.dfy`, `Operands`: `determine_operand_type_and_value` (`Resolve`)
  and `validate_operand_type` (`Compatible`, `CheckOperand`).
- `instructions.dfy`, `Instructions`:
  - the `instructions` table (`Signatures`),
  - `parse_instruction`, as the method `ParseInstruction` with its operand
    loop in `BuildArguments`,
  - `InstructionOf`, the function that specifies both methods: the line is
    cut into words (`Words`) and the checks run on them (`Assemble`).
- `program.dfy`, `Program`: the loop in `main`:
  - the method `ParseProgram`, whose loop body is `Advance` and `Append`,
  - the function `Run`, a fold of `Step` over the lines, which specifies it,
  - a reference reading (`Codes`, `ParseBody`) proved equal to it.

  The driver's functions take the line parser as a parameter. The front end
  `Parse` is the driver applied to `InstructionOf`.

Two behaviours of the code worth noting, which the IPPcode24 language
specification does not spell out this way:

- Hexadecimal and octal integers are accepted only with the lower-case
  prefixes `0x` and `0o` (parse.py:77-78). Upper-case `0X` and `0O` are
  refused.
- In a symbol slot, `label@foo` is refused while it is being resolved, as an
  invalid operand (parse.py:119-124). It never reaches the type check, so it
  is not reported as an operand-type mismatch. Both exit with code 23.

## Model

| member | source | states |
|---|---|---|
| Diagnostics.ExitCode | parse.py:197-213 | The exit code is 21 exactly for the header error and 23 for every other error. |
| Lexer.IsHeader | parse.py:54-55 | The header regex: the stripped line equals `.IPPcode24` up to ASCII letter case. |
| Lexer.IsVar | parse.py:58-64 | `is_var`: the token holds `@`; the part before the first `@` is `GF`, `TF` or `LF`; the rest matches the name regex of parse.py:64, written as character predicates. |
| Lexer.IsType | parse.py:88-89 | `is_type`: the token is exactly `int`, `bool`, `string` or `nil`. |
| Lexer.IsLabel | parse.py:92-93 | `is_label`: the name regex of parse.py:93, written as character predicates. |
| Lexer.IsIntLiteral | parse.py:75-79 | The four `int@` payload regexes, one predicate each, joined by `or`. |
| Lexer.IsStringLiteral | parse.py:82-83 | The `string@` payload regex as a recursive matcher: characters that are neither whitespace nor a backslash, and escapes of a backslash and three digits. |
| Lexer.IsSymb | parse.py:67-72 | `is_symb`: the token holds `@`, and it splits at the first `@` into a pair that passes the per-type check. |
| Lexer.IsLiteral | parse.py:71-85 | The per-type check of `is_symb`: a type keyword, then the payload test for that type; every other prefix is refused. |
| Lexer.HeaderVariants | parse.py:54-55 | The header test accepts `.IPPcode24` in any letter case, surrounded by any whitespace. |
| Lexer.VarShape | parse.py:58-64 | A token is a variable exactly when it is `GF@`, `TF@` or `LF@` followed by a name. The name starts with an ASCII letter or one of `_-$&%*!?`, and every later character is a word character or one of `-$&%*!?`. A token without `@` is refused. |
| Lexer.StringLiteralEscapes | parse.py:82-83 | The string payload matcher accepts exactly the payloads without whitespace in which every backslash is followed by three digits. The empty payload is included. |
| Lexer.IntLiteralForms | parse.py:75-79 | An int payload is accepted exactly when it is an optional sign followed by decimal digits, or an optional `-` followed by `0x` and hex digits or by `0o` and octal digits. |
| Lexer.IntLiteralAccepted | parse.py:76-79 | Signed decimal, `+`-prefixed decimal, and signed lower-case hexadecimal and octal payloads are accepted. |
| Lexer.IntLiteralNeedsDigits | parse.py:76-79 | The empty payload and a bare sign are refused. |
| Lexer.IntLiteralPlusOnlyDecimal | parse.py:79 | `+` combines only with decimal digits: `+0x1F` and `+0o17` are refused. |
| Lexer.IntLiteralPrefixCase | parse.py:77-78 | Upper-case `0X` and `0O` prefixes, digit-less prefixes and non-octal digits are refused. |
| Lexer.SymbSplit | parse.py:67-72 | A literal token splits at its first `@` into its type and its payload. It is accepted exactly when that pair passes the per-type check. |
| Lexer.NilLiteral | parse.py:73-74 | `nil@v` is accepted exactly when `v` is `nil`. |
| Lexer.BoolLiteral | parse.py:80-81 | `bool@v` is accepted exactly when `v` is `true` or `false`. |
| Lexer.IntLiteral | parse.py:75-79 | `int@v` is accepted exactly when `v` is an int payload. |
| Lexer.StringLiteral | parse.py:82-83 | `string@v` is accepted exactly when the escapes of `v` are well formed. `string@` with an empty payload is accepted. |
| Lexer.NonLiterals | parse.py:67-85 | A token whose prefix before `@` is not a type keyword is not a literal, and neither is a token without `@`. |
| Lexer.ClassesDisjoint | parse.py:58-93 | Type keywords, variables and literals are mutually exclusive, and every type keyword is also a label. |
| Lexer.TokenIsWord | parse.py:58-93 | Every token accepted by any classifier is non-empty and free of whitespace. |
| Operands.Compatible | parse.py:96-105 | `validate_operand_type`: a var slot takes a variable, a symb slot a variable or literal, a label slot a label, a type slot a type keyword. |
| Operands.CheckOperand | parse.py:156-162 | One operand position: resolve the token, then refuse a kind its slot does not take as a type mismatch. |
| Operands.KindName | parse.py:109-121 | The kind strings the resolver returns as the `type` attribute: `label`, `type`, `var`, and the type keyword of a literal (`int`, `bool`, `string`, `nil`). |
| Operands.LiteralKind | parse.py:119-121 | A type keyword names a literal kind whose name is that keyword. |
| Operands.Resolve | parse.py:108-124 | Resolution fails only with the invalid-operand error (exit 23). |
| Operands.ResolveLabelSlot | parse.py:109-114 | In a label slot only the label test is consulted. The token resolves, whole, to a label exactly when it is one. |
| Operands.ResolveOtherSlots | parse.py:115-124 | Outside label slots the slot does not matter. A token resolves exactly when it is a type keyword, a variable or a literal, and it never resolves to a label. |
| Operands.ResolvedValue | parse.py:115-121 | A literal resolves to its kind and its payload after the first `@`. Every other operand keeps the whole token as its value. |
| Operands.CheckOperandAccepts | parse.py:96-105 | A slot accepts a token exactly as follows: a var slot a variable, a symb slot a variable or literal, a label slot a label, a type slot a type keyword. |
| Operands.CheckOperandErrors | parse.py:154-162 | An unresolvable token is an invalid operand. A type keyword in a var or symb slot is a type mismatch. A non-label in a label slot is an invalid operand. |
| Operands.TypeKeywordBySlot | parse.py:115-116 | A bare type keyword such as `int` is a label in a label slot and a type in a type slot. In a var or symb slot it resolves as a type and then fails the type check. |
| Operands.LabelPrefixRefused | parse.py:119-124 | Outside label slots, `label@…` fails during resolution as an invalid operand, not at the type check. |
| Operands.RenderOperandInverse | parse.py:119-121 | Writing an accepted operand back as text gives the original token. |
| Operands.RenderOperandResolves | parse.py:67-83 | Every well-formed literal written as `type@payload` is accepted in a symbol slot and resolves back to itself. |
| Operands.AcceptedTokenIsWord | parse.py:108-124 | Every accepted operand token is non-empty and free of whitespace. |
| Instructions.SignatureTable | parse.py:8-51 | The opcode table `Signatures`: each of the 35 lower-case opcodes maps to its operand categories in order (`v`, `s`, `l`, `t` as `VarSlot`, `SymbSlot`, `LabelSlot`, `TypeSlot`); no opcode takes more than three operands. |
| Instructions.Words | parse.py:128-144 | How `parse_instruction` cuts a line: `split(maxsplit=1)`, then `re.split(r'\s+')` of the stripped remainder, or no operands when there is no remainder. |
| Instructions.Assemble | parse.py:129-167 | The checks of `parse_instruction` on the cut line, in source order: a missing instruction, an unknown opcode (looked up in lower case), an operand count, then the operands; the record carries the order, the upper-cased opcode and the arguments. |
| Instructions.InstructionOf | parse.py:127-167 | `parse_instruction` as a value: `Assemble` applied to `Words` of the line. |
| Instructions.CheckOperands | parse.py:154-165 | The operands are accepted exactly when each is accepted by the category of its position. The results keep source order, one per position. On failure the error is that of the first refused operand. |
| Instructions.BuildArguments | parse.py:154-165 | The operand loop computes `CheckOperands`, stopping at the first refusal. |
| Instructions.FailureStops | parse.py:156-162 | When all earlier operands are accepted, the first refused operand decides the error. |
| Instructions.ParseInstruction | parse.py:127-167 | The method computes `InstructionOf`. |
| Instructions.WordsAreFields | parse.py:128-145 | The opcode is the first whitespace-separated field of the line, and the operand tokens are exactly the remaining fields. |
| Instructions.ParseOutcome | parse.py:127-152 | Parsing a line is the sequence of checks applied to its `split()` fields. In order of the checks: an empty line is a missing instruction; an opcode not in the table (compared in lower case) is unknown; a field count other than the signature length is an operand-count error, including 0 operands against a non-empty signature and the reverse; otherwise the result is the operand check, under the upper-cased opcode. |
| Instructions.ParseAccepts | parse.py:127-167 | A line parses exactly when the opcode is known, the count matches and every operand is accepted. The record carries the given order, the upper-cased opcode and one checked operand per position, in source order. |
| Instructions.InstructionOrder | parse.py:152 | A parsed instruction carries the order number it was given. |
| Instructions.InstructionErrors | parse.py:127-162 | Every way an instruction line can fail exits with code 23. |
| Instructions.OperandErrors | parse.py:154-162 | Operands fail only as invalid operands or type mismatches. |
| Instructions.OpcodeCaseInsensitive | parse.py:133-152 | Lines that differ only in the letter case of the opcode give the same result, and the emitted opcode is the upper-cased name. |
| Instructions.HeaderLineIsUnknown | parse.py:136-138 | A header line parsed as an instruction is an unknown opcode. |
| Instructions.HeaderNotOpcode | parse.py:133-138 | The header word, lower-cased, is not a key of the opcode table. |
| Instructions.NotAnOpcode | parse.py:8-51 | No opcode in the table starts with anything but a letter. |
| Instructions.LowerUpperLower | parse.py:133-152 | Lower-casing the emitted opcode gives back the looked-up name. |
| Instructions.RenderedArgs | parse.py:154-165 | Writing the checked operands back as text gives the operand tokens. |
| Instructions.PrintParseRoundTrip | parse.py:127-167 | Writing a parsed instruction back as a line, opcode then operands, and parsing it again gives the same instruction. |
| Text.IsSpace | parse.py:193 | The characters `str.isspace()` treats as whitespace; `\s`, `strip()` and `split()` use the same set. |
| Text.Trim | parse.py:193 | `str.strip()`: drop the leading and then the trailing whitespace; what is left starts and ends with non-whitespace. |
| Text.Lower | parse.py:133 | `str.lower()` on ASCII letters, character by character. |
| Text.Upper | parse.py:152 | `str.upper()` on ASCII letters, character by character. |
| Text.BeforeHash | parse.py:198 | `split("#")[0]`: the longest prefix without `#`; it is followed by `#` unless it is the whole text. |
| Text.SplitFirst | parse.py:61 | `split("@", 1)` on text that holds `@`: the text is the first part, `@`, then the second part, and the first part holds no `@`. |
| Text.SplitOnce | parse.py:128 | `split(maxsplit=1)`: skip leading whitespace, take the first run of non-whitespace, then the rest with its leading whitespace removed. |
| Text.SplitOnSpaceRuns | parse.py:141 | `re.split(r'\s+', s)`: the pieces between maximal runs of whitespace, empty pieces included. |
| Text.Fields | parse.py:128-144 | `str.split()`, the reference the operand tokens are compared with: the maximal runs of non-whitespace, in order, each a non-empty word. |
| Text.CutCode | parse.py:205-206 | A stripped line that does not start with `#`, cut at its first `#` and stripped again, is non-empty and holds no `#`. |
| Text.SplitFirstUnique | parse.py:61 | `split("@", 1)` on `a@b`, where `a` has no `@`, gives `a` and `b`. |
| Text.SplitOnceStripped | parse.py:128 | `split(maxsplit=1)` skips leading whitespace, takes the first run of non-whitespace, and keeps the rest with its leading whitespace removed. |
| Text.SplitOnceFields | parse.py:128-145 | `split(maxsplit=1)` followed by `re.split(r'\s+')` on the stripped remainder gives the same fields as `split()`. |
| Text.SplitOnSpaceRunsFields | parse.py:141 | On text with no whitespace at either end, `re.split(r'\s+')` equals `split()`. |
| Text.TrimPadded | parse.py:193 | `strip()` removes exactly the whitespace padding around text that begins and ends with non-whitespace. |
| Text.BeforeHashOf | parse.py:205 | `split("#")[0]` is the text before the first `#`, or all of the text when there is none. |
| Text.CodeBeforeHash | parse.py:193-205 | Stripping a line keeps its first `#` when non-blank text precedes it. Cutting at that `#` and stripping again gives the text back. |
| Program.Step | parse.py:193-209 | One iteration of the loop: a skipped line changes nothing; before the header, the line must be the header (else the header error); after it, the line is parsed under the next order number and appended, or its error ends the run. |
| Program.Run | parse.py:192-209 | The loop over the lines as a fold of `Step`, stopping at the first error. |
| Program.Drive | parse.py:192-214 | After the loop, a run that never saw the header fails with the header error; otherwise the result is the collected instructions. |
| Program.Parse | parse.py:188-214 | The front end: the driver with `InstructionOf` as the line parser. |
| Program.Classify | parse.py:193-206 | A line is kept exactly when, stripped, it is non-empty and does not start with `#`. The code of a kept line is non-empty and holds no `#`, so the `if line:` test never skips one. |
| Program.ParseProgram | parse.py:188-213 | The driver loop computes `Parse`: the fold of `Step` over the lines, then the header check at the end of input. |
| Program.Advance | parse.py:192-209 | One iteration of the loop computes `Step` on the classified line. |
| Program.Append | parse.py:205-209 | After the header, a non-empty code line takes the next order number and its parse is appended, or its error ends the run. |
| Program.ErrorPersists | parse.py:201-209 | Once a line fails, the run ends with that error, whatever lines follow. |
| Program.ParseBodyLines | parse.py:205-209 | The lines after the header parse exactly when each parses under its position from 1, into those instructions. Otherwise the error is that of one of the lines. |
| Program.RunReference | parse.py:188-209 | The loop over the lines equals the reference reading. Take the codes of the lines that are neither blank nor comments, check the first against the header, and parse the rest numbered from 1. |
| Program.DriveReference | parse.py:188-213 | The result is the header error when there is no code line or the first one is not the header. Otherwise it is the parse of the remaining code lines. |
| Program.SkippedLine | parse.py:193-195 | Removing a blank or comment line from anywhere in the input leaves the result unchanged. |
| Program.DriveOrders | parse.py:205-209 | For any parser that numbers as told, the instructions carry order numbers 1..N: one per code line after the header, each the parse of its line. |
| Program.OrderNumbers | parse.py:188-209 | The front end numbers the instructions exactly 1..N in input order. N is the number of code lines after the header, so the header, blank and comment lines consume no number. Each instruction is the parse of its line. |
| Program.DriveHeaderError | parse.py:197-213 | The header error arises exactly when there is no code line, or the first code line is not the header. |
| Program.ExitCodes | parse.py:197-213 | When there is no code line, or the first one is not the header, the front end fails with the header error. Whenever it fails, it exits with 21 exactly in that case and with 23 on every other error. |
| Program.HeaderOnly | parse.py:197-213 | Input without any code line fails with the header error. Input whose only code line is the header yields an empty instruction list. |
| Program.SkippedLines | parse.py:193-195 | Whitespace-only lines, and lines whose first non-blank character is `#`, are skipped. |
| Program.CommentCut | parse.py:205 | Text from the first `#` on is dropped and the rest stripped before the line is parsed. |
| Program.HeaderLine | parse.py:197-200 | The header is recognised in any letter case, padded with whitespace and followed by a comment. |
| Program.SecondHeader | parse.py:136-138 | A second header line after the first is parsed as an instruction and fails as an unknown opcode. |

## Left out

- Command-line handling and reading the file or standard input
  (parse.py:182-186, 192) are not modelled. The input is a sequence of lines,
  and how the text is split into lines is not modelled.
- The XML stage can fail after every check has passed. The `string@` payload
  regex (parse.py:83) accepts characters that XML 1.0 forbids: C0 control
  characters, U+FFFE and U+FFFF.
  `ET.tostring` writes them out unescaped, and `minidom.parseString`
  (parse.py:175-176) rejects the text with an uncaught exception, so the
  run ends with status 1. The model returns `Ok` for such input. `Ok` means
  only that the program passes the front-end checks.
- XML output is not modelled: `generate_xml_output`, ElementTree, minidom and
  pretty-printing (parse.py:152, 164-165, 170-179). An instruction is
  a record of its order, its opcode and its operands, each a kind and a
  value. The element name `argK` is the operand's position in that list.
- The texts of the stderr messages and the process exit itself are not
  modelled. Each exit is an error class, and `ExitCode` gives its code.
- Non-ASCII behaviour is not modelled. Python's `\w`, `\d`, `re.IGNORECASE`,
  `str.lower()` and `str.upper()` also act on non-ASCII characters. The
  model uses ASCII letters, digits and underscore, and ASCII case mapping.
  The whitespace set does follow `str.isspace()`.
- `$` in the regexes can also match before a final newline. This is not
  modelled because no token ever contains whitespace: operands are split on
  whitespace, and the header is tested after stripping.
