/**
 * Operand resolution. An instruction signature gives each operand position
 * a category; the resolver infers the concrete kind of a token from its
 * shape, and the compatibility check decides whether that kind may stand in
 * that position.
 */
module Operands {
  import opened Text
  import opened Lexer
  import opened Diagnostics

  /** The categories of the signature table: `v`, `s`, `l` and `t`. */
  datatype Category = VarSlot | SymbSlot | LabelSlot | TypeSlot

  /** The kind a token resolves to; its name is the `type` attribute of the argument. */
  datatype Kind = Var | Int | Bool | String | Nil | Label | Type

  function KindName(k: Kind): string {
    match k
    case Var => "var"
    case Int => "int"
    case Bool => "bool"
    case String => "string"
    case Nil => "nil"
    case Label => "label"
    case Type => "type"
  }

  predicate IsLiteralKind(k: Kind) {
    k == Int || k == Bool || k == String || k == Nil
  }

  /** A resolved operand: its kind and the text of the argument. */
  datatype Operand = Operand(kind: Kind, value: string)

  /** The literal kind a type keyword names. */
  function LiteralKind(ty: string): (k: Kind)
    requires IsType(ty)
    ensures IsLiteralKind(k) && KindName(k) == ty
  {
    if ty == "int" then Int
    else if ty == "bool" then Bool
    else if ty == "string" then String
    else Nil
  }

  /**
   * determine_operand_type_and_value: a label slot consults only the label
   * test; any other slot tries a type keyword, then a variable (kept whole),
   * then a literal (only its payload is kept).
   */
  function Resolve(token: string, expected: Category): (r: Result<Operand>)
    ensures r.Err? ==> r.error == InvalidOperand
  {
    if expected == LabelSlot then
      if IsLabel(token) then Ok(Operand(Label, token)) else Err(InvalidOperand)
    else if IsType(token) then Ok(Operand(Type, token))
    else if IsVar(token) then Ok(Operand(Var, token))
    else if IsSymb(token) then
      var (ty, value) := SplitFirst(token, '@');
      Ok(Operand(LiteralKind(ty), value))
    else Err(InvalidOperand)
  }

  /** validate_operand_type: which resolved kinds each category admits. */
  predicate Compatible(expected: Category, kind: Kind) {
    match expected
    case VarSlot => kind == Var
    case SymbSlot => kind == Var || IsLiteralKind(kind)
    case LabelSlot => kind == Label
    case TypeSlot => kind == Type
  }

  /** One operand position: resolve the token, then check its kind against the slot. */
  function CheckOperand(token: string, expected: Category): Result<Operand> {
    match Resolve(token, expected)
    case Err(e) => Err(e)
    case Ok(op) => if Compatible(expected, op.kind) then Ok(op) else Err(OperandTypeMismatch)
  }

  /** The IPPcode24 text of an operand: the token it was resolved from. */
  function RenderOperand(op: Operand): string {
    if IsLiteralKind(op.kind) then KindName(op.kind) + "@" + op.value else op.value
  }

  // ---------------------------------------------------------------------
  // Properties of the resolver
  // ---------------------------------------------------------------------

  /** A label slot resolves by the label test alone, keeping the token whole. */
  lemma ResolveLabelSlot(token: string)
    ensures Resolve(token, LabelSlot).Ok? <==> IsLabel(token)
    ensures Resolve(token, LabelSlot).Ok? ==> Resolve(token, LabelSlot).value == Operand(Label, token)
  {
  }

  /**
   * Any other slot resolves the same way whatever its category, never to a
   * label, and succeeds exactly on type keywords, variables and literals.
   */
  lemma ResolveOtherSlots(token: string, expected: Category)
    requires expected != LabelSlot
    ensures Resolve(token, expected) == Resolve(token, SymbSlot)
    ensures Resolve(token, expected).Ok? <==> IsType(token) || IsVar(token) || IsSymb(token)
    ensures Resolve(token, expected).Ok? ==> Resolve(token, expected).value.kind != Label
  {
  }

  /** What each kind keeps as its value: the whole token, or a literal's payload after the first `@`. */
  lemma ResolvedValue(token: string, expected: Category)
    requires Resolve(token, expected).Ok?
    ensures var op := Resolve(token, expected).value;
      if IsLiteralKind(op.kind) then token == KindName(op.kind) + "@" + op.value && IsSymb(token)
      else op.value == token
  {
  }

  /** The tokens each category accepts once resolution and the compatibility check have both run. */
  lemma CheckOperandAccepts(token: string, expected: Category)
    ensures CheckOperand(token, expected).Ok? <==>
      match expected
      case VarSlot => IsVar(token)
      case SymbSlot => IsVar(token) || IsSymb(token)
      case LabelSlot => IsLabel(token)
      case TypeSlot => IsType(token)
  {
    ClassesDisjoint(token);
    if IsSymb(token) {
      var (ty, value) := SplitFirst(token, '@');
      assert IsType(ty);
    }
  }

  /**
   * Why a token is refused: a type keyword in a variable or symbol slot
   * resolves and then fails the compatibility check; a token that no
   * classifier accepts fails in resolution itself.
   */
  lemma CheckOperandErrors(token: string, expected: Category)
    ensures expected != LabelSlot && !IsType(token) && !IsVar(token) && !IsSymb(token) ==>
      CheckOperand(token, expected) == Err(InvalidOperand)
    ensures (expected == VarSlot || expected == SymbSlot) && IsType(token) ==>
      CheckOperand(token, expected) == Err(OperandTypeMismatch)
    ensures expected == LabelSlot && !IsLabel(token) ==>
      CheckOperand(token, expected) == Err(InvalidOperand)
  {
  }

  /**
   * A type keyword is a label in a label slot and a type in a type slot, but
   * offered for a value it resolves as a type and fails the compatibility check.
   */
  lemma TypeKeywordBySlot(token: string)
    requires IsType(token)
    ensures CheckOperand(token, LabelSlot) == Ok(Operand(Label, token))
    ensures CheckOperand(token, TypeSlot) == Ok(Operand(Type, token))
    ensures CheckOperand(token, SymbSlot) == Err(OperandTypeMismatch)
    ensures CheckOperand(token, VarSlot) == Err(OperandTypeMismatch)
  {
    ClassesDisjoint(token);
  }

  /** `label@...` offered for a value is refused by the resolver, not by the compatibility check. */
  lemma LabelPrefixRefused(v: string, expected: Category)
    requires expected != LabelSlot
    ensures Resolve("label@" + v, expected) == Err(InvalidOperand)
  {
    assert "label" + "@" + v == "label@" + v;
    NonLiterals("label", v, "");
    var token := "label@" + v;
    assert !IsType(token) by {
      assert '@' in token;
    }
    assert !IsVar(token) by {
      SymbSplit("label", v);
    }
  }

  /** Rendering an accepted operand gives back the very token it came from. */
  lemma RenderOperandInverse(token: string, expected: Category)
    requires CheckOperand(token, expected).Ok?
    ensures RenderOperand(CheckOperand(token, expected).value) == token
  {
    ResolvedValue(token, expected);
  }

  /**
   * Resolving a literal's text gives back that literal: the payload of
   * each literal kind round-trips through `type@value`.
   */
  lemma {:induction false} RenderOperandResolves(op: Operand)
    requires IsLiteralKind(op.kind)
    requires IsLiteral(KindName(op.kind), op.value)
    ensures CheckOperand(RenderOperand(op), SymbSlot) == Ok(op)
  {
    var ty := KindName(op.kind);
    var token := RenderOperand(op);
    assert '@' !in ty;
    SymbSplit(ty, op.value);
    assert !IsType(token) by {
      assert '@' in token;
    }
    assert !IsVar(token) by {
      var (frame, name) := SplitFirst(token, '@');
      assert frame == ty;
    }
  }

  /** A token accepted in any position is a whitespace-free word, so it survives splitting a line. */
  lemma AcceptedTokenIsWord(token: string, expected: Category)
    requires CheckOperand(token, expected).Ok?
    ensures IsWord(token)
  {
    CheckOperandAccepts(token, expected);
    TokenIsWord(token);
  }
}
