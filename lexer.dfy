/**
 * Lexical classifiers of IPPcode24: the header line, variables, type
 * keywords, labels and typed literals ("symbols"). Each is a yes/no test on
 * one token, written as character predicates that accept what the regular
 * expressions of the front end accept.
 */
module Lexer {
  import opened Text

  const Header: string := ".IPPcode24"

  /** A header line: `.IPPcode24` in any letter case, surrounded by whitespace only. */
  predicate IsHeader(line: string) {
    Lower(Trim(line)) == Lower(Header)
  }

  /** The regex class [a-zA-Z_\-$&%*!?]: what may start a name. */
  predicate IsNameStart(c: char) {
    IsAsciiLetter(c) || c in "_-$&%*!?"
  }

  /** The regex class [\w\-$&%*!?]: what may continue a name. */
  predicate IsNameChar(c: char) {
    IsWordChar(c) || c in "-$&%*!?"
  }

  /** A variable name or a label: one start character, then name characters. */
  predicate IsIdentifier(s: string) {
    s != [] && IsNameStart(s[0]) && forall i :: 1 <= i < |s| ==> IsNameChar(s[i])
  }

  const Frames: seq<string> := ["GF", "TF", "LF"]

  /** `frame@name` with a global, temporary or local frame. */
  predicate IsVar(token: string) {
    '@' in token &&
    var (frame, name) := SplitFirst(token, '@');
    frame in Frames && IsIdentifier(name)
  }

  const Types: seq<string> := ["int", "bool", "string", "nil"]

  predicate IsType(token: string) {
    token in Types
  }

  predicate IsLabel(token: string) {
    IsIdentifier(token)
  }

  predicate IsDigits(s: string) {
    s != [] && forall i :: 0 <= i < |s| ==> IsDigit(s[i])
  }

  predicate IsHexDigit(c: char) {
    IsDigit(c) || ('a' <= c <= 'f') || ('A' <= c <= 'F')
  }

  predicate IsHexDigits(s: string) {
    s != [] && forall i :: 0 <= i < |s| ==> IsHexDigit(s[i])
  }

  predicate IsOctDigits(s: string) {
    s != [] && forall i :: 0 <= i < |s| ==> '0' <= s[i] <= '7'
  }

  /** `0x` (lower-case only) followed by hexadecimal digits. */
  predicate IsHexBody(s: string) {
    |s| >= 2 && s[..2] == "0x" && IsHexDigits(s[2..])
  }

  /** `0o` (lower-case only) followed by octal digits. */
  predicate IsOctBody(s: string) {
    |s| >= 2 && s[..2] == "0o" && IsOctDigits(s[2..])
  }

  /** -?\d+ */
  predicate IsSignedDecimal(v: string) {
    IsDigits(v) || (v != [] && v[0] == '-' && IsDigits(v[1..]))
  }

  /** -?0x[0-9a-fA-F]+ */
  predicate IsSignedHex(v: string) {
    IsHexBody(v) || (v != [] && v[0] == '-' && IsHexBody(v[1..]))
  }

  /** -?0o[0-7]+ */
  predicate IsSignedOctal(v: string) {
    IsOctBody(v) || (v != [] && v[0] == '-' && IsOctBody(v[1..]))
  }

  /** \+?\d+ */
  predicate IsPlusDecimal(v: string) {
    IsDigits(v) || (v != [] && v[0] == '+' && IsDigits(v[1..]))
  }

  /** The payload of an `int@` literal: any of the four numeric forms. */
  predicate IsIntLiteral(v: string) {
    IsSignedDecimal(v) || IsSignedHex(v) || IsSignedOctal(v) || IsPlusDecimal(v)
  }

  /**
   * The payload of a `string@` literal, read as the regex ([^\\\s]|\\[0-9]{3})*
   * reads it: a sequence of single characters that are neither whitespace nor
   * a backslash, and of escapes made of a backslash and three digits.
   */
  predicate IsStringLiteral(v: string)
    decreases |v|
  {
    || v == []
    || (v[0] != '\\' && !IsSpace(v[0]) && IsStringLiteral(v[1..]))
    || (|v| >= 4 && v[0] == '\\' && IsDigit(v[1]) && IsDigit(v[2]) && IsDigit(v[3]) && IsStringLiteral(v[4..]))
  }

  /** `type@value`: a type keyword, then a payload of that type. */
  predicate IsSymb(token: string) {
    '@' in token &&
    var (ty, value) := SplitFirst(token, '@');
    IsLiteral(ty, value)
  }

  /** The check of one `type@value` pair, by type. */
  predicate IsLiteral(ty: string, value: string) {
    if !IsType(ty) then false
    else if ty == "nil" then value == "nil"
    else if ty == "int" then IsIntLiteral(value)
    else if ty == "bool" then value == "true" || value == "false"
    else if ty == "string" then IsStringLiteral(value)
    else false
  }

  // ---------------------------------------------------------------------
  // Properties of the classifiers
  // ---------------------------------------------------------------------

  /** The header test ignores letter case and surrounding whitespace. */
  lemma HeaderVariants(pre: string, v: string, post: string)
    requires AllSpace(pre) && AllSpace(post)
    requires Lower(v) == Lower(Header)
    ensures IsHeader(pre + v + post)
  {
    assert v != [] && LowerChar(v[0]) == '.' && LowerChar(v[|v| - 1]) == '4';
    TrimPadded(pre, v, post);
  }

  /** A header line is one word once stripped: exactly ten characters, none of them whitespace. */
  lemma HeaderIsWord(line: string)
    requires IsHeader(line)
    ensures IsWord(Trim(line)) && |Trim(line)| == 10
    ensures !IsSpace(Trim(line)[0]) && !IsSpace(Trim(line)[9])
  {
    var h := Trim(line);
    assert |Lower(h)| == |Lower(Header)| == 10;
    forall i | 0 <= i < |h|
      ensures !IsSpace(h[i])
    {
      assert LowerChar(h[i]) == Lower(Header)[i];
    }
  }

  /**
   * A variable token is one of the three frame prefixes followed by a name:
   * the split at the first `@` finds the frame because names hold no `@`.
   */
  lemma {:induction false} VarShape(token: string)
    ensures IsVar(token) <==>
      (|token| >= 4 && token[..3] in ["GF@", "TF@", "LF@"] && IsIdentifier(token[3..]))
  {
    if IsVar(token) {
      var (frame, name) := SplitFirst(token, '@');
      assert |frame| == 2;
      assert token == frame + ['@'] + name;
      assert token[..3] == frame + ['@'];
      assert token[3..] == name;
      if frame == "GF" {
        assert frame + ['@'] == "GF@";
      } else if frame == "TF" {
        assert frame + ['@'] == "TF@";
      } else {
        assert frame + ['@'] == "LF@";
      }
    }
    if |token| >= 4 && token[..3] in ["GF@", "TF@", "LF@"] && IsIdentifier(token[3..]) {
      var frame := token[..2];
      var p := token[..3];
      assert frame == p[..2];
      if p == "GF@" {
        assert p[..2] == "GF";
      } else if p == "TF@" {
        assert p[..2] == "TF";
      } else {
        assert p[..2] == "LF";
      }
      assert frame in Frames;
      assert '@' !in frame;
      assert token == frame + ['@'] + token[3..];
      SplitFirstUnique(frame, '@', token[3..]);
      assert SplitFirst(token, '@') == (frame, token[3..]);
      assert IsVar(token);
    }
  }

  /** The string payload grammar, stated without recursion: no whitespace, and every backslash starts a three-digit escape. */
  predicate EscapesWellFormed(v: string) {
    && NoSpace(v)
    && forall i :: 0 <= i < |v| && v[i] == '\\' ==>
         i + 3 < |v| && IsDigit(v[i + 1]) && IsDigit(v[i + 2]) && IsDigit(v[i + 3])
  }

  lemma {:induction false} StringLiteralEscapes(v: string)
    ensures IsStringLiteral(v) <==> EscapesWellFormed(v)
    decreases |v|
  {
    if v != [] {
      if v[0] != '\\' {
        StringLiteralEscapes(v[1..]);
        if EscapesWellFormed(v) {
          ShiftEscapes(v, 1);
        }
        if EscapesWellFormed(v[1..]) && !IsSpace(v[0]) {
          assert forall i :: 1 <= i < |v| ==> v[i] == v[1..][i - 1];
        }
      } else {
        if |v| >= 4 {
          StringLiteralEscapes(v[4..]);
          if EscapesWellFormed(v) {
            ShiftEscapes(v, 4);
          }
          if IsDigit(v[1]) && IsDigit(v[2]) && IsDigit(v[3]) && EscapesWellFormed(v[4..]) {
            assert forall i :: 4 <= i < |v| ==> v[i] == v[4..][i - 4];
          }
        }
      }
    }
  }

  lemma ShiftEscapes(v: string, k: nat)
    requires k <= |v| && EscapesWellFormed(v)
    ensures EscapesWellFormed(v[k..])
  {
    var w := v[k..];
    forall i | 0 <= i < |w| && w[i] == '\\'
      ensures i + 3 < |w| && IsDigit(w[i + 1]) && IsDigit(w[i + 2]) && IsDigit(w[i + 3])
    {
      assert v[k + i] == '\\';
    }
  }

  /**
   * The four integer forms, read together: an optional sign, then decimal
   * digits; or an optional minus, then a lower-case `0x`/`0o` prefix and its
   * digits. A leading plus is allowed before decimal digits only.
   */
  lemma IntLiteralForms(v: string)
    ensures IsIntLiteral(v) <==>
      (v != [] &&
        var body := if v[0] == '-' || v[0] == '+' then v[1..] else v;
        IsDigits(body) || (v[0] != '+' && (IsHexBody(body) || IsOctBody(body))))
  {
  }

  /** Integer payloads the grammar accepts, in each of its four forms. */
  lemma IntLiteralAccepted()
    ensures IsIntLiteral("42") && IsIntLiteral("-42") && IsIntLiteral("+42")
    ensures IsIntLiteral("0x1F") && IsIntLiteral("-0x1f")
    ensures IsIntLiteral("0o17") && IsIntLiteral("-0o17")
  {
    assert "-42"[1..] == "42";
    assert "+42"[1..] == "42";
    assert "0x1F"[..2] == "0x" && "0x1F"[2..] == "1F";
    assert "-0x1f"[1..] == "0x1f" && "0x1f"[..2] == "0x" && "0x1f"[2..] == "1f";
    assert "0o17"[..2] == "0o" && "0o17"[2..] == "17";
    assert "-0o17"[1..] == "0o17";
  }

  /** Splitting a literal at its first `@` recovers the type keyword and the payload. */
  lemma SymbSplit(ty: string, value: string)
    requires '@' !in ty
    ensures '@' in ty + "@" + value
    ensures SplitFirst(ty + "@" + value, '@') == (ty, value)
    ensures IsSymb(ty + "@" + value) == IsLiteral(ty, value)
  {
    SplitFirstUnique(ty, '@', value);
  }

  /** A sign alone, or nothing, is not an integer. */
  lemma IntLiteralNeedsDigits()
    ensures !IsIntLiteral("") && !IsIntLiteral("-") && !IsIntLiteral("+")
  {
    assert "-"[1..] == [] && "+"[1..] == [];
    assert !IsDigit("-"[0]) && !IsDigit("+"[0]);
  }

  /** A plus sign is refused before a hexadecimal or octal prefix. */
  lemma IntLiteralPlusOnlyDecimal()
    ensures !IsIntLiteral("+0x1F") && !IsIntLiteral("+0o17")
  {
    assert "+0x1F"[1..] == "0x1F" && !IsDigit("0x1F"[1]) && !IsDigit("+0x1F"[0]);
    assert "+0o17"[1..] == "0o17" && !IsDigit("0o17"[1]) && !IsDigit("+0o17"[0]);
  }

  /** The radix prefixes are lower-case only and need at least one digit of their radix. */
  lemma IntLiteralPrefixCase()
    ensures !IsIntLiteral("0X1F") && !IsIntLiteral("0O17") && !IsIntLiteral("0o8") && !IsIntLiteral("0x")
  {
    assert "0X1F"[..2] == "0X" != "0x" && !IsDigit("0X1F"[1]);
    assert "0O17"[..2] == "0O" != "0o" && !IsDigit("0O17"[1]);
    assert "0o8"[..2] == "0o" && "0o8"[2..] == "8" && !IsDigit("0o8"[1]) && !('0' <= "0o8"[2..][0] <= '7');
    assert "0x"[2..] == [] && !IsDigit("0x"[1]);
  }

  /** A `nil` literal is exactly `nil@nil`. */
  lemma NilLiteral(v: string)
    ensures IsSymb("nil@" + v) <==> v == "nil"
  {
    SymbSplit("nil", v);
    assert "nil" + "@" + v == "nil@" + v;
  }

  /** A `bool` literal takes exactly the lower-case words `true` and `false`. */
  lemma BoolLiteral(v: string)
    ensures IsSymb("bool@" + v) <==> v == "true" || v == "false"
  {
    SymbSplit("bool", v);
    assert "bool" + "@" + v == "bool@" + v;
  }

  /** An `int` literal takes exactly the payloads of the integer grammar. */
  lemma IntLiteral(v: string)
    ensures IsSymb("int@" + v) <==> IsIntLiteral(v)
  {
    SymbSplit("int", v);
    assert "int" + "@" + v == "int@" + v;
  }

  /**
   * A `string` literal takes any payload without whitespace whose every
   * backslash starts a three-digit escape; the empty payload included.
   */
  lemma StringLiteral(v: string)
    ensures IsSymb("string@" + v) <==> EscapesWellFormed(v)
    ensures IsSymb("string@")
  {
    SymbSplit("string", v);
    assert "string" + "@" + v == "string@" + v;
    StringLiteralEscapes(v);
    SymbSplit("string", "");
    assert "string" + "@" + "" == "string@";
  }

  /** A prefix that is not a type keyword makes no literal, and a token without `@` is none either. */
  lemma NonLiterals(ty: string, v: string, bare: string)
    requires '@' !in ty && !IsType(ty)
    requires '@' !in bare
    ensures !IsSymb(ty + "@" + v)
    ensures !IsSymb(bare)
  {
    SymbSplit(ty, v);
  }

  /**
   * A token is at most one of a type keyword, a variable and a literal, so
   * the resolver's priority among these three never decides a kind; only a
   * label slot, which consults no other classifier, sees `int` as a label.
   */
  lemma ClassesDisjoint(token: string)
    ensures IsType(token) ==> !IsVar(token) && !IsSymb(token)
    ensures IsVar(token) ==> !IsSymb(token)
    ensures IsType(token) && IsLabel(token) <==> IsType(token)
  {
    if IsType(token) {
      assert '@' !in token;
      forall i | 1 <= i < |token| ensures IsNameChar(token[i]) {
        assert IsAsciiLetter(token[i]);
      }
    }
  }

  /** Every token a classifier accepts is a single whitespace-free word. */
  lemma TokenIsWord(token: string)
    requires IsType(token) || IsVar(token) || IsSymb(token) || IsLabel(token)
    ensures IsWord(token)
  {
    if IsLabel(token) || IsType(token) {
      ClassesDisjoint(token);
      IdentifierIsWord(token);
    } else if IsVar(token) {
      VarShape(token);
      IdentifierIsWord(token[3..]);
      assert token == token[..3] + token[3..];
    } else {
      SymbIsWord(token);
    }
  }

  lemma IdentifierIsWord(s: string)
    requires IsIdentifier(s)
    ensures IsWord(s)
  {
    forall i | 0 <= i < |s| ensures !IsSpace(s[i]) {
      assert i == 0 || IsNameChar(s[i]);
    }
  }

  lemma SymbIsWord(token: string)
    requires IsSymb(token)
    ensures IsWord(token)
  {
    var (ty, value) := SplitFirst(token, '@');
    assert token == ty + ['@'] + value;
    if ty == "string" {
      StringLiteralEscapes(value);
    } else if ty == "int" {
      IntPayloadIsWord(value);
    }
    assert NoSpace(value);
    assert NoSpace(ty);
    forall i | 0 <= i < |token| ensures !IsSpace(token[i]) {
      if i > |ty| {
        assert token[i] == value[i - |ty| - 1];
      }
    }
  }

  lemma IntPayloadIsWord(v: string)
    requires IsIntLiteral(v)
    ensures NoSpace(v)
  {
    forall i | 0 <= i < |v| ensures !IsSpace(v[i]) {
      if i >= 1 {
        assert v[i] == v[1..][i - 1];
      }
      if i >= 2 {
        assert v[i] == v[2..][i - 2];
      }
      if i >= 3 {
        assert v[i] == v[1..][2..][i - 3];
      }
    }
  }
}
