/**
 * The few pieces of Python's string behaviour that the IPPcode24 front end
 * relies on: the whitespace set of str.isspace() (also used by the regex
 * class \s, str.strip() and str.split()), ASCII case mapping, cutting a
 * line at its first '#', and splitting at the first occurrence of a
 * separator or at runs of whitespace.
 */
module Text {

  /** str.isspace(): the characters Python treats as whitespace. */
  predicate IsSpace(c: char) {
    || c == ' '
    || ('\t' <= c <= '\r')
    || ('\U{1C}' <= c <= '\U{1F}')
    || c == '\U{85}' || c == '\U{A0}' || c == '\U{1680}'
    || ('\U{2000}' <= c <= '\U{200A}')
    || c == '\U{2028}' || c == '\U{2029}' || c == '\U{202F}' || c == '\U{205F}' || c == '\U{3000}'
  }

  predicate NoSpace(s: string) {
    forall i :: 0 <= i < |s| ==> !IsSpace(s[i])
  }

  /** A field of str.split(): non-empty, without whitespace. */
  predicate IsWord(w: string) {
    w != [] && NoSpace(w)
  }

  predicate AllSpace(s: string) {
    forall i :: 0 <= i < |s| ==> IsSpace(s[i])
  }

  predicate IsAsciiLetter(c: char) {
    ('a' <= c <= 'z') || ('A' <= c <= 'Z')
  }

  /** The regex class [0-9] (and \d, restricted to ASCII). */
  predicate IsDigit(c: char) {
    '0' <= c <= '9'
  }

  /** The regex class \w, restricted to ASCII. */
  predicate IsWordChar(c: char) {
    IsAsciiLetter(c) || IsDigit(c) || c == '_'
  }

  function LowerChar(c: char): char {
    if 'A' <= c <= 'Z' then (c as int + 32) as char else c
  }

  function UpperChar(c: char): char {
    if 'a' <= c <= 'z' then (c as int - 32) as char else c
  }

  /** str.lower() on ASCII letters. */
  function Lower(s: string): (r: string)
    ensures |r| == |s|
    ensures forall i :: 0 <= i < |s| ==> r[i] == LowerChar(s[i])
  {
    seq(|s|, i requires 0 <= i < |s| => LowerChar(s[i]))
  }

  /** str.upper() on ASCII letters. */
  function Upper(s: string): (r: string)
    ensures |r| == |s|
    ensures forall i :: 0 <= i < |s| ==> r[i] == UpperChar(s[i])
  {
    seq(|s|, i requires 0 <= i < |s| => UpperChar(s[i]))
  }

  /** How many whitespace characters s starts with. */
  function LeadingSpace(s: string): (n: nat)
    ensures n <= |s| && AllSpace(s[..n])
    ensures n == |s| || !IsSpace(s[n])
    decreases |s|
  {
    if s != [] && IsSpace(s[0]) then 1 + LeadingSpace(s[1..]) else 0
  }

  /** How many whitespace characters s ends with. */
  function TrailingSpace(s: string): (n: nat)
    ensures n <= |s| && AllSpace(s[|s| - n..])
    ensures n == |s| || !IsSpace(s[|s| - n - 1])
    decreases |s|
  {
    if s != [] && IsSpace(s[|s| - 1]) then 1 + TrailingSpace(s[..|s| - 1]) else 0
  }

  /** How many non-whitespace characters s starts with. */
  function WordLength(s: string): (n: nat)
    ensures n <= |s| && NoSpace(s[..n])
    ensures n == |s| || IsSpace(s[n])
    decreases |s|
  {
    if s == [] || IsSpace(s[0]) then 0 else 1 + WordLength(s[1..])
  }

  /** The leading-whitespace half of str.strip(). */
  function TrimStart(s: string): (r: string)
    ensures r == [] || !IsSpace(r[0])
  {
    s[LeadingSpace(s)..]
  }

  /** The trailing-whitespace half of str.strip(). */
  function TrimEnd(s: string): (r: string)
    ensures r == [] || !IsSpace(r[|r| - 1])
  {
    s[..|s| - TrailingSpace(s)]
  }

  /** str.strip(): drop whitespace at both ends. */
  function Trim(s: string): (r: string)
    ensures r == [] || (!IsSpace(r[0]) && !IsSpace(r[|r| - 1]))
  {
    TrimEnd(TrimStart(s))
  }

  /** Stripping removes exactly the whitespace padding around a word that starts and ends with non-whitespace. */
  lemma {:induction false} TrimPadded(pre: string, w: string, post: string)
    requires AllSpace(pre) && AllSpace(post)
    requires w != [] && !IsSpace(w[0]) && !IsSpace(w[|w| - 1])
    ensures Trim(pre + w + post) == w
  {
    TrimStartPadded(pre, w + post);
    assert TrimStart(pre + w + post) == w + post by {
      assert pre + w + post == pre + (w + post);
    }
    TrimEndPadded(w, post);
  }

  lemma {:induction false} TrimStartPadded(pre: string, s: string)
    requires AllSpace(pre)
    requires s != [] && !IsSpace(s[0])
    ensures TrimStart(pre + s) == s
  {
    if pre != [] {
      assert (pre + s)[1..] == pre[1..] + s;
      TrimStartPadded(pre[1..], s);
    }
  }

  lemma {:induction false} TrimEndPadded(s: string, post: string)
    requires AllSpace(post)
    requires s != [] && !IsSpace(s[|s| - 1])
    ensures TrimEnd(s + post) == s
  {
    if post != [] {
      assert (s + post)[..|s + post| - 1] == s + post[..|post| - 1];
      TrimEndPadded(s, post[..|post| - 1]);
    }
  }

  /** str.split("#")[0]: the text before the first '#', or all of it. */
  function BeforeHash(s: string): (r: string)
    ensures |r| <= |s| && r == s[..|r|]
    ensures '#' !in r
    ensures |r| < |s| ==> s[|r|] == '#'
  {
    if s == [] || s[0] == '#' then [] else [s[0]] + BeforeHash(s[1..])
  }

  /** The text before the first '#' is exactly the part that holds no '#'. */
  lemma {:induction false} BeforeHashOf(a: string, b: string)
    requires '#' !in a
    ensures BeforeHash(a) == a
    ensures BeforeHash(a + ['#'] + b) == a
  {
    if a != [] {
      assert (a + ['#'] + b)[1..] == a[1..] + ['#'] + b;
      BeforeHashOf(a[1..], b);
    }
  }

  /** Cutting a stripped line that does not start with '#' at its first '#' and stripping again leaves non-empty text without '#'. */
  lemma CutCode(line: string)
    requires line != [] && !IsSpace(line[0]) && line[0] != '#'
    ensures Trim(BeforeHash(line)) != [] && '#' !in Trim(BeforeHash(line))
  {
    var b := BeforeHash(line);
    assert b != [] && b[0] == line[0];
    assert TrimStart(b) == b;
    var m := |b| - TrailingSpace(b);
    assert m > 0;
    assert forall i :: 0 <= i < m ==> b[..m][i] == b[i];
  }

  /** A padded code without '#' strips to itself, and cutting at '#' keeps all of it. */
  lemma PaddedCode(pre: string, code: string, post: string)
    requires AllSpace(pre) && AllSpace(post)
    requires code != [] && !IsSpace(code[0]) && !IsSpace(code[|code| - 1]) && '#' !in code
    ensures Trim(pre + code + post) == code
    ensures Trim(BeforeHash(Trim(pre + code + post))) == code
  {
    TrimPadded(pre, code, post);
    BeforeHashOf(code, []);
    TrimPadded([], code, []);
    assert [] + code + [] == code;
  }

  /** Stripping a line keeps its first '#' when non-blank text precedes it, so the cut and the second strip give that text back. */
  lemma CodeBeforeHash(pre: string, code: string, post: string, rest: string)
    requires AllSpace(pre) && AllSpace(post)
    requires code != [] && !IsSpace(code[0]) && !IsSpace(code[|code| - 1]) && '#' !in code
    ensures var line := Trim(pre + code + post + "#" + rest);
      line != [] && line[0] == code[0] && Trim(BeforeHash(line)) == code
  {
    var c := code + post;
    assert pre + code + post + "#" + rest == pre + c + "#" + rest;
    StripKeepsHash(pre, c, rest);
    var line := Trim(pre + c + "#" + rest);
    assert line == c + "#" + line[|c| + 1..];
    HashFreePadding(code, post);
    BeforeHashOf(c, line[|c| + 1..]);
    TrimPadded([], code, post);
    assert [] + code + post == c;
  }

  /** Stripping whitespace around text that starts with a non-blank character keeps that text and the '#' after it. */
  lemma StripKeepsHash(pre: string, c: string, rest: string)
    requires AllSpace(pre)
    requires c != [] && !IsSpace(c[0])
    ensures var line := Trim(pre + c + "#" + rest);
      |line| > |c| && line[..|c| + 1] == c + "#"
  {
    var u := c + "#" + rest;
    assert pre + c + "#" + rest == pre + u;
    TrimAfterPadding(pre, u);
    TrimEndKeepsPrefix(u, |c|);
    assert u[..|c| + 1] == c + "#";
  }

  /** Leading whitespace before a non-blank character is all that the start of stripping removes. */
  lemma TrimAfterPadding(pre: string, u: string)
    requires AllSpace(pre)
    requires u != [] && !IsSpace(u[0])
    ensures Trim(pre + u) == TrimEnd(u)
  {
    TrimStartPadded(pre, u);
  }

  /** Stripping trailing whitespace keeps the text up to and including any non-whitespace character. */
  lemma TrimEndKeepsPrefix(u: string, k: nat)
    requires k < |u| && !IsSpace(u[k])
    ensures |TrimEnd(u)| > k && TrimEnd(u)[..k + 1] == u[..k + 1]
  {
    TrimEndKeeps(u, k);
  }

  /** Stripping trailing whitespace keeps every character up to the last non-whitespace one. */
  lemma TrimEndKeeps(u: string, k: nat)
    requires k < |u| && !IsSpace(u[k])
    ensures |TrimEnd(u)| > k
  {
  }

  lemma HashFreePadding(code: string, post: string)
    requires AllSpace(post) && '#' !in code
    ensures '#' !in code + post
  {
    assert !IsSpace('#');
  }

  /** s.split(sep, 1) for a separator that occurs in s. */
  function SplitFirst(s: string, sep: char): (r: (string, string))
    requires sep in s
    ensures s == r.0 + [sep] + r.1
    ensures sep !in r.0
  {
    if s[0] == sep then ([], s[1..])
    else
      var (a, b) := SplitFirst(s[1..], sep);
      ([s[0]] + a, b)
  }

  /** The two parts are the only ones: any split before the first separator is the one SplitFirst finds. */
  lemma {:induction false} SplitFirstUnique(a: string, sep: char, b: string)
    requires sep !in a
    ensures sep in a + [sep] + b
    ensures SplitFirst(a + [sep] + b, sep) == (a, b)
  {
    var s := a + [sep] + b;
    assert s[|a|] == sep;
    if a != [] {
      assert s[0] == a[0] && a[0] != sep;
      assert s[1..] == a[1..] + [sep] + b;
      SplitFirstUnique(a[1..], sep, b);
      assert [a[0]] + a[1..] == a;
    } else {
      assert s[1..] == b;
    }
  }

  /** The longest prefix of s that holds no whitespace. */
  function LeadingWord(s: string): (r: string)
    ensures NoSpace(r)
  {
    s[..WordLength(s)]
  }

  /** str.split() with no arguments: the maximal runs of non-whitespace, in order. */
  function Fields(s: string): (r: seq<string>)
    ensures forall i :: 0 <= i < |r| ==> IsWord(r[i])
    decreases |s|
  {
    if s == [] then []
    else if IsSpace(s[0]) then Fields(s[1..])
    else
      var w := LeadingWord(s);
      [w] + Fields(s[|w|..])
  }

  /** " ".join(words) */
  function JoinWords(words: seq<string>): string {
    if words == [] then []
    else if |words| == 1 then words[0]
    else words[0] + " " + JoinWords(words[1..])
  }

  /** Splitting on whitespace undoes joining with single spaces, whenever the words are non-empty and hold no whitespace. */
  lemma {:induction false} FieldsJoinWords(words: seq<string>)
    requires forall i :: 0 <= i < |words| ==> IsWord(words[i])
    ensures Fields(JoinWords(words)) == words
  {
    if |words| == 1 {
      FieldsOfWord(words[0]);
    } else if |words| > 1 {
      FieldsJoinWords(words[1..]);
      FieldsJoinStep(words[0], JoinWords(words[1..]), words[1..]);
      assert [words[0]] + words[1..] == words;
    }
  }

  lemma FieldsJoinStep(w: string, rest: string, ws: seq<string>)
    requires w != [] && NoSpace(w)
    requires Fields(rest) == ws
    ensures Fields(w + " " + rest) == [w] + ws
  {
    assert w + " " + rest == w + (" " + rest);
    FieldsCons(w, " " + rest);
    FieldsSkipSpace(' ', rest);
  }

  /** A word followed by whitespace (or nothing) is the first field. */
  lemma FieldsCons(w: string, s: string)
    requires w != [] && NoSpace(w)
    requires s == [] || IsSpace(s[0])
    ensures Fields(w + s) == [w] + Fields(s)
  {
    var t := w + s;
    assert t[0] == w[0];
    LeadingWordIs(w, s);
    assert t[|w|..] == s;
  }

  lemma FieldsSkipSpace(c: char, s: string)
    requires IsSpace(c)
    ensures Fields([c] + s) == Fields(s)
  {
    assert ([c] + s)[1..] == s;
  }

  lemma {:induction false} LeadingWordIs(w: string, s: string)
    requires NoSpace(w)
    requires s == [] || IsSpace(s[0])
    ensures LeadingWord(w + s) == w
  {
    if w != [] {
      assert (w + s)[1..] == w[1..] + s;
      LeadingWordIs(w[1..], s);
    } else {
      assert w + s == s;
    }
  }

  /** A string that holds no whitespace splits into itself alone. */
  lemma FieldsOfWord(w: string)
    requires IsWord(w)
    ensures Fields(w) == [w]
  {
    FieldsCons(w, []);
    assert w + [] == w;
  }

  /** Trailing whitespace adds no field. */
  lemma {:induction false} FieldsTrailing(x: string, pad: string)
    requires AllSpace(pad)
    ensures Fields(x + pad) == Fields(x)
    decreases |x|
  {
    if x == [] {
      assert x + pad == pad;
      AllSpaceFields(pad);
    } else if IsSpace(x[0]) {
      assert (x + pad)[1..] == x[1..] + pad;
      FieldsTrailing(x[1..], pad);
    } else {
      var w := LeadingWord(x);
      FieldsTrailingStep(x, pad);
      FieldsTrailing(x[|w|..], pad);
    }
  }

  lemma FieldsTrailingStep(x: string, pad: string)
    requires AllSpace(pad)
    requires x != [] && !IsSpace(x[0])
    ensures Fields(x + pad) == [LeadingWord(x)] + Fields(x[|LeadingWord(x)|..] + pad)
  {
    var w := LeadingWord(x);
    assert x + pad == w + (x[|w|..] + pad);
    FieldsCons(w, x[|w|..] + pad);
  }

  /** Whitespace alone has no field. */
  lemma {:induction false} AllSpaceFields(s: string)
    requires AllSpace(s)
    ensures Fields(s) == []
  {
    if s != [] {
      AllSpaceFields(s[1..]);
    }
  }

  lemma AllSpaceTrimStart(s: string)
    requires AllSpace(s)
    ensures TrimStart(s) == []
  {
  }

  /** Leading whitespace adds no field either. */
  lemma {:induction false} FieldsTrimStart(s: string)
    ensures Fields(TrimStart(s)) == Fields(s)
  {
    if s != [] && IsSpace(s[0]) {
      FieldsTrimStart(s[1..]);
    }
  }

  lemma TrimStartKeepsLast(u: string)
    requires u != [] && !IsSpace(u[|u| - 1])
    ensures TrimStart(u) != [] && TrimStart(u)[|TrimStart(u)| - 1] == u[|u| - 1]
  {
  }

  /** s.split(maxsplit=1): the first field, then the rest of the text with its leading whitespace removed. */
  function SplitOnce(s: string): (r: seq<string>)
    ensures |r| <= 2
    ensures |r| >= 1 ==> r[0] != [] && !IsSpace(r[0][0])
    ensures |r| == 2 ==> r[1] != [] && !IsSpace(r[1][0])
    decreases |s|
  {
    if s == [] then []
    else if IsSpace(s[0]) then SplitOnce(s[1..])
    else
      var w := LeadingWord(s);
      var rest := TrimStart(s[|w|..]);
      if rest == [] then [w] else [w, rest]
  }

  /** Splitting skips the leading whitespace first: the first word is the leading word of the left-stripped text. */
  lemma {:induction false} SplitOnceStripped(s: string)
    ensures var t := TrimStart(s);
      SplitOnce(s) == if t == [] then [] else
        var w := LeadingWord(t);
        var rest := TrimStart(t[|w|..]);
        if rest == [] then [w] else [w, rest]
    decreases |s|
  {
    if s != [] && IsSpace(s[0]) {
      SplitOnceStripped(s[1..]);
    }
  }

  /** re.split(r'\s+', s): the pieces between maximal runs of whitespace, empty pieces included. */
  function SplitOnSpaceRuns(s: string): (r: seq<string>)
    ensures |r| >= 1
    decreases |s|
  {
    var a := LeadingWord(s);
    if |a| == |s| then [s]
    else [a] + SplitOnSpaceRuns(TrimStart(s[|a|..]))
  }

  /** On text without whitespace at either end, re.split on whitespace runs gives exactly the fields of str.split(). */
  lemma {:induction false} SplitOnSpaceRunsFields(s: string)
    requires s != [] && !IsSpace(s[0]) && !IsSpace(s[|s| - 1])
    ensures SplitOnSpaceRuns(s) == Fields(s)
    decreases |s|
  {
    var a := LeadingWord(s);
    if |a| == |s| {
      assert a == s;
      FieldsOfWord(s);
    } else {
      var b := TrimStart(s[|a|..]);
      SplitOnSpaceRunsStep(s);
      SplitOnSpaceRunsFields(b);
    }
  }

  lemma SplitOnSpaceRunsStep(s: string)
    requires s != [] && !IsSpace(s[0]) && !IsSpace(s[|s| - 1])
    requires |LeadingWord(s)| < |s|
    ensures var b := TrimStart(s[|LeadingWord(s)|..]);
      && b != [] && !IsSpace(b[0]) && !IsSpace(b[|b| - 1]) && |b| < |s|
      && Fields(s) == [LeadingWord(s)] + Fields(b)
      && SplitOnSpaceRuns(s) == [LeadingWord(s)] + SplitOnSpaceRuns(b)
  {
    var a := LeadingWord(s);
    var u := s[|a|..];
    assert s == a + u;
    FieldsCons(a, u);
    FieldsTrimStart(u);
    assert u[|u| - 1] == s[|s| - 1];
    TrimStartKeepsLast(u);
  }

  /** The operand tokens of a remainder that starts with non-whitespace: re.split of the stripped text. */
  lemma RemainderFields(rest: string)
    requires rest != [] && !IsSpace(rest[0])
    ensures SplitOnSpaceRuns(Trim(rest)) == Fields(rest)
  {
    assert TrimStart(rest) == rest;
    var core := TrimEnd(rest);
    assert core != [] && core[0] == rest[0];
    assert rest == core + rest[|core|..];
    FieldsTrailing(core, rest[|core|..]);
    SplitOnSpaceRunsFields(core);
  }

  /** The words that split(maxsplit=1) and the re.split of the stripped remainder hand on are the fields of str.split(). */
  lemma SplitOnceFields(s: string)
    ensures |SplitOnce(s)| == 0 <==> Fields(s) == []
    ensures |SplitOnce(s)| >= 1 ==> SplitOnce(s)[0] == Fields(s)[0]
    ensures |SplitOnce(s)| == 1 ==> |Fields(s)| == 1
    ensures |SplitOnce(s)| == 2 ==> SplitOnSpaceRuns(Trim(SplitOnce(s)[1])) == Fields(s)[1..]
  {
    SplitOnceStripped(s);
    var t := TrimStart(s);
    if t != [] {
      var w := LeadingWord(t);
      var rest := TrimStart(t[|w|..]);
      FieldsTrimStart(t[|w|..]);
      if rest != [] {
        RemainderFields(rest);
      }
    }
  }

  /** A line that strips to a single word splits into that word alone. */
  lemma FieldsOfPaddedWord(line: string)
    requires IsWord(Trim(line))
    ensures Fields(line) == [Trim(line)]
  {
    var t := TrimStart(line);
    var h := TrimEnd(t);
    FieldsTrimStart(line);
    assert t == h + t[|h|..];
    FieldsTrailing(h, t[|h|..]);
    FieldsOfWord(h);
  }
}
