/** Visible text of an RTF payload: the byte loop of the capture fallback, and
    what each of its tokens does to the loop's variables.

    A document is a `string` whose elements each stand for one byte; the loop
    pushes bytes as Latin-1 characters, so byte and character coincide. */
module Rtf {
  import opened Strings
  import opened Wrappers
  import Text
  import Utf8

  // ---------------------------------------------------------------- lexing

  predicate IsAlpha(c: char) { 'a' <= c <= 'z' || 'A' <= c <= 'Z' }

  predicate IsHex(c: char) { IsDigit(c) || 'a' <= c <= 'f' || 'A' <= c <= 'F' }

  function AlphaEnd(s: string, i: nat): (j: nat)
    requires i <= |s|
    ensures i <= j <= |s| && (i < |s| && IsAlpha(s[i]) ==> i < j)
    decreases |s| - i
  {
    if i < |s| && IsAlpha(s[i]) then AlphaEnd(s, i + 1) else i
  }

  function DigitEnd(s: string, i: nat): (j: nat)
    requires i <= |s|
    ensures i <= j <= |s|
    decreases |s| - i
  {
    if i < |s| && IsDigit(s[i]) then DigitEnd(s, i + 1) else i
  }

  /** Past an optional minus sign and the digits after it. */
  function ParamEnd(s: string, i: nat): (j: nat)
    requires i <= |s|
    ensures i <= j <= |s|
  {
    if i < |s| && s[i] == '-' then DigitEnd(s, i + 1) else DigitEnd(s, i)
  }

  const MAX_I32 := 0x7FFF_FFFF

  /** `str::parse::<i32>` on an optional minus sign followed by digits. */
  function ParseI32(s: string): Option<int> {
    var negative := s != [] && s[0] == '-';
    var digits := if negative then s[1..] else s;
    var value: int := DecimalValue(digits);
    if digits == [] || value > (if negative then MAX_I32 + 1 else MAX_I32) then None
    else Some(if negative then -value else value)
  }

  function HexValue(c: char): nat {
    if IsDigit(c) then c as int - '0' as int
    else if 'a' <= c <= 'f' then c as int - 'a' as int + 10
    else if 'A' <= c <= 'F' then c as int - 'A' as int + 10
    else 0
  }

  /** The character a `\'hh` escape pushes: printable values only. */
  function HexText(hi: char, lo: char): string {
    var value := 16 * HexValue(hi) + HexValue(lo);
    if IsHex(hi) && IsHex(lo) && 32 <= value < 256 then [value as char] else ""
  }

  /** `char::from_u32` after the signed 16-bit correction of `\uN`. */
  function UnicodeText(param: Option<int>): string {
    match param
    case None => ""
    case Some(code) =>
      var n := if code < 0 then code + 65536 else code;
      if 0 <= n < 0xD800 || 0xE000 <= n < 0x11_0000 then [n as char] else ""
  }

  const NON_CONTENT_DESTINATIONS: seq<string> :=
    ["pict", "fonttbl", "colortbl", "stylesheet", "info", "header", "footer", "themedata"]

  const BREAKING_WORDS: seq<string> := ["par", "line", "tab", "cell", "row", "sect"]

  datatype Keyword = Binary | FallbackLength | Unicode | NonContent | Break | Other

  function Classify(word: string): Keyword {
    if word == "bin" then Binary
    else if word == "uc" then FallbackLength
    else if word == "u" then Unicode
    else if word in NON_CONTENT_DESTINATIONS then NonContent
    else if word in BREAKING_WORDS then Break
    else Other
  }

  // ------------------------------------------------- the loop as a function

  /** The variables the loop carries besides its index, and whether a slice of
      the text has split a character, which ends the program. */
  datatype State = State(out: string, depth: nat, skip: Option<nat>, fallback: nat, panicked: bool) {
    /** Text reaches the output only outside skipped groups. */
    function Push(text: string): State {
      if skip.None? then this.(out := out + text) else this
    }

    function StartSkip(): State {
      if skip.None? then this.(skip := Some(depth)) else this
    }

    function Open(): State { this.(depth := depth + 1) }

    function Close(): State {
      var closed := if skip == Some(depth) then None else skip;
      this.(skip := closed, depth := if depth == 0 then 0 else depth - 1)
    }

    /** A slice of the text ends at `end`. */
    function Slice(s: string, end: nat): State { this.(panicked := panicked || Utf8.Continues(s, end)) }

    predicate Inv() { skip.Some? ==> skip.value <= depth }
  }

  const START := State("", 0, None, 1, false)

  function Min(a: nat, b: nat): nat { if a <= b then a else b }

  function Clamp(param: Option<int>): nat {
    if param.Some? && param.value > 0 then param.value else 0
  }

  /** What a control word does to the loop's variables. */
  function WordEffect(kind: Keyword, param: Option<int>, st: State): (r: State)
    ensures st.Inv() ==> r.Inv()
  {
    match kind
    case FallbackLength => if param.Some? then st.(fallback := Clamp(param)) else st
    case Unicode => st.Push(UnicodeText(param))
    case NonContent => st.StartSkip()
    case Break => st.Push(" ")
    case _ => st
  }

  /** Past what follows the parameter at `j`: delimiter, payload or fallback. */
  function OperandEnd(kind: Keyword, param: Option<int>, fallback: nat, s: string, j: nat): (k: nat)
    requires j <= |s|
    ensures j <= k <= |s|
  {
    if kind == Binary then Min(j + Clamp(param), |s|)
    else
      var k := if j < |s| && s[j] == ' ' then j + 1 else j;
      if kind == Unicode then Min(k + fallback, |s|) else k
  }

  /** The control word whose letters start at `i`. */
  function WordStep(s: string, i: nat, st: State): (r: (nat, State))
    requires i < |s| && IsAlpha(s[i])
    ensures i < r.0 <= |s|
    ensures st.Inv() ==> r.1.Inv()
  {
    var a := AlphaEnd(s, i);
    var j := ParamEnd(s, a);
    var kind, param := Classify(s[i..a]), ParseI32(s[a..j]);
    (OperandEnd(kind, param, st.fallback, s, j), WordEffect(kind, param, st))
  }

  predicate IsEscaped(c: char) { c == '\\' || c == '{' || c == '}' }

  /** One iteration of the loop: the next index and the new variables. */
  function Step(s: string, i: nat, st: State): (r: (nat, State))
    requires i < |s|
    ensures i < r.0 <= |s|
    ensures st.Inv() ==> r.1.Inv()
  {
    var c := s[i];
    if c == '{' then (i + 1, st.Open())
    else if c == '}' then (i + 1, st.Close())
    else if c == '\\' then
      if i + 1 >= |s| then (i + 1, st)
      else
        var d := s[i + 1];
        if IsEscaped(d) then (i + 2, st.Push([d]))
        else if d == '\'' then
          if i + 3 < |s| then (i + 4, st.Push(HexText(s[i + 2], s[i + 3])).Slice(s, i + 4)) else (i + 2, st)
        else if d == '*' then (i + 2, st.StartSkip())
        else if IsAlpha(d) then WordStep(s, i + 1, st)
        else (i + 2, st)
    else if c == '\n' || c == '\r' then (i + 1, st)
    else (i + 1, st.Push([c]))
  }

  function Scan(s: string, i: nat, st: State): State
    requires i <= |s|
    decreases |s| - i
  {
    if i == |s| then st
    else var r := Step(s, i, st); Scan(s, r.0, r.1)
  }

  /** Whatever the bytes, a skip never starts deeper than the current group. */
  lemma {:induction false} SkipStaysWithinDepth(s: string, i: nat, st: State)
    requires i <= |s| && st.Inv()
    ensures Scan(s, i, st).Inv()
    decreases |s| - i
  {
    if i < |s| {
      var r := Step(s, i, st);
      SkipStaysWithinDepth(s, r.0, r.1);
    }
  }

  /** The two bytes after `\'` are sliced out of the text as a string: in text
      that is well-formed UTF-8 this panics exactly when they end inside a
      character. They always start a character. */
  lemma {:induction false} HexEscapePanicsIff(s: string, i: nat, st: State)
    requires Utf8.Valid(s) && i + 3 < |s| && s[i] == '\\' && s[i + 1] == '\''
    ensures Step(s, i, st).1.panicked <==> st.panicked || !Utf8.Boundary(s, i + 4)
    ensures Utf8.Boundary(s, i + 2)
  {
    Utf8.BoundaryIff(s, i + 4);
    Utf8.BoundaryIff(s, i + 1);
    Utf8.AfterAscii(s, 0, i + 1);
    hide Utf8.Valid, Utf8.Boundary;
  }

  /** One such text: the second digit is replaced by a two-byte character. */
  lemma {:induction false} SplitCharacterPanics()
    ensures Utf8.Valid("\\'a\U{C3}\U{A9}") && Scan("\\'a\U{C3}\U{A9}", 0, START).panicked
  {
    var s := "\\'a\U{C3}\U{A9}";
    assert Utf8.ValidFrom(s, 5) && Utf8.Width(s, 3) == 2;
    assert Utf8.ValidFrom(s, 3) && Utf8.ValidFrom(s, 2) && Utf8.ValidFrom(s, 1);
    var r := Step(s, 0, START);
    assert r.0 == 4 && r.1.panicked;
    PanicStays(s, r.0, r.1);
  }

  lemma {:induction false} PanicStays(s: string, i: nat, st: State)
    requires i <= |s| && st.panicked
    ensures Scan(s, i, st).panicked
    decreases |s| - i
  {
    if i < |s| {
      var r := Step(s, i, st);
      PanicStays(s, r.0, r.1);
    }
  }

  // ------------------------------------------------------------ the byte loop

  /** The inner loops over letters, sign and digits of a control word. */
  method LexWord(rtf: string, start: nat) returns (wordEnd: nat, end: nat, param: Option<int>)
    requires start < |rtf| && IsAlpha(rtf[start])
    ensures wordEnd == AlphaEnd(rtf, start)
    ensures end == ParamEnd(rtf, wordEnd)
    ensures param == ParseI32(rtf[wordEnd..end])
  {
    var i := start;
    while i < |rtf| && IsAlpha(rtf[i])
      invariant start <= i <= |rtf|
      invariant AlphaEnd(rtf, i) == AlphaEnd(rtf, start)
    {
      i := i + 1;
    }
    wordEnd := i;
    param := None;
    if i < |rtf| && (rtf[i] == '-' || IsDigit(rtf[i])) {
      if rtf[i] == '-' {
        i := i + 1;
      }
      while i < |rtf| && IsDigit(rtf[i])
        invariant wordEnd <= i <= |rtf|
        invariant DigitEnd(rtf, i) == ParamEnd(rtf, wordEnd)
      {
        i := i + 1;
      }
      param := ParseI32(rtf[wordEnd..i]);
    }
    end := i;
  }

  /** Past the delimiter, the `\bin` payload or the `\u` fallback. */
  method SkipOperand(rtf: string, end: nat, kind: Keyword, param: Option<int>, fallback: nat) returns (i: nat)
    requires end <= |rtf|
    ensures i == OperandEnd(kind, param, fallback, rtf, end)
  {
    i := end;
    if kind == Binary {
      i := Min(i + Clamp(param), |rtf|);
      return;
    }
    if i < |rtf| && rtf[i] == ' ' {
      i := i + 1;
    }
    if kind == Unicode {
      i := Min(i + fallback, |rtf|);
    }
  }

  /** A backslash at `start` with at least one byte after it. */
  method Escape(rtf: string, start: nat, st: State) returns (i: nat, st': State)
    requires start + 1 < |rtf| && rtf[start] == '\\'
    ensures (i, st') == Step(rtf, start, st)
  {
    i, st' := start + 1, st;
    var d := rtf[i];
    if IsEscaped(d) {
      st' := st.Push([d]);
      i := i + 1;
    } else if d == '\'' {
      if i + 2 < |rtf| {
        st' := st.Push(HexText(rtf[i + 1], rtf[i + 2])).Slice(rtf, i + 3);
        i := i + 3;
      } else {
        i := i + 1;
      }
    } else if d == '*' {
      st' := st.StartSkip();
      i := i + 1;
    } else if IsAlpha(d) {
      var wordEnd, end, param := LexWord(rtf, i);
      var kind := Classify(rtf[i..wordEnd]);
      i := SkipOperand(rtf, end, kind, param, st.fallback);
      st' := WordEffect(kind, param, st);
    } else {
      i := i + 1;
    }
  }

  /** The loop of the source computes `Scan`, or panics on the way; a skip never
      starts deeper than the current group. */
  method PlainTextFromRtf(rtf: string) returns (text: Option<string>)
    ensures var end := Scan(rtf, 0, START);
            text == if end.panicked then None else Some(Text.Normalize(end.out))
  {
    var st := START;
    var i := 0;
    while i < |rtf|
      invariant 0 <= i <= |rtf|
      invariant st.Inv()
      invariant Scan(rtf, i, st) == Scan(rtf, 0, START)
      invariant !st.panicked
    {
      var c := rtf[i];
      if c == '\\' && i + 1 < |rtf| {
        i, st := Escape(rtf, i, st);
        if st.panicked {
          PanicStays(rtf, i, st);
          return None;
        }
      } else {
        if c == '{' {
          st := st.Open();
        } else if c == '}' {
          st := st.Close();
        } else if c != '\\' && c != '\n' && c != '\r' {
          st := st.Push([c]);
        }
        i := i + 1;
      }
    }
    text := Some(Text.Normalize(st.out));
  }
}
