/** UTF-8 over byte strings: a `string` whose elements each stand for one byte. */
module Utf8 {

  predicate IsAscii(c: char) { c as int < 0x80 }

  predicate AllAscii(s: string) { forall k :: 0 <= k < |s| ==> IsAscii(s[k]) }

  predicate In(s: string, i: nat, low: int, high: int) {
    i < |s| && low <= s[i] as int <= high
  }

  /** Second byte of a sequence led by `c`: the ranges that exclude overlong
      forms, surrogates and values past U+10FFFF. */
  predicate Second(s: string, i: nat, c: int) {
    In(s, i, if c == 0xE0 then 0xA0 else if c == 0xF0 then 0x90 else 0x80,
       if c == 0xED then 0x9F else if c == 0xF4 then 0x8F else 0xBF)
  }

  predicate Continues(s: string, i: nat) { In(s, i, 0x80, 0xBF) }

  /** Length of the well-formed character at `i`, or 0. */
  function Width(s: string, i: nat): (w: nat)
    requires i < |s|
    ensures i + w <= |s|
    ensures IsAscii(s[i]) <==> w == 1
  {
    var c := s[i] as int;
    if c < 0x80 then 1
    else if 0xC2 <= c <= 0xDF && Second(s, i + 1, c) then 2
    else if 0xE0 <= c <= 0xEF && Second(s, i + 1, c) && Continues(s, i + 2) then 3
    else if 0xF0 <= c <= 0xF4 && Second(s, i + 1, c) && Continues(s, i + 2) && Continues(s, i + 3) then 4
    else 0
  }

  function EncodeChar(c: char): string {
    var n := c as int;
    if n < 0x80 then [c]
    else if n < 0x800 then [(0xC0 + n / 0x40) as char, (0x80 + n % 0x40) as char]
    else if n < 0x10000 then
      [(0xE0 + n / 0x1000) as char, (0x80 + n / 0x40 % 0x40) as char, (0x80 + n % 0x40) as char]
    else
      [(0xF0 + n / 0x40000) as char, (0x80 + n / 0x1000 % 0x40) as char,
       (0x80 + n / 0x40 % 0x40) as char, (0x80 + n % 0x40) as char]
  }

  /** The bytes of a Rust string given as its characters. */
  function Encode(text: string): string {
    if |text| == 0 then "" else EncodeChar(text[0]) + Encode(text[1..])
  }

  predicate ValidFrom(s: string, i: nat)
    requires i <= |s|
    decreases |s| - i
  {
    i == |s| || (Width(s, i) > 0 && ValidFrom(s, i + Width(s, i)))
  }

  predicate Valid(s: string) { ValidFrom(s, 0) }

  /** A character starts or the text ends at `k`: where a string may be sliced. */
  predicate Boundary(s: string, k: nat) { BoundaryFrom(s, 0, k) }

  predicate BoundaryFrom(s: string, i: nat, k: nat)
    requires i <= |s|
    decreases |s| - i
  {
    i == k || (i < k && i < |s| && Width(s, i) > 0 && BoundaryFrom(s, i + Width(s, i), k))
  }

  /** In well-formed text one byte tells whether it may be sliced there. */
  lemma {:induction false} BoundaryIff(s: string, k: nat)
    requires Valid(s) && k <= |s|
    ensures Boundary(s, k) <==> !Continues(s, k)
  {
    BoundaryFromIff(s, 0, k);
  }

  lemma {:induction false} BoundaryFromIff(s: string, i: nat, k: nat)
    requires i <= k <= |s| && ValidFrom(s, i)
    ensures BoundaryFrom(s, i, k) <==> !Continues(s, k)
    decreases |s| - i
  {
    if i < k {
      var w := Width(s, i);
      if k < i + w {
        CharacterBytes(s, i, k - i);
      } else {
        BoundaryFromIff(s, i + w, k);
      }
    } else if i < |s| {
      CharacterBytes(s, i, 0);
    }
  }

  /** Exactly the bytes after a character's first continue it. */
  lemma {:induction false} CharacterBytes(s: string, i: nat, d: nat)
    requires i < |s| && d < Width(s, i)
    ensures Continues(s, i + d) <==> d > 0
  {
  }

  lemma {:induction false} AfterAscii(s: string, i: nat, k: nat)
    requires i <= k < |s| && ValidFrom(s, i) && BoundaryFrom(s, i, k) && IsAscii(s[k])
    ensures BoundaryFrom(s, i, k + 1)
    decreases |s| - i
  {
    if i < k {
      AfterAscii(s, i + Width(s, i), k);
    }
  }

  /** Bytes of a malformed sequence that one U+FFFD replaces. */
  function BadWidth(s: string, i: nat): (w: nat)
    requires i < |s|
    ensures 1 <= w && i + w <= |s|
  {
    var c := s[i] as int;
    if 0xF0 <= c <= 0xF4 && Second(s, i + 1, c) && Continues(s, i + 2) then 3
    else if 0xE0 <= c <= 0xF4 && Second(s, i + 1, c) then 2
    else 1
  }

  const REPLACEMENT: string := [0xEF as char, 0xBF as char, 0xBD as char]

  /** The bytes `from_utf8_lossy` consumes at `i`, and what it emits for them. */
  function Consumed(s: string, i: nat): (w: nat)
    requires i < |s|
    ensures 1 <= w && i + w <= |s|
  {
    if Width(s, i) > 0 then Width(s, i) else BadWidth(s, i)
  }

  function Emitted(s: string, i: nat): (r: string)
    requires i < |s|
    ensures |r| > 0
  {
    if Width(s, i) > 0 then s[i..i + Width(s, i)] else REPLACEMENT
  }

  /** `String::from_utf8_lossy`. */
  function LossyFrom(s: string, i: nat): (r: string)
    requires i <= |s|
    ensures i < |s| ==> |r| > 0
    decreases |s| - i
  {
    if i == |s| then "" else Emitted(s, i) + LossyFrom(s, i + Consumed(s, i))
  }

  lemma {:induction false} LossyEnd(s: string)
    ensures LossyFrom(s, |s|) == ""
  {
  }

  lemma {:induction false} LossyStep(s: string, i: nat)
    requires i < |s|
    ensures LossyFrom(s, i) == Emitted(s, i) + LossyFrom(s, i + Consumed(s, i))
  {
  }

  function Lossy(s: string): string { LossyFrom(s, 0) }

  lemma {:induction false} WidthLocal(s: string, i: nat, t: string, j: nat)
    requires i < |s| && 0 < Width(s, i) && j + Width(s, i) <= |t|
    requires t[j..j + Width(s, i)] == s[i..i + Width(s, i)]
    ensures Width(t, j) == Width(s, i)
  {
    var w := Width(s, i);
    var p := s[i..i + w];
    assert t[j] == p[0] && s[i] == p[0];
    if w > 1 { assert t[j + 1] == p[1] && s[i + 1] == p[1]; }
    if w > 2 { assert t[j + 2] == p[2] && s[i + 2] == p[2]; }
    if w > 3 { assert t[j + 3] == p[3] && s[i + 3] == p[3]; }
  }

  lemma {:induction false} InnerBytes(s: string, i: nat, d: nat)
    requires i < |s| && 0 < d < Width(s, i)
    ensures !IsAscii(s[i + d])
  {
  }

  /** `s` ends with `b`, which starts at `d`. */
  predicate Tail(s: string, d: nat, b: string) {
    |s| == d + |b| && forall k :: d <= k < |s| ==> s[k] == b[k - d]
  }

  /** What precedes a byte string does not change how it is read. */
  lemma {:induction false} WidthShift(s: string, d: nat, b: string, i: nat)
    requires Tail(s, d, b) && i < |b|
    ensures Width(s, d + i) == Width(b, i) && BadWidth(s, d + i) == BadWidth(b, i)
    ensures s[d + i..d + i + Width(b, i)] == b[i..i + Width(b, i)]
  {
  }

  /** Well-formed text may be followed by more well-formed text. */
  lemma {:induction false} ConcatFrom(a: string, b: string, i: nat)
    requires i <= |a| && ValidFrom(a, i) && Valid(b)
    ensures ValidFrom(a + b, i)
    decreases |a| - i
  {
    if i < |a| {
      assert (a + b)[i..i + Width(a, i)] == a[i..i + Width(a, i)];
      WidthLocal(a, i, a + b, i);
      ConcatFrom(a, b, i + Width(a, i));
    } else {
      ShiftFrom(a + b, |a|, b, 0);
    }
  }

  lemma {:induction false} ShiftFrom(s: string, d: nat, b: string, i: nat)
    requires Tail(s, d, b) && i <= |b| && ValidFrom(b, i)
    ensures ValidFrom(s, d + i)
    decreases |b| - i
  {
    if i < |b| {
      hide Width, BadWidth, Tail;
      WidthShift(s, d, b, i);
      ShiftFrom(s, d, b, i + Width(b, i));
    }
  }

  lemma {:induction false} AsciiFrom(s: string, i: nat)
    requires i <= |s| && AllAscii(s)
    ensures ValidFrom(s, i)
    decreases |s| - i
  {
    if i < |s| { AsciiFrom(s, i + 1); }
  }

  lemma {:induction false} Concat(a: string, b: string)
    requires Valid(a) && Valid(b)
    ensures Valid(a + b)
  {
    ConcatFrom(a, b, 0);
  }

  /** Cutting well-formed text just before an ASCII byte cuts between characters. */
  lemma {:induction false} CutBeforeAscii(s: string, i: nat, k: nat)
    requires i <= k < |s| && ValidFrom(s, i) && IsAscii(s[k])
    ensures ValidFrom(s[..k], i)
    decreases k - i
  {
    if i < k {
      var w := Width(s, i);
      if k < i + w { InnerBytes(s, i, k - i); }
      assert s[..k][i..i + w] == s[i..i + w];
      WidthLocal(s, i, s[..k], i);
      CutBeforeAscii(s, i + w, k);
    }
  }

  lemma {:induction false} PrefixStep(a: string, b: string, i: nat)
    requires i < |a| && Width(a, i) > 0
    ensures Consumed(a + b, i) == Width(a, i) && Emitted(a + b, i) == a[i..i + Width(a, i)]
  {
    assert (a + b)[i..i + Width(a, i)] == a[i..i + Width(a, i)];
    WidthLocal(a, i, a + b, i);
  }

  lemma {:induction false} Regroup(a: string, i: nat, w: nat, tail: string)
    requires i + w <= |a|
    ensures a[i..i + w] + (a[i + w..] + tail) == a[i..] + tail
  {
  }

  /** Lossy decoding keeps a well-formed prefix and then decodes the rest. */
  lemma {:induction false} LossyKeepsPrefix(a: string, b: string, i: nat)
    requires i <= |a| && ValidFrom(a, i)
    ensures LossyFrom(a + b, i) == a[i..] + Lossy(b)
    decreases |a| - i
  {
    if i < |a| {
      PrefixStep(a, b, i);
      hide Width, BadWidth, Consumed, Emitted, Lossy, LossyFrom;
      LossyStep(a + b, i);
      LossyKeepsPrefix(a, b, i + Width(a, i));
      Regroup(a, i, Width(a, i), Lossy(b));
    } else {
      hide Width, BadWidth, Consumed, Emitted, LossyFrom;
      assert a[i..] + Lossy(b) == Lossy(b);
      LossyShift(a + b, |a|, b, 0);
    }
  }

  lemma {:induction false} SameStep(s: string, d: nat, b: string, i: nat)
    requires Tail(s, d, b) && i < |b|
    ensures Consumed(s, d + i) == Consumed(b, i) && Emitted(s, d + i) == Emitted(b, i)
  {
    WidthShift(s, d, b, i);
    hide Width, BadWidth;
  }

  lemma {:induction false} LossyShift(s: string, d: nat, b: string, i: nat)
    requires Tail(s, d, b) && i <= |b|
    ensures LossyFrom(s, d + i) == LossyFrom(b, i)
    decreases |b| - i
  {
    hide LossyFrom, Consumed, Emitted;
    if i == |b| {
      LossyEnd(s);
      LossyEnd(b);
    } else {
      SameStep(s, d, b, i);
      LossyStep(s, d + i);
      LossyStep(b, i);
      LossyShift(s, d, b, i + Consumed(b, i));
    }
  }
}
