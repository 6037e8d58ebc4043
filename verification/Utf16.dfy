/** `CF_UNICODETEXT`: UTF-16LE with a terminating NUL. Text is a `string` of
    Unicode scalar values, bytes a `string` of byte values. */
module Utf16 {

  predicate NulFree(text: string) { forall k :: 0 <= k < |text| ==> text[k] as int != 0 }

  function EncodeChar(c: char): (units: seq<nat>)
    ensures forall k :: 0 <= k < |units| ==> units[k] < 0x10000
  {
    var n := c as int;
    if n < 0x10000 then [n] else [0xD800 + (n - 0x10000) / 0x400, 0xDC00 + (n - 0x10000) % 0x400]
  }

  function Encode(text: string): (units: seq<nat>)
    ensures forall k :: 0 <= k < |units| ==> units[k] < 0x10000
  {
    if |text| == 0 then [] else EncodeChar(text[0]) + Encode(text[1..])
  }

  function LittleEndian(units: seq<nat>): (bytes: string)
    requires forall k :: 0 <= k < |units| ==> units[k] < 0x10000
    ensures |bytes| == 2 * |units|
  {
    seq(2 * |units|, k requires 0 <= k < 2 * |units| =>
      (if k % 2 == 0 then units[k / 2] % 256 else units[k / 2] / 256) as char)
  }

  /** Whole code units; a stray last byte is dropped. */
  function Pairs(bytes: string): (units: seq<nat>)
    ensures |units| == |bytes| / 2
  {
    seq(|bytes| / 2, k requires 0 <= k < |bytes| / 2 => bytes[2 * k] as int + 256 * bytes[2 * k + 1] as int)
  }

  function ZeroFrom(units: seq<nat>, i: nat): (j: nat)
    requires i <= |units|
    ensures i <= j <= |units| && (j < |units| ==> units[j] == 0)
    ensures forall k :: i <= k < j ==> units[k] != 0
    decreases |units| - i
  {
    if i == |units| || units[i] == 0 then i else ZeroFrom(units, i + 1)
  }

  predicate IsHigh(u: nat) { 0xD800 <= u < 0xDC00 }

  predicate IsLow(u: nat) { 0xDC00 <= u < 0xE000 }

  const REPLACEMENT: char := 0xFFFD as char

  /** The character at `i` and how many units it takes. */
  function CharAt(units: seq<nat>, i: nat): (r: (char, nat))
    requires i < |units|
    ensures 1 <= r.1 && i + r.1 <= |units|
  {
    var u := units[i];
    if IsHigh(u) && i + 1 < |units| && IsLow(units[i + 1]) then
      ((0x10000 + (u - 0xD800) * 0x400 + (units[i + 1] - 0xDC00)) as char, 2)
    else if IsHigh(u) || IsLow(u) || u >= 0x10000 then (REPLACEMENT, 1)
    else (u as char, 1)
  }

  /** `String::from_utf16_lossy`. */
  function DecodeFrom(units: seq<nat>, i: nat): string
    requires i <= |units|
    decreases |units| - i
  {
    if i == |units| then "" else [CharAt(units, i).0] + DecodeFrom(units, i + CharAt(units, i).1)
  }

  function DecodeUnicode(bytes: string): string {
    var units := Pairs(bytes);
    DecodeFrom(units[..ZeroFrom(units, 0)], 0)
  }

  function ClipboardBytes(text: string): string { LittleEndian(Encode(text) + [0]) }

  /** The writer's loop over the code units and the terminator. */
  method Utf16ClipboardBytes(text: string) returns (bytes: string)
    ensures bytes == ClipboardBytes(text)
  {
    bytes := "";
    var units := Encode(text) + [0];
    for i := 0 to |units|
      invariant |bytes| == 2 * i
      invariant forall k :: 0 <= k < 2 * i ==> bytes[k] == LittleEndian(units)[k]
    {
      bytes := bytes + [(units[i] % 256) as char, (units[i] / 256) as char];
    }
    assert bytes == LittleEndian(units);
  }

  // ------------------------------------------------------------ the round trip

  lemma {:induction false} EncodeNonzero(text: string)
    requires NulFree(text)
    ensures forall k :: 0 <= k < |Encode(text)| ==> Encode(text)[k] != 0
  {
    if |text| > 0 {
      assert NulFree(text[1..]) by { assert forall k :: 0 <= k < |text| - 1 ==> text[1..][k] == text[k + 1]; }
      EncodeNonzero(text[1..]);
    }
  }

  lemma {:induction false} DecodeStep(units: seq<nat>, i: nat)
    requires i < |units|
    ensures DecodeFrom(units, i) == [CharAt(units, i).0] + DecodeFrom(units, i + CharAt(units, i).1)
  {
  }

  lemma {:induction false} CharAtEncoded(units: seq<nat>, i: nat, c: char)
    requires i + |EncodeChar(c)| <= |units| && units[i..i + |EncodeChar(c)|] == EncodeChar(c)
    ensures i < |units| && CharAt(units, i) == (c, |EncodeChar(c)|)
  {
    var e := EncodeChar(c);
    assert units[i] == units[i..i + |e|][0];
    if |e| == 2 { assert units[i + 1] == units[i..i + |e|][1]; }
  }

  lemma {:induction false} SplitUnits(units: seq<nat>, i: nat, e: seq<nat>, rest: seq<nat>)
    requires i <= |units| && units[i..] == e + rest
    ensures i + |e| <= |units| && units[i..i + |e|] == e && units[i + |e|..] == rest
  {
    assert units[i..i + |e|] == units[i..][..|e|];
    assert units[i + |e|..] == units[i..][|e|..];
  }

  lemma {:induction false} DecodeEncoded(units: seq<nat>, i: nat, text: string)
    requires i <= |units| && units[i..] == Encode(text)
    ensures DecodeFrom(units, i) == text
    decreases |text|
  {
    if |text| == 0 {
      assert i == |units|;
    } else {
      var e := EncodeChar(text[0]);
      SplitUnits(units, i, e, Encode(text[1..]));
      CharAtEncoded(units, i, text[0]);
      hide CharAt, EncodeChar, DecodeFrom;
      DecodeEncoded(units, i + |e|, text[1..]);
      DecodeStep(units, i);
    }
  }

  lemma {:induction false} PairsUndoBytes(units: seq<nat>, junk: string)
    requires forall k :: 0 <= k < |units| ==> units[k] < 0x10000
    ensures Pairs(LittleEndian(units) + junk)[..|units|] == units
  {
    var bytes := LittleEndian(units) + junk;
    forall k | 0 <= k < |units| ensures Pairs(bytes)[k] == units[k] {
      assert bytes[2 * k] == LittleEndian(units)[2 * k] && bytes[2 * k + 1] == LittleEndian(units)[2 * k + 1];
    }
  }

  lemma {:induction false} ReadsWritten(text: string, junk: string)
    requires NulFree(text)
    ensures DecodeUnicode(ClipboardBytes(text) + junk) == text
  {
    var units := Encode(text) + [0];
    var read := Pairs(ClipboardBytes(text) + junk);
    PairsUndoBytes(units, junk);
    EncodeNonzero(text);
    var n := |Encode(text)|;
    hide Encode, LittleEndian, Pairs;
    assert forall k :: 0 <= k <= n ==> read[k] == read[..|units|][k] == units[k];
    assert forall k :: 0 <= k < n ==> read[k] == Encode(text)[k];
    assert read[n] == 0 && ZeroFrom(read, 0) == n;
    assert read[..n][0..] == read[..|units|][..n] == Encode(text);
    DecodeEncoded(read[..n], 0, text);
  }

  lemma {:induction false} DecodedIsNulFree(units: seq<nat>, i: nat)
    requires i <= |units| && forall k :: 0 <= k < |units| ==> units[k] != 0
    ensures NulFree(DecodeFrom(units, i))
    decreases |units| - i
  {
    if i < |units| {
      var (c, w) := CharAt(units, i);
      assert c as int != 0;
      DecodedIsNulFree(units, i + w);
    }
  }

  /** Text read back is the text written, whatever follows the terminator,
      exactly when the text has no NUL of its own. */
  lemma {:induction false} RoundTrip(text: string, junk: string)
    ensures DecodeUnicode(ClipboardBytes(text) + junk) == text <==> NulFree(text)
  {
    var units := Pairs(ClipboardBytes(text) + junk);
    var n := ZeroFrom(units, 0);
    assert forall k :: 0 <= k < n ==> units[..n][k] == units[k];
    DecodedIsNulFree(units[..n], 0);
    if NulFree(text) { ReadsWritten(text, junk); }
  }
}
