/** CF_HTML: the payload writer, the header parser, and that each undoes the
    other. Strings are byte strings; offsets are byte offsets. */
module CfHtml {
  import opened Strings
  import opened Wrappers
  import Utf8

  const START_MARKER := "<!--StartFragment-->"
  const END_MARKER := "<!--EndFragment-->"
  const MAX_USIZE := 0xFFFF_FFFF_FFFF_FFFF

  // ------------------------------------------------------------ string search

  function Find(s: string, p: string): Option<nat> { FindFrom(s, p, 0) }

  predicate Contains(s: string, p: string) { Find(s, p).Some? }

  /** Last index below `i` at which `p` occurs. */
  function RFindBelow(s: string, p: string, i: nat): (r: Option<nat>)
    ensures r.Some? ==> r.value < i && OccursAt(s, r.value, p)
    ensures forall k :: (if r.Some? then r.value < k else true) && 0 <= k < i ==> !OccursAt(s, k, p)
  {
    if i == 0 then None
    else if OccursAt(s, i - 1, p) then Some(i - 1)
    else RFindBelow(s, p, i - 1)
  }

  function RFind(s: string, p: string): Option<nat> { RFindBelow(s, p, |s| + 1) }

  // -------------------------------------------------------------- trimming

  predicate IsAsciiSpace(c: char) { 9 <= c as int <= 13 || c == ' ' }

  predicate IsSpace2(a: char, b: char) { a as int == 0xC2 && (b as int == 0x85 || b as int == 0xA0) }

  predicate IsSpace3(a: char, b: char, c: char) {
    var (x, y, z) := (a as int, b as int, c as int);
    || (x == 0xE1 && y == 0x9A && z == 0x80)
    || (x == 0xE2 && y == 0x80 && (0x80 <= z <= 0x8A || z == 0xA8 || z == 0xA9 || z == 0xAF))
    || (x == 0xE2 && y == 0x81 && z == 0x9F)
    || (x == 0xE3 && y == 0x80 && z == 0x80)
  }

  /** Width of the whitespace character `s` starts with, or 0. */
  function SpaceAtStart(s: string): (w: nat)
    ensures w <= |s|
  {
    if |s| >= 1 && IsAsciiSpace(s[0]) then 1
    else if |s| >= 2 && IsSpace2(s[0], s[1]) then 2
    else if |s| >= 3 && IsSpace3(s[0], s[1], s[2]) then 3
    else 0
  }

  function SpaceAtEnd(s: string): (w: nat)
    ensures w <= |s|
  {
    var n := |s|;
    if n >= 1 && IsAsciiSpace(s[n - 1]) then 1
    else if n >= 2 && IsSpace2(s[n - 2], s[n - 1]) then 2
    else if n >= 3 && IsSpace3(s[n - 3], s[n - 2], s[n - 1]) then 3
    else 0
  }

  function TrimStart(s: string): string
    decreases |s|
  {
    if SpaceAtStart(s) == 0 then s else TrimStart(s[SpaceAtStart(s)..])
  }

  function TrimEnd(s: string): string
    decreases |s|
  {
    if SpaceAtEnd(s) == 0 then s else TrimEnd(s[..|s| - SpaceAtEnd(s)])
  }

  // ---------------------------------------------------------------- writing

  predicate IsCfHtml(payload: string) {
    OccursAt(payload, 0, "Version:") && Contains(payload, "StartHTML:")
  }

  predicate LooksLikeHtmlRoot(html: string) {
    var s := TrimStart(html);
    |s| >= 5 && s[0] == '<' && s[1] in "hH" && s[2] in "tT" && s[3] in "mM" && s[4] in "lL"
  }

  const CONTAINER_HEAD := "<html>\r\n<body>\r\n"
  const CONTAINER_TAIL := "\r\n</body>\r\n</html>"

  function Document(html: string): string {
    if IsCfHtml(html) then
      var at := Find(html, "<");
      if at.Some? then html[at.value..] else html
    else if Contains(html, START_MARKER) || LooksLikeHtmlRoot(html) then html
    else CONTAINER_HEAD + START_MARKER + html + END_MARKER + CONTAINER_TAIL
  }

  function Digit(n: nat): char
    requires n < 10
  { ('0' as int + n) as char }

  function Decimal(n: nat): string {
    if n < 10 then [Digit(n)] else Decimal(n / 10) + [Digit(n % 10)]
  }

  function FixedDecimal(n: nat, width: nat): (s: string)
    ensures |s| == width
  {
    if width == 0 then "" else FixedDecimal(n / 10, width - 1) + [Digit(n % 10)]
  }

  const OFFSET_LIMIT := 10_000_000_000

  /** `{n:010}`: at least ten digits. */
  function Padded(n: nat): string {
    if n < OFFSET_LIMIT then FixedDecimal(n, 10) else Decimal(n)
  }

  function Line(name: string, value: string): string { name + ":" + value + "\r\n" }

  function Header(startHtml: string, endHtml: string, startFragment: string, endFragment: string): string {
    Line("Version", "0.9") + (Line("StartHTML", startHtml) + (Line("EndHTML", endHtml)
      + (Line("StartFragment", startFragment) + Line("EndFragment", endFragment))))
  }

  const PLACEHOLDER := "0000000000"

  function HeaderLength(): nat { |Header(PLACEHOLDER, PLACEHOLDER, PLACEHOLDER, PLACEHOLDER)| }

  function FragmentStart(document: string): nat {
    var at := Find(document, START_MARKER);
    if at.Some? then at.value + |START_MARKER| else 0
  }

  function FragmentEnd(document: string): nat {
    RFind(document, END_MARKER).GetOr(|document|)
  }

  function HeaderFor(document: string): string {
    var n := HeaderLength();
    Header(Padded(n), Padded(n + |document|), Padded(n + FragmentStart(document)), Padded(n + FragmentEnd(document)))
  }

  function ToCfHtml(html: string): string {
    if IsCfHtml(html) then html
    else HeaderFor(Document(html)) + Document(html)
  }

  // ---------------------------------------------------------------- parsing

  function IndexOf(s: string, c: char, i: nat): (j: nat)
    requires i <= |s|
    ensures i <= j <= |s| && (j < |s| ==> s[j] == c)
    ensures forall k :: i <= k < j ==> s[k] != c
    decreases |s| - i
  {
    if i == |s| || s[i] == c then i else IndexOf(s, c, i + 1)
  }

  /** `str::parse::<usize>` on what must be all digits. */
  function ParseOffset(digits: string): Option<nat> {
    if |digits| == 0 || !AllDigits(digits) || DecimalValue(digits) > MAX_USIZE then None
    else Some(DecimalValue(digits))
  }

  /** A header line: not this key, or this key with a usable or useless value. */
  datatype KeyLine = Other | Value(offset: Option<nat>)

  function ParseLine(line: string, key: string): KeyLine {
    var colon := IndexOf(line, ':', 0);
    if colon == |line| || line[..colon] != key then Other
    else Value(ParseOffset(TrimEnd(TrimStart(line[colon + 1..]))))
  }

  /** `str::lines` drops the line feed and one carriage return before it. */
  function LineAt(header: string, i: nat): string
    requires i <= |header|
  {
    var j := IndexOf(header, '\n', i);
    if j < |header| && i < j && header[j - 1] == '\r' then header[i..j - 1] else header[i..j]
  }

  function OffsetFrom(header: string, key: string, i: nat): Option<nat>
    requires i <= |header|
    decreases |header| - i
  {
    if i == |header| then None
    else
      match ParseLine(LineAt(header, i), key)
      case Value(offset) => offset
      case Other =>
        var j := IndexOf(header, '\n', i);
        if j == |header| then None else OffsetFrom(header, key, j + 1)
  }

  function CfHtmlOffset(payload: string, key: string): Option<nat> {
    var header := payload[..IndexOf(payload, '<', 0)];
    if Utf8.Valid(header) then OffsetFrom(header, key, 0) else None
  }

  function HtmlDocument(payload: string): Option<string> {
    var start := CfHtmlOffset(payload, "StartHTML").GetOr(0);
    var end := CfHtmlOffset(payload, "EndHTML").GetOr(|payload|);
    if start <= end <= |payload| && Utf8.Valid(payload[start..end]) then Some(payload[start..end]) else None
  }
}
