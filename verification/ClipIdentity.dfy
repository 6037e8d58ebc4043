/** The identity of a capture: the bytes hashed for deduplication and for
    recognizing Cubby's own clipboard writes. */
module ClipIdentity {
  import opened Utf16

  datatype Format = Format(name: string, content: string)

  datatype Content = TextContent(content: string) | ImageContent(png: string) {
    function Kind(): string { if TextContent? then "text" else "image" }

    function Primary(): string { if TextContent? then content else png }
  }

  const NUL: char := 0 as char

  // ------------------------------------------------------------ specification

  function FormatFields(formats: seq<Format>): seq<string> {
    if |formats| == 0 then [] else [formats[0].name, formats[0].content] + FormatFields(formats[1..])
  }

  /** What identifies a clip, in order. An image is only its bitmap. */
  function Fields(kind: string, primary: string, formats: seq<Format>): seq<string> {
    [kind, primary] + if kind == "image" then [] else FormatFields(formats)
  }

  /** Fields separated, not terminated, by NUL. */
  function JoinNul(fields: seq<string>): string {
    if |fields| == 0 then ""
    else if |fields| == 1 then fields[0]
    else fields[0] + [NUL] + JoinNul(fields[1..])
  }

  function Material(kind: string, primary: string, formats: seq<Format>): string {
    JoinNul(Fields(kind, primary, formats))
  }

  // ------------------------------------------------- the two ways it is computed

  lemma {:induction false} FieldsGrow(formats: seq<Format>, more: Format)
    ensures FormatFields(formats + [more]) == FormatFields(formats) + [more.name, more.content]
  {
    if |formats| == 0 {
      assert formats + [more] == [more] && [more][1..] == [];
    } else {
      assert (formats + [more])[1..] == formats[1..] + [more];
      FieldsGrow(formats[1..], more);
    }
  }

  lemma {:induction false} JoinGrows(fields: seq<string>, more: string)
    requires |fields| > 0
    ensures JoinNul(fields + [more]) == JoinNul(fields) + [NUL] + more
  {
    if |fields| == 1 {
      assert (fields + [more])[1..] == [more];
    } else {
      assert (fields + [more])[1..] == fields[1..] + [more];
      JoinGrows(fields[1..], more);
    }
  }

  lemma {:induction false} MaterialGrows(kind: string, primary: string, formats: seq<Format>, more: Format)
    requires kind != "image"
    ensures Material(kind, primary, formats + [more])
         == Material(kind, primary, formats) + [NUL] + more.name + [NUL] + more.content
  {
    var fields := Fields(kind, primary, formats);
    FieldsGrow(formats, more);
    JoinGrows(fields, more.name);
    JoinGrows(fields + [more.name], more.content);
    assert Fields(kind, primary, formats + [more]) == fields + [more.name] + [more.content];
  }

  lemma {:induction false} MaterialStarts(kind: string, primary: string, formats: seq<Format>)
    requires kind == "image" || |formats| == 0
    ensures Material(kind, primary, formats) == kind + [NUL] + primary
  {
    assert FormatFields([]) == [];
    assert Fields(kind, primary, formats) == [kind, primary] && [kind, primary][1..] == [primary];
    assert JoinNul([primary]) == primary;
  }

  method BuildClipHashMaterial(kind: string, primary: string, formats: seq<Format>) returns (material: string)
    ensures material == Material(kind, primary, formats)
  {
    material := kind;
    material := material + [NUL];
    material := material + primary;
    if kind != "image" {
      MaterialStarts(kind, primary, []);
      for i := 0 to |formats|
        invariant material == Material(kind, primary, formats[..i])
      {
        assert formats[..i + 1] == formats[..i] + [formats[i]];
        MaterialGrows(kind, primary, formats[..i], formats[i]);
        material := material + [NUL] + formats[i].name;
        material := material + [NUL] + formats[i].content;
      }
      assert formats[..|formats|] == formats;
    } else {
      MaterialStarts(kind, primary, formats);
    }
  }

  /** A streaming hash: the digest depends only on the bytes fed to it. */
  class Hasher {
    var fed: string

    constructor ()
      ensures fed == ""
    { fed := ""; }

    method Update(bytes: string)
      modifies this
      ensures fed == old(fed) + bytes
    { fed := fed + bytes; }
  }

  /** Streams the same identity without building it. */
  method CapturedClipHash(content: Content, formats: seq<Format>, digest: string -> string) returns (hash: string)
    ensures hash == digest(Material(content.Kind(), content.Primary(), formats))
  {
    var hasher := new Hasher();
    var kind := content.Kind();
    hasher.Update(kind);
    hasher.Update([NUL]);
    hasher.Update(content.Primary());
    assert hasher.fed == kind + [NUL] + content.Primary();
    hide JoinNul, Fields;
    if content.TextContent? {
      MaterialStarts(kind, content.Primary(), []);
      for i := 0 to |formats|
        invariant hasher.fed == Material(kind, content.Primary(), formats[..i])
      {
        assert formats[..i + 1] == formats[..i] + [formats[i]];
        MaterialGrows(kind, content.Primary(), formats[..i], formats[i]);
        hasher.Update([NUL]);
        hasher.Update(formats[i].name);
        hasher.Update([NUL]);
        hasher.Update(formats[i].content);
      }
      assert formats[..|formats|] == formats;
    } else {
      MaterialStarts(kind, content.Primary(), formats);
    }
    hash := digest(hasher.fed);
  }

  // ------------------------------------------------------------- faithfulness

  predicate AllNulFree(fields: seq<string>) { forall k :: 0 <= k < |fields| ==> NulFree(fields[k]) }

  /** Index of the first NUL from `i` on, or the length. */
  function FirstNul(s: string, i: nat): nat
    requires i <= |s|
    decreases |s| - i
  {
    if i == |s| || s[i] == NUL then i else FirstNul(s, i + 1)
  }

  lemma {:induction false} FirstNulIs(s: string, i: nat, j: nat)
    requires i <= j <= |s| && (j < |s| ==> s[j] == NUL)
    requires forall k :: i <= k < j ==> s[k] != NUL
    ensures FirstNul(s, i) == j
    decreases |s| - i
  {
    if i < j { FirstNulIs(s, i + 1, j); }
  }

  /** The first field ends at the first NUL; the rest follows it. */
  lemma {:induction false} FirstFieldEnds(fields: seq<string>)
    requires |fields| > 0 && AllNulFree(fields)
    ensures var (s, n) := (JoinNul(fields), |fields[0]|);
            n == FirstNul(s, 0) <= |s| && s[..n] == fields[0]
            && (|fields| == 1 <==> n == |s|)
            && (|fields| > 1 ==> s[n + 1..] == JoinNul(fields[1..]))
  {
    var (s, n) := (JoinNul(fields), |fields[0]|);
    assert NulFree(fields[0]);
    assert forall k :: 0 <= k < n ==> s[k] == fields[0][k];
    FirstNulIs(s, 0, n);
  }

  /** Joining is injective on fields that hold no separator. */
  lemma {:induction false} JoinInjective(a: seq<string>, b: seq<string>)
    requires |a| > 0 && |b| > 0 && AllNulFree(a) && AllNulFree(b)
    requires JoinNul(a) == JoinNul(b)
    ensures a == b
    decreases |a|
  {
    FirstFieldEnds(a);
    FirstFieldEnds(b);
    hide JoinNul;
    if |a| > 1 {
      assert AllNulFree(a[1..]) && AllNulFree(b[1..]);
      JoinInjective(a[1..], b[1..]);
      assert a == [a[0]] + a[1..] && b == [b[0]] + b[1..];
    }
  }

  predicate FormatsNulFree(formats: seq<Format>) {
    forall k :: 0 <= k < |formats| ==> NulFree(formats[k].name) && NulFree(formats[k].content)
  }

  lemma {:induction false} FormatFieldsFaithful(f: seq<Format>, g: seq<Format>)
    requires FormatFields(f) == FormatFields(g)
    ensures f == g
    decreases |f|
  {
    if |f| > 0 && |g| > 0 {
      var (x, y) := (FormatFields(f), FormatFields(g));
      assert f[0].name == x[0] && f[0].content == x[1] && g[0].name == y[0] && g[0].content == y[1];
      assert FormatFields(f[1..]) == x[2..] && FormatFields(g[1..]) == y[2..];
      FormatFieldsFaithful(f[1..], g[1..]);
      assert f == [f[0]] + f[1..] && g == [g[0]] + g[1..];
    }
  }

  lemma {:induction false} FormatFieldsNulFree(formats: seq<Format>)
    requires FormatsNulFree(formats)
    ensures AllNulFree(FormatFields(formats))
  {
    if |formats| > 0 { FormatFieldsNulFree(formats[1..]); }
  }

  /** Text clips: same identity exactly when same text and same formats in the
      same order, as long as nothing holds a NUL. */
  lemma {:induction false} TextIdentity(p: string, f: seq<Format>, q: string, g: seq<Format>)
    requires NulFree(p) && NulFree(q) && FormatsNulFree(f) && FormatsNulFree(g)
    ensures Material("text", p, f) == Material("text", q, g) <==> p == q && f == g
  {
    if Material("text", p, f) == Material("text", q, g) {
      FormatFieldsNulFree(f);
      FormatFieldsNulFree(g);
      var (a, b) := (Fields("text", p, f), Fields("text", q, g));
      JoinInjective(a, b);
      assert a[1] == p && b[1] == q && a[2..] == FormatFields(f) && b[2..] == FormatFields(g);
      FormatFieldsFaithful(f, g);
    }
  }

  /** NUL-freeness is needed: a text that spells out another clip's material. */
  lemma NulForgesIdentity()
    ensures Material("text", "a" + [NUL] + "rtf" + [NUL] + "b", []) == Material("text", "a", [Format("rtf", "b")])
  {
    MaterialStarts("text", "a" + [NUL] + "rtf" + [NUL] + "b", []);
    MaterialStarts("text", "a", []);
    MaterialGrows("text", "a", [], Format("rtf", "b"));
  }

  /** Images: same identity exactly when same bitmap, whatever rides along, and
      never the identity of a text clip. No condition on the bytes. */
  lemma {:induction false} ImageIdentity(png: string, f: seq<Format>, other: string, g: seq<Format>)
    ensures Material("image", png, f) == Material("image", other, g) <==> png == other
    ensures Material("image", png, f) != Material("text", other, g)
  {
    MaterialStarts("image", png, f);
    MaterialStarts("image", other, g);
    var (a, b) := (Material("image", png, f), Material("image", other, g));
    assert a[6..] == png && b[6..] == other;
    assert a[0] == 'i' && Fields("text", other, g)[0] == "text";
    assert Material("text", other, g)[0] == 't';
  }
}
