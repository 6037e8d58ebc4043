/** Decoding the basic HTML entities one after the other, and what that makes of
    text that was properly escaped. */
module HtmlEntities {

  /** Every non-overlapping occurrence, from the left, replaced. */
  function Replace(s: string, pattern: string, instead: string): string
    requires |pattern| > 0
    decreases |s|
  {
    if |s| == 0 then ""
    else if pattern <= s then instead + Replace(s[|pattern|..], pattern, instead)
    else [s[0]] + Replace(s[1..], pattern, instead)
  }

  function DecodeMarkup(s: string): string {
    Replace(Replace(Replace(Replace(s, "&lt;", "<"), "&gt;", ">"), "&quot;", "\""), "&#39;", "'")
  }

  function DecodeBasicEntities(s: string): string { DecodeMarkup(Replace(Replace(s, "&nbsp;", " "), "&amp;", "&")) }

  function Entity(c: char): string {
    if c == '&' then "&amp;" else if c == '<' then "&lt;" else if c == '>' then "&gt;"
    else if c == '"' then "&quot;" else "&#39;"
  }

  const SPECIAL: set<char> := {'&', '<', '>', '"', '\''}

  /** Each of the given characters written as its entity. */
  function Escape(t: string, which: set<char>): string {
    if |t| == 0 then "" else (if t[0] in which then Entity(t[0]) else [t[0]]) + Escape(t[1..], which)
  }

  predicate Occurs(s: string, pattern: string) {
    |s| > 0 && (pattern <= s || Occurs(s[1..], pattern))
  }

  // ---------------------------------------------------------------- replacing

  lemma {:induction false} ReplaceStep(s: string, pattern: string, instead: string)
    requires |pattern| > 0 && |s| > 0
    ensures pattern <= s ==> Replace(s, pattern, instead) == instead + Replace(s[|pattern|..], pattern, instead)
    ensures !(pattern <= s) ==> Replace(s, pattern, instead) == [s[0]] + Replace(s[1..], pattern, instead)
  {
  }

  /** Text without an ampersand passes through. */
  lemma {:induction false} ReplacePasses(u: string, rest: string, pattern: string, instead: string)
    requires |pattern| > 0 && pattern[0] == '&' && '&' !in u
    ensures Replace(u + rest, pattern, instead) == u + Replace(rest, pattern, instead)
  {
    hide Replace;
    if |u| == 0 {
      assert u + rest == rest;
    } else {
      var s := u + rest;
      assert s[0] == u[0] && s[1..] == u[1..] + rest;
      ReplaceStep(s, pattern, instead);
      ReplacePasses(u[1..], rest, pattern, instead);
    }
  }

  predicate IsEntity(e: string) { |e| >= 4 && e[0] == '&' && '&' !in e[1..] }

  /** Another entity passes through: the second characters already differ. */
  lemma {:induction false} OtherEntityPasses(e: string, rest: string, pattern: string, instead: string)
    requires IsEntity(e) && IsEntity(pattern) && e[1] != pattern[1]
    ensures Replace(e + rest, pattern, instead) == e + Replace(rest, pattern, instead)
  {
    hide Replace;
    var s := e + rest;
    assert s[1] == e[1] && s[0] == e[0] && s[1..] == e[1..] + rest;
    ReplaceStep(s, pattern, instead);
    ReplacePasses(e[1..], rest, pattern, instead);
  }

  lemma {:induction false} EntityReplaced(e: string, rest: string, instead: string)
    requires IsEntity(e)
    ensures Replace(e + rest, e, instead) == instead + Replace(rest, e, instead)
  {
    hide Replace;
    assert (e + rest)[..|e|] == e && (e + rest)[|e|..] == rest;
    ReplaceStep(e + rest, e, instead);
  }

  lemma {:induction false} Entities()
    ensures forall c :: IsEntity(Entity(c))
    ensures IsEntity("&nbsp;")
    ensures forall c :: Entity(c)[1] != 'n'
    ensures forall c, d | c in SPECIAL && d in SPECIAL && c != d :: Entity(c)[1] != Entity(d)[1]
  {
  }

  // -------------------------------------------------------------- escaped text

  lemma {:induction false} EscapeStep(t: string, which: set<char>)
    requires |t| > 0
    ensures Escape(t, which) == (if t[0] in which then Entity(t[0]) else [t[0]]) + Escape(t[1..], which)
  {
  }

  lemma {:induction false} NothingEscaped(t: string)
    ensures Escape(t, {}) == t
  {
    if |t| > 0 {
      NothingEscaped(t[1..]);
      assert t == [t[0]] + t[1..];
    }
  }

  /** Escaped text has no blank entity: its every ampersand starts another. */
  lemma {:induction false} NoBlankEntity(t: string)
    ensures Replace(Escape(t, SPECIAL), "&nbsp;", " ") == Escape(t, SPECIAL)
  {
    if |t| > 0 {
      NoBlankEntity(t[1..]);
      Entities();
      EscapeStep(t, SPECIAL);
      hide Replace, Escape, Entity;
      if t[0] in SPECIAL {
        OtherEntityPasses(Entity(t[0]), Escape(t[1..], SPECIAL), "&nbsp;", " ");
      } else {
        ReplacePasses([t[0]], Escape(t[1..], SPECIAL), "&nbsp;", " ");
      }
    }
  }

  lemma {:induction false} AmpersandsDecode(t: string)
    ensures Replace(Escape(t, SPECIAL), "&amp;", "&") == Escape(t, SPECIAL - {'&'})
  {
    if |t| > 0 {
      AmpersandsDecode(t[1..]);
      Entities();
      EscapeStep(t, SPECIAL);
      EscapeStep(t, SPECIAL - {'&'});
      assert Entity('&') == "&amp;";
      hide Replace, Escape, Entity;
      if t[0] == '&' {
        EntityReplaced("&amp;", Escape(t[1..], SPECIAL), "&");
      } else if t[0] in SPECIAL {
        OtherEntityPasses(Entity(t[0]), Escape(t[1..], SPECIAL), "&amp;", "&");
      } else {
        ReplacePasses([t[0]], Escape(t[1..], SPECIAL), "&amp;", "&");
      }
    }
  }

  /** What starts escaped text without ampersands starts the text itself. */
  lemma {:induction false} PlainPrefix(p: string, t: string, which: set<char>)
    requires '&' !in p && (forall c | c in which :: c !in p) && which <= SPECIAL
    ensures p <= Escape(t, which) <==> p <= t
    ensures p <= t ==> Escape(t, which) == p + Escape(t[|p|..], which)
  {
    if |p| > 0 && |t| > 0 {
      Entities();
      EscapeStep(t, which);
      hide Entity;
      var rest := Escape(t[1..], which);
      PlainPrefix(p[1..], t[1..], which);
      hide Escape;
      assert p == [p[0]] + p[1..] && t == [t[0]] + t[1..];
      if t[0] in which {
        assert Escape(t, which)[0] == Entity(t[0])[0] == '&';
      } else {
        assert Escape(t, which) == [t[0]] + rest && ([t[0]] + rest)[1..] == rest;
        PrefixOfCons(p, t[0], rest);
        PrefixOfCons(p, t[0], t[1..]);
        if p <= t {
          assert t[|p|..] == t[1..][|p[1..]|..];
        }
      }
    }
  }

  lemma {:induction false} PrefixOfCons(p: string, c: char, rest: string)
    requires |p| > 0
    ensures p <= [c] + rest <==> p[0] == c && p[1..] <= rest
  {
    if p <= [c] + rest {
      assert p[1..] == ([c] + rest)[..|p|][1..] == rest[..|p| - 1];
    }
    if p[0] == c && p[1..] <= rest {
      assert p == [c] + p[1..];
    }
  }

  /** Decoding one entity in escaped text unescapes its character, and decodes
      that entity in the text itself as well. */
  lemma {:induction false} DecodesTextToo(t: string, which: set<char>, c: char)
    requires which <= SPECIAL - {'&'} && c in which
    ensures Replace(Escape(t, which), Entity(c), [c]) == Escape(Replace(t, Entity(c), [c]), which - {c})
    decreases |t|
  {
    if |t| > 0 {
      Entities();
      var e := Entity(c);
      EscapeStep(t, which);
      ReplaceStep(t, e, [c]);
      if t[0] in which {
        assert !(e <= t);
        DecodesTextToo(t[1..], which, c);
        EscapedFirst(t[0], Replace(t[1..], e, [c]), which - {c});
        hide Replace, Escape, Entity;
        if t[0] == c {
          EntityReplaced(e, Escape(t[1..], which), [c]);
        } else {
          OtherEntityPasses(Entity(t[0]), Escape(t[1..], which), e, [c]);
        }
      } else if t[0] == '&' {
        LiteralAmpersand(t, which, c);
      } else {
        assert !(e <= t);
        DecodesTextToo(t[1..], which, c);
        EscapedFirst(t[0], Replace(t[1..], e, [c]), which - {c});
        hide Replace, Escape, Entity;
        ReplacePasses([t[0]], Escape(t[1..], which), e, [c]);
      }
    }
  }

  lemma {:induction false} EscapedFirst(c: char, rest: string, which: set<char>)
    ensures Escape([c] + rest, which) == (if c in which then Entity(c) else [c]) + Escape(rest, which)
  {
    assert ([c] + rest)[1..] == rest;
  }

  lemma {:induction false} LiteralAmpersand(t: string, which: set<char>, c: char)
    requires which <= SPECIAL - {'&'} && c in which && |t| > 0 && t[0] == '&'
    ensures Replace(Escape(t, which), Entity(c), [c]) == Escape(Replace(t, Entity(c), [c]), which - {c})
    decreases |t|, 0
  {
    hide Replace, Escape, Entity;
    Entities();
    TailIsPlain(c);
    var (e, rest) := (Entity(c), t[1..]);
    var tail := Escape(rest, which);
    EscapeStep(t, which);
    ReplaceStep(t, e, [c]);
    PlainPrefix(e[1..], rest, which);
    PrefixOfCons(e, '&', tail);
    PrefixOfCons(e, '&', rest);
    assert t == ['&'] + rest;
    if e <= t {
      var after := t[|e|..];
      assert after == rest[|e[1..]|..];
      DecodesTextToo(after, which, c);
      Reassociate(e, Escape(after, which));
      EntityReplaced(e, Escape(after, which), [c]);
      EscapedFirst(c, Replace(after, e, [c]), which - {c});
    } else {
      DecodesTextToo(rest, which, c);
      ReplaceStep(['&'] + tail, e, [c]);
      assert (['&'] + tail)[1..] == tail;
      EscapedFirst('&', Replace(rest, e, [c]), which - {c});
    }
  }

  lemma {:induction false} TailIsPlain(c: char)
    ensures forall d | d in SPECIAL :: d !in Entity(c)[1..]
  {
  }

  lemma {:induction false} Reassociate(e: string, after: string)
    requires |e| > 0
    ensures [e[0]] + (e[1..] + after) == e + after
  {
  }

  // ------------------------------------------------------------- main results

  /** Properly escaped text comes out decoded once more than it was escaped,
      but for blanks and ampersands. */
  lemma {:induction false} EscapedTextIsDecodedAgain(t: string)
    ensures DecodeBasicEntities(Escape(t, SPECIAL)) == DecodeMarkup(t)
  {
    NoBlankEntity(t);
    AmpersandsDecode(t);
    var t1 := Replace(t, "&lt;", "<");
    var t2 := Replace(t1, "&gt;", ">");
    var t3 := Replace(t2, "&quot;", "\"");
    assert Entity('<') == "&lt;" && Entity('>') == "&gt;" && Entity('"') == "&quot;" && Entity('\'') == "&#39;";
    DecodesTextToo(t, SPECIAL - {'&'}, '<');
    assert SPECIAL - {'&'} - {'<'} == {'>', '"', '\''};
    DecodesTextToo(t1, {'>', '"', '\''}, '>');
    assert {'>', '"', '\''} - {'>'} == {'"', '\''};
    DecodesTextToo(t2, {'"', '\''}, '"');
    assert {'"', '\''} - {'"'} == {'\''};
    DecodesTextToo(t3, {'\''}, '\'');
    assert {'\''} - {'\''} == {};
    hide Replace, Escape;
    NothingEscaped(Replace(t3, "&#39;", "'"));
  }

  lemma {:induction false} ReplaceShortens(s: string, pattern: string, instead: string)
    requires |instead| < |pattern|
    ensures |Replace(s, pattern, instead)| <= |s|
    ensures |Replace(s, pattern, instead)| == |s| <==> !Occurs(s, pattern)
    ensures !Occurs(s, pattern) ==> Replace(s, pattern, instead) == s
    decreases |s|
  {
    if |s| > 0 {
      ReplaceStep(s, pattern, instead);
      if pattern <= s {
        ReplaceShortens(s[|pattern|..], pattern, instead);
      } else {
        ReplaceShortens(s[1..], pattern, instead);
        assert s == [s[0]] + s[1..];
      }
    }
  }

  predicate ShowsMarkupEntity(t: string) {
    Occurs(t, "&lt;") || Occurs(t, "&gt;") || Occurs(t, "&quot;") || Occurs(t, "&#39;")
  }

  /** Escaping and decoding gives the text back exactly when the text itself
      spells out none of the four markup entities. */
  lemma {:induction false} EscapeRoundTripsIff(t: string)
    ensures DecodeBasicEntities(Escape(t, SPECIAL)) == t <==> !ShowsMarkupEntity(t)
  {
    EscapedTextIsDecodedAgain(t);
    var t1 := Replace(t, "&lt;", "<");
    var t2 := Replace(t1, "&gt;", ">");
    var t3 := Replace(t2, "&quot;", "\"");
    hide Replace, Occurs, Escape;
    ReplaceShortens(t, "&lt;", "<");
    ReplaceShortens(t1, "&gt;", ">");
    ReplaceShortens(t2, "&quot;", "\"");
    ReplaceShortens(t3, "&#39;", "'");
  }

  /** The shortest such text: escaped and decoded it is another one. */
  lemma {:induction false} SpelledOutEntityIsLost()
    ensures DecodeBasicEntities(Escape("&lt;", SPECIAL)) != "&lt;"
  {
    hide Replace, Escape;
    assert "&lt;" <= "&lt;";
    EscapeRoundTripsIff("&lt;");
  }
}
