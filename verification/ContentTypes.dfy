/** Content types and lengths (upload-function/src/content-type.ts, schemas.ts). */
module ContentTypes {
  import opened Wrappers
  import opened Errors
  import opened Text
  import opened ObjectKeys

  const MAX_UPLOAD_BYTES := 50 * 1024 * 1024

  function MimeType(t: ContentType): string {
    match t
    case Jpeg => "image/jpeg"
    case Png => "image/png"
    case Webp => "image/webp"
  }

  /** `parseAllowedContentType`. */
  function ParseAllowedContentType(s: string): Result<ContentType, ErrorCode> {
    if s == "image/jpeg" then Ok(Jpeg)
    else if s == "image/png" then Ok(Png)
    else if s == "image/webp" then Ok(Webp)
    else Err(UnsupportedContentType)
  }

  function ToLower(s: string): string {
    if s == "" then ""
    else (if 'A' <= s[0] <= 'Z' then [(s[0] as int + 32) as char] else [s[0]]) + ToLower(s[1..])
  }

  /** What `trim` takes for white space. */
  predicate IsSpace(c: char) {
    var code := c as int;
    || 9 <= code <= 13 || code == 0x20 || code == 0xA0 || code == 0x1680 || 0x2000 <= code <= 0x200A
    || code == 0x2028 || code == 0x2029 || code == 0x202F || code == 0x205F || code == 0x3000 || code == 0xFEFF
  }

  function Trim(s: string): string
    decreases |s|
  {
    if s == "" then ""
    else if IsSpace(s[0]) then Trim(s[1..])
    else if IsSpace(s[|s| - 1]) then Trim(s[..|s| - 1])
    else s
  }

  /** `normalizeStoredContentType`: parameters after ';' do not count, nor does letter case. */
  function NormalizeStoredContentType(value: Option<string>): Option<string> {
    if value.None? then None else
    var trimmed := ToLower(Trim(value.value[..IndexOf(value.value, ';')]));
    if trimmed == "" then None else Some(trimmed)
  }

  /** A stored content type contradicts the session only when it names another type. */
  predicate ContradictsType(stored: Option<string>, t: ContentType) {
    var normalized := NormalizeStoredContentType(stored);
    normalized.Some? && normalized.value != MimeType(t)
  }

  // ---------- the same on the text of the header ----------

  const WHITE_SPACE :=
    "\t\n\U{B}\U{C}\r \U{A0}\U{1680}\U{2000}\U{2001}\U{2002}\U{2003}\U{2004}\U{2005}\U{2006}"
    + "\U{2007}\U{2008}\U{2009}\U{200A}\U{2028}\U{2029}\U{202F}\U{205F}\U{3000}\U{FEFF}"

  predicate Blank(s: string) { forall c | c in s :: c in WHITE_SPACE }

  /** `c` is the lower-case `d` or its capital. */
  predicate Spells(c: char, d: char) { c == d || ('a' <= d <= 'z' && c as int == d as int - 32) }

  /** `s` is the lower-case `mime` in some letter case. */
  predicate InAnyCase(s: string, mime: string) {
    |s| == |mime| && forall i | 0 <= i < |s| :: Spells(s[i], mime[i])
  }

  predicate Parameters(tail: string) { tail == "" || tail[0] == ';' }

  /** `s` is `m` with white space around it and perhaps parameters behind a ';'. */
  ghost predicate Names(s: string, m: string) {
    exists a, b, tail :: Blank(a) && Blank(b) && Parameters(tail) && s == a + m + b + tail
  }

  /** A stored content type that is absent, blank, or `mime` up to letter case, white space and
      parameters. */
  ghost predicate TypeFits(stored: Option<string>, mime: string) {
    stored.Some? ==> Names(stored.value, "") || exists m :: InAnyCase(m, mime) && Names(stored.value, m)
  }

  lemma SpaceCodes(c: char)
    ensures IsSpace(c) <==> c in WHITE_SPACE
  {
  }

  lemma {:induction false} TrimParts(s: string) returns (a: string, b: string)
    ensures s == a + Trim(s) + b && Blank(a) && Blank(b)
    decreases |s|
  {
    hide IsSpace;
    a, b := "", "";
    if s != "" {
      SpaceCodes(s[0]);
      SpaceCodes(s[|s| - 1]);
      if IsSpace(s[0]) {
        a, b := TrimParts(s[1..]);
        a := [s[0]] + a;
        assert s == a + Trim(s) + b;
      } else if IsSpace(s[|s| - 1]) {
        a, b := TrimParts(s[..|s| - 1]);
        b := b + [s[|s| - 1]];
        assert s == a + Trim(s) + b;
      }
    }
  }

  predicate Bare(m: string) { m == "" || (m[0] !in WHITE_SPACE && m[|m| - 1] !in WHITE_SPACE) }

  lemma TrimLeads(c: char, s: string)
    requires c in WHITE_SPACE
    ensures Trim([c] + s) == Trim(s)
  {
    hide IsSpace;
    SpaceCodes(c);
    assert ([c] + s)[1..] == s;
  }

  lemma TrimTrails(s: string, c: char)
    requires s != "" && s[0] !in WHITE_SPACE && c in WHITE_SPACE
    ensures Trim(s + [c]) == Trim(s)
  {
    hide IsSpace;
    SpaceCodes(s[0]);
    SpaceCodes(c);
    assert (s + [c])[..|s|] == s;
  }

  lemma {:induction false} TrimBetween(a: string, m: string, b: string)
    requires Blank(a) && Blank(b) && Bare(m)
    ensures Trim(a + m + b) == m
    decreases |a| + |b|
  {
    hide IsSpace, Trim;
    if a != "" {
      assert a[0] in a && a + m + b == [a[0]] + (a[1..] + m + b);
      TrimBetween(a[1..], m, b);
      TrimLeads(a[0], a[1..] + m + b);
    } else if b == "" {
      TrimBare(m);
      assert a + m + b == m;
    } else if m == "" {
      assert b[0] in b && a + m + b == [b[0]] + ("" + m + b[1..]);
      TrimBetween("", m, b[1..]);
      TrimLeads(b[0], "" + m + b[1..]);
    } else {
      var front := b[..|b| - 1];
      assert b[|b| - 1] in b && a + m + b == ("" + m + front) + [b[|b| - 1]];
      TrimBetween("", m, front);
      TrimTrails("" + m + front, b[|b| - 1]);
    }
  }

  lemma TrimBare(m: string)
    requires Bare(m)
    ensures Trim(m) == m
  {
    if m != "" {
      SpaceCodes(m[0]);
      SpaceCodes(m[|m| - 1]);
    }
  }

  predicate LowerCase(mime: string) { forall c | c in mime :: 'a' <= c <= 'z' || c == '/' }

  lemma SpellingCons(c: char, s: string, d: char, mime: string)
    ensures InAnyCase([c] + s, [d] + mime) <==> Spells(c, d) && InAnyCase(s, mime)
  {
    hide Spells;
    var s1, mime1 := [c] + s, [d] + mime;
    if InAnyCase(s1, mime1) {
      assert Spells(s1[0], mime1[0]);
      forall i | 0 <= i < |s| ensures Spells(s[i], mime[i]) { assert Spells(s1[i + 1], mime1[i + 1]); }
    }
  }

  lemma {:induction false} LowerSpells(m: string, mime: string)
    requires LowerCase(mime)
    ensures ToLower(m) == mime <==> InAnyCase(m, mime)
    ensures ToLower(m) == "" <==> m == ""
    decreases |m|
  {
    if m != "" && mime != "" {
      hide InAnyCase;
      assert mime[0] in mime && forall c | c in mime[1..] :: c in mime;
      assert mime == [mime[0]] + mime[1..] && m == [m[0]] + m[1..];
      SpellingCons(m[0], m[1..], mime[0], mime[1..]);
      LowerSpells(m[1..], mime[1..]);
    }
  }

  /** Some spelling of a type is bare, and has no ';'. */
  lemma SpellingIsBare(m: string, mime: string)
    requires LowerCase(mime) && InAnyCase(m, mime)
    ensures Bare(m) && ';' !in m
  {
    hide Blank;
    forall i | 0 <= i < |m| ensures m[i] !in WHITE_SPACE && m[i] != ';' {
      assert mime[i] in mime;
      SpaceCodes(m[i]);
    }
  }

  lemma NamesNormalizes(s: string, m: string)
    requires Names(s, m) && Bare(m) && ';' !in m
    ensures Trim(s[..IndexOf(s, ';')]) == m
  {
    var a, b, tail :|
      Blank(a) && Blank(b) && Parameters(tail) && s == a + m + b + tail;
    var head := a + m + b;
    assert s[..|head|] == head;
    IndexOfUnique(s, ';', |head|);
    TrimBetween(a, m, b);
  }

  lemma NormalizedIsNamed(s: string)
    ensures Names(s, Trim(s[..IndexOf(s, ';')]))
  {
    var i := IndexOf(s, ';');
    var a, b := TrimParts(s[..i]);
    var m, tail := Trim(s[..i]), s[i..];
    assert Blank(a) && Blank(b) && Parameters(tail) && s == a + m + b + tail;
  }

  lemma MimeIsLowerCase(t: ContentType)
    ensures LowerCase(MimeType(t)) && MimeType(t) != ""
  {
  }

  /** Finalize takes a stored content type for a contradiction exactly when it names something,
      and something else than the session's type, up to letter case, white space around it and
      parameters. */
  lemma ContradictsExactly(stored: Option<string>, t: ContentType)
    ensures ContradictsType(stored, t) <==> !TypeFits(stored, MimeType(t))
  {
    hide Trim, ToLower, InAnyCase, Names, LowerCase;
    var mime := MimeType(t);
    MimeIsLowerCase(t);
    if stored.Some? {
      var s := stored.value;
      var m := Trim(s[..IndexOf(s, ';')]);
      LowerSpells(m, mime);
      NormalizedIsNamed(s);
      if Names(s, "") {
        NamesNormalizes(s, "");
      }
      forall m1 | InAnyCase(m1, mime) && Names(s, m1) ensures m == m1 {
        SpellingIsBare(m1, mime);
        NamesNormalizes(s, m1);
      }
    }
  }

  /** Of the three types each fits itself alone. */
  lemma EachTypeFitsItself(t1: ContentType, t2: ContentType)
    ensures TypeFits(Some(MimeType(t1)), MimeType(t2)) <==> t1 == t2
  {
    hide MimeType, Trim, InAnyCase, Bare;
    var mime1, mime2 := MimeType(t1), MimeType(t2);
    MimeIsLowerCase(t1);
    MimeIsLowerCase(t2);
    NamesItself(mime1);
    SpelledByItself(t1, t2);
    SpellingIsBare(mime1, mime1);
    NamesNormalizes(mime1, mime1);
    if Names(mime1, "") { NamesNormalizes(mime1, ""); }
    forall m | InAnyCase(m, mime2) && Names(mime1, m) ensures m == mime1 {
      SpellingIsBare(m, mime2);
      NamesNormalizes(mime1, m);
    }
  }

  lemma NamesItself(m: string)
    ensures Names(m, m) && Bare("") && InAnyCase(m, m)
  {
    assert Blank("") && Parameters("") && m == "" + m + "" + "";
  }

  lemma SpelledByItself(t1: ContentType, t2: ContentType)
    ensures InAnyCase(MimeType(t1), MimeType(t2)) <==> t1 == t2
  {
    if t1 != t2 && |MimeType(t1)| == |MimeType(t2)| {
      assert !Spells(MimeType(t1)[6], MimeType(t2)[6]);
    }
  }
}
