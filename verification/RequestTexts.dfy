/** Image requests on the text of their URLs, and the proof that the parser reads just that. */
module RequestTexts {
  import opened Wrappers
  import opened Text
  import opened Regexes
  import opened ObjectKeys
  import opened Variants
  import opened Requests
  import WorkerKeys

  // ---------- what a URL says ----------

  /** The pathname is `d`, percent-encoded, behind any number of slashes. */
  ghost predicate Decodes(pathname: string, d: string) {
    exists slashes, x :: (forall c | c in slashes :: c == '/') && (x == "" || x[0] != '/') && pathname == slashes + x
      && DecodeComponent(x) == Some(d)
  }

  const VARIANT_NAMES := map[
    "thumb" := Thumb, "w320" := W320, "w640" := W640, "w960" := W960, "w1280" := W1280, "w1600" := W1600,
    "medium" := W640, "large" := W1600]

  /** The part of a path before the object key. */
  function VersionPrefix(version: Option<string>): string {
    if version.Some? then "_v/" + version.value + "/" else ""
  }

  /** The query asks for no variant, or names this one. */
  ghost predicate QueryNames(query: seq<(string, string)>, variant: Option<WebpVariant>) {
    if variant.None? then query == []
    else exists name :: query == [("variant", name)] && name in VARIANT_NAMES && VARIANT_NAMES[name] == variant.value
  }

  /** Behind the version, if any, the path has the key and the query the variant; or the path has
      the key with a size letter, and there is no query. */
  ghost predicate KeyAndVariant(rest: string, query: seq<(string, string)>, p: ParsedRequest) {
    && Canonical(rest)
    && if LegacyForm(rest) then query == [] && p.variant.Some? && SizeLetterOf(rest, p.objectKey, p.variant.value)
       else p.objectKey == rest && QueryNames(query, p.variant)
  }

  /** The URL asks for this key, version and variant. */
  ghost predicate AsksFor(q: ImageRequest, p: ParsedRequest) {
    && (p.version.Some? ==> IsUlid(p.version.value))
    && exists rest :: Decodes(q.pathname, VersionPrefix(p.version) + rest) && KeyAndVariant(rest, q.query, p)
  }

  // ---------- the path ----------

  lemma {:induction false} StripParts(s: string) returns (slashes: string)
    ensures (forall c | c in slashes :: c == '/') && s == slashes + StripLeadingSlashes(s)
    ensures var x := StripLeadingSlashes(s); x == "" || x[0] != '/'
    decreases |s|
  {
    slashes := "";
    if s != "" && s[0] == '/' {
      slashes := StripParts(s[1..]);
      slashes := "/" + slashes;
      assert s == slashes + StripLeadingSlashes(s);
    }
  }

  lemma {:induction false} StripBehind(slashes: string, x: string)
    requires (forall c | c in slashes :: c == '/') && (x == "" || x[0] != '/')
    ensures StripLeadingSlashes(slashes + x) == x
    decreases |slashes|
  {
    if slashes == "" {
      assert slashes + x == x;
    } else {
      assert slashes[0] in slashes && (slashes + x)[1..] == slashes[1..] + x;
      assert forall c | c in slashes[1..] :: c in slashes;
      StripBehind(slashes[1..], x);
    }
  }

  lemma DecodesExactly(pathname: string, d: string)
    ensures DecodeComponent(StripLeadingSlashes(pathname)) == Some(d) <==> Decodes(pathname, d)
  {
    hide DecodeComponent, StripLeadingSlashes;
    var slashes := StripParts(pathname);
    if Decodes(pathname, d) {
      var slashes1, x :| (forall c | c in slashes1 :: c == '/') && (x == "" || x[0] != '/') && pathname == slashes1 + x
        && DecodeComponent(x) == Some(d);
      StripBehind(slashes1, x);
    }
  }

  lemma PathParts(v: string, rest: string)
    requires |v| == 26
    ensures var d := "_v/" + (v + ("/" + rest));
      d == VersionPrefix(Some(v)) + rest && |d| >= 30 && d[3..29] == v && d[30..] == rest
  {
    var d := VersionPrefix(Some(v)) + rest;
    assert d == "_v/" + (v + ("/" + rest));
    assert d[3..29] == v && d[30..] == rest;
  }

  /** The two groups of the pattern. */
  lemma VersionedPathSplits(d: string)
    requires ParseVersionedPath(d).version.Some?
    ensures var path := ParseVersionedPath(d);
      IsUlid(path.version.value) && d == VersionPrefix(path.version) + path.rawObjectKey
  {
    var x, y := Cut(Lit("_v/"), Cat(ULID, Cat(Lit("/"), Plus(Dot))), d);
    var v, z := Cut(ULID, Cat(Lit("/"), Plus(Dot)), y);
    var slash, rest := Cut(Lit("/"), Plus(Dot), z);
    assert x == "_v/" && slash == "/" && |v| == 26;
    PathParts(v, rest);
  }

  /** In front of a canonical key, the path is taken apart as it was put together. */
  lemma PathParses(version: Option<string>, rest: string)
    requires (version.Some? ==> IsUlid(version.value)) && Canonical(rest)
    ensures ParseVersionedPath(VersionPrefix(version) + rest) == ParsedPath(rest, version)
  {
    hide Canonical, IsUlid, ParseVersionedPath;
    if version.Some? {
      CanonicalChars(rest);
      CanonicalNonEmpty(rest);
      VersionedPathParses(version.value, rest);
      ConcatAssoc("_v/", version.value + "/", rest);
      assert "_v/" + version.value + "/" + rest == VersionPrefix(version) + rest;
    } else {
      assert VersionPrefix(version) + rest == rest;
      PlainPathDecodes(rest);
    }
  }

  lemma PathSplits(d: string)
    ensures var path := ParseVersionedPath(d);
      d == VersionPrefix(path.version) + path.rawObjectKey && (path.version.Some? ==> IsUlid(path.version.value))
  {
    hide IsUlid, Matches;
    if ParseVersionedPath(d).version.Some? { VersionedPathSplits(d); }
  }

  // ---------- percent encoding ----------

  const HEX := "0123456789abcdef"
  const HEX_UPPER := "0123456789ABCDEF"

  predicate IsAscii(s: string) { forall c | c in s :: c as int < 128 }

  /** Every character escaped, with these digits. */
  function EscapeAll(s: string, hex: string): string
    requires IsAscii(s) && |hex| == 16
  {
    if s == "" then "" else
    assert s[0] in s && forall c | c in s[1..] :: c in s;
    "%" + [hex[s[0] as int / 16]] + [hex[s[0] as int % 16]] + EscapeAll(s[1..], hex)
  }

  lemma HexDigits(i: nat)
    requires i < 16
    ensures HexValue(HEX[i]) == Some(i) && HexValue(HEX_UPPER[i]) == Some(i)
  {
  }

  lemma HexOnly(c: char)
    ensures HexValue(c).Some? <==> c in HEX || c in HEX_UPPER
    ensures HexValue(c).Some? && HexValue(c).value < 8 <==> c in "01234567"
  {
  }

  lemma EscapeDecodes(hi: char, lo: char, rest: string, c: char)
    requires HexValue(hi).Some? && HexValue(lo).Some? && DecodeComponent(rest).Some?
    requires 16 * HexValue(hi).value + HexValue(lo).value == c as int < 128
    ensures DecodeComponent("%" + [hi] + [lo] + rest) == Some([c] + DecodeComponent(rest).value)
  {
    var e := "%" + [hi] + [lo] + rest;
    assert e[0] == '%' && e[1] == hi && e[2] == lo && e[3..] == rest;
  }

  /** Escapes decode to the characters they stand for, in either case of the hex digits. */
  lemma {:induction false} EscapedDecodes(s: string, hex: string)
    requires IsAscii(s) && hex in [HEX, HEX_UPPER]
    ensures DecodeComponent(EscapeAll(s, hex)) == Some(s)
  {
    hide HexValue;
    if s != "" {
      var c := s[0];
      assert c in s && forall d | d in s[1..] :: d in s;
      EscapedDecodes(s[1..], hex);
      HexDigits(c as int / 16);
      HexDigits(c as int % 16);
      EscapeDecodes(hex[c as int / 16], hex[c as int % 16], EscapeAll(s[1..], hex), c);
      assert s == [c] + s[1..];
    }
  }

  /** A percent sign without two hex digits behind it, for an ASCII character, makes the path
      malformed. */
  lemma {:induction false} MalformedIsRefused(plain: string, tail: string)
    requires '%' !in plain
    requires |tail| < 2 || tail[0] !in "01234567" || (tail[1] !in HEX && tail[1] !in HEX_UPPER)
    ensures DecodeComponent(plain + ("%" + tail)).None?
    decreases |plain|
  {
    hide HexValue;
    var s := plain + ("%" + tail);
    if plain == "" {
      assert s == "%" + tail;
      if |tail| >= 2 {
        HexOnly(tail[0]);
        HexOnly(tail[1]);
      }
    } else {
      assert s[1..] == plain[1..] + ("%" + tail);
      MalformedIsRefused(plain[1..], tail);
    }
  }

  // ---------- alphabets ----------

  const CAPITALS := "ABCDEFGHIJKLMNOPQRSTUVWXYZ"
  const LETTERS := "abcdefghijklmnopqrstuvwxyz"

  /** The characters of a class, one by one. */
  function Alphabet(cls: CharClass): string
    requires cls != Dot
  {
    match cls
    case Word => CAPITALS + LETTERS + "0123456789_-"
    case Digit => "0123456789"
    case NonZero => "123456789"
    case Crockford => "0123456789ABCDEFGHJKMNPQRSTVWXYZ"
    case LegacySize => "io"
  }

  lemma ClassIsAlphabet(cls: CharClass, c: char)
    ensures In(cls, c) <==> if cls == Dot then c !in "\n\r\U{2028}\U{2029}" else c in Alphabet(cls)
  {
    match cls
    case Word => WordAlphabet(c);
    case Crockford => CrockfordAlphabet(c);
    case Digit =>
    case NonZero =>
    case LegacySize =>
    case Dot =>
  }

  lemma WordAlphabet(c: char)
    ensures In(Word, c) <==> c in Alphabet(Word)
  {
    assert 'A' <= c <= 'Z' <==> c in CAPITALS by { IsCapital(c); }
    assert 'a' <= c <= 'z' <==> c in LETTERS by { IsLetter(c); }
    hide CAPITALS, LETTERS;
  }

  lemma IsCapital(c: char)
    ensures 'A' <= c <= 'Z' <==> c in CAPITALS
  {
    hide LETTERS;
  }

  lemma IsLetter(c: char)
    ensures 'a' <= c <= 'z' <==> c in LETTERS
  {
    hide CAPITALS;
  }

  lemma CrockfordAlphabet(c: char)
    ensures In(Crockford, c) <==> c in Alphabet(Crockford)
  {
  }

  lemma AllInAlphabet(cls: CharClass, s: string)
    requires cls != Dot
    ensures AllIn(cls, s) <==> forall c | c in s :: c in Alphabet(cls)
  {
    hide Alphabet, In;
    forall c: char ensures In(cls, c) <==> c in Alphabet(cls) { ClassIsAlphabet(cls, c); }
    assert AllIn(cls, s) ==> forall c | c in s :: c in Alphabet(cls);
    if forall c | c in s :: c in Alphabet(cls) {
      forall i | 0 <= i < |s| ensures In(cls, s[i]) { assert s[i] in s && s[i] in Alphabet(cls); }
      assert AllIn(cls, s);
    }
  }

  /** Segments are words, and version IDs 26 characters of the ULID alphabet. */
  lemma WordsAndUlids(s: string)
    ensures IsValidPathSegment(s) <==> s != "" && forall c | c in s :: c in Alphabet(Word)
    ensures IsUlid(s) <==> |s| == 26 && forall c | c in s :: c in Alphabet(Crockford)
  {
    hide Alphabet, In, AllIn;
    AllInAlphabet(Word, s);
    AllInAlphabet(Crockford, s);
  }

  // ---------- the query ----------

  lemma VariantNames(name: string)
    ensures ParseVariant(name) == if name in VARIANT_NAMES then Some(VARIANT_NAMES[name]) else None
  {
  }

  lemma SizeLetterDetermines(key: string, to1: string, v1: WebpVariant, to2: string, v2: WebpVariant)
    requires SizeLetterOf(key, to1, v1) && SizeLetterOf(key, to2, v2)
    ensures to1 == to2 && v1 == v2
  {
    var a, b := to1[..|to1| - 4], to2[..|to2| - 4];
    assert to1 == a + ".jpg" && to2 == b + ".jpg";
    assert key[..|key| - 5] == a && key[..|key| - 5] == b;
    assert key[|key| - 5] == if v1 == Thumb then 'i' else 'o';
    assert key[|key| - 5] == if v2 == Thumb then 'i' else 'o';
  }

  /** What the parser makes of the rest of a path and the query. */
  lemma RestParses(q: ImageRequest, rest: string, p: ParsedRequest)
    requires var d := DecodeComponent(StripLeadingSlashes(q.pathname));
      d.Some? && ParseVersionedPath(d.value) == ParsedPath(rest, p.version)
    ensures ParseImageRequest(q) == Ok(p) <==> KeyAndVariant(rest, q.query, p)
  {
    hide Canonical, LegacyForm, WorkerKeys.Accepts, ParseVersionedPath, DecodeComponent, StripLeadingSlashes,
      DropSizeLetter, LegacyVariant, SizeLetterOf, ParseVariant;
    WorkerKeys.ParsersAgree(rest);
    if LegacyForm(rest) {
      LegacyRewrite(rest);
      WorkerKeys.ParsersAgree(DropSizeLetter(rest));
      if p.variant.Some? && SizeLetterOf(rest, p.objectKey, p.variant.value) {
        SizeLetterDetermines(rest, p.objectKey, p.variant.value, DropSizeLetter(rest), LegacyVariant(rest));
      }
    } else {
      QueryParses(q.query, p.variant);
    }
  }

  lemma QueryParses(query: seq<(string, string)>, variant: Option<WebpVariant>)
    ensures QueryNames(query, variant) <==>
      if |query| == 0 then variant.None?
      else query[0].0 == "variant" && |query| == 1 && variant.Some? && ParseVariant(query[0].1) == variant
  {
    hide ParseVariant;
    if |query| == 1 {
      VariantNames(query[0].1);
      assert query[0].0 == "variant" ==> query == [("variant", query[0].1)];
    }
  }

  /** The worker takes a request for this key, version and variant exactly when its URL asks for
      them, and refuses every other one. */
  lemma ParseExactly(q: ImageRequest, p: ParsedRequest)
    ensures ParseImageRequest(q) == Ok(p) <==> AsksFor(q, p)
  {
    hide ParseImageRequest, Decodes, KeyAndVariant, VersionPrefix, ParseVersionedPath, IsUlid, DecodeComponent,
      StripLeadingSlashes;
    if ParseImageRequest(q) == Ok(p) {
      var d := ParsedVersion(q, p);
      var rest := ParseVersionedPath(d).rawObjectKey;
      DecodesExactly(q.pathname, d);
      PathSplits(d);
      RestParses(q, rest, p);
    }
    if AsksFor(q, p) {
      var rest :| Decodes(q.pathname, VersionPrefix(p.version) + rest) && KeyAndVariant(rest, q.query, p);
      DecodesExactly(q.pathname, VersionPrefix(p.version) + rest);
      assert Canonical(rest) by { CanonicalRest(rest, q.query, p); }
      PathParses(p.version, rest);
      RestParses(q, rest, p);
    }
  }

  lemma CanonicalRest(rest: string, query: seq<(string, string)>, p: ParsedRequest)
    requires KeyAndVariant(rest, query, p)
    ensures Canonical(rest)
  {
  }

  lemma ParsedVersion(q: ImageRequest, p: ParsedRequest) returns (d: string)
    requires ParseImageRequest(q) == Ok(p)
    ensures DecodeComponent(StripLeadingSlashes(q.pathname)) == Some(d) && p.version == ParseVersionedPath(d).version
  {
    hide LegacyForm, WorkerKeys.Accepts, ParseVersionedPath, DecodeComponent, StripLeadingSlashes, ParseVariant,
      DropSizeLetter, LegacyVariant;
    d := DecodeComponent(StripLeadingSlashes(q.pathname)).value;
  }

  // ---------- versions ----------

  /** The path goes on after `/_v/`, a version and a slash. */
  ghost predicate InVersion(q: ImageRequest, version: string) {
    IsUlid(version) && exists rest :: Decodes(q.pathname, VersionPrefix(Some(version)) + rest)
  }

  lemma DecodesOnce(pathname: string, d: string, d1: string)
    requires Decodes(pathname, d) && Decodes(pathname, d1)
    ensures d == d1
  {
    hide Decodes, DecodeComponent, StripLeadingSlashes;
    DecodesExactly(pathname, d);
    DecodesExactly(pathname, d1);
  }

  /** A request is taken for just the version in its path. */
  lemma VersionIsInPath(q: ImageRequest, version: string)
    requires ParseImageRequest(q).Ok?
    ensures ParseImageRequest(q).value.version == Some(version) <==> InVersion(q, version)
  {
    hide ParseImageRequest, Decodes, KeyAndVariant, IsUlid, Canonical;
    var p := ParseImageRequest(q).value;
    ParseExactly(q, p);
    var rest :| Decodes(q.pathname, VersionPrefix(p.version) + rest) && KeyAndVariant(rest, q.query, p);
    CanonicalRest(rest, q.query, p);
    if InVersion(q, version) {
      var rest1 :| Decodes(q.pathname, VersionPrefix(Some(version)) + rest1);
      DecodesOnce(q.pathname, VersionPrefix(p.version) + rest, VersionPrefix(Some(version)) + rest1);
      SamePrefix(p.version, rest, version, rest1);
    }
  }

  lemma SamePrefix(v: Option<string>, rest: string, v1: string, rest1: string)
    requires VersionPrefix(v) + rest == VersionPrefix(Some(v1)) + rest1
    requires Canonical(rest) && IsUlid(v1) && (v.Some? ==> IsUlid(v.value))
    ensures v == Some(v1)
  {
    hide Canonical;
    var s := VersionPrefix(v) + rest;
    assert s[0] == '_' && s[3..29] == v1;
    if v.Some? {
      assert s[3..29] == v.value;
    } else {
      CanonicalNonEmpty(rest);
      assert false;
    }
  }

  lemma PlainDecodes(path: string)
    requires '%' !in path && path != "" && path[0] != '/'
    ensures Decodes("/" + path, path)
  {
    hide DecodeComponent;
    DecodePlain(path);
    assert (forall c | c in "/" :: c == '/') && "/" + path == "/" + path;
  }

  /** A versioned path, spelled out. */
  lemma PlainPathInVersion(q: ImageRequest, version: string, rest: string)
    requires IsUlid(version) && '%' !in rest && q.pathname == "/_v/" + version + "/" + rest
    ensures InVersion(q, version)
  {
    hide Decodes;
    var path := VersionPrefix(Some(version)) + rest;
    assert '%' !in version;
    assert q.pathname == "/" + path;
    PlainDecodes(path);
  }

  /** What such a path asks for, with and without a variant parameter. */
  lemma PlainPathAsks(version: string, key: string, v: WebpVariant)
    requires IsUlid(version) && Canonical(key) && !LegacyForm(key)
    ensures var path := "/_v/" + version + "/" + key;
      && AsksFor(ImageRequest(Get, path, []), ParsedRequest(key, Some(version), None))
      && AsksFor(ImageRequest(Get, path, [("variant", Name(v))]), ParsedRequest(key, Some(version), Some(v)))
  {
    hide Decodes, LegacyForm, Canonical;
    var path := VersionPrefix(Some(version)) + key;
    CanonicalChars(key);
    assert '%' !in version;
    assert "/_v/" + version + "/" + key == "/" + path;
    PlainDecodes(path);
    NameIsListed(v);
    var q := ImageRequest(Get, "/" + path, [("variant", Name(v))]);
    assert KeyAndVariant(key, q.query, ParsedRequest(key, Some(version), Some(v)));
    assert KeyAndVariant(key, [], ParsedRequest(key, Some(version), None));
  }

  lemma NameIsListed(v: WebpVariant)
    ensures Name(v) in VARIANT_NAMES && VARIANT_NAMES[Name(v)] == v
  {
  }

  /** The public URL spelled out, however many slashes end the base URL. */
  lemma PublicUrlText(origin: string, slashes: string, version: string, key: string)
    requires IsOrigin(origin) && forall c | c in slashes :: c == '/'
    ensures BuildVersionedPublicUrl(origin + slashes, version, key) == origin + "/_v/" + version + "/" + key
  {
    TrimSlashes(origin, slashes);
  }

  /** The public URL of a key with a variant parameter asks for just that variant. */
  lemma PublicVariantParses(origin: string, slashes: string, version: string, key: string, v: WebpVariant)
    requires IsOrigin(origin) && forall c | c in slashes :: c == '/'
    requires IsUlid(version) && Canonical(key) && !LegacyForm(key)
    ensures var path := Pathname(BuildVersionedPublicUrl(origin + slashes, version, key));
      ParseImageRequest(ImageRequest(Get, path, [("variant", Name(v))]))
        == Ok(ParsedRequest(key, Some(version), Some(v)))
  {
    hide IsOrigin, IsUlid, Canonical, LegacyForm, AsksFor, Pathname, BuildVersionedPublicUrl, ParseImageRequest;
    PublicPathname(origin, slashes, version, key);
    assert "/_v/" + version + "/" + key == "/" + ("_v/" + version + "/" + key);
    PlainPathAsks(version, key, v);
    ParseExactly(ImageRequest(Get, "/_v/" + version + "/" + key, [("variant", Name(v))]),
                 ParsedRequest(key, Some(version), Some(v)));
  }

  // ---------- legacy paths ----------

  predicate Digits(s: string) { s != "" && forall c | c in s :: '0' <= c <= '9' }

  /** Digits, and perhaps an underscore and more of them without a leading zero. */
  ghost predicate IsImageNumber(n: string) {
    Digits(n) || exists d, m :: Digits(d) && Digits(m) && m[0] != '0' && n == d + "_" + m
  }

  /** An image number, one of the two size letters, and `.jpg`. */
  ghost predicate IsLegacyName(f: string) {
    exists n :: IsImageNumber(n) && (f == n + "i.jpg" || f == n + "o.jpg")
  }

  lemma NumeralParts(g: string)
    requires Matches(VARIANT_SUFFIX, g)
    ensures g != "" && g[0] == '_' && Digits(g[1..]) && g[1] != '0'
  {
    var u, t := Cut(Lit("_"), Cat(One(NonZero), Star(Digit)), g);
    var z, ds := Cut(One(NonZero), Star(Digit), t);
    assert g[1..] == t && g[1] == z[0];
    assert forall i | 0 <= i < |t| :: '0' <= t[i] <= '9';
  }

  lemma NumeralText(g: string)
    ensures Matches(VARIANT_SUFFIX, g) <==> g != "" && g[0] == '_' && Digits(g[1..]) && g[1] != '0'
  {
    if Matches(VARIANT_SUFFIX, g) { NumeralParts(g); }
    if g != "" && g[0] == '_' && Digits(g[1..]) && g[1] != '0' {
      var t := g[1..];
      assert t[0] in t;
      var ds := t[1..];
      forall i | 0 <= i < |ds| ensures In(Digit, ds[i]) { assert ds[i] == t[i + 1] && t[i + 1] in t; }
      MatchCat(One(NonZero), Star(Digit), [t[0]], ds);
      assert [t[0]] + ds == t;
      MatchCat(Lit("_"), Cat(One(NonZero), Star(Digit)), "_", t);
      assert "_" + t == g;
    }
  }

  lemma DigitsText(d: string)
    ensures Matches(Plus(Digit), d) <==> Digits(d)
  {
    if Digits(d) {
      forall i | 0 <= i < |d| ensures In(Digit, d[i]) { assert d[i] in d; }
    }
  }

  lemma NumberText(n: string)
    ensures Matches(IMAGE_NUMBER, n) <==> IsImageNumber(n)
  {
    if Matches(IMAGE_NUMBER, n) {
      hide Matches;
      var d, g := Cut(Plus(Digit), Opt(VARIANT_SUFFIX), n);
      DigitsText(d);
      if g == "" {
        assert n == d;
      } else {
        OptCases(VARIANT_SUFFIX, g);
        NumeralText(g);
        assert n == d + "_" + g[1..];
      }
    }
    if IsImageNumber(n) { NumberMatches(n); }
  }

  lemma NumberMatches(n: string)
    requires IsImageNumber(n)
    ensures Matches(IMAGE_NUMBER, n)
  {
    hide Matches;
    if Digits(n) {
      DigitsText(n);
      OptEmpty(VARIANT_SUFFIX);
      MatchCat(Plus(Digit), Opt(VARIANT_SUFFIX), n, "");
      assert n + "" == n;
    } else {
      var d, m :| Digits(d) && Digits(m) && m[0] != '0' && n == d + "_" + m;
      var g := "_" + m;
      DigitsText(d);
      assert g[1..] == m;
      NumeralText(g);
      OptMatches(VARIANT_SUFFIX, g);
      MatchCat(Plus(Digit), Opt(VARIANT_SUFFIX), d, g);
      assert n == d + g;
    }
  }

  lemma OptMatches(r: Regex, s: string)
    requires Matches(r, s)
    ensures Matches(Opt(r), s)
  {
  }

  lemma OptEmpty(r: Regex)
    ensures Matches(Opt(r), "")
  {
  }

  lemma LegacyNameText(f: string)
    ensures Matches(LEGACY_TAIL, f) <==> IsLegacyName(f)
  {
    hide IsImageNumber;
    if Matches(LEGACY_TAIL, f) {
      var n, c := LegacyTailParts(f);
      NumberText(n);
      assert c + ".jpg" == if c == "i" then "i.jpg" else "o.jpg";
    }
    if IsLegacyName(f) {
      var n :| IsImageNumber(n) && (f == n + "i.jpg" || f == n + "o.jpg");
      NumberText(n);
      var c := if f == n + "i.jpg" then "i" else "o";
      assert c + ".jpg" == if c == "i" then "i.jpg" else "o.jpg";
      assert Matches(One(LegacySize), c);
      MatchCat(One(LegacySize), Lit(".jpg"), c, ".jpg");
      MatchCat(IMAGE_NUMBER, Cat(One(LegacySize), Lit(".jpg")), n, c + ".jpg");
    }
  }

  /** The legacy form in full: the old or the new path of an auction lot, and a legacy name. */
  lemma LegacyLanguage(key: string)
    ensures var s := Split(key);
      LegacyForm(key) <==>
        && IsLegacyName(s[|s| - 1])
        && ((|s| == 5 && s[0] == "lot_images" && forall i | 1 <= i < 4 :: IsValidPathSegment(s[i]))
            || (|s| == 8 && s[..3] == ["products", "artnet-auctions", "auction-lots"] && s[6] == "images"
                && forall i | 3 <= i < 6 :: IsValidPathSegment(s[i])))
  {
    hide IsLegacyName, LegacyForm, Matches;
    var s := Split(key);
    LegacyFormSegments(key);
    LegacyNameText(s[|s| - 1]);
  }
}
