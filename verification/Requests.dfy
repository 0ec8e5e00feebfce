/** Image requests as the Variant Worker reads them (variant-worker/src/request.ts), and the
    public URLs the Upload Function hands out for them (upload-function/src/app.ts). */
module Requests {
  import opened Wrappers
  import opened Text
  import opened Regexes
  import opened ObjectKeys
  import opened Variants
  import WorkerKeys

  datatype Method = Get | OtherMethod

  /** A request: its method, the pathname of its URL and its query parameters in order. */
  datatype ImageRequest = ImageRequest(verb: Method, pathname: string, query: seq<(string, string)>)

  datatype ParsedRequest = ParsedRequest(objectKey: string, version: Option<string>, variant: Option<WebpVariant>)

  datatype RequestError = InvalidRequest | InvalidVariant

  // ---------- path decoding ----------

  function StripLeadingSlashes(s: string): string {
    if s != "" && s[0] == '/' then StripLeadingSlashes(s[1..]) else s
  }

  function HexValue(c: char): Option<nat> {
    if '0' <= c <= '9' then Some(c as int - '0' as int)
    else if 'a' <= c <= 'f' then Some(c as int - 'a' as int + 10)
    else if 'A' <= c <= 'F' then Some(c as int - 'A' as int + 10)
    else None
  }

  /** `decodeURIComponent` on ASCII escapes; a malformed or a non-ASCII escape has no value. */
  function DecodeComponent(s: string): Option<string> {
    if s == "" then Some("")
    else if s[0] != '%' then
      var rest := DecodeComponent(s[1..]);
      if rest.None? then None else Some([s[0]] + rest.value)
    else if |s| < 3 || HexValue(s[1]).None? || HexValue(s[2]).None? then None
    else
      var code := 16 * HexValue(s[1]).value + HexValue(s[2]).value;
      var rest := DecodeComponent(s[3..]);
      if code >= 128 || rest.None? then None else Some([code as char] + rest.value)
  }

  // ---------- versioned paths ----------

  const ULID := Times(Crockford, 26)
  const VERSIONED_PATH := Cat(Lit("_v/"), Cat(ULID, Cat(Lit("/"), Plus(Dot))))

  predicate IsUlid(s: string) { Matches(ULID, s) }

  datatype ParsedPath = ParsedPath(rawObjectKey: string, version: Option<string>)

  /** `parseVersionedPath`; the two groups of the pattern have fixed positions. */
  function ParseVersionedPath(path: string): ParsedPath {
    if |path| > 30 && Matches(VERSIONED_PATH, path) then ParsedPath(path[30..], Some(path[3..29]))
    else ParsedPath(path, None)
  }

  // ---------- legacy paths ----------

  const IMAGE_NUMBER := Cat(Plus(Digit), Opt(VARIANT_SUFFIX))
  const LEGACY_TAIL := Cat(IMAGE_NUMBER, Cat(One(LegacySize), Lit(".jpg")))
  const LEGACY_IMAGE_PATH := [Lit("lot_images"), SEGMENT, SEGMENT, SEGMENT, LEGACY_TAIL]
  const PRODUCT_AUCTION_LEGACY_IMAGE_PATH :=
    [Lit("products"), Lit("artnet-auctions"), Lit("auction-lots"), SEGMENT, SEGMENT, SEGMENT, Lit("images"),
     LEGACY_TAIL]

  /** `key` has the form of a legacy `<n>i.jpg` or `<n>o.jpg` image path. */
  predicate LegacyForm(key: string) {
    Matches(Path(LEGACY_IMAGE_PATH), key) || Matches(Path(PRODUCT_AUCTION_LEGACY_IMAGE_PATH), key)
  }

  /** The key a legacy path stands for: the size letter before `.jpg` is dropped. */
  function DropSizeLetter(key: string): string {
    if |key| < 5 then key else key[..|key| - 5] + ".jpg"
  }

  function LegacyVariant(key: string): WebpVariant {
    if |key| >= 5 && key[|key| - 5] == 'i' then Thumb else W1600
  }

  // ---------- requests ----------

  /** `parseImageRequest`. */
  function ParseImageRequest(r: ImageRequest): Result<ParsedRequest, RequestError> {
    var decoded := DecodeComponent(StripLeadingSlashes(r.pathname));
    if decoded.None? then Err(InvalidRequest) else
    var path := ParseVersionedPath(decoded.value);
    var legacy := LegacyForm(path.rawObjectKey);
    var legacyKey := DropSizeLetter(path.rawObjectKey);
    if legacy && !WorkerKeys.Accepts(legacyKey) then Err(InvalidRequest)
    else if exists q | q in r.query :: q.0 != "variant" then Err(InvalidVariant)
    else if |r.query| > 1 then Err(InvalidVariant)
    else if legacy && |r.query| == 1 then Err(InvalidVariant)
    else if legacy then Ok(ParsedRequest(legacyKey, path.version, Some(LegacyVariant(path.rawObjectKey))))
    else if !WorkerKeys.Accepts(path.rawObjectKey) then Err(InvalidRequest)
    else if |r.query| == 0 then Ok(ParsedRequest(path.rawObjectKey, path.version, None))
    else
      var variant := ParseVariant(r.query[0].1);
      if variant.None? then Err(InvalidVariant)
      else Ok(ParsedRequest(path.rawObjectKey, path.version, variant))
  }

  // ---------- public URLs ----------

  function TrimTrailingSlash(s: string): string {
    if s != "" && s[|s| - 1] == '/' then TrimTrailingSlash(s[..|s| - 1]) else s
  }

  /** `buildVersionedPublicUrl`. */
  function BuildVersionedPublicUrl(baseUrl: string, version: string, key: string): string {
    TrimTrailingSlash(baseUrl) + ("/" + ("_v/" + version + "/" + key))
  }

  /** `scheme://authority` with nothing after it. */
  predicate IsOrigin(o: string) {
    var i := IndexOf(o, ':');
    && i + 3 < |o|
    && o[i..i + 3] == "://"
    && forall k | i + 3 <= k < |o| :: o[k] != '/' && o[k] != '?' && o[k] != '#'
  }

  /** The pathname of an absolute URL that has neither query nor fragment. */
  function Pathname(url: string): string {
    var i := IndexOf(url, ':');
    if i + 3 > |url| then "" else
    var rest := url[i + 3..];
    rest[IndexOf(rest, '/')..]
  }

  // ---------- proofs ----------

  lemma {:induction false} DecodePlain(s: string)
    requires '%' !in s
    ensures DecodeComponent(s) == Some(s)
  {
    if s != "" {
      DecodePlain(s[1..]);
      assert s == [s[0]] + s[1..];
    }
  }

  lemma {:induction false} TrimSlashes(o: string, slashes: string)
    requires o != "" && o[|o| - 1] != '/'
    requires forall c | c in slashes :: c == '/'
    ensures TrimTrailingSlash(o + slashes) == o
  {
    var s := o + slashes;
    if slashes == "" {
      assert s == o;
    } else {
      var fewer := slashes[..|slashes| - 1];
      assert s[|s| - 1] == slashes[|slashes| - 1] && slashes[|slashes| - 1] in slashes;
      assert s[..|s| - 1] == o + fewer;
      assert forall c | c in fewer :: c in slashes;
      TrimSlashes(o, fewer);
    }
  }

  lemma OriginPathname(o: string, path: string)
    requires IsOrigin(o) && path != "" && path[0] == '/'
    ensures Pathname(o + path) == path
  {
    var url := o + path;
    var i := IndexOf(o, ':');
    assert url[..i] == o[..i];
    IndexOfUnique(url, ':', i);
    var rest := url[i + 3..];
    var n := |o| - (i + 3);
    assert rest == o[i + 3..] + path;
    assert rest[..n] == o[i + 3..];
    IndexOfUnique(rest, '/', n);
    assert rest[n..] == path;
  }

  predicate KeyChars(s: string) {
    forall i | 0 <= i < |s| :: In(Word, s[i]) || s[i] == '/' || s[i] == '.'
  }

  lemma {:induction false} JoinKeyChars(parts: seq<string>)
    requires |parts| >= 1
    requires forall p | p in parts :: KeyChars(p)
    ensures KeyChars(Join(parts))
  {
    assert parts[0] in parts;
    if |parts| > 1 {
      assert forall p | p in parts[1..] :: p in parts;
      JoinKeyChars(parts[1..]);
    }
  }

  lemma FilenameChars(f: string)
    requires IsValidImageFilename(f)
    ensures KeyChars(f)
  {
    var base, t := FilenameParts(f);
  }

  lemma CanonicalChars(key: string)
    requires Canonical(key)
    ensures KeyChars(key) && '%' !in key && AllIn(Dot, key)
  {
    hide Canonical;
    var s := Split(key);
    SegmentChars(key);
    JoinKeyChars(s);
    JoinSplit(key);
  }

  lemma SegmentChars(key: string)
    requires Canonical(key)
    ensures forall p | p in Split(key) :: KeyChars(p)
  {
    hide Canonical, IsValidImageFilename, WorkerKeys.IsLegacy, WorkerKeys.IsGallery, WorkerKeys.IsAuctionLot,
      WorkerKeys.IsPdb;
    WorkerKeys.CanonicalShape(key);
    LastSegment(key);
    var s := Split(key);
    FilenameChars(s[|s| - 1]);
    OtherSegments(s);
  }

  /** Every segment but the filename is a word. */
  lemma OtherSegments(s: seq<string>)
    requires WorkerKeys.IsLegacy(s) || WorkerKeys.IsGallery(s) || WorkerKeys.IsAuctionLot(s) || WorkerKeys.IsPdb(s)
    ensures forall i | 0 <= i < |s| - 1 :: KeyChars(s[i])
  {
  }

  /** A versioned path parses back into its version and key. */
  lemma VersionedPathParses(version: string, key: string)
    requires IsUlid(version) && key != "" && AllIn(Dot, key)
    ensures ParseVersionedPath("_v/" + version + "/" + key) == ParsedPath(key, Some(version))
  {
    var path := "_v/" + version + "/" + key;
    MatchCat(Lit("/"), Plus(Dot), "/", key);
    MatchCat(ULID, Cat(Lit("/"), Plus(Dot)), version, "/" + key);
    MatchCat(Lit("_v/"), Cat(ULID, Cat(Lit("/"), Plus(Dot))), "_v/", version + ("/" + key));
    assert path == "_v/" + (version + ("/" + key));
    assert path[3..29] == version && path[30..] == key;
  }

  // ---------- legacy keys ----------

  predicate LegacySegments(s: seq<string>) {
    && |s| >= 1
    && Matches(LEGACY_TAIL, s[|s| - 1])
    && LegacyFront(s)
  }

  predicate LotImagesFront(s: seq<string>) {
    |s| == 5 && s[0] == "lot_images" && Matches(SEGMENT, s[1]) && Matches(SEGMENT, s[2]) && Matches(SEGMENT, s[3])
  }

  predicate AuctionLotFront(s: seq<string>) {
    |s| == 8 && s[0] == "products" && s[1] == "artnet-auctions" && s[2] == "auction-lots" && s[6] == "images" &&
    Matches(SEGMENT, s[3]) && Matches(SEGMENT, s[4]) && Matches(SEGMENT, s[5])
  }

  /** All segments but the last are those of a legacy or of an auction-lot layout. */
  predicate LegacyFront(s: seq<string>) { LotImagesFront(s) || AuctionLotFront(s) }

  lemma LegacyTailSlashFree()
    ensures SlashFree(LEGACY_TAIL)
  {
    WorkerKeys.SuffixSlashFree();
    assert SlashFree(Opt(VARIANT_SUFFIX));
    assert SlashFree(IMAGE_NUMBER) && SlashFree(Cat(One(LegacySize), Lit(".jpg")));
  }

  lemma LegacyFormSegments(key: string)
    ensures LegacyForm(key) <==> LegacySegments(Split(key))
  {
    hide Matches, LotImagesFront, AuctionLotFront;
    LegacyImageShape(key);
    ProductLegacyShape(key);
  }

  lemma LegacyImageShape(key: string)
    ensures var s := Split(key); Matches(Path(LEGACY_IMAGE_PATH), key) <==>
      LotImagesFront(s) && Matches(LEGACY_TAIL, s[|s| - 1])
  {
    hide Matches, LotImagesFront;
    LegacyTailSlashFree();
    PathIsSplit(LEGACY_IMAGE_PATH, key);
    LegacyImageSegments(Split(key));
  }

  lemma ProductLegacySlashFree()
    ensures forall i | 0 <= i < |PRODUCT_AUCTION_LEGACY_IMAGE_PATH| :: SlashFree(PRODUCT_AUCTION_LEGACY_IMAGE_PATH[i])
  {
    LegacyTailSlashFree();
    LettersSlashFree();
    hide SlashFree;
  }

  lemma LettersSlashFree()
    ensures SlashFree(Lit("products")) && SlashFree(Lit("artnet-auctions")) && SlashFree(Lit("auction-lots"))
    ensures SlashFree(Lit("images")) && SlashFree(SEGMENT)
  {
  }

  lemma ProductLegacyShape(key: string)
    ensures var s := Split(key);
      Matches(Path(PRODUCT_AUCTION_LEGACY_IMAGE_PATH), key) <==> AuctionLotFront(s) && Matches(LEGACY_TAIL, s[|s| - 1])
  {
    hide Matches, AuctionLotFront, SlashFree;
    ProductLegacySlashFree();
    PathIsSplit(PRODUCT_AUCTION_LEGACY_IMAGE_PATH, key);
    ProductLegacySegments(Split(key));
  }

  lemma LegacyImageSegments(s: seq<string>)
    requires |s| >= 1
    ensures SegmentsMatch(LEGACY_IMAGE_PATH, s) <==> LotImagesFront(s) && Matches(LEGACY_TAIL, s[|s| - 1])
  {
  }

  lemma ProductLegacySegments(s: seq<string>)
    requires |s| >= 1
    ensures SegmentsMatch(PRODUCT_AUCTION_LEGACY_IMAGE_PATH, s) <==>
      AuctionLotFront(s) && Matches(LEGACY_TAIL, s[|s| - 1])
  {
  }

  /** An image number is a word that ends in a digit. */
  lemma ImageNumber(n: string)
    requires Matches(IMAGE_NUMBER, n)
    ensures IsValidPathSegment(n) && In(Digit, n[|n| - 1])
  {
    hide Matches;
    var d, g := Cut(Plus(Digit), Opt(VARIANT_SUFFIX), n);
    DigitsAreWord(d);
    if g == "" {
      assert n == d;
    } else {
      assert Matches(VARIANT_SUFFIX, g) by { OptCases(VARIANT_SUFFIX, g); }
      SuffixIsWord(g);
      SuffixEndsInDigit(g);
      WordConcat(d, g);
      assert n[|n| - 1] == g[|g| - 1];
    }
  }

  lemma OptCases(r: Regex, s: string)
    requires Matches(Opt(r), s) && s != ""
    ensures Matches(r, s)
  {
  }

  lemma DigitsAreWord(d: string)
    requires Matches(Plus(Digit), d)
    ensures IsValidPathSegment(d) && In(Digit, d[|d| - 1])
  {
  }

  lemma SuffixEndsInDigit(g: string)
    requires Matches(VARIANT_SUFFIX, g)
    ensures g != "" && In(Digit, g[|g| - 1])
  {
    var u, t := Cut(Lit("_"), Cat(One(NonZero), Star(Digit)), g);
    var z, ds := Cut(One(NonZero), Star(Digit), t);
    assert g[|g| - 1] == t[|t| - 1];
  }

  lemma LegacyTailParts(f: string) returns (n: string, c: string)
    requires Matches(LEGACY_TAIL, f)
    ensures f == n + (c + ".jpg") && Matches(IMAGE_NUMBER, n) && (c == "i" || c == "o")
  {
    var rest, jpg;
    n, rest := Cut(IMAGE_NUMBER, Cat(One(LegacySize), Lit(".jpg")), f);
    c, jpg := Cut(One(LegacySize), Lit(".jpg"), rest);
  }

  /** A legacy path is a path `a` up to its image number, a size letter and `.jpg`. */
  lemma LegacyParts(key: string) returns (a: string, c: string)
    requires LegacyForm(key)
    ensures key == a + (c + ".jpg") && (c == "i" || c == "o")
    ensures var s := Split(a); Matches(IMAGE_NUMBER, s[|s| - 1]) && Split(key) == ExtendLast(s, c + ".jpg")
  {
    hide Matches, LegacyForm, LegacyFront, Split;
    LegacyFormSegments(key);
    var s := Split(key);
    var n;
    n, c := LegacyTailParts(s[|s| - 1]);
    JoinSplit(key);
    var front := JoinEndsWithLast(s);
    a := front + n;
    ConcatAssoc(front, n, c + ".jpg");
    SplitAppend(a, c + ".jpg");
    CancelSuffix(Split(a)[|Split(a)| - 1], n, c + ".jpg");
  }

  lemma DropFromParts(a: string, c: string)
    requires |c| == 1
    ensures DropSizeLetter(a + (c + ".jpg")) == a + ".jpg"
  {
    var key := a + (c + ".jpg");
    assert key[..|key| - 5] == a;
  }

  lemma ExtendedFront(s: seq<string>, x: string, y: string)
    requires |s| >= 1 && LegacyFront(ExtendLast(s, x))
    ensures LegacyFront(ExtendLast(s, y))
    ensures forall i | 0 <= i < |s| - 1 :: ExtendLast(s, x)[i] == ExtendLast(s, y)[i]
  {
  }

  /** A number, with or without its size letter, makes a filename. */
  lemma NumberFilenames(n: string, c: string)
    requires Matches(IMAGE_NUMBER, n) && (c == "i" || c == "o")
    ensures IsValidImageFilename(n + ".jpg") && IsValidImageFilename(n + (c + ".jpg"))
  {
    hide IsValidImageFilename;
    ImageNumber(n);
    assert "." + Extension(Jpeg) == ".jpg";
    WordMakesFilename(n, Jpeg);
    ConcatAssoc(n, ".", "jpg");
    assert IsValidPathSegment(n + c);
    WordMakesFilename(n + c, Jpeg);
    ConcatAssoc(n + c, ".", "jpg");
    ConcatAssoc(n, c, ".jpg");
  }

  /** `key` is `to` with a size letter before its extension: `i` for the thumbnail, `o` for
      the largest variant. */
  predicate SizeLetterOf(key: string, to: string, v: WebpVariant) {
    && EndsWith(to, ".jpg")
    && ((key == to[..|to| - 4] + "i.jpg" && v == Thumb) || (key == to[..|to| - 4] + "o.jpg" && v == W1600))
  }

  lemma SizeLetter(a: string, c: string)
    requires c == "i" || c == "o"
    ensures SizeLetterOf(a + (c + ".jpg"), a + ".jpg", LegacyVariant(a + (c + ".jpg")))
  {
    var to := a + ".jpg";
    assert to[..|to| - 4] == a && to[|to| - 4..] == ".jpg";
    assert "i" + ".jpg" == "i.jpg" && "o" + ".jpg" == "o.jpg";
    var key := a + (c + ".jpg");
    assert key[|key| - 5] == c[0];
  }

  /** The key behind a legacy path is canonical, belongs to the same lot, and is not itself
      a legacy path, so the rewrite happens once. */
  lemma LegacyRewrite(key: string)
    requires LegacyForm(key)
    ensures SizeLetterOf(key, DropSizeLetter(key), LegacyVariant(key))
    ensures Canonical(DropSizeLetter(key)) && Canonical(key)
    ensures ParseObjectKeyDetails(DropSizeLetter(key)) == ParseObjectKeyDetails(key)
    ensures !LegacyForm(DropSizeLetter(key))
  {
    hide LegacyForm, Canonical, Matches, IsValidImageFilename, LegacyFront, Split, DropSizeLetter, SizeLetterOf,
      LegacyVariant;
    var a, c := LegacyParts(key);
    SizeLetter(a, c);
    var s := Split(a);
    var n := s[|s| - 1];
    LegacyFormSegments(key);
    DropFromParts(a, c);
    SplitAppend(a, ".jpg");
    NumberFilenames(n, c);
    ExtendedFront(s, c + ".jpg", ".jpg");
    NumberIsNoLegacyTail(n);
    LegacyFormSegments(a + ".jpg");
    FrontMakesCanonical(a + ".jpg");
    FrontMakesCanonical(key);
  }

  /** Which built keys have the legacy form: a JPEG of an auction lot whose image ID and suffix
      spell an image number and a size letter. */
  lemma BuiltLegacyForm(i: BuildInput)
    requires BuildObjectKey(i).Ok?
    ensures LegacyForm(BuildObjectKey(i).value) <==>
      i.entity.AuctionLot? && i.contentType == Jpeg
        && Matches(Cat(IMAGE_NUMBER, One(LegacySize)), i.imageId + SuffixText(i.suffix))
  {
    hide LegacyForm, Canonical, Matches, Split, IsValidImageFilename;
    BuildThenParse(i);
    KeySegments(i);
    LegacyFormSegments(BuildObjectKey(i).value);
    LegacyFilename(i.imageId + SuffixText(i.suffix), i.contentType);
  }

  lemma LegacyFilename(base: string, t: ContentType)
    ensures Matches(LEGACY_TAIL, base + "." + Extension(t)) <==>
      t == Jpeg && Matches(Cat(IMAGE_NUMBER, One(LegacySize)), base)
  {
    var f := base + "." + Extension(t);
    if Matches(LEGACY_TAIL, f) {
      var n, c := LegacyTailParts(f);
      ConcatAssoc(n, c, ".jpg");
      assert f[|f| - 4..] == ".jpg" && f[|f| - 3] == 'j';
      assert t == Jpeg;
      ConcatAssoc(base, ".", "jpg");
      CancelSuffix(base, n + c, ".jpg");
      MatchCat(IMAGE_NUMBER, One(LegacySize), n, c);
    }
    if t == Jpeg && Matches(Cat(IMAGE_NUMBER, One(LegacySize)), base) {
      var n, c := Cut(IMAGE_NUMBER, One(LegacySize), base);
      MatchCat(One(LegacySize), Lit(".jpg"), c, ".jpg");
      MatchCat(IMAGE_NUMBER, Cat(One(LegacySize), Lit(".jpg")), n, c + ".jpg");
      ConcatAssoc(n, c, ".jpg");
      ConcatAssoc(base, ".", "jpg");
      assert "." + "jpg" == ".jpg";
      assert f == n + (c + ".jpg");
    }
  }

  lemma NumberIsNoLegacyTail(n: string)
    requires Matches(IMAGE_NUMBER, n)
    ensures !Matches(LEGACY_TAIL, n + ".jpg")
  {
    ImageNumber(n);
    if Matches(LEGACY_TAIL, n + ".jpg") {
      var m, c := LegacyTailParts(n + ".jpg");
      ConcatAssoc(m, c, ".jpg");
      CancelSuffix(n, m + c, ".jpg");
      assert false;
    }
  }

  lemma FrontMakesCanonical(key: string)
    requires LegacyFront(Split(key))
    requires var s := Split(key); IsValidImageFilename(s[|s| - 1])
    ensures Canonical(key)
    ensures var s := Split(key); ParseObjectKeyDetails(key) == Ok(
      if |s| == 5 then KeyDetails(LegacyLayout, AuctionLot(s[1], s[2], s[3]))
      else KeyDetails(ProductLayout, AuctionLot(s[3], s[4], s[5])))
  {
    WorkerKeys.CanonicalShape(key);
  }

  // ---------- the round trip ----------

  lemma PublicPathname(origin: string, slashes: string, version: string, key: string)
    requires IsOrigin(origin) && forall c | c in slashes :: c == '/'
    ensures Pathname(BuildVersionedPublicUrl(origin + slashes, version, key)) == "/" + ("_v/" + version + "/" + key)
  {
    TrimSlashes(origin, slashes);
    OriginPathname(origin, "/" + ("_v/" + version + "/" + key));
  }

  lemma PublicPathDecodes(version: string, key: string)
    requires IsUlid(version) && Canonical(key)
    ensures var path := "_v/" + version + "/" + key;
      DecodeComponent(StripLeadingSlashes("/" + path)) == Some(path)
    ensures ParseVersionedPath("_v/" + version + "/" + key) == ParsedPath(key, Some(version))
  {
    hide Canonical;
    var path := "_v/" + version + "/" + key;
    CanonicalChars(key);
    CanonicalNonEmpty(key);
    VersionedPathParses(version, key);
    assert ("/" + path)[1..] == path && path[0] == '_';
    assert StripLeadingSlashes("/" + path) == StripLeadingSlashes(path) == path;
    assert '%' !in version;
    DecodePlain(path);
  }

  /** The public URL of a key leads the worker back to exactly that key and version, unless
      the key has the legacy form; then it leads to the key of the same lot without the size
      letter, which is never of the legacy form again. */
  lemma PublicUrlRoundTrip(origin: string, slashes: string, version: string, key: string)
    requires IsOrigin(origin) && forall c | c in slashes :: c == '/'
    requires IsUlid(version) && Canonical(key)
    ensures var url := BuildVersionedPublicUrl(origin + slashes, version, key);
      var parsed := ParseImageRequest(ImageRequest(Get, Pathname(url), []));
      && parsed.Ok? && parsed.value.version == Some(version)
      && (parsed.value == ParsedRequest(key, Some(version), None) <==> !LegacyForm(key))
      && (LegacyForm(key) ==>
            && parsed.value.variant.Some? && SizeLetterOf(key, parsed.value.objectKey, parsed.value.variant.value)
            && ParseObjectKeyDetails(parsed.value.objectKey) == ParseObjectKeyDetails(key)
            && !LegacyForm(parsed.value.objectKey))
  {
    hide Canonical, LegacyForm, WorkerKeys.Accepts, ParseVersionedPath, Matches, Pathname, BuildVersionedPublicUrl,
      DecodeComponent, DropSizeLetter, SizeLetterOf, LegacyVariant, StripLeadingSlashes, ParseObjectKeyDetails;
    PublicPathname(origin, slashes, version, key);
    PublicPathDecodes(version, key);
    WorkerKeys.ParsersAgree(key);
    if LegacyForm(key) {
      LegacyRewrite(key);
      WorkerKeys.ParsersAgree(DropSizeLetter(key));
    }
  }

  /** A plain path and a variant parameter ask for just that variant of just that key. */
  lemma UnversionedRequestParses(key: string, v: WebpVariant)
    requires Canonical(key) && !LegacyForm(key)
    ensures ParseImageRequest(ImageRequest(Get, "/" + key, [("variant", Name(v))]))
         == Ok(ParsedRequest(key, None, Some(v)))
  {
    hide Canonical, LegacyForm, WorkerKeys.Accepts, Matches, DecodeComponent, StripLeadingSlashes;
    PlainPathDecodes(key);
    WorkerKeys.ParsersAgree(key);
    NameParses(v);
  }

  /** And without the parameter, for the original. */
  lemma PlainRequestParses(key: string)
    requires Canonical(key) && !LegacyForm(key)
    ensures ParseImageRequest(ImageRequest(Get, "/" + key, [])) == Ok(ParsedRequest(key, None, None))
  {
    hide Canonical, LegacyForm, WorkerKeys.Accepts, Matches, DecodeComponent, StripLeadingSlashes;
    PlainPathDecodes(key);
    WorkerKeys.ParsersAgree(key);
  }

  lemma NameParses(v: WebpVariant)
    ensures ParseVariant(Name(v)) == Some(v)
  {
  }

  lemma PlainPathDecodes(key: string)
    requires Canonical(key)
    ensures DecodeComponent(StripLeadingSlashes("/" + key)) == Some(key)
    ensures ParseVersionedPath(key) == ParsedPath(key, None)
  {
    hide Canonical;
    CanonicalChars(key);
    CanonicalNonEmpty(key);
    assert ("/" + key)[1..] == key;
    assert StripLeadingSlashes("/" + key) == StripLeadingSlashes(key) == key;
    DecodePlain(key);
    if Matches(VERSIONED_PATH, key) {
      VersionedPathStart(key);
      assert false;
    }
  }

  lemma VersionedPathStart(path: string)
    requires Matches(VERSIONED_PATH, path)
    ensures path != "" && path[0] == '_'
  {
    var x, y := Cut(Lit("_v/"), Cat(ULID, Cat(Lit("/"), Plus(Dot))), path);
  }
}
