/** Canonical object keys as the Upload Function builds and parses them
    (upload-function/src/object-key.ts). */
module ObjectKeys {
  import opened Wrappers
  import opened Errors
  import opened Text
  import opened Regexes

  datatype ContentType = Jpeg | Png | Webp

  function Extension(t: ContentType): string {
    match t
    case Jpeg => "jpg"
    case Png => "png"
    case Webp => "webp"
  }

  datatype ProductId = Galleries | ArtnetAuctions | Pdb

  datatype Entity =
    | GalleryArtwork(galleryId: string, artworkId: string)
    | AuctionLot(auctionHouseId: string, auctionDate: string, lotId: string)
    | PdbArtwork(pdbArtworkId: string)

  datatype Layout = ProductLayout | LegacyLayout

  datatype KeyDetails = KeyDetails(layout: Layout, entity: Entity)

  function ProductOf(e: Entity): ProductId {
    match e
    case GalleryArtwork(_, _) => Galleries
    case AuctionLot(_, _, _) => ArtnetAuctions
    case PdbArtwork(_) => Pdb
  }

  function AuctionHouseOf(e: Entity): Option<string> {
    if e.AuctionLot? then Some(e.auctionHouseId) else None
  }

  const SEGMENT := Plus(Word)
  const VARIANT_SUFFIX := Cat(Lit("_"), Cat(One(NonZero), Star(Digit)))
  const EXTENSION := Alt(Lit("jpg"), Alt(Lit("png"), Lit("webp")))
  const DOT_EXTENSION := Cat(Lit("."), EXTENSION)
  const IMAGE_FILENAME := Cat(Plus(Word), Cat(Opt(VARIANT_SUFFIX), DOT_EXTENSION))
  const LEGACY_SEGMENTS := [Lit("lot_images"), SEGMENT, SEGMENT, SEGMENT, IMAGE_FILENAME]
  const LEGACY_OBJECT_KEY := Path(LEGACY_SEGMENTS)

  predicate IsValidPathSegment(s: string) { Matches(SEGMENT, s) }

  predicate IsValidImageFilename(s: string) { Matches(IMAGE_FILENAME, s) }

  /** `parseObjectKeyDetails`. */
  function ParseObjectKeyDetails(value: string): Result<KeyDetails, ErrorCode> {
    var segments := Split(value);
    if segments[0] == "products" then
      ParseProductObjectKey(segments)
    else if Matches(LEGACY_OBJECT_KEY, value) && |segments| >= 4 then
      Ok(KeyDetails(LegacyLayout, AuctionLot(segments[1], segments[2], segments[3])))
    else
      Err(InvalidRequest)
  }

  function ParseProductObjectKey(s: seq<string>): Result<KeyDetails, ErrorCode> {
    if |s| == 7 && s[1] == "galleries" && s[2] == "artworks" && s[5] == "images" &&
       IsValidPathSegment(s[3]) && IsValidPathSegment(s[4]) && IsValidImageFilename(s[6]) then
      Ok(KeyDetails(ProductLayout, GalleryArtwork(s[3], s[4])))
    else if |s| == 8 && s[1] == "artnet-auctions" && s[2] == "auction-lots" && s[6] == "images" &&
            IsValidPathSegment(s[3]) && IsValidPathSegment(s[4]) && IsValidPathSegment(s[5]) &&
            IsValidImageFilename(s[7]) then
      Ok(KeyDetails(ProductLayout, AuctionLot(s[3], s[4], s[5])))
    else if |s| == 6 && s[1] == "pdb" && s[2] == "artworks" && s[4] == "images" &&
            IsValidPathSegment(s[3]) && IsValidImageFilename(s[5]) then
      Ok(KeyDetails(ProductLayout, PdbArtwork(s[3])))
    else
      Err(InvalidRequest)
  }

  /** `value` is a canonical object key: `parseObjectKey` does not throw on it. */
  predicate Canonical(value: string) { ParseObjectKeyDetails(value).Ok? }

  /** The product entity a canonical key belongs to. */
  function EntityOf(key: string): Entity
    requires Canonical(key)
  {
    ParseObjectKeyDetails(key).value.entity
  }

  datatype BuildInput = BuildInput(entity: Entity, imageId: string, suffix: Option<string>, contentType: ContentType)

  predicate ValidEntity(e: Entity) {
    match e
    case GalleryArtwork(g, a) => IsValidPathSegment(g) && IsValidPathSegment(a)
    case AuctionLot(h, d, l) => IsValidPathSegment(h) && IsValidPathSegment(d) && IsValidPathSegment(l)
    case PdbArtwork(p) => IsValidPathSegment(p)
  }

  predicate ValidSuffix(s: Option<string>) { s.None? || Matches(VARIANT_SUFFIX, s.value) }

  function SuffixText(s: Option<string>): string { if s.Some? then s.value else "" }

  function EntitySegments(e: Entity): (r: seq<string>)
    ensures |r| >= 5
  {
    match e
    case GalleryArtwork(g, a) => ["products", "galleries", "artworks", g, a, "images"]
    case AuctionLot(h, d, l) => ["products", "artnet-auctions", "auction-lots", h, d, l, "images"]
    case PdbArtwork(p) => ["products", "pdb", "artworks", p, "images"]
  }

  function Filename(i: BuildInput): string {
    i.imageId + SuffixText(i.suffix) + "." + Extension(i.contentType)
  }

  /** `buildObjectKey`, which ends by parsing what it built. */
  function BuildObjectKey(i: BuildInput): Result<string, ErrorCode> {
    if !IsValidPathSegment(i.imageId) || !ValidSuffix(i.suffix) || !ValidEntity(i.entity) then
      Err(InvalidRequest)
    else
      var key := Join(EntitySegments(i.entity) + [Filename(i)]);
      if Canonical(key) then Ok(key) else Err(InvalidRequest)
  }

  // ---------- filenames ----------

  predicate EndsWith(s: string, t: string) { |t| <= |s| && s[|s| - |t|..] == t }

  function ExtensionLength(s: string): (n: nat)
    ensures n <= |s|
  {
    if EndsWith(s, ".jpg") || EndsWith(s, ".png") then 4 else if EndsWith(s, ".webp") then 5 else 0
  }

  /** `s.replace(/\.(?:jpg|png|webp)$/, '')`. */
  function StripExtension(s: string): string { s[..|s| - ExtensionLength(s)] }

  lemma ExtensionMatches(t: ContentType)
    ensures Matches(EXTENSION, Extension(t))
  {
  }

  lemma ExtensionCases(s: string) returns (t: ContentType)
    requires Matches(EXTENSION, s)
    ensures s == Extension(t)
  {
    t := if Matches(Lit("jpg"), s) then Jpeg else if Matches(Lit("png"), s) then Png else Webp;
    assert t == Webp ==> Matches(Alt(Lit("png"), Lit("webp")), s);
  }

  lemma DotExtensionCases(s: string) returns (t: ContentType)
    requires Matches(DOT_EXTENSION, s)
    ensures s == "." + Extension(t)
  {
    var dot, ext := Cut(Lit("."), EXTENSION, s);
    t := ExtensionCases(ext);
  }

  lemma DotExtensionMatches(t: ContentType)
    ensures Matches(DOT_EXTENSION, "." + Extension(t))
  {
    ExtensionMatches(t);
    MatchCat(Lit("."), EXTENSION, ".", Extension(t));
  }

  lemma EndsWithSuffix(base: string, t: string)
    ensures EndsWith(base + t, t)
  {
  }

  lemma LastCharDiffers(s: string, t: string)
    requires |s| > 0 && |t| > 0 && s[|s| - 1] != t[|t| - 1]
    ensures !EndsWith(s, t)
  {
    assert |t| <= |s| ==> s[|s| - |t|..][|t| - 1] == s[|s| - 1];
  }

  lemma StripShort(base: string, tail: string)
    requires tail == ".jpg" || tail == ".png"
    ensures StripExtension(base + tail) == base && ExtensionLength(base + tail) == 4
  {
    EndsWithSuffix(base, tail);
    assert (base + tail)[..|base|] == base;
  }

  lemma StripWebp(base: string)
    ensures StripExtension(base + ".webp") == base && ExtensionLength(base + ".webp") == 5
  {
    var s := base + ".webp";
    EndsWithSuffix(base, ".webp");
    assert s[|s| - 1] == ".webp"[4];
    LastCharDiffers(s, ".jpg");
    LastCharDiffers(s, ".png");
    assert s[..|base|] == base;
  }

  lemma StripFilename(base: string, t: ContentType)
    ensures StripExtension(base + "." + Extension(t)) == base
    ensures ExtensionLength(base + "." + Extension(t)) != 0
  {
    ConcatAssoc(base, ".", Extension(t));
    match t
    case Jpeg => StripShort(base, ".jpg"); assert "." + Extension(t) == ".jpg";
    case Png => StripShort(base, ".png"); assert "." + Extension(t) == ".png";
    case Webp => StripWebp(base); assert "." + Extension(t) == ".webp";
  }

  /** Every accepted filename is a word, a dot and one of the three extensions. */
  lemma FilenameParts(f: string) returns (base: string, t: ContentType)
    requires IsValidImageFilename(f)
    ensures f == base + "." + Extension(t) && IsValidPathSegment(base)
  {
    var head, rest := Cut(Plus(Word), Cat(Opt(VARIANT_SUFFIX), DOT_EXTENSION), f);
    var group, tail := Cut(Opt(VARIANT_SUFFIX), DOT_EXTENSION, rest);
    t := DotExtensionCases(tail);
    OptionalSuffixIsWord(group);
    base := head + group;
    WordConcat(head, group);
    ConcatAssoc(head, group, "." + Extension(t));
    ConcatAssoc(base, ".", Extension(t));
  }

  lemma WordConcat(a: string, b: string)
    requires IsValidPathSegment(a) && AllIn(Word, b)
    ensures IsValidPathSegment(a + b)
  {
  }

  lemma SuffixIsWord(s: string)
    requires Matches(VARIANT_SUFFIX, s)
    ensures AllIn(Word, s)
  {
    var u, t := Cut(Lit("_"), Cat(One(NonZero), Star(Digit)), s);
    NumeralIsWord(t);
  }

  lemma NumeralIsWord(s: string)
    requires Matches(Cat(One(NonZero), Star(Digit)), s)
    ensures AllIn(Word, s)
  {
    var d, ds := Cut(One(NonZero), Star(Digit), s);
  }

  lemma OptionalSuffixIsWord(s: string)
    requires Matches(Opt(VARIANT_SUFFIX), s)
    ensures AllIn(Word, s)
  {
    if s != "" { SuffixIsWord(s); }
  }

  lemma WordMakesFilename(base: string, t: ContentType)
    requires IsValidPathSegment(base)
    ensures IsValidImageFilename(base + "." + Extension(t))
  {
    var ext := "." + Extension(t);
    DotExtensionMatches(t);
    MatchCat(Opt(VARIANT_SUFFIX), DOT_EXTENSION, "", ext);
    assert "" + ext == ext;
    MatchCat(Plus(Word), Cat(Opt(VARIANT_SUFFIX), DOT_EXTENSION), base, ext);
    ConcatAssoc(base, ".", Extension(t));
  }

  /** The filename language in closed form: a word, then one of the three extensions. */
  lemma FilenameLanguage(f: string)
    ensures IsValidImageFilename(f) <==> ExtensionLength(f) != 0 && IsValidPathSegment(StripExtension(f))
  {
    if IsValidImageFilename(f) {
      var base, t := FilenameParts(f);
      StripFilename(base, t);
    }
    if ExtensionLength(f) != 0 && IsValidPathSegment(StripExtension(f)) {
      var t := ExtensionSplit(f);
      WordMakesFilename(StripExtension(f), t);
    }
  }

  lemma ExtensionSplit(f: string) returns (t: ContentType)
    requires ExtensionLength(f) != 0
    ensures f == StripExtension(f) + "." + Extension(t)
  {
    t := if EndsWith(f, ".jpg") then Jpeg else if EndsWith(f, ".png") then Png else Webp;
    assert f == StripExtension(f) + f[|f| - ExtensionLength(f)..];
    assert f[|f| - ExtensionLength(f)..] == "." + Extension(t);
  }

  /** The optional `_[1-9][0-9]*` group accepts nothing that the word before it does not. */
  lemma OptionalGroupAddsNothing(f: string)
    ensures IsValidImageFilename(f) <==> Matches(Cat(Plus(Word), DOT_EXTENSION), f)
  {
    if IsValidImageFilename(f) {
      var base, t := FilenameParts(f);
      DotExtensionMatches(t);
      MatchCat(Plus(Word), DOT_EXTENSION, base, "." + Extension(t));
      ConcatAssoc(base, ".", Extension(t));
    }
    if Matches(Cat(Plus(Word), DOT_EXTENSION), f) {
      var base, tail := Cut(Plus(Word), DOT_EXTENSION, f);
      var t := DotExtensionCases(tail);
      WordMakesFilename(base, t);
      ConcatAssoc(base, ".", Extension(t));
    }
  }

  // ---------- build and parse ----------

  lemma WordHasNoSlash(s: string)
    requires AllIn(Word, s)
    ensures '/' !in s && '.' !in s && '%' !in s && '?' !in s && '#' !in s && ';' !in s
  {
  }

  lemma FilenameIsValid(i: BuildInput)
    requires IsValidPathSegment(i.imageId) && ValidSuffix(i.suffix)
    ensures IsValidImageFilename(Filename(i))
    ensures IsValidPathSegment(i.imageId + SuffixText(i.suffix))
    ensures '/' !in Filename(i)
  {
    if i.suffix.Some? { SuffixIsWord(i.suffix.value); }
    var base := i.imageId + SuffixText(i.suffix);
    WordMakesFilename(base, i.contentType);
    WordHasNoSlash(base);
  }

  lemma KeySegments(i: BuildInput)
    requires IsValidPathSegment(i.imageId) && ValidSuffix(i.suffix) && ValidEntity(i.entity)
    ensures Split(Join(EntitySegments(i.entity) + [Filename(i)])) == EntitySegments(i.entity) + [Filename(i)]
    ensures forall p | p in EntitySegments(i.entity) + [Filename(i)] :: '/' !in p
  {
    FilenameIsValid(i);
    assert forall p | p in EntitySegments(i.entity) :: '/' !in p;
    SplitJoin(EntitySegments(i.entity) + [Filename(i)]);
  }

  /** Parsing a built key gives back the entity it was built from, and building
      fails only on an invalid field: the final re-parse never throws. */
  lemma BuildThenParse(i: BuildInput)
    ensures BuildObjectKey(i).Ok? <==>
      IsValidPathSegment(i.imageId) && ValidSuffix(i.suffix) && ValidEntity(i.entity)
    ensures BuildObjectKey(i).Ok? ==>
      ParseObjectKeyDetails(BuildObjectKey(i).value) == Ok(KeyDetails(ProductLayout, i.entity))
  {
    if IsValidPathSegment(i.imageId) && ValidSuffix(i.suffix) && ValidEntity(i.entity) {
      KeySegments(i);
      FilenameIsValid(i);
      ParseBuiltSegments(i.entity, Filename(i));
    }
  }

  lemma ParseBuiltSegments(e: Entity, f: string)
    requires ValidEntity(e) && IsValidImageFilename(f)
    ensures (EntitySegments(e) + [f])[0] == "products"
    ensures ParseProductObjectKey(EntitySegments(e) + [f]) == Ok(KeyDetails(ProductLayout, e))
  {
    var s := EntitySegments(e) + [f];
    match e
    case GalleryArtwork(g, a) => assert s == ["products", "galleries", "artworks", g, a, "images", f];
    case AuctionLot(h, d, l) => assert s == ["products", "artnet-auctions", "auction-lots", h, d, l, "images", f];
    case PdbArtwork(p) => assert s == ["products", "pdb", "artworks", p, "images", f];
  }

  /** Two inputs collide exactly when entity, content type and `imageId + suffix` agree. */
  lemma BuildCollisions(a: BuildInput, b: BuildInput)
    requires BuildObjectKey(a).Ok? && BuildObjectKey(b).Ok?
    ensures BuildObjectKey(a) == BuildObjectKey(b) <==>
      a.entity == b.entity && a.contentType == b.contentType &&
      a.imageId + SuffixText(a.suffix) == b.imageId + SuffixText(b.suffix)
  {
    if BuildObjectKey(a) == BuildObjectKey(b) {
      BuildThenParse(a);
      BuildThenParse(b);
      KeySegments(a);
      KeySegments(b);
      var n := |EntitySegments(a.entity)|;
      assert (EntitySegments(a.entity) + [Filename(a)])[n] == Filename(a);
      assert (EntitySegments(b.entity) + [Filename(b)])[n] == Filename(b);
      StripFilename(a.imageId + SuffixText(a.suffix), a.contentType);
      StripFilename(b.imageId + SuffixText(b.suffix), b.contentType);
      CancelPrefix(a.imageId + SuffixText(a.suffix) + ".", Extension(a.contentType), Extension(b.contentType));
    }
  }
}
