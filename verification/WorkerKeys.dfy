/** The Variant Worker's own parser of object keys (variant-worker/src/object-key.ts),
    and the proof that it accepts the language of the Upload Function's. */
module WorkerKeys {
  import opened Text
  import opened Regexes
  import Keys = ObjectKeys

  const SEGMENT := Plus(Word)
  const VARIANT_SUFFIX := Cat(Lit("_"), Cat(One(NonZero), Star(Digit)))
  const EXTENSION := Alt(Lit("jpg"), Alt(Lit("png"), Lit("webp")))
  const FILENAME := Cat(Plus(Word), Cat(Opt(VARIANT_SUFFIX), Cat(Lit("."), EXTENSION)))

  const LEGACY := [Lit("lot_images"), SEGMENT, SEGMENT, SEGMENT, FILENAME]
  const GALLERY_ARTWORK :=
    [Lit("products"), Lit("galleries"), Lit("artworks"), SEGMENT, SEGMENT, Lit("images"), FILENAME]
  const AUCTION_LOT :=
    [Lit("products"), Lit("artnet-auctions"), Lit("auction-lots"), SEGMENT, SEGMENT, SEGMENT, Lit("images"), FILENAME]
  const PDB_ARTWORK := [Lit("products"), Lit("pdb"), Lit("artworks"), SEGMENT, Lit("images"), FILENAME]

  /** `objectKeyPatterns.some((pattern) => pattern.test(value))`. */
  predicate Accepts(value: string) {
    || Matches(Path(LEGACY), value)
    || Matches(Path(GALLERY_ARTWORK), value)
    || Matches(Path(AUCTION_LOT), value)
    || Matches(Path(PDB_ARTWORK), value)
  }

  lemma SuffixSlashFree()
    ensures SlashFree(VARIANT_SUFFIX) && SlashFree(Cat(Lit("."), EXTENSION))
  {
    assert SlashFree(Cat(One(NonZero), Star(Digit)));
    assert SlashFree(Alt(Lit("png"), Lit("webp")));
  }

  lemma FilenameSlashFree()
    ensures SlashFree(FILENAME)
  {
    SuffixSlashFree();
    assert SlashFree(Opt(VARIANT_SUFFIX));
    assert SlashFree(Cat(Opt(VARIANT_SUFFIX), Cat(Lit("."), EXTENSION)));
  }

  predicate IsLegacy(s: seq<string>) {
    |s| == 5 && s[0] == "lot_images" &&
    Matches(SEGMENT, s[1]) && Matches(SEGMENT, s[2]) && Matches(SEGMENT, s[3]) && Matches(FILENAME, s[4])
  }

  predicate IsGallery(s: seq<string>) {
    |s| == 7 && s[0] == "products" && s[1] == "galleries" && s[2] == "artworks" && s[5] == "images" &&
    Matches(SEGMENT, s[3]) && Matches(SEGMENT, s[4]) && Matches(FILENAME, s[6])
  }

  predicate IsAuctionLot(s: seq<string>) {
    |s| == 8 && s[0] == "products" && s[1] == "artnet-auctions" && s[2] == "auction-lots" && s[6] == "images" &&
    Matches(SEGMENT, s[3]) && Matches(SEGMENT, s[4]) && Matches(SEGMENT, s[5]) && Matches(FILENAME, s[7])
  }

  predicate IsPdb(s: seq<string>) {
    |s| == 6 && s[0] == "products" && s[1] == "pdb" && s[2] == "artworks" && s[4] == "images" &&
    Matches(SEGMENT, s[3]) && Matches(FILENAME, s[5])
  }

  lemma LegacySegments(s: seq<string>)
    ensures SegmentsMatch(LEGACY, s) <==> IsLegacy(s)
  {
  }

  lemma LegacyShape(value: string)
    ensures Matches(Path(LEGACY), value) <==> IsLegacy(Split(value))
  {
    hide Matches, IsLegacy;
    FilenameSlashFree();
    PathIsSplit(LEGACY, value);
    LegacySegments(Split(value));
  }

  lemma GallerySegments(s: seq<string>)
    ensures SegmentsMatch(GALLERY_ARTWORK, s) <==> IsGallery(s)
  {
  }

  lemma GalleryShape(value: string)
    ensures Matches(Path(GALLERY_ARTWORK), value) <==> IsGallery(Split(value))
  {
    hide Matches, IsGallery;
    FilenameSlashFree();
    PathIsSplit(GALLERY_ARTWORK, value);
    GallerySegments(Split(value));
  }

  lemma AuctionLotSegments(s: seq<string>)
    ensures SegmentsMatch(AUCTION_LOT, s) <==> IsAuctionLot(s)
  {
  }

  lemma AuctionLotShape(value: string)
    ensures Matches(Path(AUCTION_LOT), value) <==> IsAuctionLot(Split(value))
  {
    hide Matches, IsAuctionLot;
    FilenameSlashFree();
    PathIsSplit(AUCTION_LOT, value);
    AuctionLotSegments(Split(value));
  }

  lemma PdbSegments(s: seq<string>)
    ensures SegmentsMatch(PDB_ARTWORK, s) <==> IsPdb(s)
  {
  }

  lemma PdbShape(value: string)
    ensures Matches(Path(PDB_ARTWORK), value) <==> IsPdb(Split(value))
  {
    hide Matches, IsPdb;
    FilenameSlashFree();
    PathIsSplit(PDB_ARTWORK, value);
    PdbSegments(Split(value));
  }

  /** The Upload Function's case analysis on segments, in the worker's terms. */
  lemma CanonicalShape(value: string)
    ensures var s := Split(value);
      Keys.Canonical(value) <==> IsLegacy(s) || IsGallery(s) || IsAuctionLot(s) || IsPdb(s)
  {
    var s := Split(value);
    if s[0] == "products" {
      ProductShape(s);
    } else {
      LegacyShape(value);
      assert Keys.Canonical(value) <==> IsLegacy(s);
    }
  }

  lemma ProductShape(s: seq<string>)
    requires |s| >= 1 && s[0] == "products"
    ensures Keys.ParseProductObjectKey(s).Ok? <==> IsGallery(s) || IsAuctionLot(s) || IsPdb(s)
  {
  }

  /** The segment splitter of the Upload Function and the four patterns of the worker
      accept the same strings. */
  lemma ParsersAgree(value: string)
    ensures Keys.Canonical(value) <==> Accepts(value)
  {
    CanonicalShape(value);
    LegacyShape(value);
    GalleryShape(value);
    AuctionLotShape(value);
    PdbShape(value);
  }
}
