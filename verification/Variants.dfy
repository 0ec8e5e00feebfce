/** Persisted variant keys: the worker writes them (variant-worker/src/variants.ts) and the
    Upload Function's delete has to find them again (upload-function/src/variant-keys.ts). */
module Variants {
  import opened Wrappers
  import opened Text
  import opened ObjectKeys
  import WorkerKeys

  datatype WebpVariant = Thumb | W320 | W640 | W960 | W1280 | W1600

  function Name(v: WebpVariant): string {
    match v
    case Thumb => "thumb"
    case W320 => "w320"
    case W640 => "w640"
    case W960 => "w960"
    case W1280 => "w1280"
    case W1600 => "w1600"
  }

  const WEBP_VARIANTS := [Thumb, W320, W640, W960, W1280, W1600]

  /** `parseVariant`: a fixed name or one of the two aliases. */
  function ParseVariant(value: string): Option<WebpVariant> {
    if value == "thumb" then Some(Thumb)
    else if value == "w320" then Some(W320)
    else if value == "w640" || value == "medium" then Some(W640)
    else if value == "w960" then Some(W960)
    else if value == "w1280" then Some(W1280)
    else if value == "w1600" || value == "large" then Some(W1600)
    else None
  }

  /** An object key without its extension. */
  function Stem(key: string): string { StripExtension(key) }

  /** `key.replace(/\.(?:jpg|png|webp)$/, '.webp')`. */
  function WithWebpExtension(key: string): string {
    if ExtensionLength(key) == 0 then key else StripExtension(key) + ".webp"
  }

  // ---------- the worker's side ----------

  function VariantTail(key: string, version: Option<string>): string {
    if version.Some? then Stem(key) + "/_v/" + version.value + ".webp" else WithWebpExtension(key)
  }

  /** `buildVariantKey`. */
  function BuildVariantKey(key: string, v: WebpVariant, version: Option<string>): string {
    "variants/webp/" + (Name(v) + "/" + VariantTail(key, version))
  }

  // ---------- the delete side ----------

  function BuildWebpVariantKey(key: string, v: WebpVariant): string {
    "variants/webp/" + (Name(v) + "/" + WithWebpExtension(key))
  }

  function BuildAllWebpVariantKeys(key: string): seq<string> {
    seq(|WEBP_VARIANTS|, i requires 0 <= i < |WEBP_VARIANTS| => BuildWebpVariantKey(key, WEBP_VARIANTS[i]))
  }

  function BuildWebpVariantPrefix(key: string, v: WebpVariant): string {
    "variants/webp/" + (Name(v) + "/" + (Stem(key) + "/_v/"))
  }

  function BuildAllWebpVariantPrefixes(key: string): seq<string> {
    seq(|WEBP_VARIANTS|, i requires 0 <= i < |WEBP_VARIANTS| => BuildWebpVariantPrefix(key, WEBP_VARIANTS[i]))
  }

  /** `x` is among the variant keys, or under one of the prefixes, that delete removes. */
  predicate VariantCovered(key: string, x: string) {
    x in BuildAllWebpVariantKeys(key) || exists p | p in BuildAllWebpVariantPrefixes(key) :: p <= x
  }

  // ---------- stems ----------

  lemma CanonicalNonEmpty(key: string)
    requires Canonical(key)
    ensures |key| > 0 && (key[0] == 'p' || key[0] == 'l')
  {
    WorkerKeys.CanonicalShape(key);
    JoinSplit(key);
    var s := Split(key);
    assert Join(s) == s[0] + "/" + Join(s[1..]);
  }

  /** The last segment of a canonical key is an image filename. */
  lemma LastSegment(key: string)
    requires Canonical(key)
    ensures var s := Split(key); |s| >= 5 && IsValidImageFilename(s[|s| - 1])
  {
    WorkerKeys.CanonicalShape(key);
  }

  lemma {:induction false} JoinEndsWithLast(s: seq<string>) returns (front: string)
    requires |s| >= 1
    ensures Join(s) == front + s[|s| - 1]
  {
    if |s| == 1 {
      front := "";
    } else {
      var rest := s[1..];
      var f := JoinEndsWithLast(rest);
      front := s[0] + "/" + f;
      assert rest[|rest| - 1] == s[|s| - 1];
      ConcatAssoc(s[0] + "/", f, s[|s| - 1]);
    }
  }

  /** A canonical key is its stem, a dot and an extension. */
  lemma StemDotExtension(key: string) returns (t: ContentType)
    requires Canonical(key)
    ensures key == Stem(key) + "." + Extension(t)
  {
    LastSegment(key);
    var s := Split(key);
    var base;
    base, t := FilenameParts(s[|s| - 1]);
    JoinSplit(key);
    var front := JoinEndsWithLast(s);
    FrontOfFilename(front, base, t);
  }

  lemma FrontOfFilename(front: string, base: string, t: ContentType)
    ensures front + (base + "." + Extension(t)) == Stem(front + (base + "." + Extension(t))) + "." + Extension(t)
  {
    ConcatAssoc(front, base + ".", Extension(t));
    ConcatAssoc(front, base, ".");
    StripFilename(front + base, t);
  }

  /** The stem splits into the same segments but for the extension of the last one. */
  lemma StemParts(key: string) returns (t: ContentType)
    requires Canonical(key)
    ensures key == Stem(key) + "." + Extension(t)
    ensures Split(key) == ExtendLast(Split(Stem(key)), "." + Extension(t))
  {
    hide Canonical;
    t := StemDotExtension(key);
    var stem, tail := Stem(key), "." + Extension(t);
    ConcatAssoc(stem, ".", Extension(t));
    SplitAppend(stem, tail);
  }

  /** The leading segments of a canonical layout fix the number of segments. */
  function SegmentCount(s: seq<string>): nat
    requires |s| >= 2
  {
    if s[0] == "lot_images" then 5
    else if s[1] == "galleries" then 7
    else if s[1] == "artnet-auctions" then 8
    else 6
  }

  lemma CountOfExtension(x: seq<string>, y: seq<string>)
    requires |x| >= 2
    ensures SegmentCount(x + y) == SegmentCount(x)
  {
  }

  lemma StemSegmentCount(key: string)
    requires Canonical(key)
    ensures |Split(Stem(key))| >= 5
    ensures |Split(Stem(key))| == SegmentCount(Split(Stem(key)))
  {
    WorkerKeys.CanonicalShape(key);
    var t := StemParts(key);
    var s, k := Split(Stem(key)), Split(key);
    assert |s| == |k| >= 5 && s[0] == k[0] && s[1] == k[1];
  }

  /** No stem continues another one into deeper segments, although `_v` and a version are
      legal segments: both stems would have the same leading segments and so the same length. */
  lemma NoStemExtendsAnother(k1: string, k2: string)
    requires Canonical(k1) && Canonical(k2)
    requires Stem(k1) + "/" <= Stem(k2) + "/"
    ensures Stem(k1) == Stem(k2)
  {
    var a, b := Stem(k1), Stem(k2);
    if |a| < |b| {
      var c := SlashContinues(a, b);
      SplitConcat(a, c);
      StemSegmentCount(k1);
      StemSegmentCount(k2);
      CountOfExtension(Split(a), Split(c));
      assert false;
    }
    PrefixOfSameLength(a, b);
  }

  lemma PrefixOfSameLength(a: string, b: string)
    requires |a| >= |b| && a + "/" <= b + "/"
    ensures a == b
  {
    CancelSuffix(a, b, "/");
  }

  /** Two stems that both start the same string, each followed by a slash, are equal. */
  lemma StemsAgree(k1: string, k2: string, s: string)
    requires Canonical(k1) && Canonical(k2)
    requires Stem(k1) + "/" <= s && Stem(k2) + "/" <= s
    ensures Stem(k1) == Stem(k2)
  {
    if |Stem(k1)| <= |Stem(k2)| {
      NoStemExtendsAnother(k1, k2);
    } else {
      NoStemExtendsAnother(k2, k1);
    }
  }

  // ---------- variant keys ----------

  lemma NamesDistinct(v: WebpVariant, w: WebpVariant)
    ensures Name(v) == Name(w) ==> v == w
    ensures '/' !in Name(v)
  {
  }

  lemma WithWebpIsStem(key: string)
    requires Canonical(key)
    ensures WithWebpExtension(key) == Stem(key) + ".webp"
  {
    var t := StemDotExtension(key);
    StripFilename(Stem(key), t);
  }

  /** The stem and its slash begin the versioned tail, and not the unversioned one. */
  lemma VersionedTail(key: string, v: string)
    requires Canonical(key)
    ensures Stem(key) + "/" <= VariantTail(key, Some(v))
    ensures VariantTail(key, Some(v)) == Stem(key) + ("/_v/" + v + ".webp")
  {
    var s := Stem(key);
    ConcatAssoc(s, "/_v/", v);
    ConcatAssoc(s, "/_v/" + v, ".webp");
    assert "/_v/" == "/" + "_v/";
    assert VariantTail(key, Some(v))[..|s| + 1] == s + "/";
  }

  /** `_v` is a legal segment, and still no unversioned tail is a versioned one: dropping
      `.webp` would make one stem continue the other. */
  lemma TailsDiffer(k1: string, k2: string, v: string)
    requires Canonical(k1) && Canonical(k2)
    ensures VariantTail(k1, None) != VariantTail(k2, Some(v))
  {
    if VariantTail(k1, None) == VariantTail(k2, Some(v)) {
      WithWebpIsStem(k1);
      VersionedTail(k2, v);
      var rest := "/_v/" + v;
      ConcatAssoc(Stem(k2), rest, ".webp");
      CancelSuffix(Stem(k1), Stem(k2) + rest, ".webp");
      StemInside(k1, k2, rest);
      assert false;
    }
  }

  lemma StemInside(k1: string, k2: string, rest: string)
    requires Canonical(k1) && Canonical(k2)
    requires |rest| > 0 && rest[0] == '/'
    ensures Stem(k1) != Stem(k2) + rest
  {
    if Stem(k1) == Stem(k2) + rest {
      assert (Stem(k1) + "/")[..|Stem(k2)| + 1] == Stem(k2) + "/";
      NoStemExtendsAnother(k2, k1);
      assert false;
    }
  }

  lemma TailInjective(k1: string, ver1: Option<string>, k2: string, ver2: Option<string>)
    requires Canonical(k1) && Canonical(k2)
    ensures VariantTail(k1, ver1) == VariantTail(k2, ver2) <==> Stem(k1) == Stem(k2) && ver1 == ver2
  {
    WithWebpIsStem(k1);
    WithWebpIsStem(k2);
    match (ver1, ver2)
    case (None, None) =>
      if VariantTail(k1, ver1) == VariantTail(k2, ver2) { CancelSuffix(Stem(k1), Stem(k2), ".webp"); }
    case (None, Some(v)) => TailsDiffer(k1, k2, v);
    case (Some(v), None) => TailsDiffer(k2, k1, v);
    case (Some(v), Some(w)) =>
      if VariantTail(k1, ver1) == VariantTail(k2, ver2) {
        VersionedTail(k1, v);
        VersionedTail(k2, w);
        StemsAgree(k1, k2, VariantTail(k1, ver1));
        CancelPrefix(Stem(k1), "/_v/" + v + ".webp", "/_v/" + w + ".webp");
        CancelSuffix("/_v/" + v, "/_v/" + w, ".webp");
        CancelPrefix("/_v/", v, w);
      }
  }

  lemma KeyFromParts(v: WebpVariant, x: string, w: WebpVariant, y: string)
    ensures "variants/webp/" + (Name(v) + "/" + x) == "variants/webp/" + (Name(w) + "/" + y) <==> v == w && x == y
  {
    NamesDistinct(v, w);
    NamesDistinct(w, v);
    if "variants/webp/" + (Name(v) + "/" + x) == "variants/webp/" + (Name(w) + "/" + y) {
      CancelPrefix("variants/webp/", Name(v) + "/" + x, Name(w) + "/" + y);
      HeadsAgree(Name(v), x, Name(w), y);
    }
  }

  /** Persisted variant keys never collide, except between originals that differ only in
      their extension. */
  lemma VariantKeysInjective(k1: string, v1: WebpVariant, ver1: Option<string>, k2: string, v2: WebpVariant,
                             ver2: Option<string>)
    requires Canonical(k1) && Canonical(k2)
    ensures BuildVariantKey(k1, v1, ver1) == BuildVariantKey(k2, v2, ver2) <==>
      Stem(k1) == Stem(k2) && v1 == v2 && ver1 == ver2
  {
    KeyFromParts(v1, VariantTail(k1, ver1), v2, VariantTail(k2, ver2));
    TailInjective(k1, ver1, k2, ver2);
  }

  /** The keys spelled out: the stem of the original below the name of the variant, then the
      version, if any, and `.webp`; a delete prefix ends where the version begins. */
  lemma VariantKeyTexts(stem: string, t: ContentType, v: WebpVariant, version: string)
    ensures var key := stem + "." + Extension(t);
      var below := "variants/webp/" + Name(v) + "/" + stem;
      && BuildVariantKey(key, v, None) == below + ".webp"
      && BuildVariantKey(key, v, Some(version)) == below + "/_v/" + version + ".webp"
      && BuildWebpVariantPrefix(key, v) == below + "/_v/"
  {
    var key := stem + "." + Extension(t);
    var below := "variants/webp/" + Name(v) + "/" + stem;
    StripFilename(stem, t);
    hide Extension, Name, StripExtension, ExtensionLength;
    assert below + ".webp" == "variants/webp/" + (Name(v) + "/" + (stem + ".webp"));
    assert below + "/_v/" == "variants/webp/" + (Name(v) + "/" + (stem + "/_v/"));
    assert below + "/_v/" + version + ".webp"
        == "variants/webp/" + (Name(v) + "/" + (stem + "/_v/" + version + ".webp"));
  }

  lemma PrefixFromParts(v: WebpVariant, x: string, w: WebpVariant, y: string)
    ensures "variants/webp/" + (Name(v) + "/" + x) <= "variants/webp/" + (Name(w) + "/" + y) <==> v == w && x <= y
  {
    var p, s := "variants/webp/" + (Name(v) + "/" + x), "variants/webp/" + (Name(w) + "/" + y);
    if p <= s {
      var rest := s[|p|..];
      assert s == p + rest;
      ConcatAssoc("variants/webp/", Name(v) + "/" + x, rest);
      ConcatAssoc(Name(v) + "/", x, rest);
      KeyFromParts(v, x + rest, w, y);
    }
    if v == w && x <= y {
      var rest := y[|x|..];
      assert y == x + rest;
      ConcatAssoc(Name(v) + "/", x, rest);
      ConcatAssoc("variants/webp/", Name(v) + "/" + x, rest);
    }
  }

  lemma VersionedPrefix(k1: string, k2: string, v: string)
    requires Canonical(k1) && Canonical(k2)
    ensures Stem(k1) + "/_v/" <= VariantTail(k2, Some(v)) <==> Stem(k1) == Stem(k2)
  {
    hide Canonical;
    VersionedTail(k2, v);
    var p, tail := Stem(k1) + "/_v/", VariantTail(k2, Some(v));
    if p <= tail {
      assert p[..|Stem(k1)| + 1] == Stem(k1) + "/";
      StemsAgree(k1, k2, tail);
    }
    if Stem(k1) == Stem(k2) {
      assert "/_v/" + v + ".webp" == "/_v/" + (v + ".webp");
      ConcatAssoc(Stem(k1), "/_v/", v + ".webp");
    }
  }

  lemma UnversionedPrefix(k1: string, k2: string)
    requires Canonical(k1) && Canonical(k2)
    ensures !(Stem(k1) + "/_v/" <= VariantTail(k2, None))
  {
    hide Canonical;
    var p := Stem(k1) + "/_v/";
    if p <= VariantTail(k2, None) {
      WithWebpIsStem(k2);
      SlashNotInTail(p, Stem(k2), ".webp");
      var rest := Stem(k2)[|p|..];
      ConcatAssoc(Stem(k1), "/_v/", rest);
      StemInside(k2, k1, "/_v/" + rest);
      assert false;
    }
  }

  /** A delete prefix reaches a persisted key exactly when that key is versioned, of the
      same variant and of the same stem. */
  lemma PrefixCovers(k1: string, v1: WebpVariant, k2: string, v2: WebpVariant, ver: Option<string>)
    requires Canonical(k1) && Canonical(k2)
    ensures BuildWebpVariantPrefix(k1, v1) <= BuildVariantKey(k2, v2, ver) <==>
      v1 == v2 && ver.Some? && Stem(k1) == Stem(k2)
  {
    hide Canonical;
    PrefixFromParts(v1, Stem(k1) + "/_v/", v2, VariantTail(k2, ver));
    if ver.Some? {
      VersionedPrefix(k1, k2, ver.value);
    } else {
      UnversionedPrefix(k1, k2);
    }
  }

  lemma SameUnversionedKey(key: string, v: WebpVariant)
    ensures BuildWebpVariantKey(key, v) == BuildVariantKey(key, v, None)
  {
  }

  /** Delete of k1 removes a variant the worker stored for k2 exactly when the two keys
      have the same stem. */
  lemma DeleteCoversExactlyItsStem(k1: string, k2: string, v: WebpVariant, ver: Option<string>)
    requires Canonical(k1) && Canonical(k2)
    ensures VariantCovered(k1, BuildVariantKey(k2, v, ver)) <==> Stem(k1) == Stem(k2)
  {
    hide Canonical, BuildVariantKey;
    var x := BuildVariantKey(k2, v, ver);
    forall i | 0 <= i < |WEBP_VARIANTS|
      ensures BuildAllWebpVariantKeys(k1)[i] == x <==> WEBP_VARIANTS[i] == v && ver.None? && Stem(k1) == Stem(k2)
      ensures BuildAllWebpVariantPrefixes(k1)[i] <= x <==> WEBP_VARIANTS[i] == v && ver.Some? && Stem(k1) == Stem(k2)
    {
      SameUnversionedKey(k1, WEBP_VARIANTS[i]);
      VariantKeysInjective(k1, WEBP_VARIANTS[i], None, k2, v, ver);
      PrefixCovers(k1, WEBP_VARIANTS[i], k2, v, ver);
    }
    var i := VariantIndex(v);
    if Stem(k1) == Stem(k2) {
      if ver.None? {
        assert BuildAllWebpVariantKeys(k1)[i] in BuildAllWebpVariantKeys(k1);
      } else {
        assert BuildAllWebpVariantPrefixes(k1)[i] in BuildAllWebpVariantPrefixes(k1);
      }
    }
  }

  lemma VariantIndex(v: WebpVariant) returns (i: nat)
    ensures i < |WEBP_VARIANTS| && WEBP_VARIANTS[i] == v
  {
    i := match v case Thumb => 0 case W320 => 1 case W640 => 2 case W960 => 3 case W1280 => 4 case W1600 => 5;
  }

  // ---------- stems of built keys ----------

  lemma {:induction false} JoinSnoc(s: seq<string>, f: string)
    requires |s| >= 1
    ensures Join(s + [f]) == Join(s) + "/" + f
    decreases |s|
  {
    var all := s + [f];
    if |s| > 1 {
      JoinSnoc(s[1..], f);
      assert all[1..] == s[1..] + [f];
      ConcatAssoc(s[0] + "/", Join(s[1..]), "/" + f);
      ConcatAssoc(Join(s[1..]), "/", f);
      ConcatAssoc(s[0] + "/" + Join(s[1..]), "/", f);
    } else {
      assert all[1..] == [f];
    }
  }

  /** The stem of a built key is its path up to the image name. */
  lemma BuiltStem(i: BuildInput)
    requires BuildObjectKey(i).Ok?
    ensures var stem := Join(EntitySegments(i.entity)) + "/" + (i.imageId + SuffixText(i.suffix));
      Stem(BuildObjectKey(i).value) == stem && BuildObjectKey(i).value == stem + ("." + Extension(i.contentType))
  {
    hide Canonical;
    var front, name := Join(EntitySegments(i.entity)) + "/", i.imageId + SuffixText(i.suffix);
    JoinSnoc(EntitySegments(i.entity), Filename(i));
    ConcatAssoc(name, ".", Extension(i.contentType));
    ConcatAssoc(front, name, "." + Extension(i.contentType));
    ConcatAssoc(front + name, ".", Extension(i.contentType));
    StripFilename(front + name, i.contentType);
  }

  /** Two built keys share their variants exactly when entity and image name agree, whatever
      their content types. */
  lemma BuiltStemCollisions(a: BuildInput, b: BuildInput)
    requires BuildObjectKey(a).Ok? && BuildObjectKey(b).Ok?
    ensures Stem(BuildObjectKey(a).value) == Stem(BuildObjectKey(b).value) <==>
      a.entity == b.entity && a.imageId + SuffixText(a.suffix) == b.imageId + SuffixText(b.suffix)
  {
    hide BuildObjectKey;
    var a1, b1 := a.(contentType := Jpeg), b.(contentType := Jpeg);
    BuildThenParse(a);
    BuildThenParse(b);
    BuildThenParse(a1);
    BuildThenParse(b1);
    BuiltStem(a);
    BuiltStem(b);
    BuiltStem(a1);
    BuiltStem(b1);
    BuildCollisions(a1, b1);
  }
}
