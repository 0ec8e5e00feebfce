/** The other keys of the shared buckets: staging and tombstone keys in GCS
    (upload-function/src/upload-session-store.ts, storage/upload-storage.ts), and the delete route. */
module StorageKeys {
  import opened Wrappers
  import opened Text
  import opened ObjectKeys
  import opened Variants
  import opened Requests

  /** `buildStagingObjectKey`. */
  function StagingKey(uploadId: string, key: string): string {
    "staging/uploads/" + (uploadId + ("/" + key))
  }

  /** `buildTombstonePath`. */
  function TombstoneKey(key: string): string { "tombstones/" + (key + ".json") }

  const OBJECT_PATH_PREFIX := "/v1/objects/"

  /** `extractObjectKeyFromPath`. */
  function ExtractObjectKeyFromPath(path: string): Option<string> {
    if OBJECT_PATH_PREFIX <= path then DecodeComponent(path[|OBJECT_PATH_PREFIX|..]) else None
  }

  /** `encodeURIComponent` on characters that occur in keys: only the slash is escaped. */
  function EncodeSlashes(s: string): string {
    if s == "" then "" else (if s[0] == '/' then "%2F" else [s[0]]) + EncodeSlashes(s[1..])
  }

  datatype Namespace = StagingSpace | TombstoneSpace | VariantSpace | ObjectSpace

  function NamespaceOf(x: string): Namespace {
    if "staging/uploads/" <= x then StagingSpace
    else if "tombstones/" <= x then TombstoneSpace
    else if "variants/webp/" <= x then VariantSpace
    else ObjectSpace
  }

  /** Canonical, staging, tombstone and variant keys live in four disjoint namespaces. */
  lemma NamespacesDisjoint(u: string, k: string, v: WebpVariant, ver: Option<string>)
    ensures NamespaceOf(StagingKey(u, k)) == StagingSpace
    ensures NamespaceOf(TombstoneKey(k)) == TombstoneSpace
    ensures NamespaceOf(BuildVariantKey(k, v, ver)) == VariantSpace
    ensures Canonical(k) ==> NamespaceOf(k) == ObjectSpace
  {
    hide Canonical;
    var tombstone, variant := TombstoneKey(k), BuildVariantKey(k, v, ver);
    assert tombstone[0] == 't' && variant[0] == 'v';
    assert "staging/uploads/"[0] == 's' && "tombstones/"[0] == 't' && "variants/webp/"[0] == 'v';
    if Canonical(k) { CanonicalNonEmpty(k); }
  }

  /** Upload IDs have a fixed width, so a staging key determines its upload. */
  lemma StagingInjective(u1: string, k1: string, u2: string, k2: string)
    requires IsUlid(u1) && IsUlid(u2)
    ensures StagingKey(u1, k1) == StagingKey(u2, k2) <==> u1 == u2 && k1 == k2
  {
    if StagingKey(u1, k1) == StagingKey(u2, k2) {
      CancelPrefix("staging/uploads/", u1 + ("/" + k1), u2 + ("/" + k2));
      assert (u1 + ("/" + k1))[..26] == u1 && (u2 + ("/" + k2))[..26] == u2;
      CancelPrefix(u1, "/" + k1, "/" + k2);
      CancelPrefix("/", k1, k2);
    }
  }

  lemma TombstoneInjective(k1: string, k2: string)
    ensures TombstoneKey(k1) == TombstoneKey(k2) <==> k1 == k2
  {
    if TombstoneKey(k1) == TombstoneKey(k2) {
      CancelPrefix("tombstones/", k1 + ".json", k2 + ".json");
      CancelSuffix(k1, k2, ".json");
    }
  }

  lemma DecodePlainChar(c: char, rest: string)
    requires c != '%' && DecodeComponent(rest).Some?
    ensures DecodeComponent([c] + rest) == Some([c] + DecodeComponent(rest).value)
  {
    assert ([c] + rest)[1..] == rest;
  }

  lemma DecodeEscapedSlash(rest: string)
    requires DecodeComponent(rest).Some?
    ensures DecodeComponent("%2F" + rest) == Some("/" + DecodeComponent(rest).value)
  {
    var e := "%2F" + rest;
    assert e[0] == '%' && e[1] == '2' && e[2] == 'F' && e[3..] == rest;
    assert HexValue('2') == Some(2) && HexValue('F') == Some(15);
    assert 47 as char == '/';
  }

  lemma {:induction false} DecodeEncoded(s: string)
    requires '%' !in s
    ensures DecodeComponent(EncodeSlashes(s)) == Some(s)
  {
    if s != "" {
      DecodeEncoded(s[1..]);
      var rest := EncodeSlashes(s[1..]);
      if s[0] == '/' { DecodeEscapedSlash(rest); } else { DecodePlainChar(s[0], rest); }
      assert s == [s[0]] + s[1..];
    }
  }

  /** The delete route finds the key whether the client escaped its slashes or not. */
  lemma DeletePathRoundTrip(key: string)
    requires Canonical(key)
    ensures ExtractObjectKeyFromPath(OBJECT_PATH_PREFIX + key) == Some(key)
    ensures ExtractObjectKeyFromPath(OBJECT_PATH_PREFIX + EncodeSlashes(key)) == Some(key)
  {
    hide Canonical;
    CanonicalChars(key);
    DecodePlain(key);
    DecodeEncoded(key);
    assert (OBJECT_PATH_PREFIX + key)[12..] == key;
    assert (OBJECT_PATH_PREFIX + EncodeSlashes(key))[12..] == EncodeSlashes(key);
  }
}
