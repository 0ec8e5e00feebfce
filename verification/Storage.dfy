/** What the two object stores hold, and the listing contract of R2. */
module Storage {
  import opened Wrappers

  type Byte = x: int | 0 <= x < 256
  type Bytes = seq<Byte>

  /** An R2 object: its bytes, content type and `cache-version` metadata. */
  datatype R2Object = R2Object(body: Bytes, contentType: Option<string>, cacheVersion: Option<string>)

  type R2Map = map<string, R2Object>

  // ---------- key order ----------

  /** Lexicographic order of keys. */
  predicate Less(a: string, b: string)
    decreases |a|
  {
    b != "" && (a == "" || a[0] < b[0] || (a[0] == b[0] && Less(a[1..], b[1..])))
  }

  lemma {:induction false} LessTotal(a: string, b: string)
    ensures Less(a, b) || Less(b, a) || a == b
    decreases |a|
  {
    if a != "" && b != "" && a[0] == b[0] {
      LessTotal(a[1..], b[1..]);
      assert a == [a[0]] + a[1..] && b == [b[0]] + b[1..];
    }
  }

  lemma {:induction false} LessTransitive(a: string, b: string, c: string)
    requires Less(a, b) && Less(b, c)
    ensures Less(a, c)
    decreases |a|
  {
    if a != "" && a[0] == b[0] && b[0] == c[0] {
      LessTransitive(a[1..], b[1..], c[1..]);
    }
  }

  lemma {:induction false} LessIrreflexive(a: string)
    ensures !Less(a, a)
  {
    if a != "" { LessIrreflexive(a[1..]); }
  }

  predicate IsLeast(m: string, s: set<string>) {
    m in s && forall x | x in s :: x == m || Less(m, x)
  }

  lemma {:induction false} LeastExists(s: set<string>) returns (m: string)
    requires s != {}
    ensures IsLeast(m, s)
    decreases |s|
  {
    var a :| a in s;
    var rest := s - {a};
    if rest == {} {
      m := a;
      assert s == {a};
    } else {
      var l := LeastExists(rest);
      LessTotal(a, l);
      m := if Less(a, l) then a else l;
      LeastWith(a, l, rest);
      assert s == rest + {a};
    }
  }

  lemma LeastWith(a: string, l: string, rest: set<string>)
    requires IsLeast(l, rest) && a !in rest
    ensures Less(a, l) ==> IsLeast(a, rest + {a})
    ensures Less(l, a) ==> IsLeast(l, rest + {a})
  {
    if Less(a, l) {
      forall x | x in rest && x != l ensures Less(a, x) { LessTransitive(a, l, x); }
    }
  }

  // ---------- listing ----------

  predicate After(token: Option<string>, key: string) { token.Some? ==> Less(token.value, key) }

  /** The keys under `prefix` that a listing resumed at `token` still has to return. */
  function Remaining(keys: set<string>, prefix: string, token: Option<string>): set<string> {
    set k | k in keys && prefix <= k && After(token, k)
  }

  /** A page of `ListObjectsV2`: some first part, in key order, of what remains after the token;
      a truncated page comes with the token of its last key. */
  ghost predicate IsPage(keys: set<string>, prefix: string, token: Option<string>, page: seq<string>,
                         next: Option<string>) {
    && (forall k | k in page :: k in Remaining(keys, prefix, token))
    && (next.None? ==> forall k | k in Remaining(keys, prefix, token) :: k in page)
    && (next.Some? ==>
          next.value in page && forall k | k in Remaining(keys, prefix, token) :: k in page || Less(next.value, k))
  }

  /** `m` without the keys of `gone`. */
  function Without(m: R2Map, gone: set<string>): R2Map { m - gone }

  /** Only keys under the prefix were removed, and nothing else changed. */
  predicate OnlyPrefixRemoved(before: R2Map, after: R2Map, prefix: string) {
    && after.Keys <= before.Keys
    && (forall k | k in before :: k in after || prefix <= k)
    && (forall k | k in after :: after[k] == before[k])
  }

  function UnderPrefix(keys: set<string>, prefix: string): set<string> { set k | k in keys && prefix <= k }
}
