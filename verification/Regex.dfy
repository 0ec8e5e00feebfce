/** The regular expressions of the source, each anchored with `^` and `$`. */
module Regexes {
  import opened Text

  /** `[A-Za-z0-9_-]`, `[0-9]`, `[1-9]`, `[0-9A-HJKMNP-TV-Z]`, `[io]` and `.`. */
  datatype CharClass = Word | Digit | NonZero | Crockford | LegacySize | Dot

  predicate In(cls: CharClass, c: char) {
    match cls
    case Word => 'A' <= c <= 'Z' || 'a' <= c <= 'z' || '0' <= c <= '9' || c == '_' || c == '-'
    case Digit => '0' <= c <= '9'
    case NonZero => '1' <= c <= '9'
    case Crockford =>
      '0' <= c <= '9' || 'A' <= c <= 'H' || c == 'J' || c == 'K' || c == 'M' || c == 'N' ||
      'P' <= c <= 'T' || 'V' <= c <= 'Z'
    case LegacySize => c == 'i' || c == 'o'
    case Dot => c != '\n' && c != '\r' && c != '\U{2028}' && c != '\U{2029}'
  }

  predicate AllIn(cls: CharClass, s: string) {
    forall i | 0 <= i < |s| :: In(cls, s[i])
  }

  datatype Regex =
    | Lit(text: string)
    | One(cls: CharClass)
    | Plus(cls: CharClass)
    | Star(cls: CharClass)
    | Times(cls: CharClass, n: nat)
    | Opt(body: Regex)
    | Alt(left: Regex, right: Regex)
    | Cat(head: Regex, tail: Regex)

  /** The whole of `s` matches `r`. */
  predicate Matches(r: Regex, s: string) {
    match r
    case Lit(t) => s == t
    case One(c) => |s| == 1 && In(c, s[0])
    case Plus(c) => |s| >= 1 && AllIn(c, s)
    case Star(c) => AllIn(c, s)
    case Times(c, n) => |s| == n && AllIn(c, s)
    case Opt(a) => s == "" || Matches(a, s)
    case Alt(a, b) => Matches(a, s) || Matches(b, s)
    case Cat(a, b) => exists i :: 0 <= i <= |s| && Matches(a, s[..i]) && Matches(b, s[i..])
  }

  /** Segments separated by an escaped slash. */
  function Path(segments: seq<Regex>): Regex
    requires |segments| >= 1
  {
    if |segments| == 1 then segments[0] else Cat(segments[0], Cat(Lit("/"), Path(segments[1..])))
  }

  /** Introduction form for a concatenation. */
  lemma MatchCat(a: Regex, b: Regex, x: string, y: string)
    requires Matches(a, x) && Matches(b, y)
    ensures Matches(Cat(a, b), x + y)
  {
    assert (x + y)[..|x|] == x && (x + y)[|x|..] == y;
  }

  /** Elimination form for a concatenation. */
  lemma Cut(a: Regex, b: Regex, s: string) returns (x: string, y: string)
    requires Matches(Cat(a, b), s)
    ensures s == x + y && Matches(a, x) && Matches(b, y)
  {
    var i :| 0 <= i <= |s| && Matches(a, s[..i]) && Matches(b, s[i..]);
    x, y := s[..i], s[i..];
  }

  predicate SlashFree(r: Regex) {
    match r
    case Lit(t) => '/' !in t
    case Opt(a) => SlashFree(a)
    case Alt(a, b) => SlashFree(a) && SlashFree(b)
    case Cat(a, b) => SlashFree(a) && SlashFree(b)
    case One(c) => c != Dot
    case Plus(c) => c != Dot
    case Star(c) => c != Dot
    case Times(c, _) => c != Dot
  }

  lemma {:induction false} SlashFreeMatch(r: Regex, s: string)
    requires SlashFree(r) && Matches(r, s)
    ensures '/' !in s
  {
    match r
    case Opt(a) => if s != "" { SlashFreeMatch(a, s); }
    case Alt(a, b) => if Matches(a, s) { SlashFreeMatch(a, s); } else { SlashFreeMatch(b, s); }
    case Cat(a, b) =>
      var x, y := Cut(a, b, s);
      SlashFreeMatch(a, x);
      SlashFreeMatch(b, y);
    case _ =>
  }

  predicate SegmentsMatch(segments: seq<Regex>, parts: seq<string>) {
    |segments| == |parts| && forall i | 0 <= i < |segments| :: Matches(segments[i], parts[i])
  }

  /** A path regex of slash-free segments accepts exactly the strings that a split
      on '/' takes apart into matching segments. */
  lemma {:induction false} PathIsSplit(segments: seq<Regex>, s: string)
    requires |segments| >= 1
    requires forall i | 0 <= i < |segments| :: SlashFree(segments[i])
    ensures Matches(Path(segments), s) <==> SegmentsMatch(segments, Split(s))
    decreases |segments|, 1
  {
    if |segments| == 1 {
      SingleSegment(segments[0], s);
    } else {
      if Matches(Path(segments), s) {
        PathToSplit(segments, s);
      }
      if SegmentsMatch(segments, Split(s)) {
        SplitToPath(segments, s);
      }
    }
  }

  lemma SingleSegment(r: Regex, s: string)
    requires SlashFree(r)
    ensures Matches(r, s) <==> SegmentsMatch([r], Split(s))
  {
    if '/' !in s {
      SplitAtom(s);
      assert [r][0] == r && Split(s)[0] == s;
    } else {
      var h, t := CutFirst(s);
      if Matches(r, s) {
        SlashFreeMatch(r, s);
        assert false;
      }
    }
  }

  lemma {:induction false} PathToSplit(segments: seq<Regex>, s: string)
    requires |segments| >= 2
    requires forall i | 0 <= i < |segments| :: SlashFree(segments[i])
    requires Matches(Path(segments), s)
    ensures SegmentsMatch(segments, Split(s))
    decreases |segments|, 0
  {
    var rest := Path(segments[1..]);
    var x, y := Cut(segments[0], Cat(Lit("/"), rest), s);
    var slash, tail := Cut(Lit("/"), rest, y);
    SlashFreeMatch(segments[0], x);
    ConcatAssoc(x, "/", tail);
    SplitCons(x, tail);
    PathIsSplit(segments[1..], tail);
    ConsSegments(segments, x, Split(tail));
  }

  lemma ConsSegments(segments: seq<Regex>, h: string, parts: seq<string>)
    requires |segments| >= 1
    ensures SegmentsMatch(segments, [h] + parts) <==>
      Matches(segments[0], h) && SegmentsMatch(segments[1..], parts)
  {
    hide Matches;
    var all := [h] + parts;
    assert all[0] == h && all[1..] == parts;
    if SegmentsMatch(segments, all) {
      forall i | 0 <= i < |parts| ensures Matches(segments[1..][i], parts[i]) {
        assert Matches(segments[i + 1], all[i + 1]);
      }
    }
    if Matches(segments[0], h) && SegmentsMatch(segments[1..], parts) {
      forall i | 0 <= i < |segments| ensures Matches(segments[i], all[i]) {
        if i > 0 { assert Matches(segments[1..][i - 1], parts[i - 1]); }
      }
    }
  }

  lemma MatchPath(segments: seq<Regex>, h: string, tail: string)
    requires |segments| >= 2
    requires Matches(segments[0], h) && Matches(Path(segments[1..]), tail)
    ensures Matches(Path(segments), h + "/" + tail)
  {
    var rest := Path(segments[1..]);
    MatchCat(Lit("/"), rest, "/", tail);
    MatchCat(segments[0], Cat(Lit("/"), rest), h, "/" + tail);
    ConcatAssoc(h, "/", tail);
  }

  lemma {:induction false} SplitToPath(segments: seq<Regex>, s: string)
    requires |segments| >= 2
    requires forall i | 0 <= i < |segments| :: SlashFree(segments[i])
    requires SegmentsMatch(segments, Split(s))
    ensures Matches(Path(segments), s)
    decreases |segments|, 0
  {
    if '/' !in s { SplitAtom(s); }
    var h, tail := CutFirst(s);
    ConsSegments(segments, h, Split(tail));
    PathIsSplit(segments[1..], tail);
    MatchPath(segments, h, tail);
  }
}
