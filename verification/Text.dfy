/** Strings as the source handles them: `split('/')`, template-literal joining, prefixes. */
module Text {

  /** Position of the first `c` in `s`, or `|s|` when there is none. */
  function IndexOf(s: string, c: char): (i: nat)
    ensures i <= |s|
    ensures c !in s[..i]
    ensures i < |s| ==> s[i] == c
    ensures i == |s| ==> c !in s
  {
    if s == "" || s[0] == c then 0 else 1 + IndexOf(s[1..], c)
  }

  /** `s.split('/')`. */
  function Split(s: string): (parts: seq<string>)
    ensures |parts| >= 1
    ensures forall p | p in parts :: '/' !in p
    decreases |s|
  {
    var i := IndexOf(s, '/');
    if i == |s| then [s] else [s[..i]] + Split(s[i + 1..])
  }

  /** The segments written out with '/' between them. */
  function Join(parts: seq<string>): string
    requires |parts| >= 1
  {
    if |parts| == 1 then parts[0] else parts[0] + "/" + Join(parts[1..])
  }

  lemma IndexOfUnique(s: string, c: char, i: nat)
    requires i <= |s| && c !in s[..i] && (i < |s| ==> s[i] == c)
    ensures IndexOf(s, c) == i
  {
    forall k | 0 <= k < i ensures s[k] != c {
      assert s[k] == s[..i][k];
    }
    var j := IndexOf(s, c);
    forall k | 0 <= k < j ensures s[k] != c {
      assert s[k] == s[..j][k];
    }
  }

  /** Splitting at the first separator. */
  lemma SplitCons(a: string, rest: string)
    requires '/' !in a
    ensures Split(a + "/" + rest) == [a] + Split(rest)
  {
    var s := a + "/" + rest;
    assert s[..|a|] == a;
    IndexOfUnique(s, '/', |a|);
    assert s[|a| + 1..] == rest;
  }

  /** The first segment and what follows its slash. */
  lemma CutFirst(s: string) returns (h: string, t: string)
    requires '/' in s
    ensures '/' !in h && s == h + "/" + t && |t| < |s|
    ensures Split(s) == [h] + Split(t)
  {
    var i := IndexOf(s, '/');
    h, t := s[..i], s[i + 1..];
  }

  lemma JoinCons(h: string, rest: seq<string>)
    requires |rest| >= 1
    ensures Join([h] + rest) == h + "/" + Join(rest)
  {
    assert ([h] + rest)[1..] == rest;
  }

  lemma {:induction false} JoinSplit(s: string)
    ensures Join(Split(s)) == s
    decreases |s|
  {
    if '/' in s {
      var h, t := CutFirst(s);
      JoinSplit(t);
      JoinCons(h, Split(t));
    } else {
      SplitAtom(s);
    }
  }

  lemma {:induction false} SplitJoin(parts: seq<string>)
    requires |parts| >= 1
    requires forall p | p in parts :: '/' !in p
    ensures Split(Join(parts)) == parts
  {
    assert parts[0] in parts;
    if |parts| == 1 {
      SplitAtom(parts[0]);
    } else {
      SplitJoin(parts[1..]);
      SplitCons(parts[0], Join(parts[1..]));
      assert parts == [parts[0]] + parts[1..];
    }
  }

  lemma ConsConcat<T>(h: T, x: seq<T>, y: seq<T>)
    ensures [h] + (x + y) == ([h] + x) + y
  {
  }

  lemma {:induction false} SplitConcat(a: string, b: string)
    ensures Split(a + "/" + b) == Split(a) + Split(b)
    decreases |a|
  {
    if '/' in a {
      var h, t := CutFirst(a);
      SplitConcat(t, b);
      var rest := t + "/" + b;
      assert a + "/" + b == h + "/" + rest;
      SplitCons(h, rest);
      ConsConcat(h, Split(t), Split(b));
    } else {
      SplitCons(a, b);
      SplitAtom(a);
    }
  }

  lemma SplitAtom(s: string)
    requires '/' !in s
    ensures Split(s) == [s]
  {
    IndexOfUnique(s, '/', |s|);
  }

  /** `parts` with `tail` appended to the last one. */
  function ExtendLast(parts: seq<string>, tail: string): seq<string>
    requires |parts| >= 1
  {
    parts[..|parts| - 1] + [parts[|parts| - 1] + tail]
  }

  lemma ConsExtendLast(h: string, parts: seq<string>, tail: string)
    requires |parts| >= 1
    ensures [h] + ExtendLast(parts, tail) == ExtendLast([h] + parts, tail)
  {
  }

  /** A separator-free tail only changes the last segment. */
  lemma {:induction false} SplitAppend(a: string, tail: string)
    requires '/' !in tail
    ensures Split(a + tail) == ExtendLast(Split(a), tail)
    decreases |a|
  {
    if '/' in a {
      var h, t := CutFirst(a);
      SplitAppend(t, tail);
      ConcatAssoc(h + "/", t, tail);
      SplitCons(h, t + tail);
      ConsExtendLast(h, Split(t), tail);
    } else {
      SplitAtom(a);
      SplitAtom(a + tail);
    }
  }

  /** Two slash-free heads before the same slash are the same head. */
  lemma HeadsAgree(a: string, x: string, b: string, y: string)
    requires '/' !in a && '/' !in b
    requires a + "/" + x == b + "/" + y
    ensures a == b && x == y
  {
    var s := a + "/" + x;
    assert s[..|a|] == a && s[..|b|] == b;
    IndexOfUnique(s, '/', |a|);
    IndexOfUnique(s, '/', |b|);
    assert s[|a| + 1..] == x && s[|b| + 1..] == y;
  }

  lemma ConcatAssoc(x: string, y: string, z: string)
    ensures x + (y + z) == (x + y) + z
  {
  }

  lemma CancelPrefix(p: string, x: string, y: string)
    requires p + x == p + y
    ensures x == y
  {
    assert (p + x)[|p|..] == x;
    assert (p + y)[|p|..] == y;
  }

  lemma CancelSuffix(x: string, y: string, t: string)
    requires x + t == y + t
    ensures x == y
  {
    assert (x + t)[..|x|] == x;
    assert (y + t)[..|y|] == y;
  }

  lemma PrefixAt(p: string, s: string, i: nat)
    requires p <= s && i < |p|
    ensures s[i] == p[i]
  {
  }

  /** A string that goes on after `a + "/"`. */
  lemma SlashContinues(a: string, b: string) returns (c: string)
    requires a + "/" <= b + "/" && |a| < |b|
    ensures b == a + "/" + c
  {
    var p, s := a + "/", b + "/";
    c := b[|a| + 1..];
    forall i | 0 <= i <= |a| ensures b[i] == p[i] {
      PrefixAt(p, s, i);
    }
    assert b[..|a| + 1] == p;
  }

  /** A prefix ending in a slash cannot reach into a slash-free tail. */
  lemma SlashNotInTail(p: string, t: string, tail: string)
    requires |p| > 0 && p[|p| - 1] == '/' && '/' !in tail
    requires p <= t + tail
    ensures p <= t
  {
    var s := t + tail;
    PrefixAt(p, s, |p| - 1);
    assert forall j | 0 <= j < |tail| :: s[|t| + j] == tail[j] && tail[j] != '/';
    forall i | 0 <= i < |p| ensures p[i] == t[i] {
      PrefixAt(p, s, i);
    }
  }
}
