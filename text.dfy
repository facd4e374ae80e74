/**
 * The JavaScript string operations the components rely on: `trim`, `startsWith`,
 * `indexOf`, `includes`, `split` and `join`, over strings of characters.
 */
module Text {
  import opened Wrappers

  /** The characters removed by `String.prototype.trim` and matched by `\s`:
      ECMAScript WhiteSpace and LineTerminator. */
  predicate IsWhitespace(c: char)
  {
    || c == ' ' || c == '\t' || c == '\n' || c == '\r' || c == '\U{000B}' || c == '\U{000C}'
    || c == '\U{00A0}' || c == '\U{1680}' || ('\U{2000}' <= c <= '\U{200A}')
    || c == '\U{2028}' || c == '\U{2029}' || c == '\U{202F}' || c == '\U{205F}'
    || c == '\U{3000}' || c == '\U{FEFF}'
  }

  predicate AllWhitespace(s: string)
  {
    forall c <- s :: IsWhitespace(c)
  }

  /** Drops the leading whitespace of `s`: what is left is a suffix of `s` that is
      empty or starts with a non-whitespace character. */
  function TrimStart(s: string): (r: string)
    ensures |r| <= |s| && r == s[|s| - |r|..]
    ensures r == [] || !IsWhitespace(r[0])
    decreases |s|
  {
    if s != [] && IsWhitespace(s[0]) then TrimStart(s[1..]) else s
  }

  /** Drops the trailing whitespace of `s`: what is left is a prefix of `s` that is
      empty or ends with a non-whitespace character. */
  function TrimEnd(s: string): (r: string)
    ensures |r| <= |s| && r == s[..|r|]
    ensures r == [] || !IsWhitespace(r[|r| - 1])
    decreases |s|
  {
    if s != [] && IsWhitespace(s[|s| - 1]) then TrimEnd(s[..|s| - 1]) else s
  }

  /** `String.prototype.trim`. */
  function Trim(s: string): (r: string)
    ensures |r| <= |s|
    ensures r == [] || (!IsWhitespace(r[0]) && !IsWhitespace(r[|r| - 1]))
  {
    var front := TrimStart(s);
    var r := TrimEnd(front);
    assert r != [] ==> r[0] == front[0];
    r
  }

  lemma WhitespaceAt(s: string, k: nat)
    requires AllWhitespace(s) && k < |s|
    ensures IsWhitespace(s[k])
  {
    assert s[k] in s;
  }

  /** A string that is not all whitespace has a non-whitespace character somewhere. */
  lemma NonBlankAt(s: string) returns (k: nat)
    requires !AllWhitespace(s)
    ensures k < |s| && !IsWhitespace(s[k])
  {
    var c :| c in s && !IsWhitespace(c);
    k :| k < |s| && s[k] == c;
  }

  /** Leading whitespace makes no difference to the trimmed string. */
  lemma TrimDropsBlank(s: string)
    requires s != [] && IsWhitespace(s[0])
    ensures Trim(s) == Trim(s[1..])
  {
  }

  /** Only whitespace is dropped at the front. */
  lemma {:induction false} TrimStartDropsWhitespace(s: string)
    ensures AllWhitespace(s[..|s| - |TrimStart(s)|])
    decreases |s|
  {
    if s != [] && IsWhitespace(s[0]) {
      var r := TrimStart(s[1..]);
      TrimStartDropsWhitespace(s[1..]);
      assert s[..|s| - |r|] == [s[0]] + s[1..][..|s| - 1 - |r|];
    }
  }

  /** Only whitespace is dropped at the back. */
  lemma {:induction false} TrimEndDropsWhitespace(s: string)
    ensures AllWhitespace(s[|TrimEnd(s)|..])
    decreases |s|
  {
    if s != [] && IsWhitespace(s[|s| - 1]) {
      var r := TrimEnd(s[..|s| - 1]);
      TrimEndDropsWhitespace(s[..|s| - 1]);
      assert s[|r|..] == s[..|s| - 1][|r|..] + [s[|s| - 1]];
    }
  }

  /** Trimming leaves nothing exactly when the string is all whitespace. */
  lemma TrimEmptyIffBlank(s: string)
    ensures Trim(s) == [] <==> AllWhitespace(s)
  {
    if !AllWhitespace(s) && Trim(s) == [] {
      TrimStartDropsWhitespace(s);
      TrimEndDropsWhitespace(TrimStart(s));
    }
  }

  /** `s.startsWith(p)`. */
  predicate StartsWith(s: string, p: string)
  {
    |p| <= |s| && s[..|p|] == p
  }

  /** `pat` occurs in `s` at index `k`. */
  predicate OccursAt(s: string, pat: string, k: nat)
  {
    k + |pat| <= |s| && s[k..k + |pat|] == pat
  }

  /** `s.indexOf(pat, from)`: the first occurrence of `pat` at or after `from`. */
  function IndexOfFrom(s: string, pat: string, from: nat): (r: Option<nat>)
    ensures r.Some? ==> from <= r.value && OccursAt(s, pat, r.value)
    decreases |s| - from
  {
    if from + |pat| > |s| then None
    else if s[from..from + |pat|] == pat then Some(from)
    else IndexOfFrom(s, pat, from + 1)
  }

  /** `IndexOfFrom` finds the first occurrence: `pat` occurs nowhere between `from` and it. */
  lemma {:induction false} IndexOfFromFirst(s: string, pat: string, from: nat)
    ensures var r := IndexOfFrom(s, pat, from);
      forall k: nat :: from <= k && (r.None? || k < r.value) ==> !OccursAt(s, pat, k)
    decreases |s| - from
  {
    if from + |pat| <= |s| && s[from..from + |pat|] != pat {
      IndexOfFromFirst(s, pat, from + 1);
    }
  }

  /** The first index at or after `from` that holds the character `c`. */
  function FindChar(s: string, c: char, from: nat): (r: Option<nat>)
    ensures r.Some? ==> from <= r.value < |s| && s[r.value] == c
    ensures forall k :: from <= k < |s| && (r.None? || k < r.value) ==> s[k] != c
    decreases |s| - from
  {
    if from >= |s| then None
    else if s[from] == c then Some(from)
    else FindChar(s, c, from + 1)
  }

  /** `s.includes(pat)`. */
  predicate Contains(s: string, pat: string)
    ensures Contains(s, pat) <==> exists k: nat :: OccursAt(s, pat, k)
  {
    IndexOfFromFirst(s, pat, 0);
    IndexOfFrom(s, pat, 0).Some?
  }

  /** `s.split(sep)` for a one-character separator. */
  function Split(s: string, sep: char): (parts: seq<string>)
    ensures |parts| >= 1
    ensures forall p <- parts :: sep !in p
    decreases |s|
  {
    if s == [] then [""]
    else
      var rest := Split(s[1..], sep);
      if s[0] == sep then [""] + rest
      else [[s[0]] + rest[0]] + rest[1..]
  }

  /** `parts.join(sep)`. */
  function Join(parts: seq<string>, sep: string): string
  {
    if |parts| == 0 then ""
    else if |parts| == 1 then parts[0]
    else parts[0] + sep + Join(parts[1..], sep)
  }

  /** Splitting at a character and joining with that character gives the text back. */
  lemma {:induction false} JoinSplit(s: string, sep: char)
    ensures Join(Split(s, sep), [sep]) == s
    decreases |s|
  {
    if s != [] {
      var rest := Split(s[1..], sep);
      JoinSplit(s[1..], sep);
      assert s == [s[0]] + s[1..];
      if s[0] != sep && |rest| > 1 {
        assert ([[s[0]] + rest[0]] + rest[1..])[1..] == rest[1..];
      }
    }
  }

  /** Joining parts that do not contain the separator and splitting again gives the parts back. */
  lemma {:induction false} SplitJoin(parts: seq<string>, sep: char)
    requires |parts| >= 1
    requires forall p <- parts :: sep !in p
    ensures Split(Join(parts, [sep]), sep) == parts
    decreases |parts|, |parts[0]|
  {
    if |parts| == 1 {
      SplitNoSeparator(parts[0], sep);
    } else if parts[0] == [] {
      var tail := Join(parts[1..], [sep]);
      assert Join(parts, [sep]) == [sep] + tail;
      assert ([sep] + tail)[1..] == tail;
      SplitJoin(parts[1..], sep);
      assert parts == [""] + parts[1..];
    } else {
      var p := parts[0];
      var shorter := [p[1..]] + parts[1..];
      var joinedTail := Join(shorter, [sep]);
      assert Split(joinedTail, sep) == shorter by {
        assert forall q <- shorter :: sep !in q by {
          assert forall c <- p[1..] :: c in p;
          assert shorter[1..] == parts[1..];
        }
        SplitJoin(shorter, sep);
      }
      var joined := Join(parts, [sep]);
      assert joined == [p[0]] + joinedTail && p[0] != sep by {
        assert p[0] in p;
        assert shorter[1..] == parts[1..];
        assert p == [p[0]] + p[1..];
      }
      SplitCons(joined, sep);
      assert joined[1..] == joinedTail;
      assert p == [p[0]] + p[1..];
    }
  }

  lemma SplitCons(s: string, sep: char)
    requires s != [] && s[0] != sep
    ensures Split(s, sep) == [[s[0]] + Split(s[1..], sep)[0]] + Split(s[1..], sep)[1..]
  {
  }

  lemma {:induction false} SplitNoSeparator(s: string, sep: char)
    requires sep !in s
    ensures Split(s, sep) == [s]
    decreases |s|
  {
    if s != [] {
      assert forall c <- s[1..] :: c in s;
      SplitNoSeparator(s[1..], sep);
      assert s == [s[0]] + s[1..];
    }
  }

  /** `s.split(sep)` for a non-empty string separator: cut at each occurrence found by
      scanning from the left. */
  function SplitOn(s: string, sep: string): (parts: seq<string>)
    requires |sep| > 0
    ensures |parts| >= 1
  {
    SplitFrom(s, sep, 0)
  }

  /** The pieces of `s[from..]`, cut at the occurrences of `sep` found from `from` on. */
  function SplitFrom(s: string, sep: string, from: nat): (parts: seq<string>)
    requires |sep| > 0 && from <= |s|
    ensures |parts| >= 1
    decreases |s| - from
  {
    match IndexOfFrom(s, sep, from)
    case None => [s[from..]]
    case Some(k) => [s[from..k]] + SplitFrom(s, sep, k + |sep|)
  }

  /** The first two pieces of a split end at the first two occurrences of the separator. */
  lemma SplitOnTwice(s: string, sep: string, p: nat, q: nat)
    requires |sep| > 0
    requires IndexOfFrom(s, sep, 0) == Some(p) && IndexOfFrom(s, sep, p + |sep|) == Some(q)
    ensures var parts := SplitOn(s, sep);
      |parts| >= 3 && parts[0] == s[..p] && parts[1] == s[p + |sep|..q]
      && parts[2..] == SplitFrom(s, sep, q + |sep|)
  {
    SplitOnFirst(s, sep, p);
    SplitFromAt(s, sep, p + |sep|, q);
    var rest := SplitFrom(s, sep, p + |sep|);
    UnconsTwice(SplitOn(s, sep), s[..p], rest, s[p + |sep|..q], SplitFrom(s, sep, q + |sep|));
  }

  /** The first piece of a split ends at the first occurrence of the separator. */
  lemma SplitOnFirst(s: string, sep: string, p: nat)
    requires |sep| > 0 && IndexOfFrom(s, sep, 0) == Some(p)
    ensures p + |sep| <= |s| && SplitOn(s, sep) == [s[..p]] + SplitFrom(s, sep, p + |sep|)
  {
    assert OccursAt(s, sep, p) && s[0..p] == s[..p];
    SplitFromAt(s, sep, 0, p);
  }

  /** A sequence built from two leading elements and a tail gives them back. */
  lemma UnconsTwice<T>(xs: seq<T>, x: T, rest: seq<T>, y: T, ys: seq<T>)
    requires xs == [x] + rest && rest == [y] + ys
    ensures |xs| == |ys| + 2 && xs[0] == x && xs[1] == y && xs[2..] == ys
  {
    assert xs[1..] == rest;
  }

  /** With `sep` first at `p` and next at `q`, `split` gives the text before `p`, the text
      between, and pieces that join back to everything after the second separator. */
  lemma SplitOnAtTwo(s: string, sep: string, p: nat, q: nat)
    requires |sep| > 0
    requires IndexOfFrom(s, sep, 0) == Some(p) && IndexOfFrom(s, sep, p + |sep|) == Some(q)
    ensures var parts := SplitOn(s, sep);
      |parts| >= 3 && parts[0] == s[..p] && parts[1] == s[p + |sep|..q]
      && Join(parts[2..], sep) == s[q + |sep|..]
  {
    SplitOnTwice(s, sep, p, q);
    JoinSplitFrom(s, sep, q + |sep|);
  }

  /** A piece ends at the first occurrence of the separator from where it starts. */
  lemma SplitFromAt(s: string, sep: string, from: nat, k: nat)
    requires |sep| > 0 && from <= |s| && IndexOfFrom(s, sep, from) == Some(k)
    ensures SplitFrom(s, sep, from) == [s[from..k]] + SplitFrom(s, sep, k + |sep|)
  {
  }

  /** Joining the pieces of a string split with the same separator gives the string back. */
  lemma JoinSplitOn(s: string, sep: string)
    requires |sep| > 0
    ensures Join(SplitOn(s, sep), sep) == s
  {
    JoinSplitFrom(s, sep, 0);
  }

  lemma {:induction false} JoinSplitFrom(s: string, sep: string, from: nat)
    requires |sep| > 0 && from <= |s|
    ensures Join(SplitFrom(s, sep, from), sep) == s[from..]
    decreases |s| - from
  {
    match IndexOfFrom(s, sep, from)
    case None =>
    case Some(k) =>
      var tail := SplitFrom(s, sep, k + |sep|);
      JoinSplitFrom(s, sep, k + |sep|);
      var parts := [s[from..k]] + tail;
      assert SplitFrom(s, sep, from) == parts;
      assert |parts| > 1 && parts[0] == s[from..k] && parts[1..] == tail;
      assert Join(parts, sep) == s[from..k] + sep + s[k + |sep|..];
      assert s[k..k + |sep|] == sep;
      SliceInThree(s, from, k, k + |sep|);
  }

  lemma SliceInThree<T>(x: seq<T>, a: nat, b: nat, c: nat)
    requires a <= b <= c <= |x|
    ensures x[a..] == x[a..b] + x[b..c] + x[c..]
  {
  }

  /** A prefix of the trimmed string is a prefix of the string with its leading whitespace dropped. */
  lemma TrimStartsWith(s: string, p: string)
    requires StartsWith(Trim(s), p)
    ensures StartsWith(TrimStart(s), p)
  {
    var front, t := TrimStart(s), Trim(s);
    assert t == TrimEnd(front);
    SharedPrefix(front, t, |p|);
  }

  lemma TakeOneMore<T>(s: seq<T>, i: nat)
    requires i < |s|
    ensures s[..i + 1] == s[..i] + [s[i]]
  {
  }

  /** A prefix of `a` and `a` itself begin alike. */
  lemma SharedPrefix<T>(a: seq<T>, b: seq<T>, n: nat)
    requires n <= |b| <= |a| && b == a[..|b|]
    ensures b[..n] == a[..n]
  {
  }

  /** Trimming a string that starts with a non-whitespace character keeps every character
      up to its last non-whitespace one. */
  lemma TrimKeepsUpTo(s: string, k: nat)
    requires k < |s| && !IsWhitespace(s[0]) && !IsWhitespace(s[k])
    ensures k < |Trim(s)| && Trim(s) == s[..|Trim(s)|]
  {
    assert TrimStart(s) == s;
    var r := TrimEnd(s);
    assert Trim(s) == r;
    TrimEndDropsWhitespace(s);
  }

  /** An occurrence with none before it, from `from` on, is what `indexOf` finds. */
  lemma FirstOccurrence(s: string, pat: string, from: nat, k: nat)
    requires from <= k && OccursAt(s, pat, k)
    requires forall j: nat :: from <= j < k ==> !OccursAt(s, pat, j)
    ensures IndexOfFrom(s, pat, from) == Some(k)
  {
    var r := IndexOfFrom(s, pat, from);
    IndexOfFromFirst(s, pat, from);
    if r.Some? {
      assert !(r.value < k);
    }
  }
}
