/**
 * `processInlineMarkdown` of the lesson story renderer: a left-to-right scanner that
 * cuts a line into plain text, `**bold**` spans and `` `code` `` spans. Plain text
 * accumulates in a pending buffer that is flushed whenever a `**` or a single
 * backtick is met, whether or not a closing marker follows.
 */
module InlineMarkdown {
  import opened Wrappers
  import opened Text

  /** One part of a rendered line. A plain part is a string in the source's result array,
      a bold part a `<strong>` element, a code part a `<code>` element. */
  datatype Part = Plain(text: string) | Bold(text: string) | Code(text: string)

  /** What the scanner returns: a bare string when the result is exactly one plain part,
      the list of parts otherwise. */
  datatype Inline = Bare(text: string) | Parts(parts: seq<Part>)

  const BoldMarker: string := "**"
  const Backtick: char := '`'

  /** The pending plain text as a part list: nothing when it is empty. */
  function Flush(current: string): (ps: seq<Part>)
    ensures |ps| <= 1 && (ps != [] ==> ps[0] == Plain(current) && current != [])
  {
    if current == [] then [] else [Plain(current)]
  }

  /** A `**` opens a bold span at `i`. */
  predicate BoldOpenerAt(text: string, i: nat)
  {
    OccursAt(text, BoldMarker, i)
  }

  /** A backtick not directly followed by another backtick opens a code span at `i`. */
  predicate CodeOpenerAt(text: string, i: nat)
  {
    i < |text| && text[i] == Backtick && !(i + 1 < |text| && text[i + 1] == Backtick)
  }

  /** What the scanner does at position `i`: emit a finished span and jump past it,
      flush the pending text and restart it with a literal marker, or extend it by one
      character. */
  datatype Move = Emit(part: Part, next: nat) | Restart(literal: string, next: nat) | Extend(c: char)

  /** The scanner's decision at `i`. The spans it emits and the literals it restarts
      with are exactly the text they were cut from. */
  function MoveAt(text: string, i: nat): (m: Move)
    requires i < |text|
    ensures m.Extend? <==> !BoldOpenerAt(text, i) && !CodeOpenerAt(text, i)
    ensures m.Extend? ==> m.c == text[i]
    ensures !m.Extend? ==> i < m.next <= |text|
    ensures m.Emit? ==> text[i..m.next] == Unparse(m.part)
    ensures m.Restart? ==> text[i..m.next] == m.literal && m.literal != []
  {
    if BoldOpenerAt(text, i) then BoldMove(text, i)
    else if CodeOpenerAt(text, i) then CodeMove(text, i)
    else Extend(text[i])
  }

  /** At `**`: a bold span up to the next `**`, or the marker kept as literal text. */
  function BoldMove(text: string, i: nat): (m: Move)
    requires BoldOpenerAt(text, i)
    ensures !m.Extend? && i < m.next <= |text|
    ensures m.Emit? ==> text[i..m.next] == Unparse(m.part)
    ensures m.Restart? ==> text[i..m.next] == m.literal && m.literal != []
  {
    match IndexOfFrom(text, BoldMarker, i + 2)
    case Some(j) =>
      BoldSpanText(text, i, j);
      Emit(Bold(text[i + 2..j]), j + 2)
    case None => Restart(BoldMarker, i + 2)
  }

  /** At a single backtick: a code span up to the next backtick, or the backtick kept as
      literal text. */
  function CodeMove(text: string, i: nat): (m: Move)
    requires CodeOpenerAt(text, i)
    ensures !m.Extend? && i < m.next <= |text|
    ensures m.Emit? ==> text[i..m.next] == Unparse(m.part)
    ensures m.Restart? ==> text[i..m.next] == m.literal && m.literal != []
  {
    match FindChar(text, Backtick, i + 1)
    case Some(j) =>
      CodeSpanText(text, i, j);
      Emit(Code(text[i + 1..j]), j + 1)
    case None =>
      assert text[i..i + 1] == [Backtick];
      Restart([Backtick], i + 1)
  }

  /** The parts produced from position `i` on, with `current` the plain text pending. */
  function Scan(text: string, i: nat, current: string): seq<Part>
    requires i <= |text|
    decreases |text| - i
  {
    if i == |text| then Flush(current)
    else
      match MoveAt(text, i)
      case Emit(p, next) => Flush(current) + ([p] + Scan(text, next, ""))
      case Restart(literal, next) => Flush(current) + Scan(text, next, literal)
      case Extend(c) => Scan(text, i + 1, current + [c])
  }

  /** The source's final step: a single plain part is returned as a bare string. */
  function Present(parts: seq<Part>): (r: Inline)
    ensures r.Bare? <==> |parts| == 1 && parts[0].Plain?
    ensures r.Parts? ==> r.parts == parts
    ensures r.Bare? ==> r.text == parts[0].text
  {
    if |parts| == 1 && parts[0].Plain? then Bare(parts[0].text) else Parts(parts)
  }

  /** The result of `processInlineMarkdown(text)`. */
  function InlineOf(text: string): Inline
  {
    Present(Scan(text, 0, ""))
  }

  /** The markdown source a part came from. */
  function Unparse(p: Part): string
  {
    match p
    case Plain(s) => s
    case Bold(s) => BoldMarker + s + BoldMarker
    case Code(s) => [Backtick] + s + [Backtick]
  }

  function UnparseAll(ps: seq<Part>): string
  {
    if ps == [] then "" else Unparse(ps[0]) + UnparseAll(ps[1..])
  }

  function UnparseInline(r: Inline): string
  {
    match r
    case Bare(s) => s
    case Parts(ps) => UnparseAll(ps)
  }

  /** The token invariants: plain parts are never empty, bold text never contains `**`,
      code text is never empty and never contains a backtick. */
  predicate WellFormedPart(p: Part)
  {
    match p
    case Plain(s) => s != []
    case Bold(s) => !Contains(s, BoldMarker)
    case Code(s) => s != [] && Backtick !in s
  }

  predicate WellFormed(ps: seq<Part>)
  {
    forall p <- ps :: WellFormedPart(p)
  }

  predicate WellFormedInline(r: Inline)
  {
    match r
    case Bare(s) => s != []
    case Parts(ps) => WellFormed(ps)
  }

  lemma {:induction false} UnparseAllAppend(a: seq<Part>, b: seq<Part>)
    ensures UnparseAll(a + b) == UnparseAll(a) + UnparseAll(b)
    decreases |a|
  {
    if a == [] {
      assert a + b == b;
    } else {
      assert (a + b)[1..] == a[1..] + b;
      UnparseAllAppend(a[1..], b);
    }
  }

  /** The pending text, flushed in front of further parts, unparses to itself. */
  lemma UnparseFlushThen(current: string, rest: seq<Part>)
    ensures UnparseAll(Flush(current) + rest) == current + UnparseAll(rest)
  {
    UnparseAllAppend(Flush(current), rest);
  }

  lemma UnparseCons(p: Part, rest: seq<Part>)
    ensures UnparseAll([p] + rest) == Unparse(p) + UnparseAll(rest)
  {
    assert ([p] + rest)[1..] == rest;
  }

  /** `**` at `k`, spelled out character by character. */
  lemma BoldMarkerChars(text: string, k: nat)
    ensures BoldOpenerAt(text, k) <==> k + 1 < |text| && text[k] == '*' && text[k + 1] == '*'
  {
    if k + 1 < |text| {
      assert text[k..k + 2] == [text[k], text[k + 1]];
    }
  }

  /** A substring of a text holds an occurrence only where the text does. */
  lemma OccursInSlice(s: string, lo: nat, hi: nat, pat: string, k: nat)
    requires lo <= hi <= |s|
    requires OccursAt(s[lo..hi], pat, k)
    ensures OccursAt(s, pat, lo + k)
  {
    forall m | 0 <= m < |pat| ensures s[lo + k + m] == pat[m] {
      assert s[lo..hi][k + m] == s[lo + k + m];
    }
    assert s[lo + k..lo + k + |pat|] == pat;
  }

  /** A bold span closed at `j` is the text it was cut from. */
  lemma BoldSpanText(text: string, i: nat, j: nat)
    requires BoldOpenerAt(text, i) && IndexOfFrom(text, BoldMarker, i + 2) == Some(j)
    ensures text[i..j + 2] == Unparse(Bold(text[i + 2..j]))
  {
    assert text[i..j + 2] == text[i..i + 2] + text[i + 2..j] + text[j..j + 2];
  }

  /** A code span closed at `j` is the text it was cut from. */
  lemma CodeSpanText(text: string, i: nat, j: nat)
    requires CodeOpenerAt(text, i) && FindChar(text, Backtick, i + 1) == Some(j)
    ensures text[i..j + 1] == Unparse(Code(text[i + 1..j]))
  {
    assert text[i..j + 1] == [text[i]] + text[i + 1..j] + [text[j]];
  }

  /** What the scanner emits satisfies the token invariants: bold text holds no `**`
      (the span closes at the first one), code text is not empty and holds no backtick. */
  lemma MoveWellFormed(text: string, i: nat)
    requires i < |text|
    ensures MoveAt(text, i).Emit? ==> WellFormedPart(MoveAt(text, i).part)
  {
    if BoldOpenerAt(text, i) {
      var close := IndexOfFrom(text, BoldMarker, i + 2);
      if close.Some? {
        var b := text[i + 2..close.value];
        if Contains(b, BoldMarker) {
          IndexOfFromFirst(text, BoldMarker, i + 2);
          var k: nat :| OccursAt(b, BoldMarker, k);
          OccursInSlice(text, i + 2, close.value, BoldMarker, k);
        }
      }
    } else if CodeOpenerAt(text, i) {
      var close := FindChar(text, Backtick, i + 1);
      if close.Some? {
        var c := text[i + 1..close.value];
        forall k | 0 <= k < |c| ensures c[k] != Backtick {
          assert c[k] == text[i + 1 + k];
        }
      }
    }
  }

  /** A suffix cut in two. */
  lemma SuffixSplit(s: string, a: nat, b: nat)
    requires a <= b <= |s|
    ensures s[a..] == s[a..b] + s[b..]
  {
  }

  lemma UnparseEmitStep(text: string, i: nat, current: string)
    requires i < |text| && MoveAt(text, i).Emit?
    requires UnparseAll(Scan(text, MoveAt(text, i).next, "")) == text[MoveAt(text, i).next..]
    ensures UnparseAll(Scan(text, i, current)) == current + text[i..]
  {
    var m := MoveAt(text, i);
    var rest := Scan(text, m.next, "");
    assert Scan(text, i, current) == Flush(current) + ([m.part] + rest);
    UnparseFlushThen(current, [m.part] + rest);
    assert UnparseAll([m.part] + rest) == text[i..] by {
      UnparseCons(m.part, rest);
      SuffixSplit(text, i, m.next);
    }
  }

  lemma UnparseRestartStep(text: string, i: nat, current: string)
    requires i < |text| && MoveAt(text, i).Restart?
    requires UnparseAll(Scan(text, MoveAt(text, i).next, MoveAt(text, i).literal))
             == MoveAt(text, i).literal + text[MoveAt(text, i).next..]
    ensures UnparseAll(Scan(text, i, current)) == current + text[i..]
  {
    var m := MoveAt(text, i);
    assert Scan(text, i, current) == Flush(current) + Scan(text, m.next, m.literal);
    UnparseFlushThen(current, Scan(text, m.next, m.literal));
    SuffixSplit(text, i, m.next);
  }

  lemma UnparseExtendStep(text: string, i: nat, current: string)
    requires i < |text| && MoveAt(text, i).Extend?
    requires UnparseAll(Scan(text, i + 1, current + [text[i]])) == current + [text[i]] + text[i + 1..]
    ensures UnparseAll(Scan(text, i, current)) == current + text[i..]
  {
    assert Scan(text, i, current) == Scan(text, i + 1, current + [text[i]]);
    assert text[i..] == [text[i]] + text[i + 1..];
  }

  /** Scanning from `i` reproduces the pending text followed by the rest of the line. */
  lemma {:induction false} ScanUnparses(text: string, i: nat, current: string)
    requires i <= |text|
    ensures UnparseAll(Scan(text, i, current)) == current + text[i..]
    decreases |text| - i
  {
    if i == |text| {
      UnparseFlushThen(current, []);
    } else {
      var m := MoveAt(text, i);
      if m.Emit? {
        ScanUnparses(text, m.next, "");
        UnparseEmitStep(text, i, current);
      } else if m.Restart? {
        ScanUnparses(text, m.next, m.literal);
        UnparseRestartStep(text, i, current);
      } else {
        ScanUnparses(text, i + 1, current + [text[i]]);
        UnparseExtendStep(text, i, current);
      }
    }
  }

  /** Every part the scanner produces satisfies the token invariants. */
  lemma {:induction false} ScanWellFormed(text: string, i: nat, current: string)
    requires i <= |text|
    ensures WellFormed(Scan(text, i, current))
    decreases |text| - i
  {
    if i < |text| {
      match MoveAt(text, i)
      case Emit(p, next) =>
        MoveWellFormed(text, i);
        ScanWellFormed(text, next, "");
      case Restart(literal, next) =>
        ScanWellFormed(text, next, literal);
      case Extend(c) =>
        ScanWellFormed(text, i + 1, current + [c]);
    }
  }

  /** Round trip: re-wrapping bold parts in `**` and code parts in backticks and
      concatenating reproduces the input exactly. */
  lemma InlineRoundTrip(text: string)
    ensures UnparseInline(InlineOf(text)) == text
  {
    ScanUnparses(text, 0, "");
    assert "" + text[0..] == text;
    var ps := Scan(text, 0, "");
    if |ps| == 1 && ps[0].Plain? {
      assert ps == [ps[0]] + [];
      UnparseCons(ps[0], []);
    }
  }

  lemma InlineWellFormed(text: string)
    ensures WellFormedInline(InlineOf(text))
  {
    ScanWellFormed(text, 0, "");
    var ps := Scan(text, 0, "");
    if |ps| == 1 && ps[0].Plain? {
      assert WellFormedPart(ps[0]);
    }
  }

  /** The empty line yields the empty list, not a bare empty string. */
  lemma EmptyLineIsEmptyList()
    ensures InlineOf("") == Parts([])
  {
  }

  /** No marker opens anywhere from `i` on. */
  predicate NoOpenerFrom(text: string, i: nat)
  {
    forall k: nat :: i <= k < |text| ==> !BoldOpenerAt(text, k) && text[k] != Backtick
  }

  /** Where no marker opens, the rest of the line is appended to the pending text. */
  lemma {:induction false} ScanLiteral(text: string, i: nat, current: string)
    requires i <= |text|
    requires NoOpenerFrom(text, i)
    ensures Scan(text, i, current) == Flush(current + text[i..])
    decreases |text| - i
  {
    if i < |text| {
      assert !BoldOpenerAt(text, i) && !CodeOpenerAt(text, i);
      assert Scan(text, i, current) == Scan(text, i + 1, current + [text[i]]);
      ScanLiteral(text, i + 1, current + [text[i]]);
      assert current + [text[i]] + text[i + 1..] == current + text[i..];
    } else {
      assert current + text[i..] == current;
    }
  }

  /** Where no marker opens, no marker closes either. */
  lemma NoCloserFrom(text: string, i: nat)
    requires NoOpenerFrom(text, i)
    ensures IndexOfFrom(text, BoldMarker, i).None?
    ensures FindChar(text, Backtick, i).None?
  {
    var r := IndexOfFrom(text, BoldMarker, i);
    if r.Some? {
      assert OccursAt(text, BoldMarker, r.value);
      assert BoldOpenerAt(text, r.value);
    }
  }

  /** A suffix free of `**` and backticks contributes no opener. */
  lemma NoOpenerInSuffix(prefix: string, s: string)
    requires !Contains(s, BoldMarker) && Backtick !in s
    ensures NoOpenerFrom(prefix + s, |prefix|)
  {
    var text := prefix + s;
    forall k: nat | |prefix| <= k < |text|
      ensures !BoldOpenerAt(text, k) && text[k] != Backtick
    {
      assert text[k] == s[k - |prefix|];
      if BoldOpenerAt(text, k) {
        assert text[k..k + 2] == s[k - |prefix|..k - |prefix| + 2];
        assert OccursAt(s, BoldMarker, k - |prefix|);
      }
    }
  }

  /** An opening `**` with no closing `**` is kept as literal text. */
  lemma UnclosedBoldIsLiteral(s: string)
    requires !Contains(s, BoldMarker) && Backtick !in s
    ensures InlineOf(BoldMarker + s) == Bare(BoldMarker + s)
  {
    var text := BoldMarker + s;
    NoOpenerInSuffix(BoldMarker, s);
    NoCloserFrom(text, 2);
    assert BoldOpenerAt(text, 0);
    assert Scan(text, 0, "") == Scan(text, 2, BoldMarker);
    ScanLiteral(text, 2, BoldMarker);
    assert BoldMarker + text[2..] == text;
  }

  /** A backtick with no closing backtick is kept as literal text. */
  lemma UnclosedBacktickIsLiteral(s: string)
    requires !Contains(s, BoldMarker) && Backtick !in s
    ensures InlineOf([Backtick] + s) == Bare([Backtick] + s)
  {
    var text := [Backtick] + s;
    NoOpenerInSuffix([Backtick], s);
    NoCloserFrom(text, 1);
    BoldMarkerChars(text, 0);
    assert CodeOpenerAt(text, 0);
    assert Scan(text, 0, "") == Scan(text, 1, [Backtick]);
    ScanLiteral(text, 1, [Backtick]);
    assert [Backtick] + text[1..] == text;
  }

  /** A backtick directly followed by another backtick is kept as literal text; the
      second backtick, opening a span that never closes, starts a new plain part. */
  lemma DoubledBacktickIsLiteral(s: string)
    requires !Contains(s, BoldMarker) && Backtick !in s
    ensures InlineOf([Backtick, Backtick] + s) == Parts([Plain([Backtick]), Plain([Backtick] + s)])
  {
    var text := [Backtick, Backtick] + s;
    NoOpenerInSuffix([Backtick, Backtick], s);
    NoCloserFrom(text, 2);
    BoldMarkerChars(text, 0);
    BoldMarkerChars(text, 1);
    assert !CodeOpenerAt(text, 0);
    assert "" + [text[0]] == [Backtick];
    assert Scan(text, 0, "") == Scan(text, 1, [Backtick]);
    assert CodeOpenerAt(text, 1);
    assert Scan(text, 1, [Backtick]) == Flush([Backtick]) + Scan(text, 2, [Backtick]);
    ScanLiteral(text, 2, [Backtick]);
    assert [Backtick] + text[2..] == [Backtick] + s;
  }

  /** A marker that does not close still cuts the plain text: the source flushes the
      pending text before it looks for the closing marker. */
  lemma FailedOpenerSplitsPlainText()
    ensures InlineOf("ab**cd") == Parts([Plain("ab"), Plain("**cd")])
  {
    var text := "ab**cd";
    NoOpenerInSuffix("ab**", "cd");
    NoCloserFrom(text, 4);
    BoldMarkerChars(text, 0);
    BoldMarkerChars(text, 1);
    BoldMarkerChars(text, 2);
    assert text[0] == 'a' && text[1] == 'b';
    assert "" + ['a'] == "a" && "a" + ['b'] == "ab";
    assert Scan(text, 0, "") == Scan(text, 1, "a");
    assert Scan(text, 1, "a") == Scan(text, 2, "ab");
    assert Scan(text, 2, "ab") == Flush("ab") + Scan(text, 4, BoldMarker);
    ScanLiteral(text, 4, BoldMarker);
    assert BoldMarker + text[4..] == "**cd";
  }

  /** The inner loop after an opening `**`: collects characters up to the first later `**`
      or, when there is none, up to the last character. */
  method CollectBold(text: string, from: nat) returns (j: nat, boldText: string)
    requires 2 <= from <= |text|
    ensures from <= j <= |text| && boldText == text[from..j]
    ensures j < |text| - 1 <==> IndexOfFrom(text, BoldMarker, from).Some?
    ensures j < |text| - 1 ==> IndexOfFrom(text, BoldMarker, from) == Some(j)
  {
    j := from;
    boldText := "";
    while j < |text| - 1 && text[j..j + 2] != BoldMarker
      invariant from <= j <= |text|
      invariant boldText == text[from..j]
      invariant forall k: nat :: from <= k < j ==> !OccursAt(text, BoldMarker, k)
      decreases |text| - j
    {
      boldText := boldText + [text[j]];
      j := j + 1;
    }
    var r := IndexOfFrom(text, BoldMarker, from);
    IndexOfFromFirst(text, BoldMarker, from);
    if j < |text| - 1 {
      assert OccursAt(text, BoldMarker, j);
    } else if r.Some? {
      assert r.value < j;
    }
  }

  /** The inner loop after an opening backtick: collects characters up to the next
      backtick or the end of the line. */
  method CollectCode(text: string, from: nat) returns (j: nat, codeText: string)
    requires from <= |text|
    ensures from <= j <= |text| && codeText == text[from..j]
    ensures j < |text| <==> FindChar(text, Backtick, from).Some?
    ensures j < |text| ==> FindChar(text, Backtick, from) == Some(j)
  {
    j := from;
    codeText := "";
    while j < |text| && text[j] != Backtick
      invariant from <= j <= |text|
      invariant codeText == text[from..j]
      invariant forall k :: from <= k < j ==> text[k] != Backtick
      decreases |text| - j
    {
      codeText := codeText + [text[j]];
      j := j + 1;
    }
  }

  /** The scanner's decision at an opening `**`. */
  lemma MoveAtBold(text: string, i: nat)
    requires BoldOpenerAt(text, i)
    ensures var close := IndexOfFrom(text, BoldMarker, i + 2);
      MoveAt(text, i) == if close.Some? then Emit(Bold(text[i + 2..close.value]), close.value + 2)
                         else Restart(BoldMarker, i + 2)
  {
  }

  /** The scanner's decision at an opening backtick. */
  lemma MoveAtCode(text: string, i: nat)
    requires !BoldOpenerAt(text, i) && CodeOpenerAt(text, i)
    ensures var close := FindChar(text, Backtick, i + 1);
      MoveAt(text, i) == if close.Some? then Emit(Code(text[i + 1..close.value]), close.value + 1)
                         else Restart([Backtick], i + 1)
  {
  }

  lemma ScanEmit(text: string, i: nat, current: string, p: Part, next: nat)
    requires i < |text| && MoveAt(text, i) == Emit(p, next)
    ensures Scan(text, i, current) == Flush(current) + ([p] + Scan(text, next, ""))
  {
  }

  lemma ScanRestart(text: string, i: nat, current: string, literal: string, next: nat)
    requires i < |text| && MoveAt(text, i) == Restart(literal, next)
    ensures Scan(text, i, current) == Flush(current) + Scan(text, next, literal)
  {
  }

  lemma ScanExtend(text: string, i: nat, current: string)
    requires i < |text| && !BoldOpenerAt(text, i) && !CodeOpenerAt(text, i)
    ensures Scan(text, i, current) == Scan(text, i + 1, current + [text[i]])
  {
  }

  lemma Assoc3<T>(a: seq<T>, b: seq<T>, c: seq<T>, d: seq<T>)
    ensures a + b + c + d == a + (b + (c + d))
  {
  }

  /** One turn of the scanner's loop at position `i`: the parts pushed, the new pending
      text and the new position. The parts still to come do not change. */
  method ScanStep(text: string, i: nat, parts: seq<Part>, current: string)
    returns (parts': seq<Part>, current': string, i': nat)
    requires i < |text|
    ensures i < i' <= |text|
    ensures parts' + Scan(text, i', current') == parts + Scan(text, i, current)
  {
    if i + 2 <= |text| && text[i..i + 2] == BoldMarker {
      parts', current', i' := BoldStep(text, i, parts, current);
    } else if text[i] == Backtick && !(i + 1 < |text| && text[i + 1] == Backtick) {
      assert !BoldOpenerAt(text, i);
      parts', current', i' := CodeStep(text, i, parts, current);
    } else {
      assert !BoldOpenerAt(text, i) by { BoldMarkerChars(text, i); }
      ScanExtend(text, i, current);
      parts' := parts;
      current' := current + [text[i]];
      i' := i + 1;
    }
  }

  /** The `**` branch: flush the pending text, then push the bold span or restart the
      pending text with the marker. */
  method BoldStep(text: string, i: nat, parts: seq<Part>, current: string)
    returns (parts': seq<Part>, current': string, i': nat)
    requires BoldOpenerAt(text, i)
    ensures i < i' <= |text|
    ensures parts' + Scan(text, i', current') == parts + Scan(text, i, current)
  {
    MoveAtBold(text, i);
    parts' := parts + Flush(current);
    var j, boldText := CollectBold(text, i + 2);
    if j < |text| - 1 {
      parts' := parts' + [Bold(boldText)];
      current' := "";
      i' := j + 2;
      ScanEmit(text, i, current, Bold(boldText), i');
      Assoc3(parts, Flush(current), [Bold(boldText)], Scan(text, i', current'));
    } else {
      current' := BoldMarker;
      i' := i + 2;
      ScanRestart(text, i, current, BoldMarker, i');
    }
  }

  /** The single-backtick branch: flush the pending text, then push the code span or
      restart the pending text with the backtick. */
  method CodeStep(text: string, i: nat, parts: seq<Part>, current: string)
    returns (parts': seq<Part>, current': string, i': nat)
    requires !BoldOpenerAt(text, i) && CodeOpenerAt(text, i)
    ensures i < i' <= |text|
    ensures parts' + Scan(text, i', current') == parts + Scan(text, i, current)
  {
    MoveAtCode(text, i);
    parts' := parts + Flush(current);
    var j, codeText := CollectCode(text, i + 1);
    if j < |text| {
      parts' := parts' + [Code(codeText)];
      current' := "";
      i' := j + 1;
      ScanEmit(text, i, current, Code(codeText), i');
      Assoc3(parts, Flush(current), [Code(codeText)], Scan(text, i', current'));
    } else {
      current' := [Backtick];
      i' := i + 1;
      ScanRestart(text, i, current, [Backtick], i');
    }
  }

  /**
   * The scanner as the source runs it: a `while` loop over `i` that pushes finished
   * parts and keeps the pending plain text in `current`; each turn is `ScanStep`.
   */
  method ProcessInlineMarkdown(text: string) returns (r: Inline)
    ensures r == InlineOf(text)
    ensures UnparseInline(r) == text
    ensures WellFormedInline(r)
  {
    var parts: seq<Part> := [];
    var current: string := "";
    var i: nat := 0;
    while i < |text|
      invariant i <= |text|
      invariant parts + Scan(text, i, current) == Scan(text, 0, "")
      decreases |text| - i
    {
      parts, current, i := ScanStep(text, i, parts, current);
    }
    parts := parts + Flush(current);
    r := if |parts| == 1 && parts[0].Plain? then Bare(parts[0].text) else Parts(parts);
    InlineRoundTrip(text);
    InlineWellFormed(text);
  }
}
