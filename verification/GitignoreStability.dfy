/** What repeated patching does: when one application is already stable, that the third never
    changes anything, and what every patch preserves. */
module GitignoreStability {
  import opened Collections
  import opened JsText
  import opened Wrappers
  import opened Gitignore

  // ---- decisions look at trimmed lines only ----

  /** `b` reads like `a` line by line after trimming, and whatever follows is blank. */
  predicate Similar(a: seq<string>, b: seq<string>) {
    |a| <= |b|
    && (forall i :: 0 <= i < |a| ==> Trim(a[i]) == Trim(b[i]))
    && (forall i :: |a| <= i < |b| ==> Trim(b[i]) == "")
  }

  lemma FindLineSimilar(a: seq<string>, b: seq<string>, marker: string)
    requires Similar(a, b) && marker != ""
    ensures FindLine(a, marker) == FindLine(b, marker)
  {
    var i, j := FindLine(a, marker), FindLine(b, marker);
    assert i >= 0 ==> IsMarker(b, i, marker);
    assert j >= 0 ==> j < |a| && IsMarker(a, j, marker);
    assert j >= 0 && i >= 0 ==> i == j;
  }

  lemma {:induction false} CoveredByLine(lines: seq<string>, p: string, from: nat, i: nat)
    requires from <= i < |lines| && LineCovers(lines[i], p)
    ensures CoveredFrom(lines, p, from)
    decreases i - from
  {
    if from < i {
      CoveredByLine(lines, p, from + 1, i);
    }
  }

  lemma {:induction false} CoveringLine(lines: seq<string>, p: string, from: nat) returns (i: nat)
    requires from <= |lines| && CoveredFrom(lines, p, from)
    ensures from <= i < |lines| && LineCovers(lines[i], p)
    decreases |lines| - from
  {
    if LineCovers(lines[from], p) {
      i := from;
    } else {
      i := CoveringLine(lines, p, from + 1);
    }
  }

  /** Every line of `a` that trims to something has a line of `b` that trims to the same. */
  predicate Included(a: seq<string>, b: seq<string>) {
    forall i :: 0 <= i < |a| && Trim(a[i]) != "" ==> exists j :: 0 <= j < |b| && Trim(b[j]) == Trim(a[i])
  }

  /** More lines never uncover a pattern. */
  lemma CoveredMonotone(a: seq<string>, b: seq<string>, p: string)
    requires Included(a, b) && AlreadyCovered(a, p)
    ensures AlreadyCovered(b, p)
  {
    var i := CoveringLine(a, p, 0);
    var j :| 0 <= j < |b| && Trim(b[j]) == Trim(a[i]);
    CoveredByLine(b, p, 0, j);
  }

  lemma CoveredSimilar(a: seq<string>, b: seq<string>, p: string)
    requires Similar(a, b)
    ensures AlreadyCovered(a, p) == AlreadyCovered(b, p)
  {
    if AlreadyCovered(a, p) {
      var i := CoveringLine(a, p, 0);
      CoveredByLine(b, p, 0, i);
    }
    if AlreadyCovered(b, p) {
      var i := CoveringLine(b, p, 0);
      CoveredByLine(a, p, 0, i);
    }
  }

  lemma {:induction false} NeededSame(patterns: seq<string>, a: seq<string>, b: seq<string>)
    requires forall p :: p in patterns ==> AlreadyCovered(a, p) == AlreadyCovered(b, p)
    ensures Needed(patterns, a) == Needed(patterns, b)
  {
    if patterns != [] {
      assert patterns[0] in patterns;
      NeededSame(patterns[1..], a, b);
    }
  }

  lemma NeededSimilar(patterns: seq<string>, a: seq<string>, b: seq<string>)
    requires Similar(a, b)
    ensures Needed(patterns, a) == Needed(patterns, b)
  {
    forall p | p in patterns
      ensures AlreadyCovered(a, p) == AlreadyCovered(b, p)
    {
      CoveredSimilar(a, b, p);
    }
    NeededSame(patterns, a, b);
  }

  /** The needed patterns are exactly the uncovered ones. */
  lemma {:induction false} NeededExact(patterns: seq<string>, lines: seq<string>)
    ensures forall p :: p in Needed(patterns, lines) <==> p in patterns && !AlreadyCovered(lines, p)
    ensures AllPlain(patterns) ==> AllPlain(Needed(patterns, lines))
  {
    if patterns != [] {
      NeededExact(patterns[1..], lines);
      assert patterns == [patterns[0]] + patterns[1..];
    }
  }

  lemma NeededArePlain(m: Managed, l: seq<string>)
    requires WellFormed(m)
    ensures AllPlain(NeededIn(m, l))
  {
    NeededExact(m.patterns, Outside(m, l));
  }

  // ---- the lines of a rewritten file ----

  lemma {:induction false} SplitLinesSnoc(t: string, c: char)
    requires c != '\n'
    ensures var l := SplitLines(t); var n := |l| - 1;
            SplitLines(t + [c]) == l[..n] + [l[n] + [c]]
    decreases |t|
  {
    var i := IndexOf(t, '\n');
    if i == |t| {
      assert SplitLines(t + [c]) == [t + [c]] by {
        IndexOfAbsent(t + [c], '\n');
      }
      assert SplitLines(t) == [t];
    } else {
      var head, tail := t[..i], t[i + 1..];
      SplitLinesSnoc(tail, c);
      assert t + [c] == head + "\n" + (tail + [c]);
      SplitLinesAt(head, tail + [c]);
      var l, lt, first := SplitLines(t), SplitLines(tail), [DropCr(head)];
      assert l == first + lt;
      assert l[..|l| - 1] == first + lt[..|lt| - 1];
    }
  }

  lemma SimilarLast(l: seq<string>, x: string)
    requires |l| >= 1 && Trim(x) == Trim(l[|l| - 1])
    ensures Similar(l, l[..|l| - 1] + [x]) && Similar(l, l[..|l| - 1] + [x] + [""])
  {
  }

  /** One trailing blank only adds a blank line or a blank line end. */
  lemma SpaceAtEndSimilar(t: string, c: char)
    requires IsSpace(c)
    ensures Similar(SplitLines(t), SplitLines(t + [c]))
  {
    var l := SplitLines(t);
    var last := l[|l| - 1];
    if c == '\n' {
      assert SplitLines(t + [c]) == l[..|l| - 1] + [DropCr(last)] + [""] by {
        SplitLinesConcat(t, "");
        assert t + "\n" + "" == t + [c];
        IndexOfAbsent("", '\n');
      }
      TrimDropCr(last);
      SimilarLast(l, DropCr(last));
    } else {
      SplitLinesSnoc(t, c);
      assert Trim(last + [c]) == Trim(last) by {
        assert (last + [c])[..|last|] == last;
        TrimIgnoresLastSpace(last + [c]);
      }
      SimilarLast(l, last + [c]);
    }
  }

  lemma SimilarTransitive(a: seq<string>, b: seq<string>, c: seq<string>)
    requires Similar(a, b) && Similar(b, c)
    ensures Similar(a, c)
  {
  }

  lemma {:induction false} TrimEndLines(s: string)
    ensures Similar(SplitLines(TrimEnd(s)), SplitLines(s))
    decreases |s|
  {
    if s != "" && IsSpace(s[|s| - 1]) {
      var t, c := s[..|s| - 1], s[|s| - 1];
      assert s == t + [c];
      TrimEndLines(t);
      SpaceAtEndSimilar(t, c);
      SimilarTransitive(SplitLines(TrimEnd(t)), SplitLines(t), SplitLines(s));
    }
  }

  /** A line survives a join and a split up to one carriage return. */
  predicate SameLine(line: string, kept: string) {
    kept == line || kept == DropCr(line)
  }

  /** `l` holds the lines `r`, each up to one carriage return, and at most an empty line after them. */
  predicate Holds(r: seq<string>, l: seq<string>) {
    |r| <= |l| <= |r| + 1 && (|l| == |r| + 1 ==> l[|r|] == "")
    && forall i :: 0 <= i < |r| ==> SameLine(r[i], l[i])
  }

  lemma ChompHolds(r: seq<string>, c: seq<string>, d: seq<string>)
    requires |r| >= 1 && c == Chomp(r) && d == c[..|c| - 1] + [DropCr(c[|c| - 1])] + [""]
    ensures Holds(r, c) && Holds(r, d)
  {
  }

  /** The written file has the rebuilt lines, each up to one carriage return, and at most one
      more, empty, line. */
  lemma LinesOfFile(r: seq<string>)
    requires |r| >= 1 && AllLack(r, '\n')
    ensures Holds(r, SplitLines(EnsureTrailingNewline(JoinWith(r, '\n'))))
  {
    SplitLinesJoin(r);
    FileHolds(r, JoinWith(r, '\n'));
  }

  lemma FileHolds(r: seq<string>, text: string)
    requires |r| >= 1 && SplitLines(text) == Chomp(r)
    ensures Holds(r, SplitLines(EnsureTrailingNewline(text)))
  {
    var l := SplitLines(text);
    FileLines(text, l);
    ChompHolds(r, l, l[..|l| - 1] + [DropCr(l[|l| - 1])] + [""]);
  }

  lemma FileLines(text: string, l: seq<string>)
    requires SplitLines(text) == l
    ensures SplitLines(text + "\n") == l[..|l| - 1] + [DropCr(l[|l| - 1])] + [""]
  {
    SplitLinesConcat(text, "");
    assert text + "\n" + "" == text + "\n";
    assert SplitLines("") == [""];
  }

  lemma HoldsSimilar(r: seq<string>, l: seq<string>)
    requires Holds(r, l)
    ensures Similar(r, l)
  {
    assert Trim("") == "";
    forall i | 0 <= i < |r|
      ensures Trim(l[i]) == Trim(r[i])
    {
      TrimDropCr(r[i]);
    }
  }

  lemma BlockLinesPlain(m: Managed, needed: seq<string>)
    requires WellFormed(m) && AllPlain(needed)
    ensures AllLack(BlockLines(m, needed), '\n')
    ensures forall i :: 0 <= i < |needed| + 2 ==> DropCr(BlockLines(m, needed)[i]) == BlockLines(m, needed)[i]
    ensures forall i :: 0 <= i < |needed| + 2 ==> Trim(BlockLines(m, needed)[i]) == BlockLines(m, needed)[i]
    ensures forall i :: 0 < i < |needed| + 1 ==> BlockLines(m, needed)[i] != m.start
    ensures forall i :: 0 < i < |needed| + 1 ==> BlockLines(m, needed)[i] != m.end
  {
  }

  /** The file with a block written between two runs of lines. */
  function Spliced(m: Managed, pre: seq<string>, needed: seq<string>, post: seq<string>): string {
    EnsureTrailingNewline(JoinWith(pre + BlockLines(m, needed) + post, '\n'))
  }

  /** Writing a block between two runs of lines: what the result's lines are. */
  lemma LinesAroundBlock(m: Managed, pre: seq<string>, needed: seq<string>, post: seq<string>)
    requires WellFormed(m) && AllPlain(needed) && AllLack(pre, '\n') && AllLack(post, '\n')
    ensures var r := pre + BlockLines(m, needed) + post;
            var l := SplitLines(Spliced(m, pre, needed, post));
            Similar(r, l) && Holds(r, l) && l[|pre|..|pre| + |needed| + 2] == BlockLines(m, needed)
  {
    var b := BlockLines(m, needed);
    var r := pre + b + post;
    BlockLinesPlain(m, needed);
    assert AllLack(r, '\n');
    LinesOfFile(r);
    var l := SplitLines(Spliced(m, pre, needed, post));
    HoldsSimilar(r, l);
    MiddleKept(pre, b, post, l);
  }

  lemma MiddleKept(pre: seq<string>, b: seq<string>, post: seq<string>, l: seq<string>)
    requires Holds(pre + b + post, l)
    requires forall i :: 0 <= i < |b| ==> DropCr(b[i]) == b[i]
    ensures l[|pre|..|pre| + |b|] == b
  {
  }

  // ---- a text that holds a current block is left alone ----

  /** Lines whose first markers delimit exactly the block still needed outside it. */
  predicate CurrentAt(m: Managed, l: seq<string>, needed: seq<string>, s: nat) {
    s + |needed| + 2 <= |l|
    && FindLine(l, m.start) == s && FindLine(l, m.end) == s + |needed| + 1
    && l[s..s + |needed| + 2] == BlockLines(m, needed)
    && NeededIn(m, l) == needed
  }

  lemma CurrentBlockUnchanged(m: Managed, text: string, needed: seq<string>, s: nat)
    requires CurrentAt(m, SplitLines(text), needed, s)
    ensures PatchManaged(m, Some(text)) == PatchResult(false, text, AlreadyCurrent)
  {
    var l := SplitLines(text);
    assert HasBlock(m, l) && CurrentBlock(m, l) == RenderBlock(m, needed);
  }

  lemma FindLineIs(lines: seq<string>, marker: string, k: nat)
    requires k < |lines| && IsMarker(lines, k, marker)
    requires forall i :: 0 <= i < k ==> !IsMarker(lines, i, marker)
    ensures FindLine(lines, marker) == k
  {
  }

  lemma FindLineAfter(pre: seq<string>, rest: seq<string>, marker: string)
    requires FindLine(pre, marker) == -1 && FindLine(rest, marker) != -1
    ensures FindLine(pre + rest, marker) == |pre| + FindLine(rest, marker)
  {
    var r := pre + rest;
    var k := FindLine(rest, marker);
    forall i | 0 <= i < |pre| + k
      ensures !IsMarker(r, i, marker)
    {
      assert if i < |pre| then r[i] == pre[i] && !IsMarker(pre, i, marker)
             else r[i] == rest[i - |pre|] && !IsMarker(rest, i - |pre|, marker);
    }
    FindLineIs(r, marker, |pre| + k);
  }

  /** Markers of `pre + block + post` when neither marker occurs in `pre`. */
  lemma MarkersAroundBlock(m: Managed, pre: seq<string>, needed: seq<string>, post: seq<string>)
    requires WellFormed(m) && AllPlain(needed)
    requires FindLine(pre, m.start) == -1 && FindLine(pre, m.end) == -1
    ensures var r := pre + BlockLines(m, needed) + post;
            FindLine(r, m.start) == |pre| && FindLine(r, m.end) == |pre| + |needed| + 1
  {
    var b := BlockLines(m, needed);
    var rest := b + post;
    BlockLinesPlain(m, needed);
    assert forall i :: 0 <= i < |b| ==> rest[i] == b[i];
    FindLineIs(rest, m.start, 0);
    FindLineIs(rest, m.end, |b| - 1);
    FindLineAfter(pre, rest, m.start);
    FindLineAfter(pre, rest, m.end);
    assert pre + rest == pre + b + post;
  }

  lemma OutsideSimilar(pre: seq<string>, mid: seq<string>, post: seq<string>, l: seq<string>)
    requires Similar(pre + mid + post, l)
    ensures Similar(pre + post, l[..|pre|] + l[|pre| + |mid|..])
  {
  }

  lemma OutsideAt(m: Managed, l: seq<string>, s: nat, e: nat)
    requires s < e - 1 && FindLine(l, m.start) == s && FindLine(l, m.end) == e - 1
    ensures NeededIn(m, l) == Needed(m.patterns, l[..s] + l[e..])
  {
  }

  lemma OutsideNeeds(patterns: seq<string>, pre: seq<string>, b: seq<string>, post: seq<string>, l: seq<string>,
                     outside: seq<string>, needed: seq<string>)
    requires Similar(pre + b + post, l) && outside == l[..|pre|] + l[|pre| + |b|..]
    requires needed == Needed(patterns, pre + post)
    ensures Needed(patterns, outside) == needed
  {
    OutsideSimilar(pre, b, post, l);
    NeededSimilar(patterns, pre + post, outside);
  }

  /** Lines that read like `pre + block + post` have their block there and need the same patterns. */
  lemma SimilarBlock(m: Managed, pre: seq<string>, b: seq<string>, post: seq<string>, l: seq<string>, needed: seq<string>)
    requires m.start != "" && m.end != "" && |b| >= 2
    requires Similar(pre + b + post, l)
    requires FindLine(pre + b + post, m.start) == |pre| && FindLine(pre + b + post, m.end) == |pre| + |b| - 1
    requires Needed(m.patterns, pre + post) == needed
    ensures FindLine(l, m.start) == |pre| && FindLine(l, m.end) == |pre| + |b| - 1
    ensures NeededIn(m, l) == needed
  {
    SimilarMarkers(m, pre + b + post, l);
    var s, e := |pre|, |pre| + |b|;
    var outside := l[..s] + l[e..];
    OutsideNeeds(m.patterns, pre, b, post, l, outside, needed);
    NeedsFound(m, l, s, e, outside, needed);
  }

  lemma SimilarMarkers(m: Managed, r: seq<string>, l: seq<string>)
    requires m.start != "" && m.end != "" && Similar(r, l)
    ensures FindLine(l, m.start) == FindLine(r, m.start) && FindLine(l, m.end) == FindLine(r, m.end)
  {
    FindLineSimilar(r, l, m.start);
    FindLineSimilar(r, l, m.end);
  }

  lemma NeedsFound(m: Managed, l: seq<string>, s: nat, e: nat, outside: seq<string>, needed: seq<string>)
    requires s < e - 1 && FindLine(l, m.start) == s && FindLine(l, m.end) == e - 1
    requires outside == l[..s] + l[e..] && Needed(m.patterns, outside) == needed
    ensures NeededIn(m, l) == needed
  {
  }

  lemma BlockFound(m: Managed, pre: seq<string>, b: seq<string>, post: seq<string>, l: seq<string>, needed: seq<string>)
    requires m.start != "" && m.end != "" && |b| == |needed| + 2
    requires Similar(pre + b + post, l)
    requires FindLine(pre + b + post, m.start) == |pre| && FindLine(pre + b + post, m.end) == |pre| + |needed| + 1
    requires Needed(m.patterns, pre + post) == needed
    ensures FindLine(l, m.start) == |pre| && FindLine(l, m.end) == |pre| + |needed| + 1
    ensures NeededIn(m, l) == needed && |pre| + |needed| + 2 <= |l|
  {
    SimilarBlock(m, pre, b, post, l, needed);
  }

  /** The file written around a block that is exactly what its surroundings need is stable. */
  lemma WrittenBlockStable(m: Managed, pre: seq<string>, needed: seq<string>, post: seq<string>, y: string)
    requires WellFormed(m) && AllLack(pre, '\n') && AllLack(post, '\n')
    requires FindLine(pre, m.start) == -1 && FindLine(pre, m.end) == -1
    requires needed == Needed(m.patterns, pre + post) && y == Spliced(m, pre, needed, post)
    ensures PatchManaged(m, Some(y)) == PatchResult(false, y, AlreadyCurrent)
  {
    WrittenBlockFound(m, pre, needed, post, y);
    CurrentBlockUnchanged(m, y, needed, |pre|);
  }

  lemma WrittenBlockFound(m: Managed, pre: seq<string>, needed: seq<string>, post: seq<string>, y: string)
    requires WellFormed(m) && AllLack(pre, '\n') && AllLack(post, '\n')
    requires FindLine(pre, m.start) == -1 && FindLine(pre, m.end) == -1
    requires needed == Needed(m.patterns, pre + post)
    requires y == Spliced(m, pre, needed, post)
    ensures CurrentAt(m, SplitLines(y), needed, |pre|)
  {
    assert AllPlain(needed) by {
      NeededExact(m.patterns, pre + post);
    }
    LinesAroundBlock(m, pre, needed, post);
    MarkersAroundBlock(m, pre, needed, post);
    BlockFound(m, pre, BlockLines(m, needed), post, SplitLines(y), needed);
  }

  lemma FindLinePrefix(lines: seq<string>, marker: string, n: nat)
    requires n <= |lines| && (FindLine(lines, marker) == -1 || n <= FindLine(lines, marker))
    ensures FindLine(lines[..n], marker) == -1
  {
    var i := FindLine(lines[..n], marker);
    assert i >= 0 ==> IsMarker(lines, i, marker);
  }

  lemma BlockSplits(m: Managed, needed: seq<string>)
    requires WellFormed(m) && AllPlain(needed)
    ensures SplitOn(RenderBlock(m, needed), '\n') == BlockLines(m, needed)
  {
    BlockLinesPlain(m, needed);
    SplitOnJoin(BlockLines(m, needed), '\n');
  }

  /** What an in-place update writes. */
  lemma RebuiltLines(m: Managed, l: seq<string>)
    requires WellFormed(m) && HasBlock(m, l)
    ensures Rebuilt(m, l, RenderBlock(m, NeededIn(m, l)))
         == l[..FindLine(l, m.start)] + BlockLines(m, NeededIn(m, l)) + l[FindLine(l, m.end) + 1..]
  {
    var needed := NeededIn(m, l);
    assert SplitOn(RenderBlock(m, needed), '\n') == BlockLines(m, needed) by {
      NeededArePlain(m, l);
      BlockSplits(m, needed);
    }
  }

  /** The lines before the found block, the needed block and the lines after it, as one file. */
  function SplicedText(m: Managed, l: seq<string>): string
    requires HasBlock(m, l)
  {
    Spliced(m, l[..FindLine(l, m.start)], NeededIn(m, l), l[FindLine(l, m.end) + 1..])
  }

  /** `pre` and `post` are the lines before and after the found block, `needed` what it has to hold. */
  predicate Parts(m: Managed, l: seq<string>, pre: seq<string>, needed: seq<string>, post: seq<string>) {
    HasBlock(m, l)
    && pre == l[..FindLine(l, m.start)] && post == l[FindLine(l, m.end) + 1..] && needed == NeededIn(m, l)
  }

  lemma PartsSpliced(m: Managed, l: seq<string>, pre: seq<string>, needed: seq<string>, post: seq<string>)
    requires Parts(m, l, pre, needed, post)
    ensures SplicedText(m, l) == Spliced(m, pre, needed, post)
  {
  }

  lemma PartsNeeded(m: Managed, l: seq<string>, pre: seq<string>, needed: seq<string>, post: seq<string>)
    requires Parts(m, l, pre, needed, post)
    ensures needed == Needed(m.patterns, pre + post)
  {
    OutsideAt(m, l, FindLine(l, m.start), FindLine(l, m.end) + 1);
  }

  lemma PartsUnmarked(m: Managed, l: seq<string>, pre: seq<string>, needed: seq<string>, post: seq<string>)
    requires Parts(m, l, pre, needed, post)
    ensures FindLine(pre, m.start) == -1 && FindLine(pre, m.end) == -1
  {
    FindLinePrefix(l, m.start, |pre|);
    FindLinePrefix(l, m.end, |pre|);
  }

  /** A found block is rewritten. */
  predicate NeedsUpdate(m: Managed, l: seq<string>) {
    HasBlock(m, l) && NeededIn(m, l) != [] && CurrentBlock(m, l) != RenderBlock(m, NeededIn(m, l))
  }

  lemma UpdateFacts(m: Managed, text: string)
    ensures PatchManaged(m, Some(text)).reason == BlockUpdated <==> NeedsUpdate(m, SplitLines(text))
    ensures HasBlock(m, SplitLines(text)) && !NeedsUpdate(m, SplitLines(text)) ==> PatchManaged(m, Some(text)).content == text
  {
  }

  lemma UpdateSplices(m: Managed, text: string, content: string)
    requires WellFormed(m) && NeedsUpdate(m, SplitLines(text)) && content == PatchManaged(m, Some(text)).content
    ensures content == SplicedText(m, SplitLines(text))
  {
    var l := SplitLines(text);
    var s, e, needed := FindLine(l, m.start), FindLine(l, m.end), NeededIn(m, l);
    RewritesBlock(m, text, s, e, needed);
    PartsSpliced(m, l, l[..s], needed, l[e + 1..]);
  }

  /** A second patch never changes a text whose block was found, current or not. */
  lemma BlockPatchStable(m: Managed, text: string)
    requires WellFormed(m) && HasBlock(m, SplitLines(text))
    ensures var y := PatchManaged(m, Some(text)).content; PatchManaged(m, Some(y)).content == y
  {
    var y := PatchManaged(m, Some(text)).content;
    UpdateFacts(m, text);
    if NeedsUpdate(m, SplitLines(text)) {
      UpdateSplices(m, text, y);
      SplitLinesLack(text);
      SplicedStable(m, SplitLines(text), y);
    }
  }

  /** The spliced text is a needed block between lines that hold no marker before it. */
  lemma SplicedParts(m: Managed, l: seq<string>, pre: seq<string>, needed: seq<string>, post: seq<string>)
    requires Parts(m, l, pre, needed, post) && AllLack(l, '\n')
    ensures SplicedText(m, l) == Spliced(m, pre, needed, post) && needed == Needed(m.patterns, pre + post)
    ensures FindLine(pre, m.start) == -1 && FindLine(pre, m.end) == -1
    ensures AllLack(pre, '\n') && AllLack(post, '\n')
  {
    PartsSpliced(m, l, pre, needed, post);
    PartsNeeded(m, l, pre, needed, post);
    PartsUnmarked(m, l, pre, needed, post);
  }

  lemma SplicedStable(m: Managed, l: seq<string>, content: string)
    requires WellFormed(m) && HasBlock(m, l) && AllLack(l, '\n') && content == SplicedText(m, l)
    ensures PatchManaged(m, Some(content)).content == content
  {
    var pre, needed, post := l[..FindLine(l, m.start)], NeededIn(m, l), l[FindLine(l, m.end) + 1..];
    SplicedParts(m, l, pre, needed, post);
    WrittenBlockStable(m, pre, needed, post, content);
  }

  // ---- appending a block ----

  /** Two readings of the same lines that differ in trailing blank lines only. */
  predicate Alike(a: seq<string>, b: seq<string>) {
    Similar(a, b) || Similar(b, a)
  }

  /** The lines before an appended block: those of the old text without its trailing blanks,
      and an empty line unless there is nothing before it. */
  function LinesBefore(base: string): seq<string> {
    var l := SplitLines(base);
    if base == "" then [] else l[..|l| - 1] + [DropCr(l[|l| - 1])] + [""]
  }

  lemma AlikeExtended(l: seq<string>, x: string, l2: seq<string>)
    requires Similar(l, l2) && |l| >= 1 && Trim(x) == Trim(l[|l| - 1])
    ensures Alike(l[..|l| - 1] + [x] + [""], l2)
  {
  }

  lemma LinesBeforeAlike(base: string, l2: seq<string>)
    requires Similar(SplitLines(base), l2)
    ensures Alike(LinesBefore(base), l2)
  {
    var l := SplitLines(base);
    if base == "" {
      assert l == [""] by {
        IndexOfAbsent("", '\n');
      }
      BlankLinesAlike(l, l2);
    } else {
      TrimDropCr(l[|l| - 1]);
      AlikeExtended(l, DropCr(l[|l| - 1]), l2);
    }
  }

  lemma BlankLinesAlike(l: seq<string>, l2: seq<string>)
    requires Similar(l, l2) && l == [""]
    ensures Similar([], l2)
  {
  }

  lemma BlockTextLines(m: Managed, needed: seq<string>)
    requires WellFormed(m) && AllPlain(needed)
    ensures SplitLines(RenderBlock(m, needed) + "\n") == BlockLines(m, needed) + [""]
  {
    var block := RenderBlock(m, needed);
    var b := BlockLines(m, needed);
    BlockLinesPlain(m, needed);
    SplitLinesJoin(b);
    assert Chomp(b) == b;
    SplitLinesConcat(block, "");
    IndexOfAbsent("", '\n');
    assert block + "\n" + "" == block + "\n";
  }

  lemma AppendedLines(m: Managed, text: string, needed: seq<string>)
    requires WellFormed(m) && AllPlain(needed)
    ensures SplitLines(Appended(text, RenderBlock(m, needed))) == LinesBefore(TrimEnd(text)) + BlockLines(m, needed) + [""]
  {
    var base := TrimEnd(text);
    var block := RenderBlock(m, needed);
    BlockTextLines(m, needed);
    BlockEndsVisible(m, needed);
    if base == "" {
      assert Appended(text, block) == block + "\n";
    } else {
      AppendedText(text, block);
      AppendedBelow(base, block + "\n");
    }
  }

  lemma AppendedText(text: string, block: string)
    requires TrimEnd(text) != "" && block != "" && !EndsWithLf(block)
    ensures Appended(text, block) == TrimEnd(text) + "\n" + ("\n" + (block + "\n"))
  {
  }

  lemma AppendedBelow(base: string, tail: string)
    ensures var l := SplitLines(base);
            SplitLines(base + "\n" + ("\n" + tail)) == l[..|l| - 1] + [DropCr(l[|l| - 1])] + [""] + SplitLines(tail)
  {
    SplitLinesConcat(base, "\n" + tail);
    EmptyLineFirst(tail);
    var l := SplitLines(base);
    Reassociate(l[..|l| - 1] + [DropCr(l[|l| - 1])], [""], SplitLines(tail));
  }

  lemma EmptyLineFirst(tail: string)
    ensures SplitLines("\n" + tail) == [""] + SplitLines(tail)
  {
  }

  /** A rendered block does not end in a line feed. */
  lemma BlockEndsVisible(m: Managed, needed: seq<string>)
    requires WellFormed(m)
    ensures RenderBlock(m, needed) != "" && !EndsWithLf(RenderBlock(m, needed))
  {
    JoinWithConcat([m.start] + needed, [m.end], '\n');
    assert BlockLines(m, needed) == [m.start] + needed + [m.end];
    assert m.end[|m.end| - 1] != '\n';
  }

  lemma FindLineAlike(a: seq<string>, b: seq<string>, marker: string)
    requires Alike(a, b) && marker != ""
    ensures FindLine(a, marker) == FindLine(b, marker)
  {
    if Similar(a, b) {
      FindLineSimilar(a, b, marker);
    } else {
      FindLineSimilar(b, a, marker);
    }
  }

  lemma CoveredAlike(a: seq<string>, b: seq<string>, p: string)
    requires Alike(a, b)
    ensures AlreadyCovered(a, p) == AlreadyCovered(b, p)
  {
    if Similar(a, b) {
      CoveredSimilar(a, b, p);
    } else {
      CoveredSimilar(b, a, p);
    }
  }

  /** A block of the patterns its surroundings need leaves no pattern uncovered. */
  lemma BlockCovers(m: Managed, pre: seq<string>, needed: seq<string>, post: seq<string>, p: string)
    requires WellFormed(m) && needed == Needed(m.patterns, pre + post) && p in m.patterns
    ensures AlreadyCovered(pre + BlockLines(m, needed) + post, p)
  {
    NeededExact(m.patterns, pre + post);
    if AlreadyCovered(pre + post, p) {
      CoveredAround(pre, BlockLines(m, needed), post, p);
    } else {
      CoveredInside(m, pre, needed, post, p);
    }
  }

  lemma CoveredAround(pre: seq<string>, b: seq<string>, post: seq<string>, p: string)
    requires AlreadyCovered(pre + post, p)
    ensures AlreadyCovered(pre + b + post, p)
  {
    var r := pre + b + post;
    var i := CoveringLine(pre + post, p, 0);
    var j := if i < |pre| then i else i + |b|;
    assert r[j] == (pre + post)[i];
    CoveredByLine(r, p, 0, j);
  }

  lemma CoveredInside(m: Managed, pre: seq<string>, needed: seq<string>, post: seq<string>, p: string)
    requires WellFormed(m) && AllPlain(needed) && p in needed
    ensures AlreadyCovered(pre + BlockLines(m, needed) + post, p)
  {
    var b := BlockLines(m, needed);
    var r := pre + b + post;
    var k :| 0 <= k < |needed| && needed[k] == p;
    assert PlainPattern(p);
    assert r[|pre| + 1 + k] == b[1 + k] == p;
    CoveredByLine(r, p, 0, |pre| + 1 + k);
  }

  lemma AppendedCovers(m: Managed, a: seq<string>, needed: seq<string>, p: string)
    requires WellFormed(m) && needed == Needed(m.patterns, a) && p in m.patterns
    ensures AlreadyCovered(a + BlockLines(m, needed) + [""], p)
  {
    NeededSimilar(m.patterns, a, a + [""]);
    BlockCovers(m, a, needed, [""], p);
  }

  lemma NeededNone(patterns: seq<string>, lines: seq<string>)
    requires forall p :: p in patterns ==> AlreadyCovered(lines, p)
    ensures Needed(patterns, lines) == []
  {
  }

  /** No marker anywhere: the appended block is found and current. */
  lemma AppendWithoutMarkers(m: Managed, text: string, y: string, a: seq<string>, needed: seq<string>)
    requires WellFormed(m) && needed == Needed(m.patterns, a) && SplitLines(y) == a + BlockLines(m, needed) + [""]
    requires FindLine(a, m.start) == -1 && FindLine(a, m.end) == -1
    ensures PatchManaged(m, Some(y)) == PatchResult(false, y, AlreadyCurrent)
  {
    var b := BlockLines(m, needed);
    NeededExact(m.patterns, a);
    MarkersAroundBlock(m, a, needed, [""]);
    assert Needed(m.patterns, a + [""]) == needed by {
      NeededSimilar(m.patterns, a, a + [""]);
    }
    SimilarBlock(m, a, b, [""], SplitLines(y), needed);
    assert SplitLines(y)[|a|..|a| + |b|] == b;
    CurrentBlockUnchanged(m, y, needed, |a|);
  }

  lemma FindLineKept(a: seq<string>, rest: seq<string>, marker: string)
    requires FindLine(a, marker) != -1
    ensures FindLine(a + rest, marker) == FindLine(a, marker)
  {
    var k, r := FindLine(a, marker), a + rest;
    assert r[k] == a[k];
    forall i | 0 <= i < k
      ensures !IsMarker(r, i, marker)
    {
      assert r[i] == a[i] && !IsMarker(a, i, marker);
    }
    FindLineIs(r, marker, k);
  }

  /** A stray end marker before any start marker: no block is found again, and nothing is needed. */
  lemma AppendAfterStrayEnd(m: Managed, y: string, a: seq<string>, needed: seq<string>)
    requires WellFormed(m) && needed == Needed(m.patterns, a) && SplitLines(y) == a + BlockLines(m, needed) + [""]
    requires FindLine(a, m.end) != -1 && !HasBlock(m, a)
    ensures PatchManaged(m, Some(y)) == PatchResult(false, y, AlreadyIgnored)
  {
    var b := BlockLines(m, needed);
    var r := a + b + [""];
    var rest := b + [""];
    assert r == a + rest;
    FindLineKept(a, rest, m.end);
    if FindLine(a, m.start) != -1 {
      FindLineKept(a, rest, m.start);
    } else {
      FindLineIs(rest, m.start, 0);
      FindLineAfter(a, rest, m.start);
    }
    assert !HasBlock(m, r);
    forall p | p in m.patterns
      ensures AlreadyCovered(r, p)
    {
      AppendedCovers(m, a, needed, p);
    }
    NeededNone(m.patterns, r);
  }

  /** The markers after a block was appended below an unclosed start marker. */
  lemma OpenBlockMarkers(m: Managed, a: seq<string>, needed: seq<string>)
    requires WellFormed(m) && AllPlain(needed)
    requires FindLine(a, m.start) != -1 && FindLine(a, m.end) == -1
    ensures var r := a + BlockLines(m, needed) + [""];
            FindLine(r, m.start) == FindLine(a, m.start) && FindLine(r, m.end) == |a| + |needed| + 1
  {
    var b := BlockLines(m, needed);
    var rest := b + [""];
    assert a + b + [""] == a + rest;
    FindLineKept(a, rest, m.start);
    BlockLinesPlain(m, needed);
    assert forall i :: 0 <= i < |b| ==> rest[i] == b[i];
    FindLineIs(rest, m.end, |b| - 1);
    FindLineAfter(a, rest, m.end);
  }

  /** The lines a second patch keeps when it rewrites an open block. */
  lemma OpenBlockNeeds(m: Managed, a: seq<string>, s: nat)
    requires s <= |a| && Needed(m.patterns, a) != []
    ensures Needed(m.patterns, a[..s] + [""]) != []
  {
    NeededExact(m.patterns, a);
    NeededExact(m.patterns, a[..s] + [""]);
    var p := Needed(m.patterns, a)[0];
    if AlreadyCovered(a[..s] + [""], p) {
      var o := a[..s] + [""];
      forall i | 0 <= i < |o| && Trim(o[i]) != ""
        ensures exists j :: 0 <= j < |a| && Trim(a[j]) == Trim(o[i])
      {
        assert i < s && o[i] == a[i];
      }
      assert Included(o, a);
      CoveredMonotone(o, a, p);
    }
  }

  /** A rendered block holds its start marker only once, so it is never the text between two of them. */
  lemma TwoStartsNotCurrent(m: Managed, current: seq<string>, needed: seq<string>, k: nat)
    requires WellFormed(m) && AllPlain(needed) && AllLack(current, '\n')
    requires 0 < k < |current| - 1 && current[k] == m.start
    ensures current != BlockLines(m, needed) && JoinWith(current, '\n') != RenderBlock(m, needed)
  {
    BlockLinesPlain(m, needed);
    if JoinWith(current, '\n') == RenderBlock(m, needed) {
      JoinWithInjective(current, BlockLines(m, needed), '\n');
    }
  }

  lemma ContentHoldsBlock(m: Managed, l: seq<string>, s: nat, e: nat, needed: seq<string>, content: string)
    requires WellFormed(m) && AllPlain(needed) && AllLack(l, '\n') && s < e < |l|
    requires content == Spliced(m, l[..s], needed, l[e + 1..])
    ensures var l2 := SplitLines(content);
            s + |needed| + 2 <= |l2| && l2[s..s + |needed| + 2] == BlockLines(m, needed)
  {
    LinesAroundBlock(m, l[..s], needed, l[e + 1..]);
  }

  lemma PatchRewrites(m: Managed, y: string, l: seq<string>, needed: seq<string>, lines: seq<string>)
    requires l == SplitLines(y) && HasBlock(m, l) && NeededIn(m, l) == needed && needed != []
    requires CurrentBlock(m, l) != RenderBlock(m, needed) && Rebuilt(m, l, RenderBlock(m, needed)) == lines
    ensures PatchManaged(m, Some(y)).content == EnsureTrailingNewline(JoinWith(lines, '\n'))
  {
  }

  lemma RewritesBlock(m: Managed, y: string, s: nat, e: nat, needed: seq<string>)
    requires WellFormed(m) && needed != []
    requires var l := SplitLines(y);
             FindLine(l, m.start) == s < e == FindLine(l, m.end) && NeededIn(m, l) == needed
             && CurrentBlock(m, l) != RenderBlock(m, needed)
    ensures var l := SplitLines(y);
            PatchManaged(m, Some(y)).content
            == Spliced(m, l[..s], needed, l[e + 1..])
  {
    var l := SplitLines(y);
    var lines := l[..s] + BlockLines(m, needed) + l[e + 1..];
    assert HasBlock(m, l);
    assert Rebuilt(m, l, RenderBlock(m, needed)) == lines by {
      RebuiltLines(m, l);
    }
    PatchRewrites(m, y, l, needed, lines);
  }

  /** The second patch of a text with an open block writes a block of its own needs there. */
  lemma OpenBlockRewritten(m: Managed, y: string, s: nat, e: nat, needed2: seq<string>)
    requires WellFormed(m) && AllPlain(needed2) && needed2 != []
    requires var l := SplitLines(y);
             FindLine(l, m.start) == s < e == FindLine(l, m.end) && NeededIn(m, l) == needed2
             && CurrentBlock(m, l) != RenderBlock(m, needed2)
    ensures var l2 := SplitLines(PatchManaged(m, Some(y)).content);
            s + |needed2| + 2 <= |l2| && l2[s..s + |needed2| + 2] == BlockLines(m, needed2)
  {
    var l := SplitLines(y);
    var content := PatchManaged(m, Some(y)).content;
    RewritesBlock(m, y, s, e, needed2);
    SplitLinesLack(y);
    ContentHoldsBlock(m, l, s, e, needed2, content);
  }

  lemma AroundOpenBlock(l: seq<string>, a: seq<string>, b: seq<string>, s: nat)
    requires l == a + b + [""] && s <= |a|
    ensures l[..s] == a[..s] && l[|a| + |b|..] == [""]
    ensures b != [] ==> l[|a|] == b[0]
  {
  }

  /** What a second patch finds below an unclosed start marker. */
  lemma OpenBlockFound(m: Managed, l: seq<string>, a: seq<string>, needed: seq<string>, s: nat, needed2: seq<string>)
    requires WellFormed(m) && needed == Needed(m.patterns, a) && needed != []
    requires l == a + BlockLines(m, needed) + [""] && FindLine(a, m.start) == s && FindLine(a, m.end) == -1
    requires needed2 == Needed(m.patterns, a[..s] + [""])
    ensures FindLine(l, m.start) == s && FindLine(l, m.end) == |a| + |needed| + 1 && l[|a|] == m.start
    ensures NeededIn(m, l) == needed2 && needed2 != [] && AllPlain(needed2)
  {
    assert AllPlain(needed) && AllPlain(needed2) by {
      NeededExact(m.patterns, a);
      NeededExact(m.patterns, a[..s] + [""]);
    }
    OpenBlockMarkers(m, a, needed);
    OpenBlockNeeds(m, a, s);
    AroundOpenBlock(l, a, BlockLines(m, needed), s);
    OutsideAt(m, l, s, |a| + |needed| + 2);
  }

  /** An unclosed start marker: the second patch rewrites everything from it to the appended end. */
  lemma AppendAfterOpenStart(m: Managed, y: string, a: seq<string>, needed: seq<string>)
    requires WellFormed(m) && needed == Needed(m.patterns, a) && needed != []
    requires SplitLines(y) == a + BlockLines(m, needed) + [""]
    requires FindLine(a, m.start) != -1 && FindLine(a, m.end) == -1
    ensures HasBlock(m, SplitLines(y)) && PatchManaged(m, Some(y)).content != y
  {
    var s := FindLine(a, m.start);
    var needed2 := Needed(m.patterns, a[..s] + [""]);
    OpenBlockFound(m, SplitLines(y), a, needed, s, needed2);
    OpenBlockChanges(m, y, |a|, s, |a| + |needed| + 1, needed2);
  }

  lemma OpenBlockChanges(m: Managed, y: string, n: nat, s: nat, e: nat, needed2: seq<string>)
    requires WellFormed(m) && AllPlain(needed2) && needed2 != []
    requires var l := SplitLines(y);
             s < n < e < |l| && FindLine(l, m.start) == s && FindLine(l, m.end) == e && l[n] == m.start
             && NeededIn(m, l) == needed2
    ensures HasBlock(m, SplitLines(y)) && PatchManaged(m, Some(y)).content != y
  {
    var l := SplitLines(y);
    SplitLinesLack(y);
    OpenBlockDiffers(m, l, n, s, e, needed2);
    OpenBlockRewritten(m, y, s, e, needed2);
    if s + |needed2| + 2 <= |l| {
      OpenBlockNotKept(m, l, n, needed2, s, e);
    }
  }

  lemma OpenBlockDiffers(m: Managed, l: seq<string>, n: nat, s: nat, e: nat, needed2: seq<string>)
    requires WellFormed(m) && AllPlain(needed2) && AllLack(l, '\n')
    requires s < n < e < |l| && FindLine(l, m.start) == s && FindLine(l, m.end) == e && l[n] == m.start
    ensures HasBlock(m, l) && CurrentBlock(m, l) != RenderBlock(m, needed2)
  {
    var current := l[s..e + 1];
    assert current[n - s] == m.start && AllLack(current, '\n');
    TwoStartsNotCurrent(m, current, needed2, n - s);
  }

  lemma OpenBlockNotKept(m: Managed, l: seq<string>, n: nat, needed2: seq<string>, s: nat, e: nat)
    requires WellFormed(m) && AllPlain(needed2)
    requires s < n < e < |l| && FindLine(l, m.end) == e && l[n] == m.start
    requires s + |needed2| + 2 <= |l|
    ensures l[s..s + |needed2| + 2] != BlockLines(m, needed2)
  {
    var b2 := BlockLines(m, needed2);
    BlockLinesPlain(m, needed2);
    if l[s..s + |needed2| + 2] == b2 {
      assert l[s + |needed2| + 1] == b2[|needed2| + 1] == m.end;
      assert IsMarker(l, s + |needed2| + 1, m.end);
    }
  }

  // ---- the theorems ----

  /** A start marker with no end marker anywhere, in a text that still needs a pattern. */
  predicate OpenBlock(m: Managed, existing: Option<string>) {
    var l := LinesOf(existing);
    FindLine(l, m.start) != -1 && FindLine(l, m.end) == -1 && NeededIn(m, l) != []
  }

  function Once(m: Managed, existing: Option<string>): string {
    PatchManaged(m, existing).content
  }

  function Twice(m: Managed, existing: Option<string>): string {
    Once(m, Some(Once(m, existing)))
  }

  /** The lines an append works on and writes. */
  lemma AppendFacts(m: Managed, text: string) returns (a: seq<string>, needed: seq<string>)
    requires WellFormed(m) && PatchManaged(m, Some(text)).reason == BlockAdded
    ensures needed == NeededIn(m, SplitLines(text)) == Needed(m.patterns, a) && needed != [] && AllPlain(needed)
    ensures SplitLines(Once(m, Some(text))) == a + BlockLines(m, needed) + [""]
    ensures FindLine(a, m.start) == FindLine(SplitLines(text), m.start)
    ensures FindLine(a, m.end) == FindLine(SplitLines(text), m.end)
    ensures !HasBlock(m, SplitLines(text))
  {
    var l := SplitLines(text);
    a := LinesBefore(TrimEnd(text));
    needed := Needed(m.patterns, l);
    TrimEndLines(text);
    LinesBeforeAlike(TrimEnd(text), l);
    FindLineAlike(a, l, m.start);
    FindLineAlike(a, l, m.end);
    forall p | p in m.patterns
      ensures AlreadyCovered(a, p) == AlreadyCovered(l, p)
    {
      CoveredAlike(a, l, p);
    }
    NeededSame(m.patterns, a, l);
    NeededExact(m.patterns, l);
    AppendedLines(m, text, needed);
  }

  lemma AppendStability(m: Managed, text: string)
    requires WellFormed(m) && PatchManaged(m, Some(text)).reason == BlockAdded
    ensures Twice(m, Some(text)) == Once(m, Some(text)) <==> !OpenBlock(m, Some(text))
    ensures OpenBlock(m, Some(text)) ==> HasBlock(m, SplitLines(Once(m, Some(text))))
  {
    var l := SplitLines(text);
    var a, needed := AppendFacts(m, text);
    var y := Once(m, Some(text));
    if FindLine(l, m.end) != -1 {
      AppendAfterStrayEnd(m, y, a, needed);
    } else if FindLine(l, m.start) != -1 {
      AppendAfterOpenStart(m, y, a, needed);
    } else {
      AppendWithoutMarkers(m, text, y, a, needed);
    }
  }

  lemma BlockAloneStable(m: Managed, needed: seq<string>, y: string)
    requires WellFormed(m) && needed == Needed(m.patterns, []) && y == EnsureTrailingNewline(RenderBlock(m, needed))
    ensures PatchManaged(m, Some(y)).content == y
  {
    var none: seq<string> := [];
    assert none + none == none && none + BlockLines(m, needed) + none == BlockLines(m, needed);
    WrittenBlockStable(m, none, needed, none, y);
  }

  lemma EmptyTextStable(m: Managed)
    requires Needed(m.patterns, []) == []
    ensures PatchManaged(m, Some("")).content == ""
  {
    IndexOfAbsent("", '\n');
    assert SplitLines("") == [""];
    NeededSimilar(m.patterns, [], [""]);
  }

  lemma CreatedStable(m: Managed)
    requires WellFormed(m)
    ensures Twice(m, None) == Once(m, None) && !OpenBlock(m, None)
  {
    var needed := Needed(m.patterns, []);
    assert NeededIn(m, []) == needed;
    if needed == [] {
      EmptyTextStable(m);
    } else {
      BlockAloneStable(m, needed, Once(m, None));
    }
  }

  /** One application is stable exactly when the text holds no open block that still needs a pattern. */
  lemma SecondPatchExact(existing: Option<string>)
    ensures Twice(FLEET, existing) == Once(FLEET, existing) <==> !OpenBlock(FLEET, existing)
  {
    FleetWellFormed();
    if existing.None? {
      CreatedStable(FLEET);
    } else if HasBlock(FLEET, SplitLines(existing.value)) {
      BlockPatchStable(FLEET, existing.value);
    } else if NeededIn(FLEET, SplitLines(existing.value)) != [] {
      AppendStability(FLEET, existing.value);
    }
  }

  /** A lone start marker is such a text: the second patch changes what the first one wrote. */
  lemma LoneStartIsPatchedTwice()
    ensures OpenBlock(FLEET, Some(BLOCK_START)) && Twice(FLEET, Some(BLOCK_START)) != Once(FLEET, Some(BLOCK_START))
  {
    FleetWellFormed();
    IndexOfAbsent(BLOCK_START, '\n');
    var l := SplitLines(BLOCK_START);
    assert l == [BLOCK_START];
    assert IsMarker(l, 0, BLOCK_START) && !IsMarker(l, 0, BLOCK_END);
    var p := MANAGED_PATTERNS[0];
    assert !AlreadyCovered(l, p) by {
      assert Trim(l[0]) == BLOCK_START && BLOCK_START[0] == '#';
      assert !LineCovers(l[0], p) && !CoveredFrom(l, p, 1);
    }
    assert p in NeededIn(FLEET, l) by {
      NeededExact(MANAGED_PATTERNS, l);
    }
    SecondPatchExact(Some(BLOCK_START));
  }

  /** Whatever the first text was, the third application changes nothing. */
  lemma ThirdPatchChangesNothing(existing: Option<string>)
    ensures Once(FLEET, Some(Twice(FLEET, existing))) == Twice(FLEET, existing)
  {
    FleetWellFormed();
    SecondPatchExact(existing);
    if OpenBlock(FLEET, existing) {
      AppendStability(FLEET, existing.value);
      BlockPatchStable(FLEET, Once(FLEET, existing));
    }
  }

  lemma SimilarCovers(a: seq<string>, b: seq<string>, p: string)
    requires Similar(a, b) && AlreadyCovered(a, p)
    ensures AlreadyCovered(b, p)
  {
    CoveredSimilar(a, b, p);
  }

  /** What an in-place update writes is the spliced text. */
  lemma UpdateContent(m: Managed, text: string)
    requires WellFormed(m) && PatchManaged(m, Some(text)).reason == BlockUpdated
    ensures HasBlock(m, SplitLines(text)) && Once(m, Some(text)) == SplicedText(m, SplitLines(text))
  {
    UpdateFacts(m, text);
    UpdateSplices(m, text, PatchManaged(m, Some(text)).content);
  }

  lemma SplicedCovers(m: Managed, text: string, p: string)
    requires WellFormed(m) && p in m.patterns && HasBlock(m, SplitLines(text))
    ensures AlreadyCovered(SplitLines(SplicedText(m, SplitLines(text))), p)
  {
    SplitLinesLack(text);
    SplicedLinesCover(m, SplitLines(text), p);
  }

  lemma SplicedLinesCover(m: Managed, l: seq<string>, p: string)
    requires WellFormed(m) && p in m.patterns && HasBlock(m, l) && AllLack(l, '\n')
    ensures AlreadyCovered(SplitLines(SplicedText(m, l)), p)
  {
    var pre, needed, post := l[..FindLine(l, m.start)], NeededIn(m, l), l[FindLine(l, m.end) + 1..];
    SplicedParts(m, l, pre, needed, post);
    WrittenBlockCovers(m, pre, needed, post, p, SplicedText(m, l));
  }

  lemma WrittenBlockCovers(m: Managed, pre: seq<string>, needed: seq<string>, post: seq<string>, p: string, content: string)
    requires WellFormed(m) && p in m.patterns && needed == Needed(m.patterns, pre + post)
    requires AllLack(pre, '\n') && AllLack(post, '\n')
    requires content == Spliced(m, pre, needed, post)
    ensures AlreadyCovered(SplitLines(content), p)
  {
    var r := pre + BlockLines(m, needed) + post;
    NeededExact(m.patterns, pre + post);
    LinesAroundBlock(m, pre, needed, post);
    BlockCovers(m, pre, needed, post, p);
    SimilarCovers(r, SplitLines(content), p);
  }

  /** A found block that renders like the needed one is the needed one. */
  lemma CurrentBlockLines(m: Managed, text: string)
    requires WellFormed(m)
    requires var l := SplitLines(text); HasBlock(m, l) && CurrentBlock(m, l) == RenderBlock(m, NeededIn(m, l))
    ensures var l := SplitLines(text); var s, e := FindLine(l, m.start), FindLine(l, m.end);
            l == l[..s] + BlockLines(m, NeededIn(m, l)) + l[e + 1..]
  {
    SplitLinesLack(text);
    CurrentLines(m, SplitLines(text));
  }

  lemma CurrentLines(m: Managed, l: seq<string>)
    requires WellFormed(m) && HasBlock(m, l) && AllLack(l, '\n')
    requires CurrentBlock(m, l) == RenderBlock(m, NeededIn(m, l))
    ensures l == l[..FindLine(l, m.start)] + BlockLines(m, NeededIn(m, l)) + l[FindLine(l, m.end) + 1..]
  {
    var s, e, needed := FindLine(l, m.start), FindLine(l, m.end), NeededIn(m, l);
    assert AllPlain(needed) by {
      NeededArePlain(m, l);
    }
    assert CurrentBlock(m, l) == JoinWith(l[s..e + 1], '\n');
    RenderedLines(m, l, s, e, needed);
  }

  lemma RenderedLines(m: Managed, l: seq<string>, s: nat, e: nat, needed: seq<string>)
    requires WellFormed(m) && AllPlain(needed) && AllLack(l, '\n') && s < e < |l|
    requires JoinWith(l[s..e + 1], '\n') == RenderBlock(m, needed)
    ensures l == l[..s] + BlockLines(m, needed) + l[e + 1..]
  {
    var lines := l[s..e + 1];
    BlockLinesPlain(m, needed);
    JoinWithInjective(lines, BlockLines(m, needed), '\n');
    assert l == l[..s] + lines + l[e + 1..];
  }

  /** A text whose block is found: its patched form covers every pattern. */
  lemma BlockPatchCovers(m: Managed, text: string, p: string)
    requires WellFormed(m) && p in m.patterns && HasBlock(m, SplitLines(text)) && NeededIn(m, SplitLines(text)) != []
    ensures AlreadyCovered(SplitLines(Once(m, Some(text))), p)
  {
    if PatchManaged(m, Some(text)).changed {
      UpdateContent(m, text);
      SplicedCovers(m, text, p);
    } else {
      var l := SplitLines(text);
      CurrentBlockLines(m, text);
      BlockCovers(m, l[..FindLine(l, m.start)], NeededIn(m, l), l[FindLine(l, m.end) + 1..], p);
    }
  }

  /** After every patch, every managed pattern is covered by the lines of the result. */
  lemma EveryPatternCovered(existing: Option<string>, p: string)
    requires p in MANAGED_PATTERNS
    ensures AlreadyCovered(SplitLines(Once(FLEET, existing)), p)
  {
    FleetWellFormed();
    var l := LinesOf(existing);
    var needed := NeededIn(FLEET, l);
    if existing.None? {
      CreatedCovers(FLEET, p);
    } else if needed == [] {
      NeededExact(FLEET.patterns, Outside(FLEET, l));
      OutsideIncluded(FLEET, l);
      CoveredMonotone(Outside(FLEET, l), l, p);
    } else if HasBlock(FLEET, l) {
      BlockPatchCovers(FLEET, existing.value, p);
    } else {
      var a, n := AppendFacts(FLEET, existing.value);
      AppendedCovers(FLEET, a, n, p);
    }
  }

  lemma OutsideIncluded(m: Managed, l: seq<string>)
    ensures Included(Outside(m, l), l)
  {
  }

  lemma CreatedCovers(m: Managed, p: string)
    requires WellFormed(m) && p in m.patterns
    ensures AlreadyCovered(SplitLines(Once(m, None)), p)
  {
    var needed := Needed(m.patterns, []);
    NeededExact(m.patterns, []);
    assert NeededIn(m, []) == needed && p in needed;
    BlockEndsVisible(m, needed);
    BlockTextLines(m, needed);
    AppendedCovers(m, [], needed, p);
    assert [] + BlockLines(m, needed) + [""] == BlockLines(m, needed) + [""];
  }

  /** `k` holds the lines of `l` before `s` and after `e`, in order, with exactly `block`
      between them; only an empty last line may be new. */
  predicate KeepsOtherLines(l: seq<string>, s: int, e: int, block: seq<string>, k: seq<string>) {
    var n := s + |block|;
    0 <= s < e < |l| && n + |l| - e - 1 <= |k| <= n + |l| - e
    && (forall i :: 0 <= i < s ==> SameLine(l[i], k[i]))
    && k[s..n] == block
    && (forall i :: e + 1 <= i < |l| ==> SameLine(l[i], k[n + i - e - 1]))
    && (|k| == n + |l| - e ==> k[|k| - 1] == "")
  }

  lemma SpliceKeeps(l: seq<string>, s: nat, e: nat, b: seq<string>, k: seq<string>)
    requires s < e < |l| && Holds(l[..s] + b + l[e + 1..], k) && k[s..s + |b|] == b
    ensures KeepsOtherLines(l, s, e, b, k)
  {
  }

  lemma RewrittenKeeps(m: Managed, l: seq<string>, s: nat, e: nat, needed: seq<string>, content: string)
    requires WellFormed(m) && AllPlain(needed) && AllLack(l, '\n') && s < e < |l|
    requires content == Spliced(m, l[..s], needed, l[e + 1..])
    ensures KeepsOtherLines(l, s, e, BlockLines(m, needed), SplitLines(content))
  {
    LinesAroundBlock(m, l[..s], needed, l[e + 1..]);
    SpliceKeeps(l, s, e, BlockLines(m, needed), SplitLines(content));
  }

  /** An in-place update keeps every line outside the found block and writes exactly the needed block. */
  lemma UpdateKeepsOtherLines(m: Managed, text: string)
    requires WellFormed(m) && PatchManaged(m, Some(text)).reason == BlockUpdated
    ensures var l := SplitLines(text);
            KeepsOtherLines(l, FindLine(l, m.start), FindLine(l, m.end), BlockLines(m, NeededIn(m, l)),
                            SplitLines(PatchManaged(m, Some(text)).content))
  {
    SplitLinesLack(text);
    UpdateContent(m, text);
    SplicedKeeps(m, SplitLines(text), PatchManaged(m, Some(text)).content);
  }

  lemma SplicedKeeps(m: Managed, l: seq<string>, content: string)
    requires WellFormed(m) && HasBlock(m, l) && AllLack(l, '\n') && content == SplicedText(m, l)
    ensures KeepsOtherLines(l, FindLine(l, m.start), FindLine(l, m.end), BlockLines(m, NeededIn(m, l)), SplitLines(content))
  {
    var s, e, needed := FindLine(l, m.start), FindLine(l, m.end), NeededIn(m, l);
    assert AllPlain(needed) by {
      NeededArePlain(m, l);
    }
    assert content == Spliced(m, l[..s], needed, l[e + 1..]) by {
      PartsSpliced(m, l, l[..s], needed, l[e + 1..]);
    }
    RewrittenKeeps(m, l, s, e, needed, content);
  }

  lemma AppendedKeeps(text: string, block: string)
    ensures var kept := TrimEnd(text);
            kept <= text && AllSpace(text[|kept|..]) && kept <= Appended(text, block)
  {
  }

  /** An append keeps the old text up to its trailing blanks as a prefix. */
  lemma AppendKeepsText(m: Managed, text: string)
    requires PatchManaged(m, Some(text)).reason == BlockAdded
    ensures var kept := TrimEnd(text);
            kept <= text && AllSpace(text[|kept|..]) && kept <= PatchManaged(m, Some(text)).content
  {
    AppendedKeeps(text, RenderBlock(m, NeededIn(m, SplitLines(text))));
  }

  function MarkerLines(lines: seq<string>, marker: string): set<int> {
    set i | 0 <= i < |lines| && IsMarker(lines, i, marker)
  }

  /** A text without marker lines gets exactly one block, or none when nothing changes. */
  lemma OneBlockOrNone(text: string)
    requires FindLine(SplitLines(text), BLOCK_START) == -1 && FindLine(SplitLines(text), BLOCK_END) == -1
    ensures var r := PatchGitignore(Some(text));
            var k := SplitLines(r.content);
            if r.changed then
              exists s, e :: 0 <= s < e && MarkerLines(k, BLOCK_START) == {s} && MarkerLines(k, BLOCK_END) == {e}
            else MarkerLines(k, BLOCK_START) == {} && MarkerLines(k, BLOCK_END) == {}
  {
    FleetWellFormed();
    if PatchGitignore(Some(text)).changed {
      var a, needed := AppendFacts(FLEET, text);
      OnlyBlockMarkers(FLEET, a, needed);
    }
  }

  lemma OnlyBlockMarkers(m: Managed, a: seq<string>, needed: seq<string>)
    requires WellFormed(m) && AllPlain(needed) && FindLine(a, m.start) == -1 && FindLine(a, m.end) == -1
    ensures var r := a + BlockLines(m, needed) + [""];
            MarkerLines(r, m.start) == {|a|} && MarkerLines(r, m.end) == {|a| + |needed| + 1}
  {
    var b := BlockLines(m, needed);
    var r := a + b + [""];
    BlockLinesPlain(m, needed);
    forall i | 0 <= i < |r|
      ensures IsMarker(r, i, m.start) <==> i == |a|
      ensures IsMarker(r, i, m.end) <==> i == |a| + |needed| + 1
    {
      if i < |a| {
        assert r[i] == a[i] && !IsMarker(a, i, m.start) && !IsMarker(a, i, m.end);
      } else if i < |a| + |b| {
        assert r[i] == b[i - |a|];
      }
    }
  }
}
