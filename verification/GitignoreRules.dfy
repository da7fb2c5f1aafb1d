/** Which lines of a `.gitignore` cover a managed pattern, and what a patch reports and writes for the two
    patterns of the fleet. */
module GitignoreRules {
  import opened JsText
  import opened Wrappers
  import opened Gitignore
  import opened GitignoreStability

  // ---- one rule ----

  predicate AllSlashes(s: string) {
    forall i :: 0 <= i < |s| ==> s[i] == '/'
  }

  /** `mid` is the rule without the slashes at its two ends. */
  predicate Bare(rule: string, mid: string, a: nat, b: nat) {
    a <= b <= |rule| && mid == rule[a..b] && AllSlashes(rule[..a]) && AllSlashes(rule[b..])
    && (mid == "" || (mid[0] != '/' && mid[|mid| - 1] != '/'))
  }

  lemma {:induction false} LeadingSlashes(s: string) returns (a: nat)
    ensures a <= |s| && StripLeadingSlashes(s) == s[a..] && AllSlashes(s[..a]) && (a < |s| ==> s[a] != '/')
  {
    if s != "" && s[0] == '/' {
      var k := LeadingSlashes(s[1..]);
      a := k + 1;
      assert s[..a] == [s[0]] + s[1..][..k];
    } else {
      a := 0;
    }
  }

  lemma {:induction false} TrailingSlashes(s: string) returns (b: nat)
    ensures b <= |s| && StripTrailingSlashes(s) == s[..b] && AllSlashes(s[b..]) && (b > 0 ==> s[b - 1] != '/')
  {
    if s != "" && s[|s| - 1] == '/' {
      var n := |s| - 1;
      b := TrailingSlashes(s[..n]);
      assert s[b..] == s[..n][b..] + [s[n]] && s[..n][..b] == s[..b];
    } else {
      b := |s|;
    }
  }

  /** Stripping takes the slashes off both ends and nothing else. */
  lemma StripExactly(rule: string) returns (a: nat, b: nat)
    ensures Bare(rule, StripTrailingSlashes(StripLeadingSlashes(rule)), a, b)
  {
    a := LeadingSlashes(rule);
    var t := StripLeadingSlashes(rule);
    var k := TrailingSlashes(t);
    b := a + k;
    assert t[..k] == rule[a..b] && t[k..] == rule[b..];
    if k > 0 {
      assert t[0] == rule[a];
    }
  }

  /** A path names another one or a directory above it exactly when its segments begin the other's. */
  lemma SegmentsExactly(mid: string, target: string)
    ensures mid == target || StartsWith(target, mid + "/") <==> SplitOn(mid, '/') <= SplitOn(target, '/')
  {
    if StartsWith(target, mid + "/") {
      var rest := target[|mid| + 1..];
      assert target == mid + ['/'] + rest;
      SplitOnConcat(mid, '/', rest);
    }
    if SplitOn(mid, '/') <= SplitOn(target, '/') {
      var a, all := SplitOn(mid, '/'), SplitOn(target, '/');
      var more := all[|a|..];
      JoinOfSplit(mid, '/');
      JoinOfSplit(target, '/');
      assert all == a + more;
      if more == [] {
        assert all == a;
      } else {
        JoinWithConcat(a, more, '/');
        assert target == mid + ['/'] + JoinWith(more, '/');
      }
    }
  }

  /** The line, trimmed, is a rule and no comment or negation, and without its outer slashes it is the path
      `target` or a directory above it. */
  ghost predicate Ignores(line: string, target: string) {
    exists rule, mid, a, b :: IgnoresBy(line, target, rule, mid, a, b)
  }

  ghost predicate IgnoresBy(line: string, target: string, rule: string, mid: string, a: nat, b: nat) {
    Trimmed(line, rule) && rule != "" && rule[0] != '#' && rule[0] != '!'
    && Bare(rule, mid, a, b) && mid != "" && SplitOn(mid, '/') <= SplitOn(target, '/')
  }

  lemma BareOutside(rule: string, mid: string, a: nat, b: nat)
    requires Bare(rule, mid, a, b)
    ensures forall i :: 0 <= i < a || b <= i < |rule| ==> rule[i] == '/'
    ensures a < b ==> rule[a] != '/' && rule[b - 1] != '/'
  {
    assert forall i :: 0 <= i < a ==> rule[..a][i] == rule[i];
    assert forall i :: b <= i < |rule| ==> rule[b..][i - b] == rule[i];
    if a < b {
      assert mid[0] == rule[a] && mid[|mid| - 1] == rule[b - 1];
    }
  }

  lemma BareUnique(rule: string, m: string, a: nat, b: nat, n: string, c: nat, d: nat)
    requires Bare(rule, m, a, b) && Bare(rule, n, c, d)
    ensures m == n
  {
    BareOutside(rule, m, a, b);
    BareOutside(rule, n, c, d);
    CutUnique(rule, ch => ch == '/', a, b, c, d);
  }

  lemma RuleCoversExactly(rule: string, target: string, mid: string, a: nat, b: nat)
    requires Bare(rule, mid, a, b)
    ensures RuleCovers(rule, target) <==>
            rule != "" && rule[0] != '#' && rule[0] != '!' && mid != "" && SplitOn(mid, '/') <= SplitOn(target, '/')
  {
    var c, d := StripExactly(rule);
    BareUnique(rule, mid, a, b, StripTrailingSlashes(StripLeadingSlashes(rule)), c, d);
    SegmentsExactly(mid, target);
  }

  lemma LineIgnores(line: string, target: string)
    ensures RuleCovers(Trim(line), target) <==> Ignores(line, target)
  {
    TrimExactly(line);
    var a, b := StripExactly(Trim(line));
    var mid := StripTrailingSlashes(StripLeadingSlashes(Trim(line)));
    RuleCoversExactly(Trim(line), target, mid, a, b);
    if RuleCovers(Trim(line), target) {
      assert IgnoresBy(line, target, Trim(line), mid, a, b);
    }
    if Ignores(line, target) {
      var rule, m, c, d :| IgnoresBy(line, target, rule, m, c, d);
      TrimmedUnique(line, rule, Trim(line));
      RuleCoversExactly(rule, target, m, c, d);
    }
  }

  // ---- the two patterns ----

  lemma Targets()
    ensures StripTrailingSlashes("tmp/temp/") == "tmp/temp" && StripTrailingSlashes("tmp/worktrees/") == "tmp/worktrees"
  {
    var a, b := "tmp/temp/", "tmp/worktrees/";
    assert a[..|a| - 1] == "tmp/temp" && b[..|b| - 1] == "tmp/worktrees";
    assert StripTrailingSlashes("tmp/temp") == "tmp/temp" && StripTrailingSlashes("tmp/worktrees") == "tmp/worktrees";
  }

  /** Some line ignores the directory. */
  ghost predicate Ignored(lines: seq<string>, target: string) {
    exists i :: 0 <= i < |lines| && Ignores(lines[i], target)
  }

  lemma CoveredExactly(lines: seq<string>, pattern: string)
    ensures AlreadyCovered(lines, pattern) <==> Ignored(lines, StripTrailingSlashes(pattern))
  {
    var target := StripTrailingSlashes(pattern);
    if AlreadyCovered(lines, pattern) {
      var i := CoveringLine(lines, pattern, 0);
      LineIgnores(lines[i], target);
    }
    if Ignored(lines, target) {
      var i :| 0 <= i < |lines| && Ignores(lines[i], target);
      LineIgnores(lines[i], target);
      CoveredByLine(lines, pattern, 0, i);
    }
  }

  /** The pattern lines a block has to hold when these lines stand outside it. */
  ghost function Missing(outside: seq<string>): seq<string> {
    (if Ignored(outside, "tmp/temp") then [] else ["tmp/temp/"])
    + if Ignored(outside, "tmp/worktrees") then [] else ["tmp/worktrees/"]
  }

  lemma NeededOfTwo(p: string, q: string, outside: seq<string>)
    ensures Needed([p, q], outside)
         == (if AlreadyCovered(outside, p) then [] else [p]) + if AlreadyCovered(outside, q) then [] else [q]
  {
    var all := [p, q];
    assert all[1..] == [q] && [q][1..] == [];
    assert Needed([], outside) == [];
    assert Needed([q], outside) == if AlreadyCovered(outside, q) then [] else [q];
  }

  /** What is missing is decided by the lines outside the block alone: which of the two directories they leave
      to be ignored. */
  lemma MissingExactly(outside: seq<string>)
    ensures Needed(FLEET.patterns, outside) == Missing(outside)
  {
    Targets();
    NeededOfTwo("tmp/temp/", "tmp/worktrees/", outside);
    CoveredExactly(outside, "tmp/temp/");
    CoveredExactly(outside, "tmp/worktrees/");
    assert FLEET.patterns == ["tmp/temp/", "tmp/worktrees/"];
  }

  // ---- the patch ----

  /** After the patch some line ignores each of the two directories. */
  lemma BothIgnored(existing: Option<string>)
    ensures var lines := SplitLines(PatchGitignore(existing).content);
            Ignored(lines, "tmp/temp") && Ignored(lines, "tmp/worktrees")
  {
    Targets();
    var lines := SplitLines(PatchGitignore(existing).content);
    assert "tmp/temp/" == MANAGED_PATTERNS[0] && "tmp/worktrees/" == MANAGED_PATTERNS[1];
    EveryPatternCovered(existing, "tmp/temp/");
    EveryPatternCovered(existing, "tmp/worktrees/");
    CoveredExactly(lines, "tmp/temp/");
    CoveredExactly(lines, "tmp/worktrees/");
  }

  /** The first line that reads as the marker. */
  predicate First(lines: seq<string>, marker: string, i: int) {
    0 <= i < |lines| && Trim(lines[i]) == marker && forall k :: 0 <= k < i ==> Trim(lines[k]) != marker
  }

  /** The block stands from its first start marker to the first end marker, which comes later. */
  predicate Stands(lines: seq<string>, s: int, e: int) {
    First(lines, BLOCK_START, s) && First(lines, BLOCK_END, e) && s < e
  }

  ghost predicate NoBlock(lines: seq<string>) {
    forall s, e :: !Stands(lines, s, e)
  }

  lemma FirstIsFound(lines: seq<string>, marker: string, i: int)
    ensures First(lines, marker, i) <==> i >= 0 && FindLine(lines, marker) == i
  {
    var k := FindLine(lines, marker);
    if First(lines, marker, i) {
      assert IsMarker(lines, i, marker);
      assert k >= 0 ==> IsMarker(lines, k, marker);
    }
    if k >= 0 {
      assert IsMarker(lines, k, marker);
      forall m | 0 <= m < k
        ensures Trim(lines[m]) != marker
      {
        assert !IsMarker(lines, m, marker);
      }
    }
  }

  lemma StandsExactly(lines: seq<string>)
    ensures HasBlock(FLEET, lines) <==> !NoBlock(lines)
    ensures forall s, e :: Stands(lines, s, e) ==> s == FindLine(lines, BLOCK_START) && e == FindLine(lines, BLOCK_END)
  {
    forall s, e
      ensures Stands(lines, s, e) <==>
              s == FindLine(lines, BLOCK_START) && e == FindLine(lines, BLOCK_END) && 0 <= s < e
    {
      FirstIsFound(lines, BLOCK_START, s);
      FirstIsFound(lines, BLOCK_END, e);
    }
    if HasBlock(FLEET, lines) {
      assert Stands(lines, FindLine(lines, BLOCK_START), FindLine(lines, BLOCK_END));
    }
  }

  /** A text with a block: it stays when nothing is missing outside the block or the block holds exactly what is
      missing; otherwise those lines are replaced. */
  lemma PatchWithBlock(text: string, s: int, e: int)
    requires Stands(SplitLines(text), s, e)
    ensures var r, lines := PatchGitignore(Some(text)), SplitLines(text);
            var missing := Missing(lines[..s] + lines[e + 1..]);
            var block := [BLOCK_START] + missing + [BLOCK_END];
            if missing == [] || lines[s..e + 1] == block then r == PatchResult(false, text, AlreadyCurrent)
            else r == PatchResult(true, EnsureTrailingNewline(JoinWith(lines[..s] + block + lines[e + 1..], '\n')), BlockUpdated)
  {
    var lines := SplitLines(text);
    var missing := Missing(lines[..s] + lines[e + 1..]);
    assert HasBlock(FLEET, lines) && s == FindLine(lines, BLOCK_START) && e == FindLine(lines, BLOCK_END) by {
      StandsExactly(lines);
    }
    MissingOutside(lines, s, e, missing);
    assert AllLack(lines, '\n') by {
      SplitLinesLack(text);
    }
    assert BlockLines(FLEET, missing) == [BLOCK_START] + missing + [BLOCK_END];
    PatchAt(text, lines, s, e, missing);
  }

  lemma MissingOutside(lines: seq<string>, s: nat, e: nat, missing: seq<string>)
    requires s < e && s == FindLine(lines, BLOCK_START) && e == FindLine(lines, BLOCK_END)
    requires missing == Missing(lines[..s] + lines[e + 1..])
    ensures NeededIn(FLEET, lines) == missing
  {
    OutsideAt(FLEET, lines, s, e + 1);
    MissingExactly(lines[..s] + lines[e + 1..]);
  }

  lemma PatchAt(text: string, lines: seq<string>, s: nat, e: nat, missing: seq<string>)
    requires lines == SplitLines(text) && AllLack(lines, '\n') && HasBlock(FLEET, lines) && NeededIn(FLEET, lines) == missing
    requires s == FindLine(lines, BLOCK_START) && e == FindLine(lines, BLOCK_END)
    ensures var r, block := PatchGitignore(Some(text)), BlockLines(FLEET, missing);
            if missing == [] || lines[s..e + 1] == block then r == PatchResult(false, text, AlreadyCurrent)
            else r == PatchResult(true, EnsureTrailingNewline(JoinWith(lines[..s] + block + lines[e + 1..], '\n')), BlockUpdated)
  {
    FleetWellFormed();
    BlockRendered(lines, s, e, missing);
    if missing == [] || lines[s..e + 1] == BlockLines(FLEET, missing) {
      BlockKept(text, lines, missing);
    } else {
      var rewritten := lines[..s] + BlockLines(FLEET, missing) + lines[e + 1..];
      assert Rebuilt(FLEET, lines, RenderBlock(FLEET, missing)) == rewritten by {
        RebuiltLines(FLEET, lines);
      }
      BlockReplaced(text, lines, missing, rewritten);
    }
  }

  lemma BlockKept(text: string, lines: seq<string>, missing: seq<string>)
    requires lines == SplitLines(text) && HasBlock(FLEET, lines) && NeededIn(FLEET, lines) == missing
    requires missing == [] || CurrentBlock(FLEET, lines) == RenderBlock(FLEET, missing)
    ensures PatchGitignore(Some(text)) == PatchResult(false, text, AlreadyCurrent)
  {
  }

  lemma BlockReplaced(text: string, lines: seq<string>, missing: seq<string>, rewritten: seq<string>)
    requires lines == SplitLines(text) && HasBlock(FLEET, lines) && NeededIn(FLEET, lines) == missing && missing != []
    requires CurrentBlock(FLEET, lines) != RenderBlock(FLEET, missing)
    requires Rebuilt(FLEET, lines, RenderBlock(FLEET, missing)) == rewritten
    ensures PatchGitignore(Some(text)) == PatchResult(true, EnsureTrailingNewline(JoinWith(rewritten, '\n')), BlockUpdated)
  {
  }

  lemma BlockRendered(lines: seq<string>, s: nat, e: nat, missing: seq<string>)
    requires WellFormed(FLEET) && HasBlock(FLEET, lines) && AllLack(lines, '\n') && NeededIn(FLEET, lines) == missing
    requires s == FindLine(lines, BLOCK_START) && e == FindLine(lines, BLOCK_END)
    ensures CurrentBlock(FLEET, lines) == RenderBlock(FLEET, missing) <==> lines[s..e + 1] == BlockLines(FLEET, missing)
  {
    var current, block := lines[s..e + 1], BlockLines(FLEET, missing);
    assert AllLack(block, '\n') by {
      NeededArePlain(FLEET, lines);
      BlockLinesPlain(FLEET, missing);
    }
    assert CurrentBlock(FLEET, lines) == JoinWith(current, '\n');
    SameJoinSameLines(current, block);
  }

  lemma SameJoinSameLines(a: seq<string>, b: seq<string>)
    requires |a| >= 1 && |b| >= 1 && AllLack(a, '\n') && AllLack(b, '\n')
    ensures JoinWith(a, '\n') == JoinWith(b, '\n') <==> a == b
  {
    if JoinWith(a, '\n') == JoinWith(b, '\n') {
      JoinWithInjective(a, b, '\n');
    }
  }

  /** A text without a block: it stays when nothing is missing, otherwise a block of what is missing is put after
      an empty line below the text without its trailing blanks. */
  lemma PatchWithoutBlock(text: string)
    requires NoBlock(SplitLines(text))
    ensures var r, missing, base := PatchGitignore(Some(text)), Missing(SplitLines(text)), TrimEnd(text);
            var block := JoinWith([BLOCK_START] + missing + [BLOCK_END], '\n');
            if missing == [] then r == PatchResult(false, text, AlreadyIgnored)
            else r == PatchResult(true, (if base == "" then "" else base + "\n\n") + block + "\n", BlockAdded)
  {
    var lines := SplitLines(text);
    StandsExactly(lines);
    MissingExactly(lines);
    FleetWellFormed();
    var missing := Missing(lines);
    assert NeededIn(FLEET, lines) == missing;
    BlockEndsVisible(FLEET, missing);
    if missing != [] {
      AppendedBlock(text, RenderBlock(FLEET, missing));
    }
  }

  lemma AppendedBlock(text: string, block: string)
    requires block != "" && !EndsWithLf(block)
    ensures Appended(text, block) == (if TrimEnd(text) == "" then "" else TrimEnd(text) + "\n\n") + block + "\n"
  {
  }

  /** A missing file is created with both patterns between the two markers. */
  lemma CreatedFile()
    ensures PatchGitignore(None)
         == PatchResult(true, BLOCK_START + "\n" + ("tmp/temp/" + "\n" + ("tmp/worktrees/" + "\n" + BLOCK_END)) + "\n", Created)
  {
    var missing := ["tmp/temp/", "tmp/worktrees/"];
    var block := RenderBlock(FLEET, missing);
    assert NeededIn(FLEET, []) == missing by {
      MissingExactly([]);
    }
    assert block == BLOCK_START + "\n" + (missing[0] + "\n" + (missing[1] + "\n" + BLOCK_END)) by {
      JoinFourLines(BLOCK_START, missing[0], missing[1], BLOCK_END);
      assert BlockLines(FLEET, missing) == [BLOCK_START, missing[0], missing[1], BLOCK_END];
    }
    assert EnsureTrailingNewline(block) == block + "\n" by {
      FleetWellFormed();
      BlockEndsVisible(FLEET, missing);
    }
  }

  lemma JoinFourLines(a: string, b: string, c: string, d: string)
    ensures JoinWith([a, b, c, d], '\n') == a + "\n" + (b + "\n" + (c + "\n" + d))
  {
    assert [a, b, c, d][1..] == [b, c, d] && [b, c, d][1..] == [c, d] && [c, d][1..] == [d];
    assert JoinWith([c, d], '\n') == c + "\n" + d;
    assert JoinWith([b, c, d], '\n') == b + "\n" + (c + "\n" + d);
  }

  lemma StartHead()
    ensures "# >>> ores" + " fleet hyg" + "iene \U{2014} man" + "aged" == "# >>> ores fleet hygiene \U{2014} managed"
  {
  }

  lemma StartTail()
    ensures " block" + ", edits be" + "low are ov" + "erwritten " + ">>>" == " block, edits below are overwritten >>>"
  {
  }

  lemma JoinedHalves(p: string, q: string, r: string, a: string, b: string, s: string, t: string, u: string, v: string)
    ensures p + q + r + (a + b) + s + t + u + v == (p + q + r + a) + (b + s + t + u + v)
  {
  }

  /** The start marker, in two halves. */
  lemma StartMarker()
    ensures BLOCK_START == "# >>> ores fleet hygiene \U{2014} managed" + " block, edits below are overwritten >>>"
  {
    StartHead();
    StartTail();
    assert "aged block" == "aged" + " block";
    JoinedHalves("# >>> ores", " fleet hyg", "iene \U{2014} man", "aged", " block",
                 ", edits be", "low are ov", "erwritten ", ">>>");
  }

  lemma EndMarker()
    ensures BLOCK_END == "# <<< ores fleet hygiene <<<"
  {
  }
}
