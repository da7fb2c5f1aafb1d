/** The managed block of a `.gitignore` file: where it is found, when it is needed and how it
    is rewritten (src/hygiene/gitignore.ts). */
module Gitignore {
  import opened JsText
  import opened Wrappers

  // The two markers are joined from short pieces: the verifier reasons about each character of a
  // literal, and about one long literal it no longer finds the facts of MarkersWellFormed.
  const BLOCK_START :=
    "# >>> ores" + " fleet hyg" + "iene \U{2014} man" + "aged block" + ", edits be" + "low are ov" + "erwritten " + ">>>"
  const BLOCK_END := "# <<< ores" + " fleet hyg" + "iene <<<"
  const MANAGED_PATTERNS: seq<string> := ["tmp/temp/", "tmp/worktrees/"]

  /** The two marker lines of a managed block and the patterns it maintains. */
  datatype Managed = Managed(start: string, end: string, patterns: seq<string>)

  const FLEET := Managed(BLOCK_START, BLOCK_END, MANAGED_PATTERNS)

  datatype Reason = Created | BlockAdded | BlockUpdated | AlreadyCurrent | AlreadyIgnored

  datatype PatchResult = PatchResult(changed: bool, content: string, reason: Reason)

  function BlockLines(m: Managed, patterns: seq<string>): seq<string> {
    [m.start] + patterns + [m.end]
  }

  function RenderBlock(m: Managed, patterns: seq<string>): string {
    JoinWith(BlockLines(m, patterns), '\n')
  }

  function StripLeadingSlashes(s: string): string {
    if s != "" && s[0] == '/' then StripLeadingSlashes(s[1..]) else s
  }

  function StripTrailingSlashes(s: string): string {
    if s != "" && s[|s| - 1] == '/' then StripTrailingSlashes(s[..|s| - 1]) else s
  }

  predicate RuleCovers(rule: string, target: string) {
    rule != "" && rule[0] != '#' && rule[0] != '!' &&
    var normalised := StripTrailingSlashes(StripLeadingSlashes(rule));
    normalised != "" && (normalised == target || StartsWith(target, normalised + "/"))
  }

  /** One line honours the pattern. */
  predicate LineCovers(line: string, pattern: string) {
    RuleCovers(Trim(line), StripTrailingSlashes(pattern))
  }

  predicate AlreadyCovered(lines: seq<string>, pattern: string) {
    CoveredFrom(lines, pattern, 0)
  }

  predicate CoveredFrom(lines: seq<string>, pattern: string, from: nat)
    requires from <= |lines|
    decreases |lines| - from
  {
    from < |lines| && (LineCovers(lines[from], pattern) || CoveredFrom(lines, pattern, from + 1))
  }

  predicate IsMarker(lines: seq<string>, i: int, marker: string)
    requires 0 <= i < |lines|
  {
    Trim(lines[i]) == marker
  }

  /** Index of the first line that is the marker once trimmed, or -1. */
  function FindLine(lines: seq<string>, marker: string): (i: int)
    ensures -1 <= i < |lines|
    ensures i >= 0 ==> IsMarker(lines, i, marker)
    ensures forall k :: 0 <= k < (if i >= 0 then i else |lines|) ==> !IsMarker(lines, k, marker)
  {
    FindLineFrom(lines, marker, 0)
  }

  function FindLineFrom(lines: seq<string>, marker: string, from: nat): (i: int)
    requires from <= |lines|
    ensures i == -1 || from <= i < |lines|
    ensures i >= 0 ==> IsMarker(lines, i, marker)
    ensures forall k :: from <= k < (if i >= 0 then i else |lines|) ==> !IsMarker(lines, k, marker)
    decreases |lines| - from
  {
    if from == |lines| then -1
    else if IsMarker(lines, from, marker) then from
    else FindLineFrom(lines, marker, from + 1)
  }

  function Needed(patterns: seq<string>, outside: seq<string>): seq<string> {
    if patterns == [] then []
    else if AlreadyCovered(outside, patterns[0]) then Needed(patterns[1..], outside)
    else [patterns[0]] + Needed(patterns[1..], outside)
  }

  function EnsureTrailingNewline(s: string): string {
    if EndsWithLf(s) then s else s + "\n"
  }

  function LinesOf(existing: Option<string>): seq<string> {
    if existing.None? then [] else SplitLines(existing.value)
  }

  function TextOf(existing: Option<string>): string {
    if existing.None? then "" else existing.value
  }

  predicate HasBlock(m: Managed, lines: seq<string>) {
    FindLine(lines, m.start) != -1 && FindLine(lines, m.end) > FindLine(lines, m.start)
  }

  function Outside(m: Managed, lines: seq<string>): seq<string> {
    if HasBlock(m, lines) then lines[..FindLine(lines, m.start)] + lines[FindLine(lines, m.end) + 1..] else lines
  }

  function NeededIn(m: Managed, lines: seq<string>): seq<string> {
    Needed(m.patterns, Outside(m, lines))
  }

  /** The text an append writes after the old text without its trailing blanks. */
  function Appended(text: string, block: string): string {
    var base := TrimEnd(text);
    EnsureTrailingNewline(if base != "" then base + "\n\n" + block else block)
  }

  /** The lines with a freshly rendered block in place of the one that was found. */
  function Rebuilt(m: Managed, lines: seq<string>, block: string): seq<string>
    requires HasBlock(m, lines)
  {
    lines[..FindLine(lines, m.start)] + SplitOn(block, '\n') + lines[FindLine(lines, m.end) + 1..]
  }

  /** The found block, markers included, as one text. */
  function CurrentBlock(m: Managed, lines: seq<string>): string
    requires HasBlock(m, lines)
  {
    JoinWith(lines[FindLine(lines, m.start)..FindLine(lines, m.end) + 1], '\n')
  }

  function PatchManaged(m: Managed, existing: Option<string>): PatchResult {
    var lines := LinesOf(existing);
    var needed := NeededIn(m, lines);
    if needed == [] then
      PatchResult(false, TextOf(existing), if HasBlock(m, lines) then AlreadyCurrent else AlreadyIgnored)
    else
      var block := RenderBlock(m, needed);
      if HasBlock(m, lines) then
        if CurrentBlock(m, lines) == block then
          PatchResult(false, TextOf(existing), AlreadyCurrent)
        else
          PatchResult(true, EnsureTrailingNewline(JoinWith(Rebuilt(m, lines, block), '\n')), BlockUpdated)
      else if existing.None? then
        PatchResult(true, EnsureTrailingNewline(block), Created)
      else
        PatchResult(true, Appended(existing.value, block), BlockAdded)
  }

  /** The patch with the fleet's own markers and patterns. */
  function PatchGitignore(existing: Option<string>): PatchResult {
    PatchManaged(FLEET, existing)
  }

  // ---- the constants ----

  /** What the proofs need of a pattern line: it is its own trimmed form, it stays one line,
      it is no marker, and it covers itself. */
  predicate PlainPattern(p: string) {
    p != "" && Lacks(p, '\n') && Lacks(p, '\r') && Trim(p) == p && p[0] != '#'
    && RuleCovers(p, StripTrailingSlashes(p))
  }

  predicate AllPlain(patterns: seq<string>) {
    forall i :: 0 <= i < |patterns| ==> PlainPattern(patterns[i])
  }

  /** Two different one-line comments as markers, and plain patterns between them. */
  predicate WellFormed(m: Managed) {
    m.start != "" && m.end != "" && m.start[0] == '#' && m.end[0] == '#' && m.start != m.end
    && Trim(m.start) == m.start && Trim(m.end) == m.end
    && Lacks(m.start, '\n') && Lacks(m.end, '\n')
    && DropCr(m.start) == m.start && DropCr(m.end) == m.end
    && AllPlain(m.patterns)
  }

  lemma MarkersWellFormed()
    ensures BLOCK_START != "" && BLOCK_END != "" && BLOCK_START[0] == '#' && BLOCK_END[0] == '#'
    ensures BLOCK_START != BLOCK_END && Trim(BLOCK_START) == BLOCK_START && Trim(BLOCK_END) == BLOCK_END
    ensures Lacks(BLOCK_START, '\n') && Lacks(BLOCK_END, '\n')
    ensures DropCr(BLOCK_START) == BLOCK_START && DropCr(BLOCK_END) == BLOCK_END
  {
  }

  lemma PatternsWellFormed()
    ensures PlainPattern("tmp/temp/") && PlainPattern("tmp/worktrees/")
  {
  }

  lemma FleetWellFormed()
    ensures WellFormed(FLEET)
  {
    MarkersWellFormed();
    PatternsWellFormed();
    assert forall p :: p in MANAGED_PATTERNS ==> PlainPattern(p);
  }
}
