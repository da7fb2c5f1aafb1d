/** The closed grammar of the agent-to-agent markers that travel in pull-request comments
    (packages/core/src/agent-tags.mjs). */
module AgentTags {
  import opened JsText
  import opened Wrappers

  datatype Kind = Tag | Review | Author

  /** One parsed marker. */
  datatype Marker = Marker(kind: Kind, fields: map<string, string>)

  /** One regular-expression match: its two capture groups and the length it consumed. */
  datatype Match = Match(kind: Kind, inner: string, length: nat)

  type Field = (string, string)

  const MAX_MARKERS := 16
  const MAX_BODY := 512
  const MAX_KEY := 16
  const MAX_VALUE := 128

  function KindName(kind: Kind): string {
    match kind
    case Tag => "tag"
    case Review => "review"
    case Author => "author"
  }

  /** The part of group 1 before the fields. */
  function Head(kind: Kind): string {
    "ores-agent-" + KindName(kind) + " v1 "
  }

  function Opening(kind: Kind): string {
    "<!-- " + Head(kind)
  }

  // ---- the closed schemas ----

  predicate Lower(c: char) { 'a' <= c <= 'z' }
  predicate Digit(c: char) { '0' <= c <= '9' }
  predicate Alnum(c: char) { Lower(c) || 'A' <= c <= 'Z' || Digit(c) }
  predicate FamilyChar(c: char) { Lower(c) || Digit(c) || c == '-' }
  predicate SessionChar(c: char) { Alnum(c) || c == '.' || c == '_' || c == ':' || c == '-' }
  predicate HexChar(c: char) { Digit(c) || 'a' <= c <= 'f' }

  predicate FamilyForm(v: string) {
    1 <= |v| <= 32 && Lower(v[0]) && forall i :: 1 <= i < |v| ==> FamilyChar(v[i])
  }

  predicate SessionForm(v: string) {
    1 <= |v| <= 96 && Alnum(v[0]) && forall i :: 1 <= i < |v| ==> SessionChar(v[i])
  }

  predicate HeadShaForm(v: string) {
    |v| == 40 && forall i :: 0 <= i < |v| ==> HexChar(v[i])
  }

  function SchemaKeys(kind: Kind): set<string> {
    match kind
    case Tag => {"to", "from", "session", "kind", "head"}
    case Review => {"agent", "session", "head", "verdict"}
    case Author => {"agent", "session"}
  }

  predicate InForm(kind: Kind, key: string, v: string) {
    key in SchemaKeys(kind) &&
    if key == "session" then SessionForm(v)
    else if key == "head" then HeadShaForm(v)
    else if key == "kind" then v == "review" || v == "merge" || v == "fix"
    else if key == "verdict" then v == "approve" || v == "request-changes"
    else FamilyForm(v)
  }

  // ---- the marker pattern ----

  /** The text after the candidate body closes the comment, with or without one blank. */
  predicate Closes(s: string, n: nat)
    requires n <= |s|
  {
    StartsWith(s[n..], " -->") || StartsWith(s[n..], "-->")
  }

  /** The lazy repetition: the shortest body of `n` or more characters, none of them `>`,
      that the closing follows; `s[..n - 1]` is already known to lack `>`. */
  function BodyEnd(s: string, n: nat): (end: Option<nat>)
    requires n >= 1
    ensures end.Some? ==> n <= end.value <= MAX_BODY && end.value <= |s| && Closes(s, end.value)
    decreases MAX_BODY + 1 - n
  {
    if n > MAX_BODY || n > |s| || s[n - 1] == '>' then None
    else if Closes(s, n) then Some(n)
    else BodyEnd(s, n + 1)
  }

  function MatchKind(s: string, kind: Kind): (m: Option<Match>)
    ensures m.Some? ==> 1 <= m.value.length <= |s|
  {
    var open := Opening(kind);
    if !StartsWith(s, open) then None
    else
      var rest := s[|open|..];
      var end := BodyEnd(rest, 1);
      if end.None? then None
      else
        var n := end.value;
        Some(Match(kind, Head(kind) + rest[..n], |open| + n + (if StartsWith(rest[n..], " -->") then 4 else 3)))
  }

  function MatchAt(s: string): (m: Option<Match>)
    ensures m.Some? ==> 1 <= m.value.length <= |s|
  {
    var tag := MatchKind(s, Tag);
    if tag.Some? then tag
    else
      var review := MatchKind(s, Review);
      if review.Some? then review else MatchKind(s, Author)
  }

  /** `matchAll`: leftmost matches, each search resuming where the last match ended. */
  function MatchAll(s: string): seq<Match>
    decreases |s|
  {
    if s == "" then []
    else
      var m := MatchAt(s);
      if m.None? then MatchAll(s[1..]) else [m.value] + MatchAll(s[m.value.length..])
  }

  // ---- fields ----

  function FieldOf(word: string): Option<Field> {
    var e := IndexOf(word, '=');
    if 1 <= e <= MAX_KEY && e < |word| && (forall i :: 0 <= i < e ==> Lower(word[i]))
       && 1 <= |word| - e - 1 <= MAX_VALUE && (forall i :: e < i < |word| ==> !IsSpace(word[i]))
    then Some((word[..e], word[e + 1..]))
    else None
  }

  /** All words as fields, or nothing when one of them is not a field. */
  function FieldsOf(words: seq<string>): Option<seq<Field>> {
    if words == [] then Some([])
    else
      var first := FieldOf(words[0]);
      var rest := FieldsOf(words[1..]);
      if first.None? || rest.None? then None else Some([first.value] + rest.value)
  }

  predicate DistinctKeys(pairs: seq<Field>) {
    forall i, j :: 0 <= i < j < |pairs| ==> pairs[i].0 != pairs[j].0
  }

  predicate AllInForm(kind: Kind, pairs: seq<Field>) {
    forall i :: 0 <= i < |pairs| ==> InForm(kind, pairs[i].0, pairs[i].1)
  }

  function FromEntries(pairs: seq<Field>): map<string, string> {
    if pairs == [] then map[] else FromEntries(pairs[..|pairs| - 1])[pairs[|pairs| - 1].0 := pairs[|pairs| - 1].1]
  }

  function ParseFields(kind: Kind, words: seq<string>): Option<map<string, string>> {
    var pairs := FieldsOf(words);
    if pairs.None? || |pairs.value| != |SchemaKeys(kind)| then None
    else if !DistinctKeys(pairs.value) then None
    else if !AllInForm(kind, pairs.value) then None
    else Some(FromEntries(pairs.value))
  }

  function FieldWords(inner: string): seq<string> {
    var words := SplitOn(inner, ' ');
    if |words| <= 2 then [] else words[2..]
  }

  function MarkersOf(matches: seq<Match>): (markers: seq<Marker>)
    ensures |markers| <= |matches|
  {
    if matches == [] then []
    else
      var fields := ParseFields(matches[0].kind, FieldWords(matches[0].inner));
      (if fields.Some? then [Marker(matches[0].kind, fields.value)] else []) + MarkersOf(matches[1..])
  }

  function ParseAgentMarkers(body: string): seq<Marker> {
    var matches := MatchAll(body);
    MarkersOf(if |matches| <= MAX_MARKERS then matches else matches[..MAX_MARKERS])
  }

  // ---- attestations ----

  const PROVIDERS: seq<string> := ["openai", "claude"]

  /** A stored review: `checkRunId` is absent when the check run has no identifier. */
  datatype StoredReview = StoredReview(verdict: string, failed: bool, checkRunId: Option<string>)

  function FamilyForProvider(provider: string): Option<string> {
    if provider == "openai" then Some("codex")
    else if provider == "claude" then Some("claude")
    else None
  }

  function AttestationVerdict(review: StoredReview): string {
    if review.verdict == "approve" then "approve" else "request-changes"
  }

  function AttestationSession(provider: string, checkRunId: string): string {
    "ores-gh-bots:" + provider + ":" + checkRunId
  }

  function Pair(key: string, v: string): string {
    key + "=" + v
  }

  /** The template of a review attestation. */
  function AttestationText(family: string, session: string, head: string, verdict: string): string {
    "<!-- ores-agent-review v1 "
    + (Pair("agent", family) + " " + (Pair("session", session) + " " + (Pair("head", head) + " " + Pair("verdict", verdict))))
    + " -->"
  }

  function BuildReviewAttestation(provider: string, headSha: string, review: Option<StoredReview>): Option<string> {
    var family := FamilyForProvider(provider);
    if family.None? || !HeadShaForm(headSha) then None
    else if review.None? || review.value.failed || review.value.checkRunId.None? || review.value.checkRunId.value == "" then None
    else Some(AttestationText(family.value, AttestationSession(provider, review.value.checkRunId.value),
                              headSha, AttestationVerdict(review.value)))
  }

  /** The review recorded for a provider, if any. */
  function ReviewOf(reviews: map<string, StoredReview>, provider: string): Option<StoredReview> {
    if provider in reviews then Some(reviews[provider]) else None
  }

  function AttestationsFrom(providers: seq<string>, headSha: string, reviews: map<string, StoredReview>): seq<string> {
    if providers == [] then []
    else
      var first := BuildReviewAttestation(providers[0], headSha, ReviewOf(reviews, providers[0]));
      (if first.Some? then [first.value] else []) + AttestationsFrom(providers[1..], headSha, reviews)
  }

  function BuildReviewAttestations(headSha: string, reviews: map<string, StoredReview>): seq<string> {
    AttestationsFrom(PROVIDERS, headSha, reviews)
  }
}
