/** Printing and parsing agent markers are inverse, and parsing is closed. */
module AgentTagsRoundTrip {
  import opened Collections
  import opened JsText
  import opened Wrappers
  import opened AgentTags

  // ---- printing ----

  function PrintField(f: Field): string {
    Pair(f.0, f.1)
  }

  function PrintFields(pairs: seq<Field>): seq<string> {
    if pairs == [] then [] else [PrintField(pairs[0])] + PrintFields(pairs[1..])
  }

  /** The comment a marker is written as, its fields in the given order. */
  function Print(kind: Kind, pairs: seq<Field>): string {
    Opening(kind) + JoinWith(PrintFields(pairs), ' ') + " -->"
  }

  /** Exactly the schema's keys, each once, every value in form. */
  predicate ValidFields(kind: Kind, pairs: seq<Field>) {
    |pairs| == |SchemaKeys(kind)| && DistinctKeys(pairs) && AllInForm(kind, pairs)
  }

  /** A marker to print. */
  type Printed = (Kind, seq<Field>)

  /** Printed markers with a text before, between and after them. */
  function Document(ms: seq<Printed>, texts: seq<string>): string
    requires |texts| == |ms| + 1
  {
    if ms == [] then texts[0] else texts[0] + (Print(ms[0].0, ms[0].1) + Document(ms[1..], texts[1..]))
  }

  function MarkersPrinted(ms: seq<Printed>): seq<Marker> {
    if ms == [] then [] else [Marker(ms[0].0, FromEntries(ms[0].1))] + MarkersPrinted(ms[1..])
  }

  // ---- characters of a printed field ----

  predicate Plain(c: char) {
    SessionChar(c)
  }

  predicate AllPlainChars(s: string) {
    forall i :: 0 <= i < |s| ==> Plain(s[i])
  }

  lemma InFormIsPlain(kind: Kind, key: string, v: string)
    requires InForm(kind, key, v)
    ensures 1 <= |v| <= MAX_VALUE && AllPlainChars(v)
    ensures |v| <= if key == "session" then 96 else 40
  {
  }

  lemma SchemaKeyIsField(kind: Kind, key: string)
    requires key in SchemaKeys(kind)
    ensures 1 <= |key| <= 7 && forall i :: 0 <= i < |key| ==> Lower(key[i])
  {
  }

  /** A key and a value in form read back as the field they print. */
  lemma FieldOfPrinted(kind: Kind, f: Field)
    requires InForm(kind, f.0, f.1)
    ensures FieldOf(PrintField(f)) == Some(f)
    ensures Lacks(PrintField(f), ' ') && Lacks(PrintField(f), '>') && Lacks(PrintField(f), '<')
    ensures 1 <= |PrintField(f)| <= if f.0 == "session" then 104 else 48
  {
    SchemaKeyIsField(kind, f.0);
    InFormIsPlain(kind, f.0, f.1);
    var w := PrintField(f);
    IndexOfConcat(f.0, '=', f.1);
    assert f.0 + ['='] + f.1 == w;
    forall i | |f.0| < i < |w|
      ensures Plain(w[i])
    {
      assert w[i] == f.1[i - |f.0| - 1];
    }
    assert forall i :: 0 <= i < |f.0| ==> w[i] == f.0[i];
  }

  lemma {:induction false} FieldsOfPrinted(kind: Kind, pairs: seq<Field>)
    requires AllInForm(kind, pairs)
    ensures FieldsOf(PrintFields(pairs)) == Some(pairs)
    ensures |PrintFields(pairs)| == |pairs|
    ensures AllLack(PrintFields(pairs), ' ') && AllLack(PrintFields(pairs), '>') && AllLack(PrintFields(pairs), '<')
  {
    if pairs != [] {
      FieldOfPrinted(kind, pairs[0]);
      FieldsOfPrinted(kind, pairs[1..]);
      assert PrintFields(pairs)[1..] == PrintFields(pairs[1..]);
      assert pairs == [pairs[0]] + pairs[1..];
    }
  }

  // ---- the length of a printed body ----

  predicate HasSession(pairs: seq<Field>) {
    exists i :: 0 <= i < |pairs| && pairs[i].0 == "session"
  }

  lemma {:induction false} BodyLength(kind: Kind, pairs: seq<Field>)
    requires pairs != [] && AllInForm(kind, pairs) && DistinctKeys(pairs)
    ensures 1 <= |JoinWith(PrintFields(pairs), ' ')| <= 49 * |pairs| + if HasSession(pairs) then 56 else 0
  {
    FieldOfPrinted(kind, pairs[0]);
    if |pairs| > 1 {
      var rest := pairs[1..];
      BodyLength(kind, rest);
      if HasSession(rest) {
        var i :| 0 <= i < |rest| && rest[i].0 == "session";
        assert pairs[i + 1].0 == "session" && pairs[0].0 != pairs[i + 1].0;
      }
    }
  }

  lemma {:induction false} AllFieldsIn(kind: Kind, pairs: seq<Field>)
    requires ValidFields(kind, pairs)
    ensures 1 <= |JoinWith(PrintFields(pairs), ' ')| <= MAX_BODY
  {
    assert |SchemaKeys(kind)| <= 5;
    BodyLength(kind, pairs);
  }

  lemma {:induction false} JoinLacks(parts: seq<string>, sep: char, c: char)
    requires AllLack(parts, c) && c != sep
    ensures Lacks(JoinWith(parts, sep), c)
  {
    if |parts| > 1 {
      JoinLacks(parts[1..], sep, c);
    }
  }

  // ---- one printed marker ----

  /** The first `>` after the opening is the one that closes the comment, so the lazy body is the whole body. */
  lemma {:induction false} BodyEndOfPrinted(body: string, tail: string, n: nat)
    requires 1 <= n <= |body| <= MAX_BODY && Lacks(body, '>')
    ensures BodyEnd(body + " -->" + tail, n) == Some(|body|)
    decreases |body| - n
  {
    var s := body + " -->" + tail;
    assert s[..|body|] == body && s[|body|..] == " -->" + tail;
    assert s[n - 1] == body[n - 1];
    if n < |body| {
      NotClosedEarly(body, tail, n);
      BodyEndOfPrinted(body, tail, n + 1);
    } else {
      assert StartsWith(s[n..], " -->");
    }
  }

  lemma NotClosedEarly(body: string, tail: string, n: nat)
    requires n < |body| && Lacks(body, '>')
    ensures !Closes(body + " -->" + tail, n)
  {
    var s := body + " -->" + tail;
    assert forall i :: 0 <= i < |body| + 3 ==> s[i] != '>';
    assert s[n..][2] == s[n + 2] && s[n..][3] == s[n + 3];
  }

  lemma OpeningsDiffer(a: Kind, b: Kind, rest: string)
    requires a != b
    ensures !StartsWith(Opening(a) + rest, Opening(b))
  {
    var s := Opening(a) + rest;
    assert Opening(a)[16] == KindName(a)[0] && Opening(b)[16] == KindName(b)[0];
    assert s[16] == KindName(a)[0];
  }

  lemma PrintedMatches(kind: Kind, body: string, tail: string)
    requires 1 <= |body| <= MAX_BODY && Lacks(body, '>')
    ensures MatchAt(Opening(kind) + body + " -->" + tail)
         == Some(Match(kind, Head(kind) + body, |Opening(kind)| + |body| + 4))
  {
    var rest := body + " -->" + tail;
    var s := Opening(kind) + rest;
    assert s == Opening(kind) + body + " -->" + tail;
    PrintedMatchesKind(kind, body, tail, rest, s);
    if kind != Tag {
      OpeningsDiffer(kind, Tag, rest);
    }
    if kind == Author {
      OpeningsDiffer(kind, Review, rest);
    }
  }

  lemma CutAfter(a: string, b: string)
    ensures (a + b)[..|a|] == a && (a + b)[|a|..] == b && StartsWith(a + b, a)
  {
  }

  lemma PrintedMatchesKind(kind: Kind, body: string, tail: string, rest: string, s: string)
    requires 1 <= |body| <= MAX_BODY && Lacks(body, '>')
    requires rest == body + " -->" + tail && s == Opening(kind) + rest
    ensures MatchKind(s, kind) == Some(Match(kind, Head(kind) + body, |Opening(kind)| + |body| + 4))
  {
    CutAfter(Opening(kind), rest);
    ClosingStands(body, tail, rest);
    BodyEndOfPrinted(body, tail, 1);
    MatchKindIs(s, kind, rest, body);
  }

  lemma ClosingStands(body: string, tail: string, rest: string)
    requires rest == body + " -->" + tail
    ensures StartsWith(rest, body) && rest[..|body|] == body && StartsWith(rest[|body|..], " -->")
  {
    Reassociate(body, " -->", tail);
    CutAfter(body, " -->" + tail);
    CutAfter(" -->", tail);
  }

  lemma MatchKindIs(s: string, kind: Kind, rest: string, body: string)
    requires StartsWith(s, Opening(kind)) && s[|Opening(kind)|..] == rest
    requires StartsWith(rest, body) && rest[..|body|] == body
    requires BodyEnd(rest, 1) == Some(|body|) && StartsWith(rest[|body|..], " -->")
    ensures MatchKind(s, kind) == Some(Match(kind, Head(kind) + body, |Opening(kind)| + |body| + 4))
  {
  }

  lemma SplitTwoHeads(a: string, b: string, words: seq<string>)
    requires |words| >= 1 && Lacks(a, ' ') && Lacks(b, ' ') && AllLack(words, ' ')
    ensures SplitOn(a + [' '] + (b + [' '] + JoinWith(words, ' ')), ' ') == [a, b] + words
  {
    var tail := [b] + words;
    assert tail[1..] == words;
    SplitOnJoin(tail, ' ');
    IndexOfConcat(a, ' ', JoinWith(tail, ' '));
  }

  /** Splitting the captured group gives the two head words and then the field words. */
  lemma FieldWordsOfPrinted(kind: Kind, words: seq<string>)
    requires |words| >= 1 && AllLack(words, ' ')
    ensures FieldWords(Head(kind) + JoinWith(words, ' ')) == words
  {
    var name, version := HeadShape(kind);
    RegroupHead(name, version, JoinWith(words, ' '));
    SplitTwoHeads(name, version, words);
    assert ([name, version] + words)[2..] == words;
  }

  lemma HeadShape(kind: Kind) returns (name: string, version: string)
    ensures Head(kind) == name + [' '] + (version + [' ']) && Lacks(name, ' ') && Lacks(version, ' ')
  {
    name, version := "ores-agent-" + KindName(kind), "v1";
    assert version + [' '] == "v1 ";
    assert name + [' '] + "v1 " == name + " v1 ";
  }

  lemma RegroupHead(a: string, b: string, c: string)
    ensures a + [' '] + (b + [' ']) + c == a + [' '] + (b + [' '] + c)
  {
  }

  // ---- the search ----

  lemma {:induction false} SkipText(text: string, rest: string)
    requires Lacks(text, '<')
    ensures MatchAll(text + rest) == MatchAll(rest)
  {
    if text == "" {
      assert text + rest == rest;
    } else {
      var s := text + rest;
      assert s[0] == text[0] != '<';
      NoMatchHere(s);
      assert s[1..] == text[1..] + rest;
      SkipText(text[1..], rest);
    }
  }

  lemma NoMatchHere(s: string)
    requires s != "" && s[0] != '<'
    ensures MatchAt(s).None?
  {
  }

  lemma PrintedThenRest(kind: Kind, pairs: seq<Field>, tail: string)
    requires ValidFields(kind, pairs)
    ensures var inner := Head(kind) + JoinWith(PrintFields(pairs), ' ');
            var m := MatchAll(Print(kind, pairs) + tail);
            |m| >= 1 && m[0].kind == kind && m[0].inner == inner && m[1..] == MatchAll(tail)
  {
    var body := JoinWith(PrintFields(pairs), ' ');
    var s := Print(kind, pairs) + tail;
    AllFieldsIn(kind, pairs);
    FieldsOfPrinted(kind, pairs);
    JoinLacks(PrintFields(pairs), ' ', '>');
    PrintedMatches(kind, body, tail);
    assert s == Opening(kind) + body + " -->" + tail;
    assert s[|Opening(kind)| + |body| + 4..] == tail;
  }

  lemma {:induction false} DocumentMatches(ms: seq<Printed>, texts: seq<string>)
    requires |texts| == |ms| + 1 && AllLack(texts, '<')
    requires forall i :: 0 <= i < |ms| ==> ValidFields(ms[i].0, ms[i].1)
    ensures var m := MatchAll(Document(ms, texts));
            |m| == |ms| && MarkersOf(m) == MarkersPrinted(ms)
  {
    if ms == [] {
      SkipText(texts[0], "");
      assert texts[0] + "" == texts[0];
    } else {
      var kind, pairs := ms[0].0, ms[0].1;
      var tail := Document(ms[1..], texts[1..]);
      SkipText(texts[0], Print(kind, pairs) + tail);
      PrintedThenRest(kind, pairs, tail);
      FieldsOfPrinted(kind, pairs);
      FieldWordsOfPrinted(kind, PrintFields(pairs));
      assert ParseFields(kind, PrintFields(pairs)) == Some(FromEntries(pairs));
      DocumentMatches(ms[1..], texts[1..]);
    }
  }

  /** Parsing undoes printing: any list of at most 16 valid markers, in any key order, separated
      by text without `<`, parses back to exactly those markers in order. */
  lemma ParseUndoesPrint(ms: seq<Printed>, texts: seq<string>)
    requires |texts| == |ms| + 1 && AllLack(texts, '<') && |ms| <= MAX_MARKERS
    requires forall i :: 0 <= i < |ms| ==> ValidFields(ms[i].0, ms[i].1)
    ensures ParseAgentMarkers(Document(ms, texts)) == MarkersPrinted(ms)
  {
    DocumentMatches(ms, texts);
  }

  // ---- parsing is closed ----

  lemma {:induction false} EntrySource(pairs: seq<Field>, key: string) returns (i: nat)
    requires key in FromEntries(pairs)
    ensures i < |pairs| && pairs[i] == (key, FromEntries(pairs)[key])
  {
    var front, last := pairs[..|pairs| - 1], pairs[|pairs| - 1];
    if key == last.0 {
      i := |front|;
    } else {
      i := EntrySource(front, key);
    }
  }

  lemma {:induction false} EntryKept(pairs: seq<Field>, i: nat)
    requires DistinctKeys(pairs) && i < |pairs|
    ensures pairs[i].0 in FromEntries(pairs) && FromEntries(pairs)[pairs[i].0] == pairs[i].1
  {
    var n := |pairs| - 1;
    if i < n {
      EntryKept(pairs[..n], i);
      assert pairs[i].0 != pairs[n].0;
    }
  }

  lemma {:induction false} EntryCount(pairs: seq<Field>)
    requires DistinctKeys(pairs)
    ensures |FromEntries(pairs).Keys| == |pairs|
  {
    if pairs != [] {
      var front, last := pairs[..|pairs| - 1], pairs[|pairs| - 1];
      EntryCount(front);
      assert last.0 !in FromEntries(front) by {
        if last.0 in FromEntries(front) {
          var i := EntrySource(front, last.0);
        }
      }
      assert FromEntries(pairs).Keys == FromEntries(front).Keys + {last.0};
    }
  }

  /** Distinct keys give as many entries as fields, and entries are fields. */
  lemma EntriesByKey(kind: Kind, pairs: seq<Field>)
    requires DistinctKeys(pairs) && AllInForm(kind, pairs)
    ensures |FromEntries(pairs).Keys| == |pairs|
    ensures forall i :: 0 <= i < |pairs| ==> pairs[i].0 in FromEntries(pairs) && FromEntries(pairs)[pairs[i].0] == pairs[i].1
    ensures forall k :: k in FromEntries(pairs) ==> InForm(kind, k, FromEntries(pairs)[k])
    ensures forall k :: k in FromEntries(pairs) ==> exists i :: 0 <= i < |pairs| && pairs[i].0 == k
  {
    EntryCount(pairs);
    forall i | 0 <= i < |pairs|
      ensures pairs[i].0 in FromEntries(pairs) && FromEntries(pairs)[pairs[i].0] == pairs[i].1
    {
      EntryKept(pairs, i);
    }
    forall k | k in FromEntries(pairs)
      ensures InForm(kind, k, FromEntries(pairs)[k]) && exists i :: 0 <= i < |pairs| && pairs[i].0 == k
    {
      var i := EntrySource(pairs, k);
    }
  }

  predicate Closed(m: Marker) {
    m.fields.Keys == SchemaKeys(m.kind) && forall k :: k in m.fields ==> InForm(m.kind, k, m.fields[k])
  }

  lemma ValidFieldsClosed(kind: Kind, pairs: seq<Field>)
    requires ValidFields(kind, pairs)
    ensures Closed(Marker(kind, FromEntries(pairs)))
  {
    EntriesByKey(kind, pairs);
    SubsetSize(FromEntries(pairs).Keys, SchemaKeys(kind));
  }

  // ---- parsing only returns what was written ----

  /** A marker of this kind with these fields is written at position `at` of the text. */
  predicate WrittenAt(s: string, at: nat, kind: Kind, pairs: seq<Field>) {
    var text := Opening(kind) + JoinWith(PrintFields(pairs), ' ');
    at <= |s| && text <= s[at..] && Closes(s[at..], |text|)
  }

  ghost predicate Written(s: string, m: Marker) {
    exists at: nat, pairs :: ValidFields(m.kind, pairs) && FromEntries(pairs) == m.fields && WrittenAt(s, at, m.kind, pairs)
  }

  /** A match stands at position `at`: its opening, a body without `>`, and the closing. */
  predicate MatchedAt(s: string, at: nat, m: Match, body: string) {
    at <= |s| && m.inner == Head(m.kind) + body && Opening(m.kind) + body <= s[at..]
    && Closes(s[at..], |Opening(m.kind)| + |body|)
  }

  lemma BodyStands(s: string, open: string, n: nat)
    requires StartsWith(s, open) && |open| + n <= |s|
    ensures s[0..] == s && s[|open|..][n..] == s[|open| + n..] && open + s[|open|..][..n] <= s
  {
    assert open + s[|open|..][..n] == s[..|open| + n];
  }

  lemma MatchKindShape(s: string, kind: Kind)
    requires MatchKind(s, kind).Some?
    ensures var m := MatchKind(s, kind).value;
            m.kind == kind && exists body :: MatchedAt(s, 0, m, body)
  {
    var open := Opening(kind);
    var rest := s[|open|..];
    var n := BodyEnd(rest, 1).value;
    BodyStands(s, open, n);
    assert MatchedAt(s, 0, MatchKind(s, kind).value, rest[..n]);
  }

  lemma MatchAtShape(s: string)
    requires MatchAt(s).Some?
    ensures exists body :: MatchedAt(s, 0, MatchAt(s).value, body)
  {
    if MatchKind(s, Tag).Some? {
      MatchKindShape(s, Tag);
    } else if MatchKind(s, Review).Some? {
      MatchKindShape(s, Review);
    } else {
      MatchKindShape(s, Author);
    }
  }

  lemma ShiftMatch(s: string, k: nat, at: nat, m: Match, body: string)
    requires k <= |s| && MatchedAt(s[k..], at, m, body)
    ensures MatchedAt(s, k + at, m, body)
  {
  }

  lemma LaterMatch(s: string, i: nat, k: nat, j: nat)
    requires i < |MatchAll(s)|
    requires var m := MatchAt(s);
             if m.None? then k == 1 && j == i else i > 0 && k == m.value.length && j == i - 1
    ensures 0 < k <= |s| && j < |MatchAll(s[k..])| && MatchAll(s)[i] == MatchAll(s[k..])[j]
  {
  }

  lemma {:induction false} MatchesStand(s: string, i: nat) returns (at: nat, body: string)
    requires i < |MatchAll(s)|
    ensures MatchedAt(s, at, MatchAll(s)[i], body)
    decreases |s|
  {
    var m := MatchAt(s);
    if m.Some? && i == 0 {
      MatchAtShape(s);
      body :| MatchedAt(s, 0, m.value, body);
      at := 0;
    } else {
      var k, j := if m.None? then 1 else m.value.length, if m.None? then i else i - 1;
      LaterMatch(s, i, k, j);
      at, body := MatchesStand(s[k..], j);
      ShiftMatch(s, k, at, MatchAll(s[k..])[j], body);
      at := k + at;
    }
  }

  lemma {:induction false} JoinSplit(s: string, c: char)
    ensures JoinWith(SplitOn(s, c), c) == s
    ensures AllLack(SplitOn(s, c), c)
    decreases |s|
  {
    var i := IndexOf(s, c);
    if i < |s| {
      var head, tail := s[..i], s[i + 1..];
      JoinSplit(tail, c);
      var words, all := SplitOn(tail, c), SplitOn(s, c);
      assert all == [head] + words;
      assert all[1..] == words;
      assert s == head + [c] + tail;
    }
  }

  lemma FieldWordsOfBody(kind: Kind, body: string)
    ensures JoinWith(FieldWords(Head(kind) + body), ' ') == body
  {
    JoinSplit(body, ' ');
    FieldWordsOfPrinted(kind, SplitOn(body, ' '));
  }

  lemma {:induction false} PrintOfFields(words: seq<string>)
    requires FieldsOf(words).Some?
    ensures PrintFields(FieldsOf(words).value) == words
  {
    if words != [] {
      var f := FieldOf(words[0]).value;
      var e := IndexOf(words[0], '=');
      assert words[0] == words[0][..e] + "=" + words[0][e + 1..];
      PrintOfFields(words[1..]);
      var pairs := FieldsOf(words).value;
      assert pairs == [f] + FieldsOf(words[1..]).value;
      assert pairs[1..] == FieldsOf(words[1..]).value;
      assert words == [words[0]] + words[1..];
    }
  }

  lemma ParsedMatchWritten(s: string, at: nat, m: Match, body: string)
    requires MatchedAt(s, at, m, body) && ParseFields(m.kind, FieldWords(m.inner)).Some?
    ensures var marker := Marker(m.kind, ParseFields(m.kind, FieldWords(m.inner)).value);
            Closed(marker) && Written(s, marker)
  {
    var words := FieldWords(m.inner);
    var pairs := FieldsOf(words).value;
    FieldWordsOfBody(m.kind, body);
    PrintOfFields(words);
    ValidFieldsClosed(m.kind, pairs);
    assert WrittenAt(s, at, m.kind, pairs);
  }

  lemma LaterMarker(matches: seq<Match>, i: nat, k: nat)
    requires i < |MarkersOf(matches)|
    requires if ParseFields(matches[0].kind, FieldWords(matches[0].inner)).Some? then i > 0 && k == i - 1 else k == i
    ensures k < |MarkersOf(matches[1..])| && MarkersOf(matches)[i] == MarkersOf(matches[1..])[k]
  {
  }

  lemma {:induction false} MarkerSource(matches: seq<Match>, i: nat) returns (j: nat)
    requires i < |MarkersOf(matches)|
    ensures j < |matches| && MarkersOf(matches)[i].kind == matches[j].kind
    ensures ParseFields(matches[j].kind, FieldWords(matches[j].inner)) == Some(MarkersOf(matches)[i].fields)
  {
    var fields := ParseFields(matches[0].kind, FieldWords(matches[0].inner));
    if fields.Some? && i == 0 {
      j := 0;
    } else {
      var k := if fields.Some? then i - 1 else i;
      LaterMarker(matches, i, k);
      j := MarkerSource(matches[1..], k);
      j := j + 1;
    }
  }

  /** For every body whatever: at most 16 markers come back, each has exactly its schema's keys with
      every value in form, and each is literally written in the body. */
  lemma ParsingIsClosed(body: string, i: nat)
    requires i < |ParseAgentMarkers(body)|
    ensures |ParseAgentMarkers(body)| <= MAX_MARKERS
    ensures Closed(ParseAgentMarkers(body)[i]) && Written(body, ParseAgentMarkers(body)[i])
  {
    var all := MatchAll(body);
    var matches := if |all| <= MAX_MARKERS then all else all[..MAX_MARKERS];
    var j := MarkerSource(matches, i);
    var at, text := MatchesStand(body, j);
    ParsedMatchWritten(body, at, matches[j], text);
  }

  // ---- attestations ----

  function AttestationFields(family: string, session: string, head: string, verdict: string): seq<Field> {
    [("agent", family), ("session", session), ("head", head), ("verdict", verdict)]
  }

  function AttestationMarker(family: string, session: string, head: string, verdict: string): Marker {
    Marker(Review, map["agent" := family, "session" := session, "head" := head, "verdict" := verdict])
  }

  lemma AttestationEntries(family: string, session: string, head: string, verdict: string)
    ensures Marker(Review, FromEntries(AttestationFields(family, session, head, verdict)))
         == AttestationMarker(family, session, head, verdict)
  {
    var p := AttestationFields(family, session, head, verdict);
    assert p[..3][..2] == p[..2] && p[..2][..1] == p[..1] && p[..1][..0] == [];
    assert FromEntries(p[..1]) == map["agent" := family];
    assert FromEntries(p[..2]) == map["agent" := family]["session" := session];
    assert FromEntries(p[..3]) == map["agent" := family]["session" := session]["head" := head];
  }

  lemma JoinFour(a: string, b: string, c: string, d: string)
    ensures JoinWith([a, b, c, d], ' ') == a + " " + (b + " " + (c + " " + d))
  {
    assert [a, b, c, d][1..] == [b, c, d] && [b, c, d][1..] == [c, d] && [c, d][1..] == [d];
    assert JoinWith([c, d], ' ') == c + " " + d;
    assert JoinWith([b, c, d], ' ') == b + " " + (c + " " + d);
  }

  lemma PrintFour(p: seq<Field>)
    requires |p| == 4
    ensures PrintFields(p) == [PrintField(p[0]), PrintField(p[1]), PrintField(p[2]), PrintField(p[3])]
  {
    assert p[1..][1..] == p[2..] && p[2..][1..] == p[3..] && p[3..][1..] == [];
    assert PrintFields(p[3..]) == [PrintField(p[3])];
    assert PrintFields(p[2..]) == [PrintField(p[2]), PrintField(p[3])];
    assert PrintFields(p[1..]) == [PrintField(p[1]), PrintField(p[2]), PrintField(p[3])];
  }

  lemma AttestationPrinted(family: string, session: string, head: string, verdict: string)
    ensures Print(Review, AttestationFields(family, session, head, verdict))
         == AttestationText(family, session, head, verdict)
  {
    var p := AttestationFields(family, session, head, verdict);
    PrintFour(p);
    JoinFour(PrintField(p[0]), PrintField(p[1]), PrintField(p[2]), PrintField(p[3]));
    assert Opening(Review) == "<!-- ores-agent-review v1 ";
  }

  lemma OneMarkerParses(p: seq<Field>, before: string, after: string)
    requires ValidFields(Review, p) && Lacks(before, '<') && Lacks(after, '<')
    ensures ParseAgentMarkers(before + (Print(Review, p) + after)) == [Marker(Review, FromEntries(p))]
  {
    var ms: seq<Printed>, texts := [(Review, p)], [before, after];
    assert ms[1..] == [] && texts[1..] == [after];
    assert Document(ms[1..], texts[1..]) == after;
    assert Document(ms, texts) == before + (Print(Review, p) + after);
    ParseUndoesPrint(ms, texts);
    assert MarkersPrinted(ms) == [Marker(Review, FromEntries(p))];
  }

  lemma InFormSessionParses(family: string, session: string, head: string, verdict: string, before: string, after: string)
    requires FamilyForm(family) && SessionForm(session) && HeadShaForm(head)
    requires verdict == "approve" || verdict == "request-changes"
    requires Lacks(before, '<') && Lacks(after, '<')
    ensures ParseAgentMarkers(before + (AttestationText(family, session, head, verdict) + after))
         == [AttestationMarker(family, session, head, verdict)]
  {
    AttestationPrinted(family, session, head, verdict);
    AttestationEntries(family, session, head, verdict);
    AttestationValid(family, session, head, verdict);
    OneMarkerParses(AttestationFields(family, session, head, verdict), before, after);
  }

  /** No text parses to an attestation whose session is out of form. */
  lemma ParsedSessionInForm(body: string, i: nat, family: string, session: string, head: string, verdict: string)
    requires i < |ParseAgentMarkers(body)| && ParseAgentMarkers(body)[i] == AttestationMarker(family, session, head, verdict)
    ensures SessionForm(session)
  {
    ParsingIsClosed(body, i);
    ClosedSession(family, session, head, verdict);
  }

  lemma ClosedSession(family: string, session: string, head: string, verdict: string)
    requires Closed(AttestationMarker(family, session, head, verdict))
    ensures SessionForm(session)
  {
    assert "session" in AttestationMarker(family, session, head, verdict).fields;
  }

  /** An attestation parses back to exactly its four fields, provided the check-run identifier
      keeps the session in form. */
  lemma AttestationParses(provider: string, headSha: string, review: StoredReview, before: string, after: string)
    requires BuildReviewAttestation(provider, headSha, Some(review)).Some? && Lacks(before, '<') && Lacks(after, '<')
    ensures var session := AttestationSession(provider, review.checkRunId.value);
            var text := BuildReviewAttestation(provider, headSha, Some(review)).value;
            ParseAgentMarkers(before + (text + after))
              == [AttestationMarker(FamilyForProvider(provider).value, session, headSha, AttestationVerdict(review))]
            <==> SessionForm(session)
    ensures AttestationVerdict(review) == "approve" <==> review.verdict == "approve"
  {
    var family := FamilyForProvider(provider).value;
    var session := AttestationSession(provider, review.checkRunId.value);
    var verdict := AttestationVerdict(review);
    var body := before + (AttestationText(family, session, headSha, verdict) + after);
    if SessionForm(session) {
      InFormSessionParses(family, session, headSha, verdict, before, after);
    } else if ParseAgentMarkers(body) == [AttestationMarker(family, session, headSha, verdict)] {
      ParsedSessionInForm(body, 0, family, session, headSha, verdict);
    }
  }

  lemma AttestationValid(family: string, session: string, head: string, verdict: string)
    requires FamilyForm(family) && SessionForm(session) && HeadShaForm(head)
    requires verdict == "approve" || verdict == "request-changes"
    ensures ValidFields(Review, AttestationFields(family, session, head, verdict))
  {
  }

  /** What a reader should find: one marker for each provider with an attestation, in provider order. */
  function AttestedMarkers(providers: seq<string>, headSha: string, reviews: map<string, StoredReview>): seq<Marker> {
    if providers == [] then []
    else
      var provider := providers[0];
      var rest := AttestedMarkers(providers[1..], headSha, reviews);
      if BuildReviewAttestation(provider, headSha, ReviewOf(reviews, provider)).None? then rest
      else
        var review := reviews[provider];
        [AttestationMarker(FamilyForProvider(provider).value, AttestationSession(provider, review.checkRunId.value),
                           headSha, AttestationVerdict(review))] + rest
  }

  /** Every attested provider has a session in form. */
  predicate SessionsInForm(providers: seq<string>, headSha: string, reviews: map<string, StoredReview>) {
    forall p :: p in providers && BuildReviewAttestation(p, headSha, ReviewOf(reviews, p)).Some?
      ==> SessionForm(AttestationSession(p, reviews[p].checkRunId.value))
  }

  lemma PrefixFirstText(ms: seq<Printed>, texts: seq<string>, prefix: string)
    requires |texts| == |ms| + 1
    ensures Document(ms, [prefix + texts[0]] + texts[1..]) == prefix + Document(ms, texts)
  {
  }

  function ReviewMarkers(ps: seq<seq<Field>>): seq<Printed> {
    seq(|ps|, i requires 0 <= i < |ps| => (Review, ps[i]))
  }

  function PrintedReviews(ps: seq<seq<Field>>): seq<string> {
    if ps == [] then [] else [Print(Review, ps[0])] + PrintedReviews(ps[1..])
  }

  predicate AllValidReviews(ps: seq<seq<Field>>) {
    forall i :: 0 <= i < |ps| ==> ValidFields(Review, ps[i])
  }

  /** The attestations of a provider list are printed markers. */
  lemma {:induction false} AttestationsArePrinted(providers: seq<string>, headSha: string, reviews: map<string, StoredReview>)
      returns (ps: seq<seq<Field>>)
    requires SessionsInForm(providers, headSha, reviews)
    ensures |ps| <= |providers| && AllValidReviews(ps)
    ensures AttestationsFrom(providers, headSha, reviews) == PrintedReviews(ps)
    ensures AttestedMarkers(providers, headSha, reviews) == MarkersPrinted(ReviewMarkers(ps))
  {
    if providers == [] {
      ps := [];
    } else {
      var rest := AttestationsArePrinted(providers[1..], headSha, reviews);
      var provider := providers[0];
      if BuildReviewAttestation(provider, headSha, ReviewOf(reviews, provider)).None? {
        ps := rest;
      } else {
        assert provider in providers;
        var p, m := OneAttestation(provider, headSha, reviews[provider]);
        ps := [p] + rest;
        assert ps[1..] == rest;
        assert ReviewMarkers(ps)[1..] == ReviewMarkers(rest);
      }
    }
  }

  lemma DocumentCons(m: Printed, ms: seq<Printed>, texts: seq<string>)
    requires |texts| == |ms| + 1
    ensures Document([m] + ms, [""] + texts) == Print(m.0, m.1) + Document(ms, texts)
  {
    assert ([m] + ms)[1..] == ms && ([""] + texts)[1..] == texts;
    var rest := Print(m.0, m.1) + Document(ms, texts);
    assert "" + rest == rest;
  }

  lemma LineAdded(ps: seq<seq<Field>>, rest: seq<string>, after: string, tail: string)
    requires ps != [] && |rest| == |ps| && Document(ReviewMarkers(ps[1..]), rest) == tail
    requires tail == JoinWith(PrintedReviews(ps[1..]) + [after], '\n')
    ensures Document(ReviewMarkers(ps), [""] + (["\n" + rest[0]] + rest[1..])) == JoinWith(PrintedReviews(ps) + [after], '\n')
  {
    LineDocument(ps, rest, tail);
    LinesJoined(ps, after);
  }

  lemma LinesJoined(ps: seq<seq<Field>>, after: string)
    requires ps != []
    ensures JoinWith(PrintedReviews(ps) + [after], '\n')
         == Print(Review, ps[0]) + ("\n" + JoinWith(PrintedReviews(ps[1..]) + [after], '\n'))
  {
    var first, later := Print(Review, ps[0]), PrintedReviews(ps[1..]) + [after];
    JoinCons(first, later);
    assert PrintedReviews(ps) + [after] == [first] + later;
  }

  lemma LineDocument(ps: seq<seq<Field>>, rest: seq<string>, tail: string)
    requires ps != [] && |rest| == |ps| && Document(ReviewMarkers(ps[1..]), rest) == tail
    ensures Document(ReviewMarkers(ps), [""] + (["\n" + rest[0]] + rest[1..])) == Print(Review, ps[0]) + ("\n" + tail)
  {
    var later := ReviewMarkers(ps[1..]);
    PrefixFirstText(later, rest, "\n");
    DocumentCons((Review, ps[0]), later, ["\n" + rest[0]] + rest[1..]);
    assert ReviewMarkers(ps) == [(Review, ps[0])] + later;
  }

  /** Printed markers on lines of their own, then a text, form a document. */
  lemma {:induction false} LinesDocument(ps: seq<seq<Field>>, after: string) returns (texts: seq<string>)
    requires Lacks(after, '<') && AllValidReviews(ps)
    ensures |texts| == |ps| + 1 && AllLack(texts, '<')
    ensures Document(ReviewMarkers(ps), texts) == JoinWith(PrintedReviews(ps) + [after], '\n')
  {
    if ps == [] {
      texts := [after];
      assert PrintedReviews(ps) + [after] == [after];
    } else {
      var rest := LinesDocument(ps[1..], after);
      texts := [""] + (["\n" + rest[0]] + rest[1..]);
      LineAdded(ps, rest, after, JoinWith(PrintedReviews(ps[1..]) + [after], '\n'));
    }
  }

  lemma JoinCons(first: string, rest: seq<string>)
    requires |rest| >= 1
    ensures JoinWith([first] + rest, '\n') == first + ("\n" + JoinWith(rest, '\n'))
  {
  }

  lemma OneAttestation(provider: string, headSha: string, review: StoredReview) returns (p: seq<Field>, m: Marker)
    requires BuildReviewAttestation(provider, headSha, Some(review)).Some?
    requires SessionForm(AttestationSession(provider, review.checkRunId.value))
    ensures ValidFields(Review, p) && Marker(Review, FromEntries(p)) == m
    ensures Print(Review, p) == BuildReviewAttestation(provider, headSha, Some(review)).value
    ensures m == AttestationMarker(FamilyForProvider(provider).value,
                                   AttestationSession(provider, review.checkRunId.value), headSha, AttestationVerdict(review))
  {
    var family := FamilyForProvider(provider).value;
    var session := AttestationSession(provider, review.checkRunId.value);
    var verdict := AttestationVerdict(review);
    p := AttestationFields(family, session, headSha, verdict);
    m := AttestationMarker(family, session, headSha, verdict);
    AttestationPrinted(family, session, headSha, verdict);
    AttestationValid(family, session, headSha, verdict);
    AttestationEntries(family, session, headSha, verdict);
  }

  /** Each attested provider has its marker among those a reader should find. */
  lemma {:induction false} AttestedMarkerOf(providers: seq<string>, headSha: string, reviews: map<string, StoredReview>,
                                           provider: string) returns (i: nat)
    requires provider in providers && BuildReviewAttestation(provider, headSha, ReviewOf(reviews, provider)).Some?
    ensures var markers := AttestedMarkers(providers, headSha, reviews);
            i < |markers| && markers[i] == AttestationMarker(FamilyForProvider(provider).value,
              AttestationSession(provider, reviews[provider].checkRunId.value), headSha, AttestationVerdict(reviews[provider]))
  {
    if providers[0] == provider {
      i := 0;
    } else {
      i := AttestedMarkerOf(providers[1..], headSha, reviews, provider);
      if BuildReviewAttestation(providers[0], headSha, ReviewOf(reviews, providers[0])).Some? {
        i := i + 1;
      }
    }
  }

  lemma SessionsInFormParse(headSha: string, reviews: map<string, StoredReview>, after: string)
    requires Lacks(after, '<') && SessionsInForm(PROVIDERS, headSha, reviews)
    ensures ParseAgentMarkers(JoinWith(BuildReviewAttestations(headSha, reviews) + [after], '\n'))
         == AttestedMarkers(PROVIDERS, headSha, reviews)
  {
    var ps := AttestationsArePrinted(PROVIDERS, headSha, reviews);
    var texts := LinesDocument(ps, after);
    ParseUndoesPrint(ReviewMarkers(ps), texts);
  }

  lemma SessionOutOfForm(headSha: string, reviews: map<string, StoredReview>, body: string)
    requires !SessionsInForm(PROVIDERS, headSha, reviews)
    ensures ParseAgentMarkers(body) != AttestedMarkers(PROVIDERS, headSha, reviews)
  {
    var p :| p in PROVIDERS && BuildReviewAttestation(p, headSha, ReviewOf(reviews, p)).Some?
      && !SessionForm(AttestationSession(p, reviews[p].checkRunId.value));
    if ParseAgentMarkers(body) == AttestedMarkers(PROVIDERS, headSha, reviews) {
      var i := AttestedMarkerOf(PROVIDERS, headSha, reviews, p);
      ParsedSessionInForm(body, i, FamilyForProvider(p).value, AttestationSession(p, reviews[p].checkRunId.value), headSha,
                          AttestationVerdict(reviews[p]));
    }
  }

  /** The attestation lines of a published summary parse back to one marker per attested provider exactly
      when every attested session is in form. */
  lemma AttestationListParses(headSha: string, reviews: map<string, StoredReview>, after: string)
    requires Lacks(after, '<')
    ensures ParseAgentMarkers(JoinWith(BuildReviewAttestations(headSha, reviews) + [after], '\n'))
         == AttestedMarkers(PROVIDERS, headSha, reviews)
        <==> SessionsInForm(PROVIDERS, headSha, reviews)
  {
    if SessionsInForm(PROVIDERS, headSha, reviews) {
      SessionsInFormParse(headSha, reviews, after);
    } else {
      SessionOutOfForm(headSha, reviews, JoinWith(BuildReviewAttestations(headSha, reviews) + [after], '\n'));
    }
  }

  /** A check-run identifier with a blank makes such a session: its attestation does not parse back. */
  lemma BlankInSessionIsLost(headSha: string)
    requires HeadShaForm(headSha)
    ensures var review := StoredReview("approve", false, Some("1 2"));
            var text := BuildReviewAttestation("openai", headSha, Some(review));
            text.Some?
            && ParseAgentMarkers("" + (text.value + ""))
               != [AttestationMarker("codex", AttestationSession("openai", "1 2"), headSha, "approve")]
  {
    var review := StoredReview("approve", false, Some("1 2"));
    var session := AttestationSession("openai", "1 2");
    assert session[|session| - 2] == ' ';
    AttestationParses("openai", headSha, review, "", "");
  }
}
