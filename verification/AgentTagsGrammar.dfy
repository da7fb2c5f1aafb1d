/** The marker grammar as text: exactly which comments are found, which of them are markers with which fields,
    and exactly which attestations are written. */
module AgentTagsGrammar {
  import opened Collections
  import opened JsText
  import opened Wrappers
  import opened AgentTags
  import opened AgentTagsRoundTrip

  // ---- one comment ----

  function OpenText(kind: Kind): string {
    match kind
    case Tag => "<!-- ores-agent-tag v1 "
    case Review => "<!-- ores-agent-review v1 "
    case Author => "<!-- ores-agent-author v1 "
  }

  lemma OpeningParts(name: string)
    ensures "<!-- " + ("ores-agent-" + name + " v1 ") == "<!-- ores-agent-" + (name + " v1 ")
  {
  }

  lemma OpensWith(kind: Kind)
    ensures Opening(kind) == OpenText(kind)
  {
    var name := KindName(kind);
    OpeningParts(name);
    match kind
    case Tag => assert name + " v1 " == "tag v1 ";
    case Review => assert name + " v1 " == "review v1 ";
    case Author => assert name + " v1 " == "author v1 ";
  }

  /** At `n` the comment ends, after at most one blank. */
  predicate EndsAt(rest: string, n: nat) {
    n <= |rest| && ("-->" <= rest[n..] || " -->" <= rest[n..])
  }

  /** After the opening stand 1 to 512 characters without `>`, and there the comment ends for the first time. */
  predicate BodyOf(rest: string, body: string) {
    1 <= |body| <= 512 && body <= rest && Lacks(body, '>') && EndsAt(rest, |body|)
    && forall n :: 1 <= n < |body| ==> !EndsAt(rest, n)
  }

  /** The text begins with a comment of this kind and body, `length` characters long. */
  predicate Comment(s: string, kind: Kind, body: string, length: nat) {
    var open := OpenText(kind);
    open <= s && BodyOf(s[|open|..], body)
    && length == |open| + |body| + (if " -->" <= s[|open|..][|body|..] then 4 else 3)
  }

  predicate Captures(m: Match, kind: Kind, body: string, length: nat) {
    m == Match(kind, Head(kind) + body, length)
  }

  /** No body is longer than the first `>`. */
  lemma NoBodyPast(rest: string, n: nat)
    requires 1 <= n <= |rest| && rest[n - 1] == '>'
    ensures forall k :: n <= k <= |rest| ==> !BodyOf(rest, rest[..k])
  {
    forall k | n <= k <= |rest|
      ensures !BodyOf(rest, rest[..k])
    {
      assert rest[..k][n - 1] == '>';
    }
  }

  lemma {:induction false} BodyEndExactly(rest: string, n: nat)
    requires 1 <= n && (forall k :: 1 <= k < n ==> !EndsAt(rest, k))
             && forall k :: 0 <= k < n - 1 && k < |rest| ==> rest[k] != '>'
    ensures BodyEnd(rest, n).Some? ==> BodyOf(rest, rest[..BodyEnd(rest, n).value])
    ensures BodyEnd(rest, n).None? ==> forall k :: n <= k <= |rest| ==> !BodyOf(rest, rest[..k])
    decreases 513 - n
  {
    if n > 512 || n > |rest| {
      assert BodyEnd(rest, n).None?;
    } else if rest[n - 1] == '>' {
      NoBodyPast(rest, n);
    } else if !Closes(rest, n) {
      assert !EndsAt(rest, n);
      BodyEndExactly(rest, n + 1);
      assert !BodyOf(rest, rest[..n]);
    }
  }

  lemma OneBody(rest: string, a: string, b: string)
    requires BodyOf(rest, a) && BodyOf(rest, b)
    ensures a == b
  {
    assert a == rest[..|a|] && b == rest[..|b|];
  }

  lemma BodyIsPrefix(rest: string, body: string)
    ensures BodyOf(rest, body) ==> |body| <= |rest| && body == rest[..|body|]
  {
  }

  lemma NoBody(rest: string)
    requires BodyEnd(rest, 1).None?
    ensures forall body :: !BodyOf(rest, body)
  {
    BodyEndExactly(rest, 1);
    forall body
      ensures !BodyOf(rest, body)
    {
      BodyIsPrefix(rest, body);
    }
  }

  lemma KindExactly(s: string, kind: Kind)
    ensures MatchKind(s, kind).Some? ==>
              exists body, length :: Comment(s, kind, body, length) && Captures(MatchKind(s, kind).value, kind, body, length)
    ensures MatchKind(s, kind).None? ==> forall body, length :: !Comment(s, kind, body, length)
  {
    OpensWith(kind);
    var open := OpenText(kind);
    if open <= s {
      var rest := s[|open|..];
      var end := BodyEnd(rest, 1);
      if end.Some? {
        BodyEndExactly(rest, 1);
        assert Comment(s, kind, rest[..end.value], MatchKind(s, kind).value.length);
      } else {
        NoBody(rest);
      }
    }
  }

  lemma OneKind(s: string, a: Kind, b: Kind)
    requires OpenText(a) <= s && OpenText(b) <= s
    ensures a == b
  {
    assert OpenText(Tag)[16] == 't' && OpenText(Review)[16] == 'r' && OpenText(Author)[16] == 'a';
    assert s[16] == OpenText(a)[16] && s[16] == OpenText(b)[16];
  }

  /** A match begins here exactly when a comment of one of the three kinds does. */
  lemma MatchExactly(s: string)
    ensures MatchAt(s).Some? ==>
              var m := MatchAt(s).value;
              exists body, length :: Comment(s, m.kind, body, length) && Captures(m, m.kind, body, length)
    ensures MatchAt(s).None? ==> forall kind, body, length :: !Comment(s, kind, body, length)
  {
    KindExactly(s, Tag);
    KindExactly(s, Review);
    KindExactly(s, Author);
    forall kind, body, length | MatchAt(s).None?
      ensures !Comment(s, kind, body, length)
    {
      match kind
      case Tag =>
      case Review =>
      case Author =>
    }
  }

  // ---- the search ----

  /** A comment found in a text: where, of which kind, with which body and length. */
  datatype Found = Found(at: nat, kind: Kind, body: string, length: nat)

  ghost predicate NothingAt(s: string, p: nat)
    requires p <= |s|
  {
    forall kind, body, length :: !Comment(s[p..], kind, body, length)
  }

  ghost predicate Clear(s: string, from: nat, to: nat) {
    forall p :: from <= p < to && p <= |s| ==> NothingAt(s, p)
  }

  /** From `from` on these are the comments, from left to right, none overlapping and none left out. */
  ghost predicate Scan(s: string, from: nat, found: seq<Found>)
    decreases |found|
  {
    if found == [] then Clear(s, from, |s| + 1)
    else
      var first := found[0];
      && from <= first.at <= |s| && Clear(s, from, first.at)
      && Comment(s[first.at..], first.kind, first.body, first.length)
      && Scan(s, first.at + first.length, found[1..])
  }

  lemma ScanSkips(s: string, from: nat, found: seq<Found>)
    requires from < |s| && NothingAt(s, from) && Scan(s, from + 1, found)
    ensures Scan(s, from, found)
  {
  }

  lemma ScanTakes(s: string, first: Found, rest: seq<Found>)
    requires first.at <= |s| && Comment(s[first.at..], first.kind, first.body, first.length)
    requires Scan(s, first.at + first.length, rest)
    ensures Scan(s, first.at, [first] + rest)
  {
    assert ([first] + rest)[1..] == rest;
    assert Clear(s, first.at, first.at);
  }

  function MatchesFrom(s: string, from: nat): seq<Match>
    requires from <= |s|
  {
    MatchAll(s[from..])
  }

  lemma ScanNothing(s: string)
    ensures Scan(s, |s|, []) && MatchesFrom(s, |s|) == []
  {
    assert s[|s|..] == "";
  }

  /** The matches are these comments. */
  predicate Same(found: seq<Found>, ms: seq<Match>)
    decreases |found|
  {
    |found| == |ms|
    && (found != [] ==> Captures(ms[0], found[0].kind, found[0].body, found[0].length) && Same(found[1..], ms[1..]))
  }

  lemma SameCons(first: Found, rest: seq<Found>, m: Match, ms: seq<Match>)
    requires Captures(m, first.kind, first.body, first.length) && Same(rest, ms)
    ensures Same([first] + rest, [m] + ms)
  {
    assert ([first] + rest)[1..] == rest && ([m] + ms)[1..] == ms;
  }

  /** The comment a match found. */
  lemma FoundHere(s: string, from: nat) returns (first: Found)
    requires from <= |s| && MatchAt(s[from..]).Some?
    ensures first.at == from && Comment(s[from..], first.kind, first.body, first.length)
    ensures Captures(MatchAt(s[from..]).value, first.kind, first.body, first.length)
  {
    MatchExactly(s[from..]);
    var m := MatchAt(s[from..]).value;
    var body, length :| Comment(s[from..], m.kind, body, length) && Captures(m, m.kind, body, length);
    first := Found(from, m.kind, body, length);
  }

  /** Where the search goes on: behind a match, or one character further. */
  function NextFrom(s: string, from: nat): (next: nat)
    requires from < |s|
    ensures from < next <= |s|
  {
    var m := MatchAt(s[from..]);
    if m.None? then from + 1 else from + m.value.length
  }

  lemma MatchesStep(s: string, from: nat)
    requires from < |s|
    ensures MatchesFrom(s, from)
         == (if MatchAt(s[from..]).None? then [] else [MatchAt(s[from..]).value]) + MatchesFrom(s, NextFrom(s, from))
  {
    assert s[from..][NextFrom(s, from) - from..] == s[NextFrom(s, from)..];
  }

  lemma SearchSkips(s: string, from: nat, found: seq<Found>)
    requires from < |s| && MatchAt(s[from..]).None?
    requires Scan(s, from + 1, found) && Same(found, MatchesFrom(s, from + 1))
    ensures Scan(s, from, found) && Same(found, MatchesFrom(s, from))
  {
    MatchesStep(s, from);
    assert [] + MatchesFrom(s, from + 1) == MatchesFrom(s, from + 1);
    MatchExactly(s[from..]);
    ScanSkips(s, from, found);
  }

  lemma SearchTakes(s: string, from: nat, rest: seq<Found>) returns (found: seq<Found>)
    requires from < |s| && MatchAt(s[from..]).Some?
    requires Scan(s, NextFrom(s, from), rest) && Same(rest, MatchesFrom(s, NextFrom(s, from)))
    ensures Scan(s, from, found) && Same(found, MatchesFrom(s, from))
  {
    var first := FoundHere(s, from);
    ScanTakes(s, first, rest);
    SameCons(first, rest, MatchAt(s[from..]).value, MatchesFrom(s, NextFrom(s, from)));
    MatchesStep(s, from);
    found := [first] + rest;
  }

  /** The matches of the pattern are exactly the comments of the text, found from left to right. */
  lemma {:induction false} SearchExactly(s: string, from: nat) returns (found: seq<Found>)
    requires from <= |s|
    ensures Scan(s, from, found) && Same(found, MatchesFrom(s, from))
    decreases |s| - from
  {
    if from == |s| {
      found := [];
      ScanNothing(s);
    } else {
      found := SearchExactly(s, NextFrom(s, from));
      if MatchAt(s[from..]).None? {
        SearchSkips(s, from, found);
      } else {
        found := SearchTakes(s, from, found);
      }
    }
  }

  // ---- fields ----

  predicate FamilyText(v: string) {
    1 <= |v| <= 32 && 'a' <= v[0] <= 'z'
    && forall i :: 0 <= i < |v| ==> 'a' <= v[i] <= 'z' || '0' <= v[i] <= '9' || v[i] == '-'
  }

  predicate SessionText(v: string) {
    1 <= |v| <= 96 && v[0] != '.' && v[0] != '_' && v[0] != ':' && v[0] != '-'
    && forall i :: 0 <= i < |v| ==>
         'a' <= v[i] <= 'z' || 'A' <= v[i] <= 'Z' || '0' <= v[i] <= '9'
         || v[i] == '.' || v[i] == '_' || v[i] == ':' || v[i] == '-'
  }

  predicate HeadText(v: string) {
    |v| == 40 && forall i :: 0 <= i < |v| ==> '0' <= v[i] <= '9' || 'a' <= v[i] <= 'f'
  }

  /** A marker of this kind has this field, and the value may stand in it. */
  predicate Fits(kind: Kind, key: string, v: string) {
    match kind
    case Tag =>
      ((key == "to" || key == "from") && FamilyText(v)) || (key == "session" && SessionText(v)) || (key == "head" && HeadText(v))
      || (key == "kind" && (v == "review" || v == "merge" || v == "fix"))
    case Review =>
      (key == "agent" && FamilyText(v)) || (key == "session" && SessionText(v)) || (key == "head" && HeadText(v))
      || (key == "verdict" && (v == "approve" || v == "request-changes"))
    case Author => (key == "agent" && FamilyText(v)) || (key == "session" && SessionText(v))
  }

  function FieldNames(kind: Kind): set<string> {
    match kind
    case Tag => {"to", "from", "session", "kind", "head"}
    case Review => {"agent", "session", "head", "verdict"}
    case Author => {"agent", "session"}
  }

  lemma FieldNamesDiffer()
    ensures "to"[0] == 't' && "from"[0] == 'f' && "session"[0] == 's' && "kind"[0] == 'k' && "head"[0] == 'h'
    ensures "agent"[0] == 'a' && "verdict"[0] == 'v'
  {
  }

  lemma FormExactly(kind: Kind, key: string, v: string)
    ensures InForm(kind, key, v) <==> Fits(kind, key, v)
    ensures SchemaKeys(kind) == FieldNames(kind)
  {
    FieldNamesDiffer();
    assert FamilyForm(v) <==> FamilyText(v);
    assert SessionForm(v) <==> SessionText(v);
    assert HeadShaForm(v) <==> HeadText(v);
  }

  /** The word is `key=value` for a field of the marker. */
  predicate WritesField(word: string, fields: map<string, string>) {
    exists k :: k in fields && word == Pair(k, fields[k])
  }

  /** The words are `key=value` for each field of the marker, in any order, each once. */
  ghost predicate Describes(kind: Kind, words: seq<string>, fields: map<string, string>) {
    && fields.Keys == FieldNames(kind) && (forall k :: k in fields ==> Fits(kind, k, fields[k]))
    && |words| == |fields.Keys| && (forall i, j :: 0 <= i < j < |words| ==> words[i] != words[j])
    && forall i :: 0 <= i < |words| ==> WritesField(words[i], fields)
  }

  lemma FieldWritten(word: string)
    ensures FieldOf(word).Some? ==> var (key, v) := FieldOf(word).value; word == Pair(key, v) && Lacks(key, '=')
  {
    var e := IndexOf(word, '=');
    if FieldOf(word).Some? {
      assert word == word[..e] + "=" + word[e + 1..];
    }
  }

  lemma {:induction false} FieldsWritten(words: seq<string>)
    requires FieldsOf(words).Some?
    ensures |FieldsOf(words).value| == |words|
    ensures forall i :: 0 <= i < |words| ==> FieldOf(words[i]) == Some(FieldsOf(words).value[i])
  {
    if words != [] {
      FieldsWritten(words[1..]);
    }
  }

  lemma {:induction false} FieldsRead(words: seq<string>, pairs: seq<Field>)
    requires |words| == |pairs| && forall i :: 0 <= i < |words| ==> FieldOf(words[i]) == Some(pairs[i])
    ensures FieldsOf(words) == Some(pairs)
  {
    if words != [] {
      assert forall i :: 0 <= i < |words| - 1 ==> words[1..][i] == words[i + 1] && pairs[1..][i] == pairs[i + 1];
      FieldsRead(words[1..], pairs[1..]);
      assert pairs == [pairs[0]] + pairs[1..];
    }
  }

  lemma ParsedDescribes(kind: Kind, words: seq<string>)
    requires ParseFields(kind, words).Some?
    ensures Describes(kind, words, ParseFields(kind, words).value)
  {
    var pairs := FieldsOf(words).value;
    var fields := FromEntries(pairs);
    FieldsWritten(words);
    EntriesByKey(kind, pairs);
    ValidFieldsClosed(kind, pairs);
    FormExactly(kind, "", "");
    forall k | k in fields
      ensures Fits(kind, k, fields[k])
    {
      FormExactly(kind, k, fields[k]);
    }
    forall i | 0 <= i < |words|
      ensures WritesField(words[i], fields)
    {
      FieldWritten(words[i]);
      assert pairs[i].0 in fields;
    }
    forall i, j | 0 <= i < j < |words|
      ensures words[i] != words[j]
    {
      assert pairs[i].0 != pairs[j].0;
    }
  }

  /** The word is this field of the marker, and is read as it. */
  predicate ReadAs(word: string, f: Field, fields: map<string, string>) {
    f.0 in fields && f.1 == fields[f.0] && word == Pair(f.0, f.1) && FieldOf(word) == Some(f)
  }

  lemma WrittenFieldRead(kind: Kind, word: string, fields: map<string, string>) returns (f: Field)
    requires WritesField(word, fields) && forall k :: k in fields ==> Fits(kind, k, fields[k])
    ensures ReadAs(word, f, fields) && InForm(kind, f.0, f.1)
  {
    var k :| k in fields && word == Pair(k, fields[k]);
    f := (k, fields[k]);
    FormExactly(kind, k, fields[k]);
    FieldOfPrinted(kind, f);
  }

  lemma {:induction false} PairsOf(kind: Kind, words: seq<string>, fields: map<string, string>) returns (pairs: seq<Field>)
    requires forall k :: k in fields ==> Fits(kind, k, fields[k])
    requires forall i :: 0 <= i < |words| ==> WritesField(words[i], fields)
    ensures |pairs| == |words| && AllInForm(kind, pairs)
    ensures forall i :: 0 <= i < |words| ==> ReadAs(words[i], pairs[i], fields)
  {
    if words == [] {
      pairs := [];
    } else {
      var n := |words| - 1;
      var front := PairsOf(kind, words[..n], fields);
      var last := WrittenFieldRead(kind, words[n], fields);
      pairs := front + [last];
      forall i | 0 <= i < |words|
        ensures ReadAs(words[i], pairs[i], fields) && InForm(kind, pairs[i].0, pairs[i].1)
      {
        if i < n {
          assert words[..n][i] == words[i] && pairs[i] == front[i];
        }
      }
    }
  }

  /** Reading the pairs gives the object back. */
  lemma EntriesAre(kind: Kind, pairs: seq<Field>, fields: map<string, string>)
    requires DistinctKeys(pairs) && AllInForm(kind, pairs) && |pairs| == |fields.Keys|
    requires forall i :: 0 <= i < |pairs| ==> pairs[i].0 in fields && pairs[i].1 == fields[pairs[i].0]
    ensures FromEntries(pairs) == fields
  {
    EntriesByKey(kind, pairs);
    var read := FromEntries(pairs);
    forall k | k in read
      ensures k in fields && read[k] == fields[k]
    {
      var i :| 0 <= i < |pairs| && pairs[i].0 == k;
      assert read[pairs[i].0] == pairs[i].1;
    }
    SubsetSize(read.Keys, fields.Keys);
  }

  lemma DescribedParses(kind: Kind, words: seq<string>, fields: map<string, string>)
    requires Describes(kind, words, fields)
    ensures ParseFields(kind, words) == Some(fields)
  {
    var pairs := PairsOf(kind, words, fields);
    assert FieldsOf(words) == Some(pairs) by {
      forall i | 0 <= i < |words|
        ensures FieldOf(words[i]) == Some(pairs[i])
      {
        assert ReadAs(words[i], pairs[i], fields);
      }
      FieldsRead(words, pairs);
    }
    assert DistinctKeys(pairs) by {
      forall i, j | 0 <= i < j < |pairs|
        ensures pairs[i].0 != pairs[j].0
      {
        assert ReadAs(words[i], pairs[i], fields) && ReadAs(words[j], pairs[j], fields);
      }
    }
    assert FromEntries(pairs) == fields by {
      forall i | 0 <= i < |pairs|
        ensures pairs[i].0 in fields && pairs[i].1 == fields[pairs[i].0]
      {
        assert ReadAs(words[i], pairs[i], fields);
      }
      EntriesAre(kind, pairs, fields);
    }
    FormExactly(kind, "", "");
  }

  /** A list of words is read as this object exactly when it describes it. */
  lemma FieldsExactly(kind: Kind, words: seq<string>, fields: map<string, string>)
    ensures ParseFields(kind, words) == Some(fields) <==> Describes(kind, words, fields)
  {
    if ParseFields(kind, words) == Some(fields) {
      ParsedDescribes(kind, words);
    }
    if Describes(kind, words, fields) {
      DescribedParses(kind, words, fields);
    }
  }

  lemma DropTwo(a: string, b: string, words: seq<string>)
    ensures ([a] + ([b] + words))[2..] == words
  {
  }

  lemma WordsOfBody(kind: Kind, body: string)
    ensures FieldWords(Head(kind) + body) == SplitOn(body, ' ')
  {
    var name, version := HeadShape(kind);
    var words := SplitOn(body, ' ');
    var inner := name + [' '] + (version + [' '] + body);
    assert Head(kind) + body == inner by {
      RegroupHead(name, version, body);
    }
    assert SplitOn(inner, ' ') == [name] + ([version] + words) by {
      SplitOnAt(version, ' ', body);
      SplitOnAt(name, ' ', version + [' '] + body);
    }
    DropTwo(name, version, words);
  }

  // ---- the whole parser ----

  /** This is the marker the comment writes. */
  ghost predicate Reads(m: Marker, f: Found) {
    m.kind == f.kind && Describes(f.kind, SplitOn(f.body, ' '), m.fields)
  }

  ghost predicate WritesMarker(f: Found) {
    exists m :: Reads(m, f)
  }

  /** The markers are those that the comments write, in order. */
  ghost predicate ReadFrom(markers: seq<Marker>, found: seq<Found>)
    decreases |found|
  {
    if found == [] then markers == []
    else if WritesMarker(found[0]) then
      markers != [] && Reads(markers[0], found[0]) && ReadFrom(markers[1..], found[1..])
    else ReadFrom(markers, found[1..])
  }

  lemma MarkersOfCons(m: Match, ms: seq<Match>)
    ensures MarkersOf([m] + ms) == MarkersOf([m]) + MarkersOf(ms)
  {
    var none: seq<Match> := [];
    assert [m][1..] == none && ([m] + ms)[1..] == ms;
    assert MarkersOf(none) == [];
  }

  lemma MarkerOfComment(m: Match, f: Found)
    requires Captures(m, f.kind, f.body, f.length)
    ensures MarkersOf([m]) == [] ==> !WritesMarker(f)
    ensures MarkersOf([m]) != [] ==> |MarkersOf([m])| == 1 && Reads(MarkersOf([m])[0], f)
  {
    WordsOfBody(f.kind, f.body);
    var words := SplitOn(f.body, ' ');
    var read := ParseFields(f.kind, words);
    assert MarkersOf([m]) == if read.Some? then [Marker(f.kind, read.value)] else [];
    if read.Some? {
      FieldsExactly(f.kind, words, read.value);
    } else {
      forall marker: Marker
        ensures !Reads(marker, f)
      {
        FieldsExactly(f.kind, words, marker.fields);
      }
    }
  }

  lemma ReadCons(first: seq<Marker>, f: Found, rest: seq<Marker>, found: seq<Found>)
    requires first == [] ==> !WritesMarker(f)
    requires first != [] ==> |first| == 1 && Reads(first[0], f)
    requires ReadFrom(rest, found)
    ensures ReadFrom(first + rest, [f] + found)
  {
    assert ([f] + found)[1..] == found;
    if first == [] {
      assert first + rest == rest;
    } else {
      assert (first + rest)[1..] == rest && WritesMarker(f);
    }
  }

  lemma {:induction false} MarkersRead(ms: seq<Match>, found: seq<Found>)
    requires Same(found, ms)
    ensures ReadFrom(MarkersOf(ms), found)
  {
    if ms != [] {
      var m, f := ms[0], found[0];
      MarkersRead(ms[1..], found[1..]);
      MarkerOfComment(m, f);
      ReadCons(MarkersOf([m]), f, MarkersOf(ms[1..]), found[1..]);
      MarkersOfCons(m, ms[1..]);
      assert ms == [m] + ms[1..] && found == [f] + found[1..];
    }
  }

  lemma {:induction false} SameFront(found: seq<Found>, ms: seq<Match>, n: nat)
    requires Same(found, ms) && n <= |found|
    ensures Same(found[..n], ms[..n])
  {
    if n > 0 {
      SameFront(found[1..], ms[1..], n - 1);
      assert found[..n][1..] == found[1..][..n - 1] && ms[..n][1..] == ms[1..][..n - 1];
    }
  }

  /** The comments that are looked at: the first sixteen. */
  function LookedAt(found: seq<Found>): seq<Found> {
    if |found| <= 16 then found else found[..16]
  }

  /** The markers of any text: the comments are found from left to right, the first sixteen are looked at, and
      each of them whose words describe a marker gives that marker. */
  lemma ParsedExactly(body: string) returns (found: seq<Found>)
    ensures Scan(body, 0, found) && ReadFrom(ParseAgentMarkers(body), LookedAt(found))
  {
    found := SearchExactly(body, 0);
    var ms := MatchAll(body);
    assert body[0..] == body;
    if |found| > 16 {
      SameFront(found, ms, 16);
      MarkersRead(ms[..16], found[..16]);
    } else {
      MarkersRead(ms, found);
    }
  }

  lemma FirstIsOne(s: string, from: nat, a: seq<Found>, b: seq<Found>)
    requires a != [] && b != [] && Scan(s, from, a) && Scan(s, from, b)
    ensures a[0] == b[0]
  {
    assert a[0].at == b[0].at by {
      assert !NothingAt(s, a[0].at) && !NothingAt(s, b[0].at);
    }
    var t := s[a[0].at..];
    OneKind(t, a[0].kind, b[0].kind);
    OneBody(t[|OpenText(a[0].kind)|..], a[0].body, b[0].body);
  }

  lemma SomethingFound(s: string, from: nat, found: seq<Found>)
    requires Scan(s, from, found)
    ensures found != [] ==> !Scan(s, from, [])
  {
    if found != [] {
      assert !NothingAt(s, found[0].at);
    }
  }

  /** A text has one list of comments. */
  lemma {:induction false} ScanUnique(s: string, from: nat, a: seq<Found>, b: seq<Found>)
    requires Scan(s, from, a) && Scan(s, from, b)
    ensures a == b
    decreases |a|
  {
    if a == [] {
      SomethingFound(s, from, b);
    } else if b == [] {
      SomethingFound(s, from, a);
    } else {
      FirstIsOne(s, from, a, b);
      ScanUnique(s, a[0].at + a[0].length, a[1..], b[1..]);
      assert a == [a[0]] + a[1..] && b == [b[0]] + b[1..];
    }
  }

  lemma ReadsOne(f: Found, x: Marker, y: Marker)
    ensures Reads(x, f) && Reads(y, f) ==> x == y
  {
    FieldsExactly(f.kind, SplitOn(f.body, ' '), x.fields);
    FieldsExactly(f.kind, SplitOn(f.body, ' '), y.fields);
  }

  lemma {:induction false} ReadUnique(a: seq<Marker>, b: seq<Marker>, found: seq<Found>)
    requires ReadFrom(a, found) && ReadFrom(b, found)
    ensures a == b
    decreases |found|
  {
    if found == [] {
    } else if WritesMarker(found[0]) {
      ReadsOne(found[0], a[0], b[0]);
      ReadUnique(a[1..], b[1..], found[1..]);
      assert a == [a[0]] + a[1..] && b == [b[0]] + b[1..];
    } else {
      ReadUnique(a, b, found[1..]);
    }
  }

  /** And no other answer fits this reading. */
  lemma ParsedOnly(body: string, found: seq<Found>, markers: seq<Marker>)
    requires Scan(body, 0, found)
    ensures ReadFrom(markers, LookedAt(found)) <==> markers == ParseAgentMarkers(body)
  {
    var same := ParsedExactly(body);
    ScanUnique(body, 0, found, same);
    if ReadFrom(markers, LookedAt(found)) {
      ReadUnique(markers, ParseAgentMarkers(body), LookedAt(found));
    }
  }

  // ---- attestations ----

  /** The family a provider attests under. */
  predicate Attests(provider: string, family: string) {
    (provider == "openai" && family == "codex") || (provider == "claude" && family == "claude")
  }

  /** The review can be attested: it did not fail and its check run has an identifier. */
  predicate Attestable(review: Option<StoredReview>) {
    review.Some? && !review.value.failed && review.value.checkRunId.Some? && review.value.checkRunId.value != ""
  }

  function Attestation(family: string, provider: string, id: string, headSha: string, verdict: string): string {
    "<!-- ores-agent-review v1 "
    + ("agent=" + family + " " + ("session=" + ("ores-gh-bots:" + provider + ":" + id) + " "
        + ("head=" + headSha + " " + ("verdict=" + verdict))))
    + " -->"
  }

  lemma PairText(key: string, v: string, prefix: string)
    requires prefix == key + "="
    ensures Pair(key, v) == prefix + v
  {
  }

  lemma AttestationLiteral(family: string, provider: string, id: string, headSha: string, verdict: string)
    ensures AttestationText(family, AttestationSession(provider, id), headSha, verdict)
         == Attestation(family, provider, id, headSha, verdict)
  {
    assert "agent" + "=" == "agent=" && "session" + "=" == "session=" && "head" + "=" == "head=" && "verdict" + "=" == "verdict=";
    PairText("agent", family, "agent=");
    PairText("session", AttestationSession(provider, id), "session=");
    PairText("head", headSha, "head=");
    PairText("verdict", verdict, "verdict=");
  }

  /** An attestation is written exactly for a known provider, a full head and an attestable review, under the
      provider's family, and approves only an approval. */
  lemma AttestationExactly(provider: string, headSha: string, review: Option<StoredReview>)
    ensures BuildReviewAttestation(provider, headSha, review).Some? <==>
            (provider == "openai" || provider == "claude") && HeadText(headSha) && Attestable(review)
    ensures forall family :: Attests(provider, family) && BuildReviewAttestation(provider, headSha, review).Some? ==>
              BuildReviewAttestation(provider, headSha, review).value
              == Attestation(family, provider, review.value.checkRunId.value, headSha,
                             if review.value.verdict == "approve" then "approve" else "request-changes")
  {
    assert HeadShaForm(headSha) <==> HeadText(headSha);
    assert "openai"[0] == 'o' && "claude"[0] == 'c';
    forall family | Attests(provider, family) && BuildReviewAttestation(provider, headSha, review).Some?
      ensures BuildReviewAttestation(provider, headSha, review).value
              == Attestation(family, provider, review.value.checkRunId.value, headSha,
                             if review.value.verdict == "approve" then "approve" else "request-changes")
    {
      AttestationLiteral(family, provider, review.value.checkRunId.value, headSha,
                         if review.value.verdict == "approve" then "approve" else "request-changes");
    }
  }

  function Listed(attestation: Option<string>): seq<string> {
    if attestation.Some? then [attestation.value] else []
  }

  /** The list holds the attestation of the first provider, if any, and then that of the second. */
  lemma AttestationsExactly(headSha: string, reviews: map<string, StoredReview>)
    ensures BuildReviewAttestations(headSha, reviews)
         == Listed(BuildReviewAttestation("openai", headSha, if "openai" in reviews then Some(reviews["openai"]) else None))
            + Listed(BuildReviewAttestation("claude", headSha, if "claude" in reviews then Some(reviews["claude"]) else None))
  {
    var none: seq<string>, second: seq<string> := [], ["claude"];
    assert PROVIDERS[0] == "openai" && PROVIDERS[1..] == second && second[1..] == none;
    assert AttestationsFrom(none, headSha, reviews) == [];
    assert AttestationsFrom(second, headSha, reviews)
        == Listed(BuildReviewAttestation("claude", headSha, ReviewOf(reviews, "claude"))) + [];
  }
}
