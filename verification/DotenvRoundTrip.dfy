/** A private key written as dotenv text and read back. */
module DotenvRoundTrip {
  import opened JsText
  import opened Wrappers
  import opened Dotenv

  /** The text with CRLF line breaks written as LF. */
  function LfBreaks(s: string): string {
    if s == "" then ""
    else if |s| >= 2 && s[0] == '\r' && s[1] == '\n' then "\n" + LfBreaks(s[2..])
    else [s[0]] + LfBreaks(s[1..])
  }

  /** How many times a backslash stands before an n. */
  function Literals(s: string): nat {
    if |s| < 2 then 0 else (if s[0] == '\\' && s[1] == 'n' then 1 else 0) + Literals(s[1..])
  }

  function Breaks(s: string): nat {
    if s == "" then 0 else (if s[0] == '\n' then 1 else 0) + Breaks(s[1..])
  }

  // ---- escaping and unescaping ----

  lemma {:induction false} EscapedLength(s: string)
    ensures |DotenvValue(s)| == |LfBreaks(s)| + Breaks(s)
  {
    if s != "" {
      EscapedLength(s[1..]);
      if |s| >= 2 && s[0] == '\r' && s[1] == '\n' {
        EscapedLength(s[2..]);
        assert s[1..][1..] == s[2..];
      }
    }
  }

  /** Escaping adds one backslash-n for each line break and makes or hides no other. */
  lemma {:induction false} EscapedLiterals(s: string)
    ensures Literals(DotenvValue(s)) == Breaks(s) + Literals(s)
    ensures DotenvValue(s) != "" && DotenvValue(s)[0] == 'n' <==> s != "" && s[0] == 'n'
  {
    if s == "" {
    } else if |s| >= 2 && s[0] == '\r' && s[1] == '\n' {
      EscapedLiterals(s[2..]);
      BreakLiterals(DotenvValue(s[2..]));
      assert s[1..][1..] == s[2..];
    } else {
      EscapedLiterals(s[1..]);
      var e := DotenvValue(s[1..]);
      if s[0] == '\n' {
        BreakLiterals(e);
      } else {
        assert DotenvValue(s) == [s[0]] + e && ([s[0]] + e)[1..] == e;
        assert e == "" <==> s[1..] == "";
      }
    }
  }

  lemma BreakLiterals(e: string)
    ensures Literals("\\n" + e) == 1 + Literals(e)
  {
  }

  lemma {:induction false} UnescapedLength(s: string)
    ensures |UnescapeBreaks(s)| + Literals(s) == |s|
  {
    if |s| >= 2 {
      if s[0] == '\\' && s[1] == 'n' {
        UnescapedLength(s[2..]);
        assert s[1..][1..] == s[2..];
      } else {
        UnescapedLength(s[1..]);
      }
    }
  }

  /** Without a literal backslash-n, unescaping undoes escaping up to CRLF. */
  lemma {:induction false} UnescapeUndoesEscape(s: string)
    requires Literals(s) == 0
    ensures UnescapeBreaks(DotenvValue(s)) == LfBreaks(s)
  {
    if s == "" {
    } else if |s| >= 2 && s[0] == '\r' && s[1] == '\n' {
      assert s[1..][1..] == s[2..];
      UnescapeUndoesEscape(s[2..]);
      UnescapeBreak(DotenvValue(s[2..]));
    } else {
      UnescapeUndoesEscape(s[1..]);
      var e := DotenvValue(s[1..]);
      if s[0] == '\n' {
        UnescapeBreak(e);
      } else {
        EscapedLiterals(s[1..]);
        assert ([s[0]] + e)[1..] == e;
        if e != "" {
          assert !(s[0] == '\\' && e[0] == 'n');
        }
      }
    }
  }

  lemma UnescapeBreak(e: string)
    ensures UnescapeBreaks("\\n" + e) == "\n" + UnescapeBreaks(e)
  {
  }

  // ---- trimming ----

  lemma {:induction false} LiteralsSnoc(s: string, c: char)
    requires c != 'n'
    ensures Literals(s + [c]) == Literals(s)
  {
    if |s| >= 1 {
      assert (s + [c])[1..] == s[1..] + [c];
      LiteralsSnoc(s[1..], c);
    }
  }

  lemma {:induction false} TrimEndLiterals(s: string)
    ensures Literals(TrimEnd(s)) == Literals(s) && |TrimEnd(s)| <= |s| && (|TrimEnd(s)| == |s| ==> TrimEnd(s) == s)
  {
    if s != "" && IsSpace(s[|s| - 1]) {
      TrimEndLiterals(s[..|s| - 1]);
      assert s == s[..|s| - 1] + [s[|s| - 1]];
      LiteralsSnoc(s[..|s| - 1], s[|s| - 1]);
    }
  }

  lemma {:induction false} TrimLiterals(s: string)
    ensures Literals(Trim(s)) == Literals(s) && |Trim(s)| <= |s| && (|Trim(s)| == |s| ==> Trim(s) == s)
  {
    if s != "" && IsSpace(s[0]) {
      TrimLiterals(s[1..]);
    } else {
      TrimEndLiterals(s);
    }
  }

  // ---- the ends of a key ----

  predicate StartsWithBreak(s: string) {
    StartsWith(s, "\n") || StartsWith(s, "\r\n")
  }

  /** No blank at either end, line breaks aside: those are escaped before any trimming. */
  predicate EndsVisible(s: string) {
    s != "" && (IsSpace(s[0]) ==> StartsWithBreak(s)) && (IsSpace(s[|s| - 1]) ==> s[|s| - 1] == '\n')
  }

  lemma {:induction false} EscapedLast(s: string)
    requires s != ""
    ensures DotenvValue(s) != ""
    ensures IsSpace(DotenvValue(s)[|DotenvValue(s)| - 1]) <==> IsSpace(s[|s| - 1]) && s[|s| - 1] != '\n'
  {
    if |s| >= 2 && s[0] == '\r' && s[1] == '\n' {
      if |s| > 2 {
        EscapedLast(s[2..]);
      }
    } else if |s| > 1 {
      EscapedLast(s[1..]);
    }
  }

  lemma EscapedFirst(s: string)
    requires s != ""
    ensures DotenvValue(s) != ""
    ensures IsSpace(DotenvValue(s)[0]) <==> IsSpace(s[0]) && !StartsWithBreak(s)
  {
  }

  lemma TrimmedAlready(s: string)
    requires s != ""
    ensures Trim(s) == s <==> !IsSpace(s[0]) && !IsSpace(s[|s| - 1])
  {
    TrimLiterals(s);
    if IsSpace(s[0]) {
      TrimLiterals(s[1..]);
    } else if IsSpace(s[|s| - 1]) {
      TrimEndLiterals(s[..|s| - 1]);
    }
  }

  lemma EscapedEnds(pem: string)
    requires pem != ""
    ensures Trim(DotenvValue(pem)) == DotenvValue(pem) <==> EndsVisible(pem)
  {
    EscapedFirst(pem);
    EscapedLast(pem);
    TrimmedAlready(DotenvValue(pem));
  }

  lemma {:induction false} EscapedPrefix(s: string, prefix: string)
    requires Lacks(prefix, '\n') && Lacks(prefix, '\r') && Lacks(prefix, '\\')
    ensures StartsWith(DotenvValue(s), prefix) <==> StartsWith(s, prefix)
  {
    if prefix != "" && s != "" {
      if (|s| >= 2 && s[0] == '\r' && s[1] == '\n') || s[0] == '\n' {
        assert DotenvValue(s)[0] == '\\';
      } else {
        EscapedPrefix(s[1..], prefix[1..]);
        var e := DotenvValue(s[1..]);
        assert DotenvValue(s) == [s[0]] + e;
        PrefixCons(s[0], e, prefix);
        PrefixCons(s[0], s[1..], prefix);
        assert s == [s[0]] + s[1..];
      }
    }
  }

  lemma PrefixCons(c: char, s: string, prefix: string)
    requires prefix != ""
    ensures StartsWith([c] + s, prefix) <==> c == prefix[0] && StartsWith(s, prefix[1..])
  {
  }

  lemma TrimmedUnescape(pem: string)
    ensures UnescapeBreaks(Trim(DotenvValue(pem))) == LfBreaks(pem)
        <==> Trim(DotenvValue(pem)) == DotenvValue(pem) && Literals(pem) == 0
  {
    var v := DotenvValue(pem);
    EscapedLength(pem);
    EscapedLiterals(pem);
    TrimLiterals(v);
    UnescapedLength(Trim(v));
    if Literals(pem) == 0 {
      UnescapeUndoesEscape(pem);
    }
  }

  lemma NormalizedKey(v: string, text: string)
    ensures NormalizePrivateKey(Some(DropCr(v))) == Plain(text)
        <==> Trim(v) != "" && !StartsWith(Trim(v), "base64:") && UnescapeBreaks(Trim(v)) == text
  {
    TrimDropCr(v);
  }

  /** When the value that was written is read back, trimmed and unescaped it is the key with LF
      breaks — exactly when the key has visible ends, no literal backslash-n and no base64 marker. */
  lemma KeyRoundTrip(pem: string)
    ensures NormalizePrivateKey(Some(DropCr(DotenvValue(pem)))) == Plain(LfBreaks(pem))
        <==> EndsVisible(pem) && Literals(pem) == 0 && !StartsWith(pem, "base64:")
  {
    NormalizedKey(DotenvValue(pem), LfBreaks(pem));
    TrimmedUnescape(pem);
    if pem != "" {
      EscapedEnds(pem);
      EscapedFirst(pem);
      MarkerIsPlain();
      EscapedPrefix(pem, "base64:");
    }
  }

  lemma MarkerIsPlain()
    ensures Lacks("base64:", '\n') && Lacks("base64:", '\r') && Lacks("base64:", '\\')
  {
  }

  // ---- the document ----

  predicate AllDigits(s: string) {
    s != "" && forall i :: 0 <= i < |s| ==> '0' <= s[i] <= '9'
  }

  /** What the conversion's own checks and tables guarantee: keys in form and distinct, a numeric
      App identifier, and a one-line role. */
  predicate ValidCredentials(c: Credentials) {
    KeyForm(c.id.key) && KeyForm(c.pem.key) && c.id.key != c.pem.key && AllDigits(c.id.value) && Lacks(c.role, '\n')
    && (c.webhook.Some? ==> KeyForm(c.webhook.value.key) && c.webhook.value.key != c.id.key && c.webhook.value.key != c.pem.key)
  }

  /** Every line of the slug after the first is blank or a comment. */
  predicate SlugBenign(slug: string) {
    var l := SplitLines(slug);
    forall i :: 1 <= i < |l| ==> Ignored(l[i])
  }

  function Stored(e: Entry): string {
    DropCr(DotenvValue(e.value))
  }

  function ExpectedValues(c: Credentials): map<string, string> {
    var m := map[c.id.key := c.id.value, c.pem.key := Stored(c.pem)];
    if c.webhook.Some? then m[c.webhook.value.key := Stored(c.webhook.value)] else m
  }

  // ---- reading lines ----

  lemma {:induction false} ReadLinesSplit(a: seq<string>, b: seq<string>, from: nat, p: Parsed)
    requires from <= |a|
    ensures var r := ReadLines(a, from, p);
            ReadLines(a + b, from, p) == if r.Err? then r else ReadLines(a + b, |a|, r.value)
    decreases |a| - from
  {
    if from < |a| {
      assert (a + b)[from] == a[from];
      var r := ReadLine(a[from], from + 1, p);
      if r.Ok? {
        ReadLinesSplit(a, b, from + 1, r.value);
      }
    }
  }

  lemma {:induction false} ReadIgnored(lines: seq<string>, from: nat, p: Parsed)
    requires from <= |lines| && forall i :: from <= i < |lines| ==> Ignored(lines[i])
    ensures ReadLines(lines, from, p) == Ok(p)
    decreases |lines| - from
  {
    if from < |lines| {
      ReadIgnored(lines, from + 1, p);
    }
  }

  /** Reading only adds: values and duplicates grow, and any line that is not ignored leaves a value. */
  lemma {:induction false} ReadGrows(lines: seq<string>, from: nat, p: Parsed)
    requires from <= |lines| && ReadLines(lines, from, p).Ok?
    ensures var q := ReadLines(lines, from, p).value;
            p.values.Keys <= q.values.Keys && |p.duplicates| <= |q.duplicates|
            && ((exists i :: from <= i < |lines| && !Ignored(lines[i])) ==> q.values.Keys != {})
    decreases |lines| - from
  {
    if from < |lines| {
      var r := ReadLine(lines[from], from + 1, p).value;
      ReadGrows(lines, from + 1, r);
      if !Ignored(lines[from]) {
        assert Trim(lines[from][..IndexOf(lines[from], '=')]) in r.values.Keys;
      }
    }
  }

  lemma VisibleFirst(line: string)
    requires line != "" && !IsSpace(line[0])
    ensures Trim(line) != "" && Trim(line)[0] == line[0]
  {
    TrimEndKeepsFirst(line);
  }

  lemma KeyIsTrimmed(key: string)
    requires KeyForm(key)
    ensures Trim(key) == key && Lacks(key, '=') && !IsSpace(key[0]) && key[0] != '#'
  {
  }

  lemma ReadEntry(e: Entry, number: nat, p: Parsed)
    requires KeyForm(e.key)
    ensures ReadLine(DropCr(EntryLine(e)), number, p) == Ok(After(p, e.key, DropCr(e.value)))
  {
    var line := e.key + ['='] + DropCr(e.value);
    assert DropCr(EntryLine(e)) == line;
    KeyIsTrimmed(e.key);
    IndexOfConcat(e.key, '=', DropCr(e.value));
    VisibleFirst(line);
  }

  // ---- the lines of the document ----

  lemma {:induction false} EscapedLacksBreaks(s: string)
    ensures Lacks(DotenvValue(s), '\n')
  {
    if s != "" {
      EscapedLacksBreaks(s[1..]);
      if |s| >= 2 {
        EscapedLacksBreaks(s[2..]);
      }
    }
  }

  lemma SplitLinesPrefix(prefix: string, s: string)
    requires prefix != "" && Lacks(prefix, '\n') && prefix[|prefix| - 1] != '\r'
    ensures SplitLines(prefix + s) == [prefix + SplitLines(s)[0]] + SplitLines(s)[1..]
  {
    var i := IndexOf(s, '\n');
    if i == |s| {
      IndexOfAbsent(prefix + s, '\n');
    } else {
      Glued(prefix, s[..i], s[i + 1..], s);
      PrefixedFirst(prefix, s[..i], s[i + 1..]);
    }
  }

  lemma PrefixedFirst(prefix: string, head: string, tail: string)
    requires prefix != "" && Lacks(prefix, '\n') && prefix[|prefix| - 1] != '\r' && Lacks(head, '\n')
    ensures var l := SplitLines(head + "\n" + tail);
            SplitLines((prefix + head) + "\n" + tail) == [prefix + l[0]] + l[1..]
  {
    SplitLinesAt(head, tail);
    SplitLinesAt(prefix + head, tail);
    var first, rest := DropCr(head), SplitLines(tail);
    assert DropCr(prefix + head) == prefix + first;
    assert ([first] + rest)[1..] == rest;
  }

  lemma Glued(prefix: string, head: string, tail: string, s: string)
    requires 0 <= |head| < |s| && s[..|head|] == head && s[|head|] == '\n' && s[|head| + 1..] == tail
    ensures s == head + "\n" + tail
    ensures prefix + s == (prefix + head) + "\n" + tail
  {
  }

  function HeaderLines(c: Credentials): seq<string> {
    var l := SplitLines(Header(c));
    l[..|l| - 1] + [DropCr(l[|l| - 1])]
  }

  function EntryLines(c: Credentials): seq<string> {
    DocumentLines(c)[1..]
  }

  lemma EntriesLackBreaks(c: Credentials)
    requires ValidCredentials(c)
    ensures AllLack(EntryLines(c), '\n')
  {
    EscapedLacksBreaks(c.pem.value);
    if c.webhook.Some? {
      EscapedLacksBreaks(c.webhook.value.value);
    }
  }

  lemma DocumentSplits(c: Credentials)
    requires ValidCredentials(c)
    ensures SplitLines(DocumentText(c)) == HeaderLines(c) + Chomp(EntryLines(c))
  {
    var rest := EntryLines(c);
    assert DocumentLines(c) == [Header(c)] + rest;
    SplitLinesConcat(Header(c), JoinWith(rest, '\n'));
    EntriesLackBreaks(c);
    SplitLinesJoin(rest);
    assert DocumentText(c) == Header(c) + "\n" + JoinWith(rest, '\n');
  }

  lemma IgnoredDropCr(line: string)
    ensures Ignored(DropCr(line)) == Ignored(line)
  {
    TrimDropCr(line);
  }

  lemma IgnoredAt(prefix: string, l: seq<string>, h: seq<string>, i: nat)
    requires prefix != "" && prefix[0] == '#' && i < |l| == |h|
    requires var line := if i == 0 then prefix + l[0] else l[i]; h[i] == line || h[i] == DropCr(line)
    ensures Ignored(h[i]) <==> i == 0 || Ignored(l[i])
  {
    var line := if i == 0 then prefix + l[0] else l[i];
    IgnoredDropCr(line);
    if i == 0 {
      VisibleFirst(line);
    }
  }

  lemma PrefixedIgnored(prefix: string, slug: string, h: seq<string>)
    requires prefix != "" && prefix[0] == '#' && Lacks(prefix, '\n') && prefix[|prefix| - 1] != '\r'
    requires var l := SplitLines(prefix + slug); h == l[..|l| - 1] + [DropCr(l[|l| - 1])]
    ensures (forall i :: 0 <= i < |h| ==> Ignored(h[i])) <==> SlugBenign(slug)
  {
    var l := SplitLines(slug);
    SplitLinesPrefix(prefix, slug);
    forall i | 0 <= i < |h|
      ensures Ignored(h[i]) <==> i == 0 || Ignored(l[i])
    {
      IgnoredAt(prefix, l, h, i);
    }
    assert |h| == |l|;
  }

  /** The header is ignored exactly when the slug's further lines are. */
  lemma HeaderIgnored(c: Credentials)
    requires ValidCredentials(c)
    ensures (forall i :: 0 <= i < |HeaderLines(c)| ==> Ignored(HeaderLines(c)[i])) <==> SlugBenign(c.slug)
  {
    var prefix := "# Generated for role=" + c.role + "; app_slug=";
    assert prefix[0] == '#';
    PrefixedIgnored(prefix, c.slug, HeaderLines(c));
  }

  // ---- reading the entries back ----

  function PemEntry(e: Entry): Entry {
    Entry(e.key, DotenvValue(e.value))
  }

  /** What the entry lines add to what the header left. */
  function AfterEntries(c: Credentials, q: Parsed): Parsed {
    var p2 := After(After(q, c.id.key, c.id.value), c.pem.key, Stored(c.pem));
    if c.webhook.Some? then After(p2, c.webhook.value.key, Stored(c.webhook.value)) else p2
  }

  lemma ChompEntries(c: Credentials)
    requires ValidCredentials(c)
    ensures var e := Chomp(EntryLines(c));
            |e| == (if c.webhook.Some? then 4 else 3)
            && e[0] == DropCr(EntryLine(c.id)) && e[1] == DropCr(EntryLine(PemEntry(c.pem)))
            && (c.webhook.Some? ==> e[2] == DropCr(EntryLine(PemEntry(c.webhook.value))))
            && e[|e| - 1] == ""
  {
  }

  lemma ReadEntries(c: Credentials, h: seq<string>, q: Parsed)
    requires ValidCredentials(c)
    ensures ReadLines(h + Chomp(EntryLines(c)), |h|, q) == Ok(AfterEntries(c, q))
  {
    var e := Chomp(EntryLines(c));
    var lines := h + e;
    ChompEntries(c);
    var q1 := After(q, c.id.key, c.id.value);
    var q2 := After(q1, c.pem.key, Stored(c.pem));
    ReadTwo(c, lines, |h|, q, q1, q2);
    if c.webhook.Some? {
      assert lines[|h| + 2] == e[2] && lines[|h| + 3] == "";
      ReadEntry(PemEntry(c.webhook.value), |h| + 3, q2);
      ReadIgnored(lines, |h| + 3, AfterEntries(c, q));
    } else {
      assert lines[|h| + 2] == "";
      ReadIgnored(lines, |h| + 2, q2);
    }
  }

  /** The App id and the private key. */
  lemma ReadTwo(c: Credentials, lines: seq<string>, n: nat, q: Parsed, q1: Parsed, q2: Parsed)
    requires ValidCredentials(c) && n + 2 <= |lines|
    requires lines[n] == DropCr(EntryLine(c.id)) && lines[n + 1] == DropCr(EntryLine(PemEntry(c.pem)))
    requires q1 == After(q, c.id.key, c.id.value) && q2 == After(q1, c.pem.key, Stored(c.pem))
    ensures ReadLines(lines, n, q) == ReadLines(lines, n + 2, q2)
  {
    ReadEntry(c.id, n + 1, q);
    assert ReadLine(lines[n], n + 1, q) == Ok(q1);
    ReadEntry(PemEntry(c.pem), n + 2, q1);
    assert ReadLine(lines[n + 1], n + 2, q1) == Ok(q2);
  }

  lemma EntriesClean(c: Credentials, q: Parsed)
    requires ValidCredentials(c)
    ensures AfterEntries(c, q) == Parsed(ExpectedValues(c), []) <==> q.values.Keys == {} && q.duplicates == []
  {
    if q.values.Keys == {} {
      assert q.values == map[];
    }
    var r := AfterEntries(c, q);
    if q.values.Keys != {} {
      var k :| k in q.values.Keys;
      assert k in r.values;
      assert k == c.id.key || k == c.pem.key || (c.webhook.Some? && k == c.webhook.value.key) ==> r.duplicates != [];
    }
  }

  /** The written document reads back as exactly its entries, with no duplicate — exactly when the
      slug adds no line of its own. */
  lemma DocumentRoundTrip(c: Credentials)
    requires ValidCredentials(c)
    ensures ParsedDotenv(DocumentText(c)) == Ok(Parsed(ExpectedValues(c), [])) <==> SlugBenign(c.slug)
  {
    var h, e := HeaderLines(c), Chomp(EntryLines(c));
    var start := Parsed(map[], []);
    DocumentSplits(c);
    HeaderIgnored(c);
    ReadLinesSplit(h, e, 0, start);
    if SlugBenign(c.slug) {
      ReadIgnored(h, 0, start);
    }
    var r := ReadLines(h, 0, start);
    if r.Ok? {
      ReadGrows(h, 0, start);
      ReadEntries(c, h, r.value);
      EntriesClean(c, r.value);
    }
  }

  /** Document and key together: the private key comes back with LF breaks, and nothing else changes. */
  lemma PrivateKeyRoundTrip(c: Credentials)
    requires ValidCredentials(c) && SlugBenign(c.slug)
    requires EndsVisible(c.pem.value) && Literals(c.pem.value) == 0 && !StartsWith(c.pem.value, "base64:")
    ensures var r := ParsedDotenv(DocumentText(c));
            r.Ok? && r.value.duplicates == [] && r.value.values == ExpectedValues(c)
            && NormalizePrivateKey(Some(r.value.values[c.pem.key])) == Plain(LfBreaks(c.pem.value))
  {
    DocumentRoundTrip(c);
    KeyRoundTrip(c.pem.value);
  }

  // ---- inputs that do not come back ----

  /** A slug with a line break and a visible second line spoils the document. */
  lemma SlugLineSpoilsTheDocument()
    ensures var c := Credentials("reaper", "a\nb", Entry("ID", "1"), Entry("KEY", "k"), None);
            ValidCredentials(c) && ParsedDotenv(DocumentText(c)) != Ok(Parsed(ExpectedValues(c), []))
  {
    var c := Credentials("reaper", "a\nb", Entry("ID", "1"), Entry("KEY", "k"), None);
    TwoLineSlug();
    assert ValidCredentials(c) by {
      assert |"ID"| != |"KEY"|;
    }
    DocumentRoundTrip(c);
  }

  lemma TwoLineSlug()
    ensures !SlugBenign("a\nb")
  {
    assert "a" + "\n" + "b" == "a\nb";
    SplitLinesAt("a", "b");
    IndexOfAbsent("b", '\n');
    var l := SplitLines("a\nb");
    assert l == ["a", "b"];
    TrimmedAlready("b");
    assert !Ignored(l[1]);
  }

  lemma BlankStartIsLost()
    ensures NormalizePrivateKey(Some(DropCr(DotenvValue(" k")))) != Plain(LfBreaks(" k"))
  {
    KeyRoundTrip(" k");
    assert IsSpace(" k"[0]) && !StartsWithBreak(" k");
  }

  lemma LiteralIsLost()
    ensures NormalizePrivateKey(Some(DropCr(DotenvValue("\\n")))) != Plain(LfBreaks("\\n"))
  {
    KeyRoundTrip("\\n");
    assert Literals("\\n") == 1;
  }

  lemma MarkerIsLost()
    ensures NormalizePrivateKey(Some(DropCr(DotenvValue("base64:k")))) != Plain(LfBreaks("base64:k"))
  {
    KeyRoundTrip("base64:k");
    assert "base64:" + "k" == "base64:k";
  }

  /** A key with a blank end, one with a literal backslash-n, and one with the base64 marker are lost. */
  lemma KeysThatAreLost()
    ensures NormalizePrivateKey(Some(DropCr(DotenvValue(" k")))) != Plain(LfBreaks(" k"))
    ensures NormalizePrivateKey(Some(DropCr(DotenvValue("\\n")))) != Plain(LfBreaks("\\n"))
    ensures NormalizePrivateKey(Some(DropCr(DotenvValue("base64:k")))) != Plain(LfBreaks("base64:k"))
  {
    BlankStartIsLost();
    LiteralIsLost();
    MarkerIsLost();
  }
}
