/** Reading dotenv text, said on the raw lines and texts: which lines are skipped, which set a key, which are
    refused, and what a read value becomes as a private key. */
module DotenvReading {
  import opened JsText
  import opened Wrappers
  import opened Dotenv

  // ---- one line ----

  /** A capital letter, then capital letters, digits and underscores. */
  predicate KeyText(key: string) {
    1 <= |key| && 65 <= key[0] as int <= 90
    && forall i :: 0 <= i < |key| ==> 65 <= key[i] as int <= 90 || 48 <= key[i] as int <= 57 || key[i] as int == 95
  }

  /** Nothing is visible on the line, or the first visible character is `#`. */
  predicate Skipped(line: string) {
    forall i :: 0 <= i < |line| && !IsSpace(line[i]) && AllSpace(line[..i]) ==> line[i] == '#'
  }

  /** The first `=` of the line stands at `e`, with something before it. */
  predicate CutsAt(line: string, e: int) {
    1 <= e < |line| && line[e] == '=' && Lacks(line[..e], '=')
  }

  /** The line has no `=`, or begins with one. */
  predicate NoEntry(line: string) {
    Lacks(line, '=') || line[0] == '='
  }

  ghost predicate Entered(line: string, e: int, key: string) {
    CutsAt(line, e) && Trimmed(line[..e], key)
  }

  /** The line stores this value, untrimmed, under this key. */
  ghost predicate Sets(line: string, key: string, v: string) {
    !Skipped(line) && KeyText(key) && exists e :: Entered(line, e, key) && v == line[e + 1..]
  }

  ghost predicate SetsKey(line: string, key: string) {
    exists v :: Sets(line, key, v)
  }

  ghost predicate BadKey(line: string, key: string) {
    !Skipped(line) && !KeyText(key) && exists e :: Entered(line, e, key)
  }

  lemma FirstVisible(line: string)
    ensures Skipped(line) <==> Dotenv.Ignored(line)
  {
    TrimExactly(line);
    var a, b :| Between(line, Trim(line), a, b);
    BlankOutside(line, Trim(line), a, b);
    if a < b {
      assert Trim(line)[0] == line[a] && AllSpace(line[..a]);
      assert forall i :: a < i <= |line| ==> line[..i][a] == line[a];
    }
  }

  lemma EntryCut(line: string)
    ensures var e := IndexOf(line, '=');
            if e == |line| || e < 1 then NoEntry(line) && forall x :: !CutsAt(line, x)
            else !NoEntry(line) && forall x :: CutsAt(line, x) <==> x == e
  {
    var e := IndexOf(line, '=');
    if 1 <= e < |line| {
      assert CutsAt(line, e);
    }
    assert forall x :: 0 <= e < x <= |line| ==> line[..x][e] == line[e];
  }

  /** Where a key is, it is the trimmed text before the first `=`. */
  lemma EnteredKey(line: string, key: string)
    ensures var e := IndexOf(line, '=');
            (exists x :: Entered(line, x, key)) <==> 1 <= e < |line| && key == Trim(line[..e])
    ensures forall x :: Entered(line, x, key) ==> x == IndexOf(line, '=')
  {
    EntryCut(line);
    var e := IndexOf(line, '=');
    if 1 <= e < |line| {
      TrimmedIs(line[..e], key);
      assert CutsAt(line, e);
      assert key == Trim(line[..e]) ==> Entered(line, e, key);
    }
  }

  lemma LineSkipped(line: string, number: nat, p: Parsed)
    requires Skipped(line)
    ensures ReadLine(line, number, p) == Ok(p)
  {
    FirstVisible(line);
  }

  lemma LineSets(line: string, number: nat, p: Parsed, key: string, v: string)
    requires Sets(line, key, v)
    ensures ReadLine(line, number, p) == Ok(After(p, key, v))
  {
    FirstVisible(line);
    EnteredKey(line, key);
  }

  lemma LineRefused(line: string, number: nat, p: Parsed, key: string)
    ensures !Skipped(line) && NoEntry(line) ==> ReadLine(line, number, p) == Err(InvalidEntry(number))
    ensures BadKey(line, key) ==> ReadLine(line, number, p) == Err(InvalidKey(key, number))
  {
    FirstVisible(line);
    EntryCut(line);
    EnteredKey(line, key);
  }

  /** Every line is skipped, sets a key, has no entry or a bad key. */
  lemma LineKinds(line: string) returns (key: string)
    ensures Skipped(line) || SetsKey(line, key) || NoEntry(line) || BadKey(line, key)
  {
    EntryCut(line);
    var e := IndexOf(line, '=');
    key := if 1 <= e < |line| then Trim(line[..e]) else "";
    EnteredKey(line, key);
    if 1 <= e < |line| && !Skipped(line) && KeyText(key) {
      assert Entered(line, e, key);
      assert Sets(line, key, line[e + 1..]);
    }
  }

  lemma SetsOne(line: string, key: string, v: string, otherKey: string, w: string)
    requires Sets(line, key, v) && Sets(line, otherKey, w)
    ensures key == otherKey && v == w
  {
    EnteredKey(line, key);
    EnteredKey(line, otherKey);
  }

  // ---- all lines ----

  predicate Before(i: int, n: int) {
    0 <= i < n
  }

  ghost predicate SetsLast(lines: seq<string>, n: nat, i: int, key: string, v: string)
    requires n <= |lines|
  {
    Before(i, n) && Sets(lines[i], key, v) && forall j :: i < j < n ==> !SetsKey(lines[j], key)
  }

  /** Among the first `n` lines the last that sets this key sets it to this value. */
  ghost predicate Holds(lines: seq<string>, n: nat, key: string, v: string)
    requires n <= |lines|
  {
    exists i :: SetsLast(lines, n, i, key, v)
  }

  /** The table holds for each key what the last line with that key sets, and no other key. */
  ghost predicate Values(lines: seq<string>, n: nat, values: map<string, string>)
    requires n <= |lines|
  {
    forall key, v :: Holds(lines, n, key, v) <==> key in values && values[key] == v
  }

  ghost predicate SetBefore(lines: seq<string>, n: nat, key: string)
    requires n <= |lines|
  {
    exists j :: Before(j, n) && SetsKey(lines[j], key)
  }

  /** The line sets a key that an earlier line has set. */
  ghost predicate Repeats(lines: seq<string>, i: nat, key: string)
    requires i < |lines|
  {
    SetsKey(lines[i], key) && SetBefore(lines, i, key)
  }

  ghost predicate RepeatsSome(lines: seq<string>, i: nat)
    requires i < |lines|
  {
    exists key :: Repeats(lines, i, key)
  }

  /** The duplicates are the keys of the repeating lines, in order. */
  ghost predicate Duplicates(lines: seq<string>, n: nat, keys: seq<string>)
    requires n <= |lines|
  {
    if n == 0 then keys == []
    else if RepeatsSome(lines, n - 1) then
      keys != [] && Repeats(lines, n - 1, keys[|keys| - 1]) && Duplicates(lines, n - 1, keys[..|keys| - 1])
    else Duplicates(lines, n - 1, keys)
  }

  /** The line is skipped or sets a key. */
  ghost predicate Fine(line: string) {
    Skipped(line) || exists key :: SetsKey(line, key)
  }

  ghost predicate AllFine(lines: seq<string>, n: nat)
    requires n <= |lines|
  {
    forall i :: 0 <= i < n ==> Fine(lines[i])
  }

  lemma HoldsStep(lines: seq<string>, n: nat, key: string, v: string)
    requires n < |lines|
    ensures Holds(lines, n + 1, key, v) <==> if SetsKey(lines[n], key) then Sets(lines[n], key, v) else Holds(lines, n, key, v)
  {
    if Holds(lines, n + 1, key, v) {
      var i :| SetsLast(lines, n + 1, i, key, v);
      if SetsKey(lines[n], key) {
        assert i == n;
      } else {
        assert i != n;
        assert SetsLast(lines, n, i, key, v);
      }
    }
    if Sets(lines[n], key, v) {
      assert SetsLast(lines, n + 1, n, key, v);
    }
    if Holds(lines, n, key, v) && !SetsKey(lines[n], key) {
      var i :| SetsLast(lines, n, i, key, v);
      assert SetsLast(lines, n + 1, i, key, v);
    }
  }

  lemma ValuesSkip(lines: seq<string>, n: nat, values: map<string, string>)
    requires n < |lines| && Values(lines, n, values) && Skipped(lines[n])
    ensures Values(lines, n + 1, values)
  {
    var m := n + 1;
    forall key, v
      ensures Holds(lines, m, key, v) <==> key in values && values[key] == v
    {
      HoldsStep(lines, n, key, v);
    }
  }

  lemma ValuesSet(lines: seq<string>, n: nat, values: map<string, string>, key: string, v: string)
    requires n < |lines| && Values(lines, n, values) && Sets(lines[n], key, v)
    ensures Values(lines, n + 1, values[key := v])
  {
    assert SetsKey(lines[n], key);
    var m, after := n + 1, values[key := v];
    forall k, w
      ensures Holds(lines, m, k, w) <==> k in after && after[k] == w
    {
      HoldsStep(lines, n, k, w);
      if SetsKey(lines[n], k) {
        var x :| Sets(lines[n], k, x);
        SetsOne(lines[n], k, x, key, v);
        if Sets(lines[n], k, w) {
          SetsOne(lines[n], k, w, key, v);
        }
      }
    }
  }

  lemma SetBeforeStep(lines: seq<string>, n: nat, key: string)
    requires n < |lines|
    ensures SetBefore(lines, n + 1, key) <==> SetsKey(lines[n], key) || SetBefore(lines, n, key)
  {
    if SetsKey(lines[n], key) {
      assert Before(n, n + 1);
    }
    if j :| Before(j, n) && SetsKey(lines[j], key) {
      assert Before(j, n + 1);
    }
    if j :| Before(j, n + 1) && SetsKey(lines[j], key) {
      assert j == n || Before(j, n);
    }
  }

  ghost predicate HoldsKey(lines: seq<string>, n: nat, key: string)
    requires n <= |lines|
  {
    exists v :: Holds(lines, n, key, v)
  }

  lemma HoldsKeyStep(lines: seq<string>, n: nat, key: string)
    requires n < |lines|
    ensures HoldsKey(lines, n + 1, key) <==> SetsKey(lines[n], key) || HoldsKey(lines, n, key)
  {
    var m := n + 1;
    if v :| Sets(lines[n], key, v) {
      HoldsStep(lines, n, key, v);
    } else {
      if v :| Holds(lines, m, key, v) {
        HoldsStep(lines, n, key, v);
      }
      if v :| Holds(lines, n, key, v) {
        HoldsStep(lines, n, key, v);
      }
    }
  }

  /** A key is in the table exactly when some line sets it. */
  lemma {:induction false} KeySet(lines: seq<string>, n: nat, key: string)
    requires n <= |lines|
    ensures HoldsKey(lines, n, key) <==> SetBefore(lines, n, key)
  {
    if n > 0 {
      KeySet(lines, n - 1, key);
      SetBeforeStep(lines, n - 1, key);
      HoldsKeyStep(lines, n - 1, key);
    }
  }

  lemma DuplicatesSet(lines: seq<string>, n: nat, p: Parsed, key: string, v: string)
    requires n < |lines| && Values(lines, n, p.values) && Duplicates(lines, n, p.duplicates) && Sets(lines[n], key, v)
    ensures Duplicates(lines, n + 1, After(p, key, v).duplicates)
  {
    KeySet(lines, n, key);
    assert SetsKey(lines[n], key);
    assert Repeats(lines, n, key) <==> key in p.values by {
      if key in p.values {
        assert Holds(lines, n, key, p.values[key]);
      }
    }
    if RepeatsSome(lines, n) {
      var k :| Repeats(lines, n, k);
      var w :| Sets(lines[n], k, w);
      SetsOne(lines[n], k, w, key, v);
      assert (p.duplicates + [key])[..|p.duplicates|] == p.duplicates;
    }
  }

  lemma SkippedSetsNothing(line: string, key: string)
    ensures Skipped(line) ==> !SetsKey(line, key)
  {
  }

  lemma DuplicatesSkip(lines: seq<string>, n: nat, keys: seq<string>)
    requires n < |lines| && Duplicates(lines, n, keys) && Skipped(lines[n])
    ensures Duplicates(lines, n + 1, keys)
  {
    if key :| Repeats(lines, n, key) {
      SkippedSetsNothing(lines[n], key);
    }
  }

  /** The first `n` lines are fine, and this is what they hold. */
  ghost predicate ReadUpTo(lines: seq<string>, n: nat, p: Parsed)
    requires n <= |lines|
  {
    AllFine(lines, n) && Values(lines, n, p.values) && Duplicates(lines, n, p.duplicates)
  }

  lemma ReadSkip(lines: seq<string>, n: nat, p: Parsed)
    requires n < |lines| && ReadUpTo(lines, n, p) && Skipped(lines[n])
    ensures ReadUpTo(lines, n + 1, p) && ReadLine(lines[n], n + 1, p) == Ok(p)
  {
    LineSkipped(lines[n], n + 1, p);
    ValuesSkip(lines, n, p.values);
    DuplicatesSkip(lines, n, p.duplicates);
  }

  lemma ReadSet(lines: seq<string>, n: nat, p: Parsed, key: string) returns (v: string)
    requires n < |lines| && ReadUpTo(lines, n, p) && SetsKey(lines[n], key)
    ensures ReadUpTo(lines, n + 1, After(p, key, v)) && ReadLine(lines[n], n + 1, p) == Ok(After(p, key, v))
  {
    v :| Sets(lines[n], key, v);
    LineSets(lines[n], n + 1, p, key, v);
    FineSet(lines, n, key);
    ValuesSet(lines, n, p.values, key, v);
    DuplicatesSet(lines, n, p, key, v);
  }

  lemma FineSet(lines: seq<string>, n: nat, key: string)
    requires n < |lines| && AllFine(lines, n) && SetsKey(lines[n], key)
    ensures AllFine(lines, n + 1)
  {
    assert Fine(lines[n]);
  }

  /** What reading these lines should return. */
  ghost predicate Answers(lines: seq<string>, r: Result<Parsed, ParseError>) {
    match r
    case Ok(p) => ReadUpTo(lines, |lines|, p)
    case Err(InvalidEntry(number)) =>
      1 <= number <= |lines| && AllFine(lines, number - 1) && !Skipped(lines[number - 1]) && NoEntry(lines[number - 1])
    case Err(InvalidKey(key, number)) =>
      1 <= number <= |lines| && AllFine(lines, number - 1) && BadKey(lines[number - 1], key)
  }

  lemma Refused(lines: seq<string>, n: nat, p: Parsed, key: string)
    requires n < |lines| && AllFine(lines, n) && !Skipped(lines[n]) && (NoEntry(lines[n]) || BadKey(lines[n], key))
    ensures ReadLine(lines[n], n + 1, p).Err? && Answers(lines, Err(ReadLine(lines[n], n + 1, p).error))
  {
    LineRefused(lines[n], n + 1, p, key);
  }

  lemma {:induction false} ReadOn(lines: seq<string>, n: nat, p: Parsed)
    requires n <= |lines| && ReadUpTo(lines, n, p)
    ensures Answers(lines, ReadLines(lines, n, p))
    decreases |lines| - n
  {
    if n < |lines| {
      var key := LineKinds(lines[n]);
      if Skipped(lines[n]) {
        ReadSkip(lines, n, p);
        ReadOn(lines, n + 1, p);
      } else if SetsKey(lines[n], key) {
        var v := ReadSet(lines, n, p, key);
        ReadOn(lines, n + 1, After(p, key, v));
      } else {
        Refused(lines, n, p, key);
      }
    }
  }

  lemma NothingRead(lines: seq<string>)
    ensures ReadUpTo(lines, 0, Parsed(map[], []))
  {
  }

  /** Reading a text returns, for its lines, the last value of each key and the repeated keys in order — or the
      first line that is neither skipped nor an entry, numbered from one. */
  lemma ReadingExactly(text: string)
    ensures Answers(SplitLines(text), ParsedDotenv(text))
  {
    NothingRead(SplitLines(text));
    ReadOn(SplitLines(text), 0, Parsed(map[], []));
  }

  // ---- a private key ----

  /** The pieces with `sep` between them. */
  function Joined(pieces: seq<string>, sep: string): string {
    if pieces == [] then ""
    else if |pieces| == 1 then pieces[0]
    else pieces[0] + (sep + Joined(pieces[1..], sep))
  }

  /** A backslash stands before an n. */
  predicate HasLiteral(s: string) {
    exists i :: 0 <= i < |s| - 1 && s[i] as int == 92 && s[i + 1] == 'n'
  }

  predicate NoLiterals(pieces: seq<string>) {
    forall i :: 0 <= i < |pieces| ==> !HasLiteral(pieces[i])
  }

  predicate CutAtLiterals(s: string, pieces: seq<string>) {
    pieces != [] && NoLiterals(pieces) && s == Joined(pieces, "\\n")
  }

  /** The text with a line feed in place of every backslash-n. */
  ghost predicate Unescaped(s: string, text: string) {
    exists pieces :: CutAtLiterals(s, pieces) && text == Joined(pieces, "\n")
  }

  lemma JoinedAfter(pieces: seq<string>, sep: string)
    requires pieces != []
    ensures Joined([""] + pieces, sep) == sep + Joined(pieces, sep)
  {
    assert ([""] + pieces)[1..] == pieces;
    var rest := sep + Joined(pieces, sep);
    assert "" + rest == rest;
  }

  lemma JoinedLonger(c: char, pieces: seq<string>, sep: string)
    requires pieces != []
    ensures Joined([[c] + pieces[0]] + pieces[1..], sep) == [c] + Joined(pieces, sep)
  {
    var longer := [[c] + pieces[0]] + pieces[1..];
    assert longer[1..] == pieces[1..];
    if |pieces| > 1 {
      var rest := sep + Joined(pieces[1..], sep);
      assert [c] + pieces[0] + rest == [c] + (pieces[0] + rest);
    }
  }

  lemma LiteralFree(c: char, piece: string)
    requires !HasLiteral(piece) && !(c as int == 92 && piece != "" && piece[0] == 'n')
    ensures !HasLiteral([c] + piece)
  {
    var s := [c] + piece;
    assert forall i :: 1 <= i < |s| ==> s[i] == piece[i - 1];
  }

  lemma {:induction false} UnescapedPieces(s: string) returns (pieces: seq<string>)
    ensures CutAtLiterals(s, pieces) && UnescapeBreaks(s) == Joined(pieces, "\n")
    ensures s == "" <==> pieces == [""]
    ensures s != "" && pieces[0] != "" ==> pieces[0][0] == s[0]
  {
    if |s| < 2 {
      pieces := [s];
    } else if s[0] == '\\' && s[1] == 'n' {
      var rest := UnescapedPieces(s[2..]);
      pieces := [""] + rest;
      JoinedAfter(rest, "\\n");
      JoinedAfter(rest, "\n");
      assert s == "\\n" + s[2..];
    } else {
      var rest := UnescapedPieces(s[1..]);
      pieces := [[s[0]] + rest[0]] + rest[1..];
      LiteralFree(s[0], rest[0]);
      JoinedLonger(s[0], rest, "\\n");
      JoinedLonger(s[0], rest, "\n");
      assert s == [s[0]] + s[1..];
    }
  }

  /** What a trimmed value says: base64 text, or a key with escaped line breaks. */
  ghost predicate KeyOf(text: string, key: PrivateKey) {
    if text == "" then key == NoKey
    else if "base64:" <= text then key.Encoded? && text == "base64:" + key.base64
    else key.Plain? && Unescaped(text, key.text)
  }

  lemma PrefixCut(s: string, prefix: string)
    requires prefix <= s
    ensures s == prefix + s[|prefix|..]
  {
  }

  lemma EncodedKey(text: string)
    requires "base64:" <= text
    ensures text == "base64:" + text[7..]
  {
    PrefixCut(text, "base64:");
  }

  /** A read value is no key when it is blank, base64 text when it says so, and otherwise the trimmed value with a
      line feed in place of every backslash-n. */
  lemma KeyExactly(v: string, text: string)
    requires Trimmed(v, text)
    ensures KeyOf(text, NormalizePrivateKey(Some(v))) && NormalizePrivateKey(None) == NoKey
  {
    TrimmedIs(v, text);
    if "base64:" <= text {
      EncodedKey(text);
    } else {
      var pieces := UnescapedPieces(text);
      assert Unescaped(text, UnescapeBreaks(text));
    }
  }

  // ---- the document ----

  lemma BreakFurther(c: char, s: string)
    requires c != '\n'
    ensures IndexOf([c] + s, '\n') == IndexOf(s, '\n') + 1
  {
    var all := [c] + s;
    assert forall k :: 0 <= k < |s| ==> all[k + 1] == s[k];
  }

  lemma DropCrBehind(c: char, head: string)
    requires head == "" ==> c != '\r'
    ensures DropCr([c] + head) == [c] + DropCr(head)
  {
    if head != "" {
      var all := [c] + head;
      assert all[|head|] == head[|head| - 1] && all[..|head|] == [c] + head[..|head| - 1];
    }
  }

  lemma FirstLonger(c: char, s: string)
    requires c != '\n' && !(c == '\r' && s != "" && s[0] == '\n')
    ensures SplitLines([c] + s) == [[c] + SplitLines(s)[0]] + SplitLines(s)[1..]
  {
    BreakFurther(c, s);
    var i, all := IndexOf(s, '\n'), [c] + s;
    if i < |s| {
      assert all[..i + 1] == [c] + s[..i] && all[i + 2..] == s[i + 1..];
      DropCrBehind(c, s[..i]);
      assert SplitLines(s)[1..] == SplitLines(s[i + 1..]);
    }
  }

  lemma FirstEmpty(s: string)
    ensures SplitLines("\n" + s) == [""] + SplitLines(s) && SplitLines("\r\n" + s) == [""] + SplitLines(s)
  {
    SplitLinesAt("", s);
    assert "" + "\n" + s == "\n" + s;
    SplitLinesAt("\r", s);
    assert "\r" + "\n" + s == "\r\n" + s;
  }

  /** A written value is its lines with backslash-n between them. */
  lemma {:induction false} EscapedExactly(s: string)
    ensures DotenvValue(s) == Joined(SplitLines(s), "\\n")
  {
    if s == "" {
    } else if |s| >= 2 && s[0] == '\r' && s[1] == '\n' {
      EscapedExactly(s[2..]);
      BreakEscaped(s[2..]);
      assert s == "\r\n" + s[2..];
    } else if s[0] == '\n' {
      EscapedExactly(s[1..]);
      BreakEscaped(s[1..]);
      assert s == "\n" + s[1..];
    } else {
      EscapedExactly(s[1..]);
      CharEscaped(s[0], s[1..]);
      assert s == [s[0]] + s[1..];
    }
  }

  lemma CharEscaped(c: char, rest: string)
    requires c != '\n' && !(c == '\r' && rest != "" && rest[0] == '\n')
    ensures Joined(SplitLines([c] + rest), "\\n") == [c] + Joined(SplitLines(rest), "\\n")
  {
    FirstLonger(c, rest);
    JoinedLonger(c, SplitLines(rest), "\\n");
  }

  lemma BreakEscaped(rest: string)
    ensures Joined(SplitLines("\n" + rest), "\\n") == "\\n" + Joined(SplitLines(rest), "\\n")
    ensures SplitLines("\r\n" + rest) == SplitLines("\n" + rest)
  {
    FirstEmpty(rest);
    JoinedAfter(SplitLines(rest), "\\n");
  }

  function SecretText(e: Entry): string {
    e.key + "=" + Joined(SplitLines(e.value), "\\n") + "\n"
  }

  /** The whole document, byte for byte. */
  lemma DocumentExactly(c: Credentials)
    ensures DocumentText(c)
         == "# Generated for role=" + c.role + "; app_slug=" + c.slug + "\n"
            + (c.id.key + "=" + c.id.value + "\n"
               + (SecretText(c.pem) + if c.webhook.Some? then SecretText(c.webhook.value) else ""))
  {
    EscapedExactly(c.pem.value);
    var lines, none := DocumentLines(c), [""];
    if c.webhook.Some? {
      EscapedExactly(c.webhook.value.value);
      assert lines == [Header(c), EntryLine(c.id), SecretLine(c.pem), SecretLine(c.webhook.value), ""];
      assert lines[3..] == [SecretLine(c.webhook.value), ""];
      assert JoinWith(lines[3..], '\n') == SecretLine(c.webhook.value) + "\n";
    } else {
      assert lines == [Header(c), EntryLine(c.id), SecretLine(c.pem), ""];
      assert lines[3..] == none;
    }
    assert lines[1..][1..] == lines[2..] && lines[2..][1..] == lines[3..];
    assert JoinWith(lines[2..], '\n') == SecretText(c.pem) + JoinWith(lines[3..], '\n');
    assert JoinWith(lines[1..], '\n') == c.id.key + "=" + c.id.value + "\n" + JoinWith(lines[2..], '\n');
  }
}
