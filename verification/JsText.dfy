/** The few JavaScript string operations the text transformers are written in:
    trimming, splitting on line breaks or on a single character, and joining. */
module JsText {

  /** JavaScript's WhiteSpace and LineTerminator code points: what `trim` removes and `\s` matches. */
  predicate IsSpace(c: char) {
    c == ' ' || '\t' <= c <= '\r' || c == '\U{A0}' || c == '\U{1680}' || '\U{2000}' <= c <= '\U{200A}'
    || c == '\U{2028}' || c == '\U{2029}' || c == '\U{202F}' || c == '\U{205F}' || c == '\U{3000}' || c == '\U{FEFF}'
  }

  predicate AllSpace(s: string) {
    forall i :: 0 <= i < |s| ==> IsSpace(s[i])
  }

  function TrimStart(s: string): string {
    if s != "" && IsSpace(s[0]) then TrimStart(s[1..]) else s
  }

  function TrimEnd(s: string): string {
    if s != "" && IsSpace(s[|s| - 1]) then TrimEnd(s[..|s| - 1]) else s
  }

  function Trim(s: string): string {
    TrimEnd(TrimStart(s))
  }

  function LowerChar(c: char): char {
    if 'A' <= c <= 'Z' then (c as int + 32) as char else c
  }

  /** Folding of the ASCII letters, as a case-insensitive expression without the u flag does it. */
  function LowerAscii(s: string): string {
    if s == "" then "" else [LowerChar(s[0])] + LowerAscii(s[1..])
  }

  /** `s.toLowerCase()` as far as it can reach an ASCII word: the Kelvin sign also becomes a k. */
  function ToLowerCase(s: string): string {
    if s == "" then ""
    else [if s[0] == '\U{212A}' then 'k' else LowerChar(s[0])] + ToLowerCase(s[1..])
  }

  /** `s.startsWith(prefix)` */
  predicate StartsWith(s: string, prefix: string) {
    prefix <= s
  }

  /** `s.endsWith('\n')` */
  predicate EndsWithLf(s: string) {
    s != "" && s[|s| - 1] == '\n'
  }

  /** `s.indexOf(c)`, with |s| where JavaScript answers -1. */
  function IndexOf(s: string, c: char): (i: nat)
    ensures i <= |s|
    ensures forall k :: 0 <= k < i ==> s[k] != c
    ensures i < |s| ==> s[i] == c
  {
    IndexFrom(s, c, 0)
  }

  function IndexFrom(s: string, c: char, from: nat): (i: nat)
    requires from <= |s|
    ensures from <= i <= |s|
    ensures forall k :: from <= k < i ==> s[k] != c
    ensures i < |s| ==> s[i] == c
    decreases |s| - from
  {
    if from == |s| || s[from] == c then from else IndexFrom(s, c, from + 1)
  }

  /** `s.split(c)` */
  function SplitOn(s: string, c: char): (words: seq<string>)
    ensures |words| >= 1
    decreases |s|
  {
    var i := IndexOf(s, c);
    if i == |s| then [s] else [s[..i]] + SplitOn(s[i + 1..], c)
  }

  function DropCr(line: string): string {
    if line != "" && line[|line| - 1] == '\r' then line[..|line| - 1] else line
  }

  /** `s.split(/\r?\n/)`: the break before a line feed takes at most one carriage return. */
  function SplitLines(s: string): (lines: seq<string>)
    ensures |lines| >= 1
    decreases |s|
  {
    var i := IndexOf(s, '\n');
    if i == |s| then [s] else [DropCr(s[..i])] + SplitLines(s[i + 1..])
  }

  /** `parts.join(c)` for a one-character separator. */
  function JoinWith(parts: seq<string>, c: char): string {
    if |parts| == 0 then ""
    else if |parts| == 1 then parts[0]
    else parts[0] + [c] + JoinWith(parts[1..], c)
  }

  predicate Lacks(s: string, c: char) {
    forall i :: 0 <= i < |s| ==> s[i] != c
  }

  predicate AllLack(parts: seq<string>, c: char) {
    forall i :: 0 <= i < |parts| ==> Lacks(parts[i], c)
  }

  /** What the line breaks of a joined text leave of its lines: every line but the
      last one loses one carriage return. */
  function Chomp(lines: seq<string>): (r: seq<string>)
    ensures |r| == |lines|
  {
    seq(|lines|, i requires 0 <= i < |lines| => if i < |lines| - 1 then DropCr(lines[i]) else lines[i])
  }

  // ---- locating the first separator ----

  lemma IndexOfConcat(a: string, c: char, b: string)
    requires Lacks(a, c)
    ensures IndexOf(a + [c] + b, c) == |a|
    ensures (a + [c] + b)[..|a|] == a && (a + [c] + b)[|a| + 1..] == b
  {
    var s := a + [c] + b;
    assert s[|a|] == c;
    assert forall i :: 0 <= i < |a| ==> s[i] == a[i];
  }

  lemma IndexOfAbsent(a: string, c: char)
    requires Lacks(a, c)
    ensures IndexOf(a, c) == |a|
  {
  }

  // ---- joining and splitting are inverse ----

  /** The first word ends at the first separator. */
  lemma SplitOnAt(head: string, c: char, rest: string)
    requires Lacks(head, c)
    ensures SplitOn(head + [c] + rest, c) == [head] + SplitOn(rest, c)
  {
    IndexOfConcat(head, c, rest);
  }

  lemma {:induction false} SplitOnJoin(parts: seq<string>, c: char)
    requires |parts| >= 1 && AllLack(parts, c)
    ensures SplitOn(JoinWith(parts, c), c) == parts
  {
    if |parts| == 1 {
      IndexOfAbsent(parts[0], c);
    } else {
      var rest := JoinWith(parts[1..], c);
      SplitOnJoin(parts[1..], c);
      SplitOnAt(parts[0], c, rest);
      assert JoinWith(parts, c) == parts[0] + [c] + rest;
    }
  }

  /** Splitting a text at one of its separators splits the two halves. */
  lemma {:induction false} SplitOnConcat(a: string, c: char, b: string)
    ensures SplitOn(a + [c] + b, c) == SplitOn(a, c) + SplitOn(b, c)
    decreases |a|
  {
    var i := IndexOf(a, c);
    if i == |a| {
      SplitOnAt(a, c, b);
    } else {
      var head, tail := a[..i], a[i + 1..];
      var rest := tail + [c] + b;
      var ws, vs := SplitOn(tail, c), SplitOn(b, c);
      assert SplitOn(rest, c) == ws + vs by {
        SplitOnConcat(tail, c, b);
      }
      assert SplitOn(a + [c] + b, c) == [head] + SplitOn(rest, c) by {
        CutOnAt(a, i, c, b);
        SplitOnAt(head, c, rest);
      }
      assert SplitOn(a, c) == [head] + ws;
      assert [head] + (ws + vs) == ([head] + ws) + vs;
    }
  }

  lemma CutOnAt(a: string, i: nat, c: char, b: string)
    requires i < |a| && a[i] == c
    ensures a + [c] + b == a[..i] + [c] + (a[i + 1..] + [c] + b)
  {
  }

  lemma {:induction false} JoinOfSplit(s: string, c: char)
    ensures JoinWith(SplitOn(s, c), c) == s
    decreases |s|
  {
    var i := IndexOf(s, c);
    if i < |s| {
      var head, tail := s[..i], s[i + 1..];
      var words := SplitOn(tail, c);
      assert JoinWith(words, c) == tail by {
        JoinOfSplit(tail, c);
      }
      assert SplitOn(s, c) == [head] + words;
      assert JoinWith([head] + words, c) == head + [c] + tail by {
        assert ([head] + words)[1..] == words;
      }
      assert s == head + [c] + tail;
    }
  }

  /** The first line ends at the first line feed. */
  lemma SplitLinesAt(head: string, rest: string)
    requires Lacks(head, '\n')
    ensures SplitLines(head + "\n" + rest) == [DropCr(head)] + SplitLines(rest)
  {
    IndexOfConcat(head, '\n', rest);
  }

  lemma OneLineConcat(a: string, b: string)
    requires Lacks(a, '\n')
    ensures var la := SplitLines(a); var n := |la| - 1;
            SplitLines(a + "\n" + b) == la[..n] + [DropCr(la[n])] + SplitLines(b)
  {
    SplitLinesAt(a, b);
    IndexOfAbsent(a, '\n');
    var la := SplitLines(a);
    assert la == [a] && la[..0] == [];
  }

  /** Splitting a text at one of its line feeds splits the two halves; the left half
      loses at most one carriage return. */
  lemma {:induction false} SplitLinesConcat(a: string, b: string)
    ensures var la := SplitLines(a); var n := |la| - 1;
            SplitLines(a + "\n" + b) == la[..n] + [DropCr(la[n])] + SplitLines(b)
    decreases |a|
  {
    var i := IndexOf(a, '\n');
    if i == |a| {
      OneLineConcat(a, b);
    } else {
      var head, tail := a[..i], a[i + 1..];
      var la, lt, lb := SplitLines(a), SplitLines(tail), SplitLines(b);
      var rest := SplitLines(tail + "\n" + b);
      var whole := SplitLines(a + "\n" + b);
      assert rest == lt[..|lt| - 1] + [DropCr(lt[|lt| - 1])] + lb by {
        SplitLinesConcat(tail, b);
      }
      assert whole == [DropCr(head)] + rest by {
        SplitLinesAt(head, tail + "\n" + b);
        CutAt(a, i, b);
      }
      assert la == [DropCr(head)] + lt;
      FirstLineKept(DropCr(head), lt, lb, la, rest, whole);
    }
  }

  lemma CutAt(a: string, i: nat, b: string)
    requires i < |a| && a[i] == '\n'
    ensures a + "\n" + b == a[..i] + "\n" + (a[i + 1..] + "\n" + b)
  {
  }

  lemma FirstLineKept(first: string, lt: seq<string>, lb: seq<string>, la: seq<string>, rest: seq<string>,
                      whole: seq<string>)
    requires |lt| >= 1 && rest == lt[..|lt| - 1] + [DropCr(lt[|lt| - 1])] + lb
    requires la == [first] + lt && whole == [first] + rest
    ensures whole == la[..|la| - 1] + [DropCr(la[|la| - 1])] + lb
  {
  }

  lemma ChompCons(lines: seq<string>)
    requires |lines| >= 2
    ensures Chomp(lines) == [DropCr(lines[0])] + Chomp(lines[1..])
  {
  }

  lemma {:induction false} SplitLinesJoin(lines: seq<string>)
    requires |lines| >= 1 && AllLack(lines, '\n')
    ensures SplitLines(JoinWith(lines, '\n')) == Chomp(lines)
  {
    if |lines| == 1 {
      IndexOfAbsent(lines[0], '\n');
    } else {
      var tail := lines[1..];
      var rest := JoinWith(tail, '\n');
      assert SplitLines(rest) == Chomp(tail) by {
        SplitLinesJoin(tail);
      }
      SplitLinesAt(lines[0], rest);
      ChompCons(lines);
      assert JoinWith(lines, '\n') == lines[0] + "\n" + rest;
    }
  }

  /** Splitting into lines is splitting at every line feed and taking one carriage return off the end of every
      piece but the last. */
  lemma {:induction false} SplitLinesExactly(s: string)
    ensures |SplitLines(s)| == |SplitOn(s, '\n')|
    ensures forall i :: 0 <= i < |SplitLines(s)| ==>
      var piece, line := SplitOn(s, '\n')[i], SplitLines(s)[i];
      if i < |SplitLines(s)| - 1 && piece != "" && piece[|piece| - 1] as int == 13 then line + "\r" == piece else line == piece
    decreases |s|
  {
    var i := IndexOf(s, '\n');
    if i < |s| {
      SplitLinesExactly(s[i + 1..]);
    }
  }

  lemma {:induction false} SplitLinesLack(s: string)
    ensures AllLack(SplitLines(s), '\n')
    decreases |s|
  {
    var i := IndexOf(s, '\n');
    if i < |s| {
      SplitLinesLack(s[i + 1..]);
    }
  }

  lemma {:induction false} JoinWithConcat(a: seq<string>, b: seq<string>, c: char)
    requires |a| >= 1 && |b| >= 1
    ensures JoinWith(a + b, c) == JoinWith(a, c) + [c] + JoinWith(b, c)
  {
    if |a| == 1 {
      assert (a + b)[1..] == b;
    } else {
      assert (a + b)[1..] == a[1..] + b;
      JoinWithConcat(a[1..], b, c);
    }
  }

  /** Two lists of separator-free parts join to the same text only if they are the same list. */
  lemma JoinWithInjective(a: seq<string>, b: seq<string>, c: char)
    requires |a| >= 1 && |b| >= 1 && AllLack(a, c) && AllLack(b, c)
    requires JoinWith(a, c) == JoinWith(b, c)
    ensures a == b
  {
    SplitOnJoin(a, c);
    SplitOnJoin(b, c);
  }

  // ---- what trimming and folding are ----

  /** The code points of JavaScript's white space and line terminators. */
  lemma SpaceCodes(c: char)
    ensures var n := c as int;
            IsSpace(c) <==> n == 32 || n == 160 || n == 65279 || n == 5760 || n == 8239 || n == 8287 || n == 12288
                            || 9 <= n <= 13 || 8192 <= n <= 8202 || n == 8232 || n == 8233
  {
  }

  /** `t` is what stays of `s` between the blanks at its ends. */
  ghost predicate Trimmed(s: string, t: string) {
    exists a, b :: Between(s, t, a, b)
  }

  predicate Between(s: string, t: string, a: int, b: int) {
    0 <= a <= b <= |s| && t == s[a..b] && AllSpace(s[..a]) && AllSpace(s[b..])
    && (t == "" || (!IsSpace(t[0]) && !IsSpace(t[|t| - 1])))
  }

  lemma {:induction false} TrimStartBy(s: string) returns (a: nat)
    ensures a <= |s| && TrimStart(s) == s[a..] && AllSpace(s[..a]) && (a < |s| ==> !IsSpace(s[a]))
  {
    if s != "" && IsSpace(s[0]) {
      var k := TrimStartBy(s[1..]);
      a := k + 1;
      assert s[..a] == [s[0]] + s[1..][..k];
    } else {
      a := 0;
    }
  }

  lemma {:induction false} TrimEndBy(s: string) returns (b: nat)
    ensures b <= |s| && TrimEnd(s) == s[..b] && AllSpace(s[b..]) && (b > 0 ==> !IsSpace(s[b - 1]))
  {
    if s != "" && IsSpace(s[|s| - 1]) {
      var n := |s| - 1;
      b := TrimEndBy(s[..n]);
      assert s[b..] == s[..n][b..] + [s[n]] && s[..n][..b] == s[..b];
    } else {
      b := |s|;
    }
  }

  /** Trimming takes the blanks off both ends and nothing else. */
  lemma TrimExactly(s: string)
    ensures Trimmed(s, Trim(s))
  {
    var a := TrimStartBy(s);
    var t := TrimStart(s);
    var b := TrimEndBy(t);
    assert t[..b] == s[a..a + b] && t[b..] == s[a + b..];
    if b == 0 {
      assert Between(s, "", |s|, |s|);
    } else {
      assert t[0] == s[a];
      assert Between(s, Trim(s), a, a + b);
    }
  }

  /** Two cuts that leave only characters of one kind outside, and none of them at the ends inside, are the same. */
  lemma CutUnique(s: string, outer: char -> bool, a: nat, b: nat, c: nat, d: nat)
    requires a <= b <= |s| && c <= d <= |s|
    requires forall i :: 0 <= i < |s| && (i < a || b <= i || i < c || d <= i) ==>
      ((i < a || b <= i ==> outer(s[i])) && (i < c || d <= i ==> outer(s[i])))
    requires a < b ==> !outer(s[a]) && !outer(s[b - 1])
    requires c < d ==> !outer(s[c]) && !outer(s[d - 1])
    ensures s[a..b] == s[c..d]
  {
  }

  lemma BlankOutside(s: string, t: string, a: nat, b: nat)
    requires Between(s, t, a, b)
    ensures forall i :: 0 <= i < a || b <= i < |s| ==> IsSpace(s[i])
    ensures a < b ==> !IsSpace(s[a]) && !IsSpace(s[b - 1])
  {
    assert forall i :: 0 <= i < a ==> s[..a][i] == s[i];
    assert forall i :: b <= i < |s| ==> s[b..][i - b] == s[i];
    if a < b {
      assert t[0] == s[a] && t[|t| - 1] == s[b - 1];
    }
  }

  lemma TrimmedUnique(s: string, t: string, u: string)
    requires Trimmed(s, t) && Trimmed(s, u)
    ensures t == u
  {
    var a, b :| Between(s, t, a, b);
    var c, d :| Between(s, u, c, d);
    assert s[a..b] == s[c..d] by {
      BlankOutside(s, t, a, b);
      BlankOutside(s, u, c, d);
      CutUnique(s, IsSpace, a, b, c, d);
    }
  }

  lemma TrimmedIs(s: string, t: string)
    ensures Trimmed(s, t) <==> t == Trim(s)
  {
    TrimExactly(s);
    if Trimmed(s, t) {
      TrimmedUnique(s, t, Trim(s));
    }
  }

  /** Lower-casing works letter by letter: A to Z move by 32, the Kelvin sign becomes a k. */
  lemma {:induction false} ToLowerCaseExactly(s: string)
    ensures |ToLowerCase(s)| == |s|
    ensures forall i :: 0 <= i < |s| ==>
      ToLowerCase(s)[i] as int == (if 65 <= s[i] as int <= 90 then s[i] as int + 32
                                   else if s[i] as int == 8490 then 107 else s[i] as int)
  {
    if s != "" {
      ToLowerCaseExactly(s[1..]);
    }
  }

  /** And the folding of a case-insensitive expression likewise. */
  lemma {:induction false} LowerAsciiExactly(s: string)
    ensures |LowerAscii(s)| == |s|
    ensures forall i :: 0 <= i < |s| ==>
      LowerAscii(s)[i] as int == if 65 <= s[i] as int <= 90 then s[i] as int + 32 else s[i] as int
  {
    if s != "" {
      LowerAsciiExactly(s[1..]);
    }
  }

  // ---- trimming ----

  lemma {:induction false} TrimEndKeepsFirst(s: string)
    requires s != "" && !IsSpace(s[0])
    ensures TrimEnd(s) != "" && TrimEnd(s)[0] == s[0]
  {
    if IsSpace(s[|s| - 1]) {
      TrimEndKeepsFirst(s[..|s| - 1]);
    }
  }

  /** One more blank at the end of a line changes nothing that looks at the trimmed line. */
  lemma {:induction false} TrimIgnoresLastSpace(s: string)
    requires s != "" && IsSpace(s[|s| - 1])
    ensures Trim(s[..|s| - 1]) == Trim(s)
  {
    var t := s[..|s| - 1];
    if t == "" {
      assert TrimStart(s) == TrimStart(s[1..]);
    } else if IsSpace(s[0]) {
      assert s[1..][..|s| - 2] == t[1..];
      assert s[1..] != "" && s[1..][|s| - 2] == s[|s| - 1];
      TrimIgnoresLastSpace(s[1..]);
      assert TrimStart(t) == TrimStart(t[1..]);
    } else {
      assert TrimStart(t) == t && TrimStart(s) == s;
    }
  }

  lemma TrimDropCr(line: string)
    ensures Trim(DropCr(line)) == Trim(line)
  {
    if line != "" && line[|line| - 1] == '\r' {
      TrimIgnoresLastSpace(line);
    }
  }
}
