/** Writing App credentials as dotenv text, reading dotenv text, and unescaping a private key
    (scripts/app-manifest.mjs, scripts/lib/github-app-policy.mjs, apps/reaper/src/main.mjs). */
module Dotenv {
  import opened JsText
  import opened Wrappers

  // ---- writing ----

  /** `value.replace(/\r?\n/gu, '\\n')`: every line break becomes a backslash and an n. */
  function DotenvValue(s: string): string {
    if s == "" then ""
    else if |s| >= 2 && s[0] == '\r' && s[1] == '\n' then "\\n" + DotenvValue(s[2..])
    else if s[0] == '\n' then "\\n" + DotenvValue(s[1..])
    else [s[0]] + DotenvValue(s[1..])
  }

  /** The webhook secret an App role may have, with the name it is stored under. */
  datatype Entry = Entry(key: string, value: string)

  /** What one manifest conversion has to write. */
  datatype Credentials = Credentials(role: string, slug: string, id: Entry, pem: Entry, webhook: Option<Entry>)

  function EntryLine(e: Entry): string {
    e.key + "=" + e.value
  }

  function SecretLine(e: Entry): string {
    EntryLine(Entry(e.key, DotenvValue(e.value)))
  }

  function Header(c: Credentials): string {
    "# Generated for role=" + c.role + "; app_slug=" + c.slug
  }

  function DocumentLines(c: Credentials): seq<string> {
    [Header(c), EntryLine(c.id), SecretLine(c.pem)]
    + (if c.webhook.Some? then [SecretLine(c.webhook.value)] else [])
    + [""]
  }

  function DocumentText(c: Credentials): string {
    JoinWith(DocumentLines(c), '\n')
  }

  // ---- reading ----

  datatype Parsed = Parsed(values: map<string, string>, duplicates: seq<string>)

  datatype ParseError = InvalidEntry(line: nat) | InvalidKey(key: string, line: nat)

  predicate KeyForm(key: string) {
    key != "" && 'A' <= key[0] <= 'Z'
    && forall i :: 1 <= i < |key| ==> 'A' <= key[i] <= 'Z' || '0' <= key[i] <= '9' || key[i] == '_'
  }

  /** Blank lines and comments. */
  predicate Ignored(line: string) {
    Trim(line) == "" || Trim(line)[0] == '#'
  }

  /** What a key and its value add to what is already collected. */
  function After(p: Parsed, key: string, v: string): Parsed {
    Parsed(p.values[key := v], if key in p.values then p.duplicates + [key] else p.duplicates)
  }

  /** One line read with `p` already collected; `number` counts from one. */
  function ReadLine(line: string, number: nat, p: Parsed): Result<Parsed, ParseError> {
    if Ignored(line) then Ok(p)
    else
      var equals := IndexOf(line, '=');
      if equals == |line| || equals < 1 then Err(InvalidEntry(number))
      else
        var key := Trim(line[..equals]);
        if !KeyForm(key) then Err(InvalidKey(key, number))
        else Ok(After(p, key, line[equals + 1..]))
  }

  /** The lines from `from` on, read in order until one is invalid. */
  function ReadLines(lines: seq<string>, from: nat, p: Parsed): Result<Parsed, ParseError>
    requires from <= |lines|
    decreases |lines| - from
  {
    if from == |lines| then Ok(p)
    else
      var r := ReadLine(lines[from], from + 1, p);
      if r.Err? then r else ReadLines(lines, from + 1, r.value)
  }

  function ParsedDotenv(text: string): Result<Parsed, ParseError> {
    ReadLines(SplitLines(text), 0, Parsed(map[], []))
  }

  method ParseDotenv(text: string) returns (r: Result<Parsed, ParseError>)
    ensures r == ParsedDotenv(text)
  {
    var lines := SplitLines(text);
    var values: map<string, string>, duplicates: seq<string> := map[], [];
    var index := 0;
    while index < |lines|
      invariant index <= |lines|
      invariant ReadLines(lines, index, Parsed(values, duplicates)) == ParsedDotenv(text)
    {
      var rawLine := lines[index];
      var line := Trim(rawLine);
      if line != "" && line[0] != '#' {
        var equals := IndexOf(rawLine, '=');
        if equals == |rawLine| || equals < 1 {
          return Err(InvalidEntry(index + 1));
        }
        var key, value := Trim(rawLine[..equals]), rawLine[equals + 1..];
        if !KeyForm(key) {
          return Err(InvalidKey(key, index + 1));
        }
        if key in values {
          duplicates := duplicates + [key];
        }
        values := values[key := value];
      }
      index := index + 1;
    }
    r := Ok(Parsed(values, duplicates));
  }

  // ---- unescaping a private key ----

  /** `text.replace(/\\n/g, '\n')` */
  function UnescapeBreaks(s: string): string {
    if |s| < 2 then s
    else if s[0] == '\\' && s[1] == 'n' then "\n" + UnescapeBreaks(s[2..])
    else [s[0]] + UnescapeBreaks(s[1..])
  }

  /** `Encoded` keeps the base64 text undecoded. */
  datatype PrivateKey = NoKey | Encoded(base64: string) | Plain(text: string)

  function NormalizePrivateKey(value: Option<string>): PrivateKey {
    var text := if value.None? then "" else Trim(value.value);
    if text == "" then NoKey
    else if StartsWith(text, "base64:") then Encoded(text[7..])
    else Plain(UnescapeBreaks(text))
  }
}
