/** Finding the OpenAI key: the `OPENAI_API_KEY` environment variable, or
    else the first usable `OPENAI_API_KEY=...` line of the `.env` file.

    The environment and the file's lines (already split, with line ends and
    empty lines dropped) are parameters. */
module ApiKey {
  import opened Text

  const KEY_NAME: string := "OPENAI_API_KEY"
  const PLACEHOLDER: string := "your_api_key_here"

  /** `explode('=', $line, 2)`: the text before the first `=` and the text after it */
  function SplitAtEquals(line: string): (r: Option<(string, string)>)
    ensures r.None? <==> '=' !in line
    ensures r.Some? ==> '=' !in r.value.0 && line == r.value.0 + "=" + r.value.1
    decreases |line|
  {
    if line == [] then None
    else if line[0] == '=' then Some(([], line[1..]))
    else match SplitAtEquals(line[1..])
      case None => None
      case Some((name, value)) => Some(([line[0]] + name, value))
  }

  /** the line sets a usable key: the name is exact and the value is not empty, `0` or the placeholder */
  function KeyOfLine(line: string): (v: Option<string>)
    ensures v.Some? ==> line == KEY_NAME + "=" + v.value && !PhpEmpty(v.value) && v.value != PLACEHOLDER
  {
    match SplitAtEquals(line)
    case None => None
    case Some((name, value)) =>
      if name == KEY_NAME && !PhpEmpty(value) && value != PLACEHOLDER then Some(value) else None
  }

  /** the key of the first line from `from` on that sets one */
  function KeyFromLines(lines: seq<string>, from: nat): (v: Option<string>)
    requires from <= |lines|
    ensures v.Some? ==> exists j :: from <= j < |lines| && KeyOfLine(lines[j]) == v
    ensures v.None? ==> forall j :: from <= j < |lines| ==> KeyOfLine(lines[j]).None?
    decreases |lines| - from
  {
    if from == |lines| then None
    else if KeyOfLine(lines[from]).Some? then KeyOfLine(lines[from])
    else KeyFromLines(lines, from + 1)
  }

  /** the key `process_files.php` ends up with: `getenv` gives `false` (here None) when unset */
  function ResolvedKey(env: Option<string>, envFile: Option<seq<string>>): (key: Option<string>)
    ensures env.Some? && !PhpEmpty(env.value) ==> key == env
    ensures !(env.Some? && !PhpEmpty(env.value)) && envFile.Some? && KeyFromLines(envFile.value, 0).Some? ==>
      key == KeyFromLines(envFile.value, 0)
    ensures !(env.Some? && !PhpEmpty(env.value)) && (envFile.None? || KeyFromLines(envFile.value, 0).None?) ==>
      key == env
  {
    if env.Some? && !PhpEmpty(env.value) then env
    else match envFile
      case None => env
      case Some(lines) =>
        match KeyFromLines(lines, 0)
        case Some(v) => Some(v)
        case None => env
  }

  /** the scan of the `.env` lines, stopping at the first usable key */
  method ScanEnvLines(lines: seq<string>) returns (key: Option<string>)
    ensures key == KeyFromLines(lines, 0)
  {
    key := None;
    var i := 0;
    while i < |lines|
      invariant 0 <= i <= |lines|
      invariant KeyFromLines(lines, 0) == KeyFromLines(lines, i)
      invariant key == None
      decreases |lines| - i
    {
      var parts := SplitAtEquals(lines[i]);
      if parts.Some? {
        var (name, value) := parts.value;
        if name == KEY_NAME && !PhpEmpty(value) && value != PLACEHOLDER {
          key := Some(value);
          break;
        }
      }
      i := i + 1;
    }
  }

  /** `$apiKey = getenv(...)`, then the `.env` file when that is empty */
  method LookUpApiKey(env: Option<string>, envFile: Option<seq<string>>) returns (apiKey: Option<string>)
    ensures apiKey == ResolvedKey(env, envFile)
  {
    apiKey := env;
    if !(env.Some? && !PhpEmpty(env.value)) && envFile.Some? {
      var found := ScanEnvLines(envFile.value);
      if found.Some? {
        apiKey := found;
      }
    }
  }

  // ---------------------------------------------------------------- properties

  /** `explode` is undone by joining the two parts again with `=`. */
  lemma {:induction false} SplitJoin(name: string, value: string)
    requires '=' !in name
    ensures SplitAtEquals(name + "=" + value) == Some((name, value))
    decreases |name|
  {
    if name == [] {
      assert name + "=" + value == ['='] + value;
    } else {
      assert (name + "=" + value)[1..] == name[1..] + "=" + value;
      SplitJoin(name[1..], value);
      assert [name[0]] + name[1..] == name;
    }
  }

  /** A line `OPENAI_API_KEY=v` sets v exactly when v is neither empty nor the placeholder. */
  lemma {:induction false} KeyLine(v: string)
    ensures KeyOfLine(KEY_NAME + "=" + v) == (if !PhpEmpty(v) && v != PLACEHOLDER then Some(v) else None)
  {
    SplitJoin(KEY_NAME, v);
  }

  /** The first usable line wins: lines after it do not change the key. */
  lemma {:induction false} FirstKeyWins(a: seq<string>, b: seq<string>, from: nat)
    requires from <= |a| && KeyFromLines(a, from).Some?
    ensures KeyFromLines(a + b, from) == KeyFromLines(a, from)
    decreases |a| - from
  {
    assert (a + b)[from] == a[from];
    if KeyOfLine(a[from]).None? {
      FirstKeyWins(a, b, from + 1);
    }
  }
}
