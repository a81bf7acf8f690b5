/**
 * Model of the batch driver in src/auto_process.py: the URL list file is
 * filtered line by line, the required environment variables are checked,
 * and each URL is handed to `process_podcast`, whose outcome is an oracle,
 * while successes are counted.
 */
module AutoProcess {
  import opened Strings

  // ---------------------------------------------------------------------
  // read_podcast_urls
  // ---------------------------------------------------------------------

  /** A line is kept when, stripped, it is non-empty and does not start with `#`. */
  predicate Keeps(line: string) {
    var s := Strip(line);
    s != "" && !StartsWith(s, "#")
  }

  /** The stripped lines that are kept, in order, once per occurrence. */
  function FilterUrls(lines: seq<string>): seq<string> {
    if lines == [] then []
    else
      var init := FilterUrls(lines[..|lines| - 1]);
      var line := lines[|lines| - 1];
      if Keeps(line) then init + [Strip(line)] else init
  }

  /** One more line adds its stripped text when it is kept. */
  lemma FilterUrlsSnoc(lines: seq<string>, line: string)
    ensures FilterUrls(lines + [line]) == FilterUrls(lines) + (if Keeps(line) then [Strip(line)] else [])
  {
    assert (lines + [line])[..|lines|] == lines;
  }

  /**
   * The lines of the file as `for line in f` yields them, up to their line
   * ending: the pieces between newlines (a final empty piece after a
   * closing newline strips to nothing and is never kept).
   */
  function FileLines(text: string): seq<string> {
    Split(text, '\n')
  }

  /** `read_podcast_urls` over the text of `podcast_urls.txt`. */
  method ReadPodcastUrls(text: string) returns (urls: seq<string>)
    ensures urls == FilterUrls(FileLines(text))
  {
    var lines := FileLines(text);
    urls := [];
    for i := 0 to |lines|
      invariant urls == FilterUrls(lines[..i])
    {
      assert lines[..i + 1] == lines[..i] + [lines[i]];
      FilterUrlsSnoc(lines[..i], lines[i]);
      var line := Strip(lines[i]);
      if line != "" && !StartsWith(line, "#") {
        urls := urls + [line];
      }
    }
    assert lines[..|lines|] == lines;
  }

  /** Every URL is stripped, non-empty, and does not start with `#`. */
  lemma {:induction false} UrlsAreClean(lines: seq<string>)
    ensures forall k :: 0 <= k < |FilterUrls(lines)| ==>
      var u := FilterUrls(lines)[k];
      IsStripped(u) && u != "" && u[0] != '#'
  {
    if lines != [] {
      var line := lines[|lines| - 1];
      UrlsAreClean(lines[..|lines| - 1]);
      StripSpec(line);
    }
  }

  /**
   * The filter works line by line: on two runs of lines it gives the URLs of
   * the first run followed by those of the second, so order and duplicates
   * are kept.
   */
  lemma {:induction false} FilterUrlsAppend(a: seq<string>, b: seq<string>)
    ensures FilterUrls(a + b) == FilterUrls(a) + FilterUrls(b)
    decreases |b|
  {
    if b == [] {
      assert a + b == a;
    } else {
      var b' := b[..|b| - 1];
      assert (a + b)[..|a + b| - 1] == a + b';
      FilterUrlsAppend(a, b');
    }
  }

  /** A single line gives its stripped text when it is kept, and nothing otherwise. */
  lemma FilterUrlsOne(line: string)
    ensures FilterUrls([line]) == if Keeps(line) then [Strip(line)] else []
  {
    assert [line][..0] == [];
  }

  /** Comment detection looks at the stripped line: indented `#` lines are dropped too. */
  lemma IndentedCommentDropped(rest: string)
    ensures FilterUrls(["  #" + rest]) == []
  {
    FilterUrlsOne("  #" + rest);
    var s := "  #" + rest;
    assert IsSpace(s[0]) && IsSpace(s[1]);
    assert TrimStart(s) == TrimStart(s[1..]);
    var t := "#" + rest;
    assert s[1..][0] == ' ' && s[1..][1..] == t;
    assert TrimStart(s[1..]) == TrimStart(t);
    assert !IsSpace(t[0]);
    assert TrimStart(s) == t;
    TrimEndSpec(t);
    var r := TrimEnd(t);
    assert r != [];
    assert r[0] == '#';
    assert StartsWith(Strip(s), "#");
  }

  // ---------------------------------------------------------------------
  // main
  // ---------------------------------------------------------------------

  /** The environment after `load_dotenv`: variable names to values. */
  type Env = map<string, string>

  const RequiredVars: seq<string> := ["OPENROUTER_API_KEY", "NOTION_TOKEN", "NOTION_DATABASE_ID"]

  /** `not os.getenv(var)`: the variable is unset or empty. */
  predicate Unset(env: Env, name: string) {
    name !in env || env[name] == ""
  }

  /** The names among `names` that are unset or empty, in order. */
  function MissingFrom(env: Env, names: seq<string>): seq<string> {
    if names == [] then []
    else (if Unset(env, names[0]) then [names[0]] else []) + MissingFrom(env, names[1..])
  }

  /** `missing_vars` of `main`. */
  function MissingVars(env: Env): seq<string> {
    MissingFrom(env, RequiredVars)
  }

  /** A name is reported missing exactly when it is required and unset or empty; each at most once, in declared order. */
  lemma {:induction false} MissingFromSpec(env: Env, names: seq<string>)
    ensures forall v :: v in MissingFrom(env, names) <==> v in names && Unset(env, v)
    ensures |MissingFrom(env, names)| <= |names|
    ensures (MissingFrom(env, names) == []) <==> forall k :: 0 <= k < |names| ==> !Unset(env, names[k])
  {
    if names != [] {
      MissingFromSpec(env, names[1..]);
      assert forall v :: v in names <==> v == names[0] || v in names[1..];
      assert forall k :: 0 < k < |names| ==> names[k] == names[1..][k - 1];
    }
  }

  /** For the three required names: the unset ones, in the declared order. */
  lemma MissingVarsOrder(env: Env)
    ensures MissingVars(env) ==
      (if Unset(env, "OPENROUTER_API_KEY") then ["OPENROUTER_API_KEY"] else [])
      + (if Unset(env, "NOTION_TOKEN") then ["NOTION_TOKEN"] else [])
      + (if Unset(env, "NOTION_DATABASE_ID") then ["NOTION_DATABASE_ID"] else [])
  {
    var a, b, c := "OPENROUTER_API_KEY", "NOTION_TOKEN", "NOTION_DATABASE_ID";
    assert RequiredVars[1..] == [b, c];
    assert [b, c][1..] == [c];
    assert [c][1..] == [];
    assert MissingFrom(env, [c]) == (if Unset(env, c) then [c] else []) + [];
    assert MissingFrom(env, [b, c]) == (if Unset(env, b) then [b] else []) + MissingFrom(env, [c]);
  }

  /** How `main` ends. */
  datatype MainOutcome =
    | MissingEnvironment(names: seq<string>)
    | NoValidUrls
    | Completed(successes: nat, total: nat)

  /** The number of `True` outcomes. */
  function CountTrue(outcomes: seq<bool>): (n: nat)
    ensures n <= |outcomes|
  {
    if outcomes == [] then 0
    else CountTrue(outcomes[..|outcomes| - 1]) + (if outcomes[|outcomes| - 1] then 1 else 0)
  }

  /** All outcomes succeed exactly when the count reaches the total; none do exactly when it is zero. */
  lemma {:induction false} CountTrueExtremes(outcomes: seq<bool>)
    ensures CountTrue(outcomes) == |outcomes| <==> forall k :: 0 <= k < |outcomes| ==> outcomes[k]
    ensures CountTrue(outcomes) == 0 <==> forall k :: 0 <= k < |outcomes| ==> !outcomes[k]
  {
    if outcomes != [] {
      var init := outcomes[..|outcomes| - 1];
      CountTrueExtremes(init);
      assert forall k :: 0 <= k < |init| ==> init[k] == outcomes[k];
    }
  }

  /** What `main` does, given the environment, the URL file and what `process_podcast` returns for each URL. */
  function MainSpec(env: Env, text: string, outcomes: seq<bool>): MainOutcome
    requires MissingVars(env) == [] ==> |FilterUrls(FileLines(text))| <= |outcomes|
  {
    var missing := MissingVars(env);
    if missing != [] then MissingEnvironment(missing)
    else
      var urls := FilterUrls(FileLines(text));
      if urls == [] then NoValidUrls
      else Completed(CountTrue(outcomes[..|urls|]), |urls|)
  }

  /**
   * `main` of the batch driver. `outcomes[i]` is what `process_podcast` returns for the `i`-th
   * URL; `processed` lists the URLs handed to it, in order.
   */
  method RunBatch(env: Env, text: string, outcomes: seq<bool>) returns (r: MainOutcome, processed: seq<string>)
    requires MissingVars(env) == [] ==> |FilterUrls(FileLines(text))| <= |outcomes|
    ensures r == MainSpec(env, text, outcomes)
    ensures processed == (if r.Completed? then FilterUrls(FileLines(text)) else [])
  {
    processed := [];
    var missing := MissingVars(env);
    if missing != [] {
      return MissingEnvironment(missing), processed;
    }
    var urls := ReadPodcastUrls(text);
    if urls == [] {
      return NoValidUrls, processed;
    }
    var successCount := 0;
    var totalCount := |urls|;
    for i := 0 to totalCount
      invariant successCount == CountTrue(outcomes[..i])
      invariant processed == urls[..i]
    {
      assert outcomes[..i + 1][..i] == outcomes[..i];
      processed := processed + [urls[i]];
      if outcomes[i] {
        successCount := successCount + 1;
      }
    }
    assert urls[..totalCount] == urls;
    r := Completed(successCount, totalCount);
  }

  /** `main` stops before reading any URL when a required variable is missing, and before processing when no URL is valid. */
  lemma MainEarlyReturns(env: Env, text: string, outcomes: seq<bool>)
    requires MissingVars(env) == [] ==> |FilterUrls(FileLines(text))| <= |outcomes|
    ensures MissingVars(env) != [] ==> MainSpec(env, text, outcomes) == MissingEnvironment(MissingVars(env))
    ensures MissingVars(env) == [] && FilterUrls(FileLines(text)) == [] ==> MainSpec(env, text, outcomes) == NoValidUrls
  {
  }

  /** A completed batch reports between 0 and all of its URLs as successes. */
  lemma CompletedCounts(env: Env, text: string, outcomes: seq<bool>)
    requires MissingVars(env) == [] ==> |FilterUrls(FileLines(text))| <= |outcomes|
    requires MainSpec(env, text, outcomes).Completed?
    ensures var r := MainSpec(env, text, outcomes);
      0 < r.total == |FilterUrls(FileLines(text))| && r.successes <= r.total
  {
  }

  // ---------------------------------------------------------------------
  // process_podcast
  // ---------------------------------------------------------------------

  /** `os.getenv('OUTPUT_FORMAT', 'txt')`: the default only when the variable is unset. */
  function OutputFormat(env: Env): string {
    if "OUTPUT_FORMAT" in env then env["OUTPUT_FORMAT"] else "txt"
  }

  /** `f"{podcast_title}.{output_format}"`. */
  function OutputFileName(title: string, env: Env): string {
    title + "." + OutputFormat(env)
  }

  /** The file name is the title, a dot, and the format, `txt` when none is configured. */
  lemma OutputFileNameParts(title: string, env: Env)
    ensures var f := OutputFileName(title, env);
      f[..|title|] == title && f[|title|] == '.' && f[|title| + 1..] == OutputFormat(env)
    ensures "OUTPUT_FORMAT" !in env ==> OutputFileName(title, env) == title + ".txt"
  {
    var f := OutputFileName(title, env);
    assert f == title + ("." + OutputFormat(env));
  }
}
