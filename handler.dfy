/** scripts/telegram_handler.py: the `/recipe <url>` command. It checks the
    URL against a case-insensitive platform allow-list, runs the pipeline as a
    subprocess (whose result is an input here), and reports either the title
    the pipeline printed or the tail of its error output. */
module Handler {
  import opened Wrappers
  import opened Text
  import opened Platforms

  const ValidPlatforms: seq<string> := ["tiktok", "instagram", "youtube", "youtu.be"]
  const TitlePrefix := "Recipe:"
  const StderrLimit: nat := 500

  const UsageMessage := "Usage: /recipe <video-url>"
  const UnsupportedMessage := "⚠️ Unsupported platform. Supported: tiktok, instagram, youtube, youtu.be"
  const FailureMessage := "❌ Failed to process recipe"
  const SiteLine := "🔗 https://jonahenk.github.io/recipes/"

  function SuccessLines(title: string): seq<string>
  {
    ["✅ Added recipe: **" + title + "**", SiteLine]
  }

  /** The finished pipeline subprocess. */
  datatype ProcessResult = ProcessResult(returncode: int, stdout: string, stderr: string)

  /** `any(p in text for p in platforms)`. */
  function AnyContained(text: string, platforms: seq<string>): (r: bool)
    ensures r <==> exists i :: 0 <= i < |platforms| && Contains(text, platforms[i])
    decreases |platforms|
  {
    if |platforms| == 0 then false
    else Contains(text, platforms[0]) || AnyContained(text, platforms[1..])
  }

  /** The allow-list check: the lower-cased URL contains one of the four
      platform names. */
  function IsSupportedUrl(url: string): (ok: bool)
    ensures ok <==> Contains(Lower(url), "tiktok") || Contains(Lower(url), "instagram") ||
                    Contains(Lower(url), "youtube") || Contains(Lower(url), "youtu.be")
  {
    var r := AnyContained(Lower(url), ValidPlatforms);
    assert r <==> exists i :: 0 <= i < 4 && Contains(Lower(url), ValidPlatforms[i]);
    r
  }

  /** Upper or lower case makes no difference to the check. */
  lemma SupportedIgnoresCase(url: string)
    ensures IsSupportedUrl(Lower(url)) == IsSupportedUrl(url)
  {
    LowerIdempotent(url);
  }

  /** Every URL the pipeline labels with a platform passes the allow-list. */
  lemma DetectedPlatformIsSupported(url: string)
    requires DetectPlatform(url) != Unknown
    ensures IsSupportedUrl(url)
  {
    var p := Name(DetectPlatform(url));
    assert NoUpper(p);
    ContainsLower(url, p);
  }

  /** The converse fails: an upper-case TikTok URL passes the allow-list but
      is labelled `unknown` by the pipeline. */
  lemma SupportedButUndetected(url: string)
    requires url == "TIKTOK"
    ensures IsSupportedUrl(url) && DetectPlatform(url) == Unknown
  {
    assert Lower(url) == "tiktok";
    assert StartsWith(Lower(url), "tiktok");
    UpperCaseIsUnknown(url);
  }

  // ---------------------------------------------------------------------------
  // The title line
  // ---------------------------------------------------------------------------

  /** `line.replace('Recipe:', '').strip()`. */
  function TitleOf(line: string): (title: string)
    ensures |title| <= |line|
    ensures |title| == 0 || (!IsSpace(title[0]) && !IsSpace(title[|title| - 1]))
  {
    var removed := ReplaceAll(line, TitlePrefix, "");
    StripShape(removed);
    Strip(removed)
  }

  predicate IsTitleLine(line: string) { StartsWith(line, TitlePrefix) }

  predicate HasTitleLine(lines: seq<string>) {
    exists i :: 0 <= i < |lines| && IsTitleLine(lines[i])
  }

  /** Line `i` is the first title line. */
  predicate FirstTitleLine(lines: seq<string>, i: int) {
    0 <= i < |lines| && IsTitleLine(lines[i]) && forall j :: 0 <= j < i ==> !IsTitleLine(lines[j])
  }

  /** The loop over `stdout.split('\n')` that stops at the first line
      starting with `Recipe:` and takes its title. */
  method FindTitle(stdout: string) returns (title: Option<string>)
    ensures title.Some? <==> HasTitleLine(Split(stdout, '\n'))
    ensures title.Some? ==>
              exists i :: FirstTitleLine(Split(stdout, '\n'), i) && title.value == TitleOf(Split(stdout, '\n')[i])
  {
    var lines := Split(stdout, '\n');
    var k := 0;
    while k < |lines|
      invariant k <= |lines|
      invariant forall j :: 0 <= j < k ==> !IsTitleLine(lines[j])
    {
      if StartsWith(lines[k], TitlePrefix) {
        assert FirstTitleLine(lines, k);
        return Some(TitleOf(lines[k]));
      }
      k := k + 1;
    }
    return None;
  }

  /** Only the leading prefix and any later occurrences are removed; for a
      title without the word the result is the stripped title. */
  lemma TitleOfPrefixed(t: string)
    requires !Contains(t, TitlePrefix)
    ensures TitleOf(TitlePrefix + t) == Strip(t)
  {
    assert (TitlePrefix + t)[..|TitlePrefix|] == TitlePrefix;
    assert (TitlePrefix + t)[|TitlePrefix|..] == t;
    assert |TitlePrefix| == 7;
    assert ReplaceAll(TitlePrefix + t, TitlePrefix, "") == "" + ReplaceAll(t, TitlePrefix, "");
    ReplaceAbsent(t, TitlePrefix, "");
    assert "" + t == t;
  }

  // ---------------------------------------------------------------------------
  // main
  // ---------------------------------------------------------------------------

  /** `main()` of the handler. `result` is what the pipeline subprocess
      returns when it is started. `output` lists the printed lines. */
  method HandleRecipeCommand(args: seq<string>, result: ProcessResult)
    returns (output: seq<string>, exitCode: int, pipelineStarted: bool)
    ensures |args| == 0 ==> output == [UsageMessage] && exitCode == 1 && !pipelineStarted
    ensures |args| > 0 && !IsSupportedUrl(args[0]) ==>
              output == [UnsupportedMessage] && exitCode == 1 && !pipelineStarted
    ensures pipelineStarted <==> |args| > 0 && IsSupportedUrl(args[0])
    ensures pipelineStarted ==> exitCode == 0
    ensures pipelineStarted && result.returncode == 0 ==>
              var lines := Split(result.stdout, '\n');
              && (output == [] <==> !HasTitleLine(lines))
              && (output != [] ==> exists i :: FirstTitleLine(lines, i) && output == SuccessLines(TitleOf(lines[i])))
    ensures pipelineStarted && result.returncode != 0 ==>
              output == [FailureMessage, Tail(result.stderr, StderrLimit)]
  {
    if |args| == 0 {
      return [UsageMessage], 1, false;
    }
    var url := args[0];
    if !IsSupportedUrl(url) {
      return [UnsupportedMessage], 1, false;
    }
    pipelineStarted := true;
    exitCode := 0;
    if result.returncode == 0 {
      var title := FindTitle(result.stdout);
      output := if title.Some? then SuccessLines(title.value) else [];
    } else {
      output := [FailureMessage, Tail(result.stderr, StderrLimit)];
    }
  }
}
