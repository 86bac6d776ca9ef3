# Recipe pipeline: a Dafny model

This project models the self-contained rules inside the recipe pipeline of
`scripts/pipeline.py` and the Telegram command handler of
`scripts/telegram_handler.py`. The pipeline turns a cooking-video URL into a
recipe record in a static-site repository. The handler checks a `/recipe <url>`
command and reports the pipeline's result. Everything outside the scripts is
an input of the model: the download service, ffmpeg, whisper, the language
model, the MD5 digest and the environment.

Modules:

- `Text`: the parts of Python's `str` that the scripts use, over ASCII. This
  covers `lower`, `isalnum`, `isspace`, `startswith`, `in`, `replace`,
  `rstrip('/')`, `strip()`, `split('\n')` and the tail slice.
- `Recipes`, `Wrappers`: the recipe record, the index entry and `Option`.
- `Slug`: the file-name slug of `save_to_github`. It is checked against a
  character-by-character reference definition.
- `Colors`: `generate_color_scheme`, with the MD5 value as a parameter.
- `Platforms`: the first-match, case-sensitive platform label of
  `extract_recipe`.
- `VideoDownload`: the retry loop of `download_video`. Each attempt's outcome
  comes from an oracle sequence. The method returns the trace of calls, pauses
  and fetches it made.
- `RecipeIndex`: the duplicate check at the start of `main`, which compares
  URLs after `rstrip('/')`. It also holds the append of `save_to_github`,
  which compares URLs exactly.
- `Pipeline`: the publish repository as a class, `save_to_github` as its
  method, and `main` as `RunPipeline` (checks) plus `RunStages` and
  `RunLaterStages` (the stages inside the `try`, split at the thumbnail).
- `Handler`: the handler's allow-list, title extraction, error tail and
  `main`.

In several places the code does something other than what its own names,
comments and messages suggest. The model follows the code:

- When a stage fails, `main` prints a message and returns `None`. The process
  then exits with status 0, so no failure is signalled. Only a missing
  argument, a missing API key and an uncaught exception exit with 1
  (`ExitStatus`). The handler's failure branch is therefore reached only
  through those cases.
- The publish step checks the index for the source URL by exact equality. It
  does not strip the trailing slash the way the check in `main` does. On its
  own, the append therefore lets a slash variant through
  (`ExactComparisonAdmitsSlashVariant`). The invariant "one entry per URL up
  to trailing slashes" holds for a run only because `main` checks first. It
  also needs the language model to echo the URL it was given
  (`RunPipeline`, `RunKeepsUniqueNormalizedUrls`).
- The platform label is case-sensitive and does not recognise `youtu.be`.
  The handler's allow-list is case-insensitive and does recognise it
  (`UpperCaseIsUnknown`, `ShortYouTubeIsUnknown`, `SupportedButUndetected`).
- The `max_retries=3` of `download_video` means 3 attempts in all, with 2
  pauses between them, not 3 retries after a first attempt
  (`AlwaysBusyBackend`).
- Once the pipeline has been started, the handler exits with status 0
  whatever the pipeline's exit status; only its printed lines differ
  (`HandleRecipeCommand`).
- A thumbnail whose ffmpeg run fails does not stop a run. But an ffmpeg run
  that exits 0 without writing its output file makes the `os.path.getsize`
  that follows raise, and the run crashes with status 1. This holds for the
  thumbnail stage as for the audio stage. A whisper run that exits 0
  without a transcript file crashes the run the same way (`RunStages`).
- A language-model reply that is not a JSON object, even a false one such
  as `null`, `[]` or `""`, raises at the `recipe.get(...)` of
  `extract_recipe`. Only the empty object `{}` reaches the
  `if not recipe` test and fails the stage without a crash.

## Model

| member | source | states |
|---|---|---|
| `Text.ToLower` | scripts/pipeline.py:224 | lower-casing maps `A`-`Z` to `a`-`z` (code point + 32); every other character is unchanged; the result is never upper-case |
| `Text.Lower` | scripts/pipeline.py:224 | `str.lower` keeps the length and lower-cases each character in place |
| `Text.LowerIdempotent` | scripts/telegram_handler.py:20 | a lower-cased string has no upper-case letter and lower-casing it again changes nothing |
| `Text.LowerOfNoUpper` | scripts/telegram_handler.py:20 | a string without upper-case letters is its own lower-case form |
| `Text.LowerAppend` | scripts/pipeline.py:224 | lower-casing distributes over concatenation |
| `Text.ContainsIff` | scripts/pipeline.py:149-154 | the substring test `p in s` (`Contains`, built on `startswith`, `StartsWith`) holds exactly when `p` occurs at some position of `s` |
| `Text.ContainsAcross` | scripts/pipeline.py:149-154 | when the first part ends in a character the pattern lacks, `p in a + b` holds exactly when `p in a` or `p in b` |
| `Text.ContainsPrefixOfPattern` | scripts/pipeline.py:149-150 | a text containing `p + q` contains `p` |
| `Text.ContainsChars` | scripts/pipeline.py:149-154 | every character of a contained pattern occurs in the text |
| `Text.ShorterNotContains` | scripts/pipeline.py:149-154 | a pattern longer than the text is never contained in it |
| `Text.MissingCharNotContains` | scripts/pipeline.py:149-154 | a pattern with a character the text lacks is not contained in it |
| `Text.ContainsLower` | scripts/telegram_handler.py:20 | lower-casing the text keeps every occurrence of a pattern that has no upper-case letter |
| `Text.ReplaceAll` | scripts/pipeline.py:224 | `replace` keeps the length when the replacement is as long as the pattern, and never lengthens the text when it is shorter |
| `Text.ReplaceCharAt` | scripts/pipeline.py:224 | `replace` of one character by one character keeps the length and changes exactly the matching positions |
| `Text.ReplaceAbsent` | scripts/telegram_handler.py:37 | `replace` leaves a text without an occurrence of the pattern unchanged |
| `Text.RemoveShortens` | scripts/telegram_handler.py:37 | `replace(pat, '')` never lengthens the text |
| `Text.RStrip` | scripts/pipeline.py:285 | `rstrip(c)` returns a prefix of the text, no longer than it, that does not end in `c` |
| `Text.RStripShape` | scripts/pipeline.py:285 | `rstrip(c)` returns a prefix that does not end in `c`, and the dropped part is a run of `c` |
| `Text.RStripFixed` | scripts/pipeline.py:285 | a text that does not end in `c` is its own `rstrip(c)` |
| `Text.RStripIdempotent` | scripts/pipeline.py:285 | `rstrip(c)` is idempotent |
| `Text.RStripPadded` | scripts/pipeline.py:287 | appending any number of `c` leaves `rstrip(c)` unchanged |
| `Text.RStripEqualIff` | scripts/pipeline.py:287 | two texts have equal `rstrip(c)` exactly when both are one text followed by runs of `c` |
| `Text.Strip` | scripts/telegram_handler.py:37 | `strip()` never lengthens the text (what it keeps is stated by `StripShape`) |
| `Text.StripShape` | scripts/telegram_handler.py:37 | `strip()` keeps one contiguous piece of the text, drops only whitespace on both sides, and its result neither starts nor ends with whitespace |
| `Text.Split` | scripts/telegram_handler.py:35 | `split('\n')` always yields at least one piece |
| `Text.SplitJoin` | scripts/telegram_handler.py:35 | joining the pieces of `split(sep)` with `sep` gives back the text, and no piece contains `sep` |
| `Text.Tail` | scripts/telegram_handler.py:43 | the printed error text is a suffix of stderr of length `min(500, len(stderr))` |
| `Colors.Turn` | scripts/pipeline.py:212-214 | the turn from one hue to another on the colour wheel is in 0..359 |
| `Colors.HueOf` | scripts/pipeline.py:207 | the hue is below 360 and differs from the hash by a multiple of 360 |
| `Colors.SchemeForHash` | scripts/pipeline.py:207-215 | all hues are on the wheel; the primary hue is the hash's hue; the secondary is 30 degrees on; the accent is 180 degrees away in both directions; the gradient runs from the primary colour to 40 degrees on, at 135 degrees; the saturations and lightnesses are the source's constants |
| `Colors.SchemeDeterminedByHue` | scripts/pipeline.py:204-215 | two hash values give the same scheme exactly when they agree modulo 360 |
| `Colors.GenerateColorScheme` | scripts/pipeline.py:199-215 | the primary hue is the title's MD5 value modulo 360; the secondary, accent and gradient-end hues are 30, 180 and 40 degrees on; the gradient starts at the primary colour |
| `Slug.KeepSlugChars` | scripts/pipeline.py:225 | the filter keeps only alphanumeric characters and hyphens and never lengthens the text |
| `Slug.MakeSlug` | scripts/pipeline.py:224-225 | the slug is no longer than the title and holds only alphanumeric characters and hyphens |
| `Slug.ReplacedIsMapped` | scripts/pipeline.py:224 | `lower().replace(' ', '-').replace('/', '-')` maps each title character on its own |
| `Slug.MakeSlugByChar` | scripts/pipeline.py:224-225 | the source's slug equals the character-by-character reference slug |
| `Slug.SlugWellFormed` | scripts/pipeline.py:224-225 | a slug holds only lower-case letters, digits and hyphens, and is never longer than the title |
| `Slug.SlugOfSlug` | scripts/pipeline.py:224-225 | a well-formed slug is its own slug |
| `Slug.SlugIdempotent` | scripts/pipeline.py:224-225 | slugifying a slug returns it unchanged |
| `Slug.SlugAppend` | scripts/pipeline.py:224-225 | the slug of a concatenation is the concatenation of the slugs |
| `Slug.SeparatorBecomesHyphen` | scripts/pipeline.py:224 | each space or `/` of the title becomes one `-` of the slug |
| `Slug.ExampleSlug` | scripts/pipeline.py:224-225 | a worked example: the title `Test Soup` has the slug `test-soup` |
| `Platforms.DetectPlatform` | scripts/pipeline.py:147-154 | `tiktok` iff the URL contains `tiktok`; otherwise `instagram` iff it contains `instagram`; otherwise `youtube` iff it contains `youtube`; otherwise `unknown` |
| `Platforms.DetectedNameOccurs` | scripts/pipeline.py:149-154 | a known label occurs literally in the URL |
| `Platforms.UpperCaseIsUnknown` | scripts/pipeline.py:149-154 | the test is case-sensitive: a URL without lower-case letters is `unknown` |
| `Platforms.ShortYouTubeIsUnknown` | scripts/pipeline.py:147-154 | the short host `https://youtu.be/` adds nothing to the label: `https://youtu.be/` + id is labelled as id alone is, so it is `unknown` unless the id spells a platform name |
| `Platforms.NeutralPrefix` | scripts/pipeline.py:147-154 | a prefix that ends in `/` and names no platform leaves the label unchanged |
| `Platforms.TikTokUrl` | scripts/pipeline.py:149-150 | every URL containing `tiktok.com` is labelled `tiktok` |
| `VideoDownload.JoinPath` | scripts/pipeline.py:68 | `os.path.join(dir, name)` starts with the directory and ends with the file name |
| `VideoDownload.FirstTunnel` | scripts/pipeline.py:38-73 | the first successful attempt among the first `n`: it succeeded and every earlier one failed; none exactly when all `n` failed |
| `VideoDownload.DownloadVideo` | scripts/pipeline.py:32-85 | at most `max_retries` attempts; returns the path of `video.mp4` in the work directory after the first tunnel attempt, and `None` after `max_retries` failures; the trace is the calls with one pause between consecutive calls, then the fetch on success |
| `VideoDownload.FailedAttemptsAt` | scripts/pipeline.py:56-61 | failed attempts alternate a call and a 5-second pause |
| `VideoDownload.FailedAttemptsCounts` | scripts/pipeline.py:56-61 | `n` failed attempts get `n` calls and `n` pauses |
| `VideoDownload.RetryTraceShape` | scripts/pipeline.py:38-85 | `n` attempts make `n` calls in order and `n - 1` pauses, alternating, and end with a call, never a pause |
| `VideoDownload.SleepsBetweenAttempts` | scripts/pipeline.py:58-60 | every pause has a call before it and a call after it |
| `VideoDownload.AlwaysBusyBackend` | scripts/pipeline.py:56-83 | for every service that answers none of the 3 default attempts with "tunnel": exactly 3 calls and 2 pauses, nothing fetched, and `None` |
| `RecipeIndex.NormalizeUrl` | scripts/pipeline.py:285-287 | `url.rstrip('/')` is a prefix of the URL with no trailing `/` |
| `RecipeIndex.FindExisting` | scripts/pipeline.py:285-290 | returns the first entry whose URL equals the candidate after `rstrip('/')` on both; returns none exactly when no entry matches |
| `RecipeIndex.TrailingSlashesIgnored` | scripts/pipeline.py:285-287 | a URL with trailing slashes added is a duplicate exactly when the bare URL is |
| `RecipeIndex.NormalizeUrlShape` | scripts/pipeline.py:285 | the normalisation is idempotent, leaves no trailing `/`, and removes only slashes |
| `RecipeIndex.AddEntry` | scripts/pipeline.py:247-257 | afterwards the URL has an entry; the old entries stay in order; at most one entry is added, at the end; one is added exactly when no entry had the same URL |
| `RecipeIndex.AddEntryEffect` | scripts/pipeline.py:247-257 | for an absent URL, exactly one entry is appended at the end and the earlier entries are unchanged and in order; for a present URL the index is unchanged |
| `RecipeIndex.AddEntryIdempotent` | scripts/pipeline.py:247-257 | after the update the URL is present, and updating again with the same entry changes nothing |
| `RecipeIndex.AddEntryKeepsUniqueUrls` | scripts/pipeline.py:247-257 | the update keeps "at most one entry per exact URL" |
| `RecipeIndex.AddEntryKeepsUniqueNormalizedUrls` | scripts/pipeline.py:247-257 | the update keeps "one entry per URL up to trailing slashes" when the normalised check has ruled the URL out |
| `RecipeIndex.ExactComparisonAdmitsSlashVariant` | scripts/pipeline.py:247 | the exact comparison appends a URL that differs from an existing one only by a trailing slash, which breaks the normalised invariant |
| `Pipeline.IndexEntryOf` | scripts/pipeline.py:249-256 | the entry carries the recipe's title, source, metadata and colours; it has a thumbnail iff the recipe's thumbnail is a non-empty string, and then the same one |
| `Pipeline.ThumbnailIff` | scripts/pipeline.py:231-256 | for a recipe without a thumbnail, the saved recipe gains `recipes/<slug>.jpg` iff a thumbnail file is used, and the index entry has a thumbnail iff the saved recipe does |
| `Pipeline.Repository.constructor` | scripts/pipeline.py:242-244 | a repository whose index is the loaded `recipes` list, before any recipe or thumbnail file is written |
| `Pipeline.Repository.SaveToGithub` | scripts/pipeline.py:217-269 | colours are always set; the thumbnail is set and copied iff a thumbnail path is given and exists; nothing else in the recipe changes; `recipes/<slug>.json` holds the saved recipe; the index is updated by the exact-URL append; the site URL is returned |
| `Pipeline.ExitStatus` | scripts/pipeline.py:271-342 | exit status 1 exactly for a missing argument, a missing key or an uncaught exception; 0 for a duplicate, a failed stage or a published recipe |
| `Pipeline.FailedStageIsLast` | scripts/pipeline.py:307-335 | a run that fails or crashes in a stage ends there: the stages reached are the ones from the download to it, in order and once each |
| `Pipeline.ApiKey` | scripts/pipeline.py:293-297 | `GEMINI_API_KEY` is returned whenever it is set and non-empty; otherwise `GOOGLE_API_KEY` if it is set and non-empty; otherwise no key, and an empty value counts as missing |
| `Pipeline.RunStages` | scripts/pipeline.py:87-342 | a failed download, a failed audio run, a failed or empty transcription and an empty-object reply each end the run, with status 0; a failed thumbnail run does not; an ffmpeg run that exits 0 without output crashes the audio or thumbnail stage, a missing transcript file crashes the transcription, and a raising reply crashes the recipe stage; the repository changes only on publish, and then exactly as `SaveToGithub` says |
| `Pipeline.RunPipeline` | scripts/pipeline.py:271-342 | missing argument iff no argument; "already exists" iff the stripped URL matches an entry up to trailing slashes, with the title of the first matching entry; missing key iff no key; then each stage outcome of `RunStages` under the same conditions; no stage failure at the thumbnail or publish step and no crash in the download or publish step (git, the index load and the reply's field types are outside the model); the repository changes only on publish; the normalised one-entry-per-URL invariant is kept when the model echoes the URL |
| `Pipeline.RunLaterStages` | scripts/pipeline.py:120-342 | past the thumbnail stage: a failed or empty transcription fails the run, a missing transcript file crashes it, an empty-object reply fails it, a raising reply crashes it, and a parsed reply is published as `SaveToGithub` says, with the thumbnail iff ffmpeg wrote one |
| `Pipeline.PublishedUrlIsDuplicate` | scripts/pipeline.py:247-290 | after the append for an entry whose URL normalises like the candidate, the duplicate check finds the candidate |
| `Pipeline.RunKeepsUniqueNormalizedUrls` | scripts/pipeline.py:247-290 | a publish that follows a negative duplicate check keeps one entry per URL up to trailing slashes |
| `Pipeline.OneEntryPerUrl` | scripts/pipeline.py:285-290 | under the normalised invariant, at most one index entry matches a URL |
| `Pipeline.SubmitTwice` | scripts/pipeline.py:285-290 | resubmitting a URL that was just published or already present stops at the duplicate check, runs no stage, leaves the index and the recipe files as the first run left them, and the URL is in the index; the normalised one-entry-per-URL invariant is kept when both replies echo the URL |
| `Handler.AnyContained` | scripts/telegram_handler.py:20 | `any(p in text for p in platforms)` holds iff some listed pattern is contained |
| `Handler.IsSupportedUrl` | scripts/telegram_handler.py:19-20 | a URL is accepted iff its lower-cased form contains `tiktok`, `instagram`, `youtube` or `youtu.be` |
| `Handler.SupportedIgnoresCase` | scripts/telegram_handler.py:20 | the allow-list check gives the same answer for a URL and its lower-case form |
| `Handler.DetectedPlatformIsSupported` | scripts/telegram_handler.py:19-20 | every URL the pipeline labels with a platform passes the allow-list |
| `Handler.SupportedButUndetected` | scripts/telegram_handler.py:19-20 | an upper-case `TIKTOK` passes the allow-list but is labelled `unknown` by the pipeline |
| `Handler.TitleOf` | scripts/telegram_handler.py:37 | the title is no longer than the line and neither starts nor ends with whitespace |
| `Handler.FindTitle` | scripts/telegram_handler.py:35-40 | a title is found iff some line of stdout starts with `Recipe:`; it is the first such line with every `Recipe:` removed and then stripped |
| `Handler.TitleOfPrefixed` | scripts/telegram_handler.py:37 | for a line `Recipe:` + t where t does not contain `Recipe:`, the title is `t.strip()` |
| `Handler.HandleRecipeCommand` | scripts/telegram_handler.py:11-43 | a missing argument or a rejected URL prints one message and exits 1 before any subprocess is started; on exit code 0 at most one success message is printed, from the first `Recipe:` line, and nothing if there is none; on a non-zero exit the failure line and the stderr tail are printed |

## Left out

- HTTP calls to the download service and to the language model, `urlretrieve`, JSON encoding and decoding, and prompt construction are network and library I/O. Each download attempt is an `AttemptOutcome`, and the language model's parsed reply is a `ModelReply`.
- ffmpeg and whisper are external binaries. Each run is one of three results: a non-zero exit, an exit 0 with its output file, or an exit 0 without it. Whisper's output file is the transcript text.
- MD5 is a foreign hash, so the digest is the parameter `md5: string -> nat`.
- `time.sleep`, temporary-directory creation and removal, `os.chdir` and the git commands of `run_command` are process and filesystem side effects. `os.path.getsize` is modelled only through the crash it causes when an ffmpeg output file is missing; the sizes it prints are not. The pauses appear as `Sleep` events. The index, recipe and thumbnail files are fields of `Pipeline.Repository`. The commit and push are not modelled. A git command that exits non-zero is only reported, but one that runs past the 300-second timeout of `run_command` raises `TimeoutExpired`, which nothing catches, so the run exits with status 1 after the recipe file and the index were written.
- The progress lines the pipeline prints are not modelled. The handler takes the pipeline's return code, stdout and stderr as an input.
- `Text.Lower`: only ASCII is modelled, so non-ASCII letters are not lower-cased, because the Unicode case tables are outside the model.
- `Text.StripShape`: treats only the ASCII whitespace of `str.isspace` as whitespace, for the same reason.
- `Slug.SlugWellFormed`: non-ASCII letters and digits are dropped from the slug, whereas Python's `isalnum` keeps them, because the Unicode character classes are outside the model.
- The HSL colours are integers. The `hsl(...)` and `linear-gradient(...)` strings are not rendered.
- A recipe reply with missing fields makes `save_to_github` raise a `KeyError`. The model's `Recipe` always has every field, so a reply always has the fields the publish step reads.
- A download attempt's exceptions are all caught inside `download_video`, so the download stage never crashes; the publish step's own I/O errors (an unwritable recipe file, a missing index file) are not modelled.
- Loading the index in `main` is not modelled: the model starts from a parsed list of entries. A missing or malformed `data/recipes.json` or an entry without `source.url` makes `main` raise before the duplicate check.
- `Pipeline.RunPipeline`: its outcome iffs and its clause that the publish step never crashes hold only because the git commands, the loading of the index and the types of the reply's fields are outside the model. In the source, a git timeout, a broken index file or a reply whose `title` is not a string (its `.lower()` in `save_to_github` raises) each end the run with an uncaught exception and exit status 1.
- The handler's 300-second subprocess timeout, which raises `TimeoutExpired`, is not modelled.
- The `Recipe:` line is printed by the pipeline. Whether a title containing a newline or `Recipe:` survives the round trip to the handler is not modelled, beyond `TitleOfPrefixed`.
- Two runs racing on the same index file are out of scope, because the scripts are single-threaded.
