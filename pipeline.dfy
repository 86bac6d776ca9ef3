/** The publish step (`save_to_github`) and the stage sequencing of `main` in
    scripts/pipeline.py. The publish repository is an object whose files the
    run updates; the external tools and services are inputs. */
module Pipeline {
  import opened Wrappers
  import opened Text
  import opened Colors
  import opened Recipes
  import opened Slug
  import opened VideoDownload
  import opened RecipeIndex

  const SiteUrl := "https://jonahenk.github.io/recipes/"

  /** The repository-relative file names of one recipe. */
  function RecipeFile(slug: string): string { "recipes/" + slug + ".json" }

  function ThumbnailFile(slug: string): string { "recipes/" + slug + ".jpg" }

  /** `thumbnail_path and os.path.exists(thumbnail_path)`. */
  predicate UsesThumbnail(thumbnailPath: Option<string>, onDisk: bool) {
    thumbnailPath.Some? && thumbnailPath.value != "" && onDisk
  }

  /** The reduced record appended to the index. Its `thumbnail` is copied only
      when the recipe's is a non-empty string (`if recipe.get('thumbnail')`). */
  function IndexEntryOf(r: Recipe): (e: IndexEntry)
    requires r.colors.Some?
    ensures e.title == r.title && e.source == r.source && e.metadata == r.metadata
    ensures Some(e.colors) == r.colors
    ensures e.thumbnail.Some? <==> r.thumbnail.Some? && r.thumbnail.value != ""
    ensures e.thumbnail.Some? ==> e.thumbnail == r.thumbnail
  {
    IndexEntry(r.title, r.source, r.metadata, r.colors.value,
      if r.thumbnail.Some? && r.thumbnail.value != "" then r.thumbnail else None)
  }

  /** `saved` is `recipe` after the two enrichments of `save_to_github`: the
      colour scheme of its title is always set, the thumbnail reference is set
      exactly when a thumbnail file is used, and nothing else changes. */
  predicate Enriched(recipe: Recipe, saved: Recipe, md5: string -> nat, thumbnailUsed: bool) {
    && saved.colors == Some(GenerateColorScheme(recipe.title, md5))
    && saved.thumbnail == (if thumbnailUsed then Some(ThumbnailFile(MakeSlug(recipe.title))) else recipe.thumbnail)
    && saved.(colors := recipe.colors, thumbnail := recipe.thumbnail) == recipe
  }

  /** A recipe that came without a thumbnail has one after the publish step
      exactly when a thumbnail file was used, and the index entry has one
      exactly when the saved recipe does. */
  lemma ThumbnailIff(recipe: Recipe, saved: Recipe, md5: string -> nat, thumbnailUsed: bool)
    requires Enriched(recipe, saved, md5, thumbnailUsed) && recipe.thumbnail.None?
    ensures saved.thumbnail.Some? <==> thumbnailUsed
    ensures IndexEntryOf(saved).thumbnail.Some? <==> saved.thumbnail.Some?
    ensures saved.thumbnail.Some? ==> IndexEntryOf(saved).thumbnail == Some(ThumbnailFile(MakeSlug(recipe.title)))
  {
  }

  /** The publish repository: `recipes/<slug>.json` files, the thumbnails
      copied to `recipes/<slug>.jpg` (by the path they were copied from), and
      the `recipes` list of `data/recipes.json`. */
  class Repository {
    var recipeFiles: map<string, Recipe>
    var thumbnails: map<string, string>
    var index: seq<IndexEntry>

    constructor (index: seq<IndexEntry>)
      ensures this.index == index && recipeFiles == map[] && thumbnails == map[]
    {
      this.index := index;
      recipeFiles := map[];
      thumbnails := map[];
    }

    /** `save_to_github(recipe, transcription, thumbnail_path)`: enriches the
        recipe, writes its file, copies the thumbnail when one exists, and
        appends an index entry unless one has exactly the same source URL.
        The git commands that follow are not modelled. A git command that
        exits non-zero is only reported, but one that runs past the 300-second
        timeout of `run_command` raises, after the files and the index have
        been written; the model has no such crash. */
    method SaveToGithub(recipe: Recipe, md5: string -> nat, thumbnailPath: Option<string>, thumbnailOnDisk: bool)
      returns (saved: Recipe, siteUrl: string)
      modifies this
      ensures Enriched(recipe, saved, md5, UsesThumbnail(thumbnailPath, thumbnailOnDisk))
      ensures recipeFiles == old(recipeFiles)[RecipeFile(MakeSlug(recipe.title)) := saved]
      ensures thumbnails == if UsesThumbnail(thumbnailPath, thumbnailOnDisk)
                            then old(thumbnails)[ThumbnailFile(MakeSlug(recipe.title)) := thumbnailPath.value]
                            else old(thumbnails)
      ensures index == AddEntry(old(index), IndexEntryOf(saved))
      ensures siteUrl == SiteUrl
    {
      var slug := MakeSlug(recipe.title);
      saved := recipe.(colors := Some(GenerateColorScheme(recipe.title, md5)));
      if thumbnailPath.Some? && thumbnailPath.value != "" && thumbnailOnDisk {
        thumbnails := thumbnails[ThumbnailFile(slug) := thumbnailPath.value];
        saved := saved.(thumbnail := Some(ThumbnailFile(slug)));
      }
      recipeFiles := recipeFiles[RecipeFile(slug) := saved];
      if !HasSourceUrl(index, saved.source.url) {
        var entry := IndexEntryOf(saved);
        index := index + [entry];
      }
      siteUrl := SiteUrl;
    }
  }

  // ---------------------------------------------------------------------------
  // main
  // ---------------------------------------------------------------------------

  datatype Stage = Download | ExtractAudio | ExtractThumbnail | Transcribe | ExtractRecipe | Publish

  /** The stages of `main`, in the order it runs them. */
  const AllStages: seq<Stage> := [Download, ExtractAudio, ExtractThumbnail, Transcribe, ExtractRecipe, Publish]

  function StageIndex(s: Stage): (i: nat)
    ensures i < |AllStages| && AllStages[i] == s
  {
    match s
    case Download => 0
    case ExtractAudio => 1
    case ExtractThumbnail => 2
    case Transcribe => 3
    case ExtractRecipe => 4
    case Publish => 5
  }

  /** One ffmpeg run: a non-zero exit (the stage returns `None`), an exit 0
      with the output file written, or an exit 0 without it, in which case
      the `os.path.getsize` that follows raises. */
  datatype ToolRun = ExitFailed | Wrote | NoOutput

  /** The whisper run: a non-zero exit (`transcribe` returns `None`), an
      exit 0 with the transcript file, or an exit 0 without it, in which case
      opening the file raises. */
  datatype WhisperRun = WhisperFailed | TranscriptWritten(text: string) | TranscriptMissing

  /** What the language-model stage gives back. `Parsed` is a non-empty JSON
      object; `EmptyObject` is `{}`, the one reply that gets past the
      `recipe.get(...)` of `extract_recipe` and is then false for
      `if not recipe`; `Raises` is an exception in the stage: a network
      error, malformed JSON, a missing key in the response, or a reply that
      is not an object (`null`, a list, a number, a string or a boolean),
      whose `.get` raises. */
  datatype ModelReply = Parsed(recipe: Recipe) | EmptyObject | Raises

  /** The answers of everything outside the script: the download service per
      attempt, ffmpeg's two runs, whisper, the language model and the MD5
      digest. */
  datatype Services = Services(
    downloads: seq<AttemptOutcome>,
    audio: ToolRun,
    thumbnail: ToolRun,
    transcript: WhisperRun,
    reply: ModelReply,
    md5: string -> nat)

  /** How a run of `main` ends. `Crashed(s)` is an exception escaping stage
      `s`; the `finally` clause removes the work directory and the process
      exits with status 1. */
  datatype RunOutcome =
    | MissingArgument
    | AlreadyExists(title: string)
    | MissingApiKey
    | StageFailed(stage: Stage)
    | Crashed(stage: Stage)
    | Published(recipe: Recipe, siteUrl: string)

  /** The process exit status: `sys.exit(1)` on a missing argument or key,
      1 for an uncaught exception, and 0 whenever `main` returns, including
      the runs where a stage failed and `main` returned `None`. */
  function ExitStatus(o: RunOutcome): (status: int)
    ensures status == 1 <==> o.MissingArgument? || o.MissingApiKey? || o.Crashed?
    ensures status == 0 <==> o.AlreadyExists? || o.StageFailed? || o.Published?
  {
    match o
    case MissingArgument => 1
    case MissingApiKey => 1
    case Crashed(_) => 1
    case _ => 0
  }

  /** The stages a run reaches, in order. */
  function StagesRun(o: RunOutcome): (s: seq<Stage>)
  {
    match o
    case StageFailed(st) => AllStages[..StageIndex(st) + 1]
    case Crashed(st) => AllStages[..StageIndex(st) + 1]
    case Published(_, _) => AllStages
    case _ => []
  }

  /** A run that fails or crashes ends at that stage: the stages before it
      ran, in order and once each, and no later stage runs. */
  lemma FailedStageIsLast(o: RunOutcome)
    requires o.StageFailed? || o.Crashed?
    ensures |StagesRun(o)| > 0 && StagesRun(o)[|StagesRun(o)| - 1] == o.stage
    ensures StagesRun(o) == AllStages[..|StagesRun(o)|]
    ensures forall i, j :: 0 <= i < j < |StagesRun(o)| ==> StagesRun(o)[i] != StagesRun(o)[j]
    ensures forall i :: 0 <= i < |StagesRun(o)| - 1 ==> StagesRun(o)[i] != o.stage
  {
    var k := StageIndex(o.stage);
    forall i, j | 0 <= i < j < |AllStages|
      ensures AllStages[i] != AllStages[j]
    {
      assert StageIndex(AllStages[i]) == i && StageIndex(AllStages[j]) == j;
    }
  }

  /** `os.environ.get('GEMINI_API_KEY') or os.environ.get('GOOGLE_API_KEY')`:
      the first variable wins when it is set and non-empty; an empty value
      counts as missing. */
  function ApiKey(env: map<string, string>): (k: Option<string>)
    ensures k.Some? ==> k.value != ""
    ensures "GEMINI_API_KEY" in env && env["GEMINI_API_KEY"] != "" ==> k == Some(env["GEMINI_API_KEY"])
    ensures ("GEMINI_API_KEY" !in env || env["GEMINI_API_KEY"] == "") && "GOOGLE_API_KEY" in env
            ==> k == (if env["GOOGLE_API_KEY"] != "" then Some(env["GOOGLE_API_KEY"]) else None)
    ensures k.None? <==> ("GEMINI_API_KEY" !in env || env["GEMINI_API_KEY"] == "") &&
                         ("GOOGLE_API_KEY" !in env || env["GOOGLE_API_KEY"] == "")
  {
    if "GEMINI_API_KEY" in env && env["GEMINI_API_KEY"] != "" then Some(env["GEMINI_API_KEY"])
    else if "GOOGLE_API_KEY" in env && env["GOOGLE_API_KEY"] != "" then Some(env["GOOGLE_API_KEY"])
    else None
  }

  /** The run gets past the duplicate check and the key check. */
  predicate Starts(args: seq<string>, index: seq<IndexEntry>, env: map<string, string>) {
    |args| > 0 && !IsDuplicate(index, Strip(args[0])) && ApiKey(env).Some?
  }

  predicate Downloads(svc: Services) requires MaxRetries <= |svc.downloads| {
    FirstTunnel(svc.downloads, MaxRetries).Some?
  }

  /** The run gets through the audio extraction. */
  predicate PassesAudio(svc: Services) requires MaxRetries <= |svc.downloads| {
    Downloads(svc) && svc.audio == Wrote
  }

  /** The run gets through the thumbnail extraction, with or without a
      thumbnail. */
  predicate PassesThumbnail(svc: Services) requires MaxRetries <= |svc.downloads| {
    PassesAudio(svc) && svc.thumbnail != NoOutput
  }

  /** `transcribe` returns a non-empty stripped transcript. */
  predicate Transcribes(svc: Services) {
    svc.transcript.TranscriptWritten? && Strip(svc.transcript.text) != ""
  }

  /** The stages before the language model all succeed. */
  predicate PassesTranscript(svc: Services) requires MaxRetries <= |svc.downloads| {
    PassesThumbnail(svc) && Transcribes(svc)
  }

  /** The run reaches the language-model stage. */
  predicate ReachesModel(args: seq<string>, index: seq<IndexEntry>, env: map<string, string>, svc: Services)
    requires MaxRetries <= |svc.downloads|
  {
    Starts(args, index, env) && PassesTranscript(svc)
  }

  /** The repository after a published run. */
  predicate PublishedState(repo: Repository, files: map<string, Recipe>, thumbnails: map<string, string>,
                           index: seq<IndexEntry>, workDir: string, svc: Services, saved: Recipe)
    reads repo
    requires svc.reply.Parsed?
  {
    var thumbnailUsed := svc.thumbnail == Wrote;
    var slug := MakeSlug(svc.reply.recipe.title);
    && Enriched(svc.reply.recipe, saved, svc.md5, thumbnailUsed)
    && repo.recipeFiles == files[RecipeFile(slug) := saved]
    && repo.thumbnails == (if thumbnailUsed then thumbnails[ThumbnailFile(slug) := JoinPath(workDir, "thumbnail.jpg")]
                           else thumbnails)
    && repo.index == AddEntry(index, IndexEntryOf(saved))
  }

  /** The stages of `main` after the key check, inside the `try` whose
      `finally` removes the work directory. */
  method RunStages(repo: Repository, workDir: string, svc: Services)
    returns (outcome: RunOutcome, stages: seq<Stage>)
    requires MaxRetries <= |svc.downloads|
    modifies repo
    ensures stages == StagesRun(outcome)
    ensures outcome.StageFailed? || outcome.Crashed? || outcome.Published?
    ensures outcome == StageFailed(Download) <==> !Downloads(svc)
    ensures outcome == StageFailed(ExtractAudio) <==> Downloads(svc) && svc.audio == ExitFailed
    ensures outcome == Crashed(ExtractAudio) <==> Downloads(svc) && svc.audio == NoOutput
    ensures outcome == Crashed(ExtractThumbnail) <==> PassesAudio(svc) && svc.thumbnail == NoOutput
    ensures outcome == StageFailed(Transcribe) <==>
              PassesThumbnail(svc) && !svc.transcript.TranscriptMissing? && !Transcribes(svc)
    ensures outcome == Crashed(Transcribe) <==> PassesThumbnail(svc) && svc.transcript.TranscriptMissing?
    ensures outcome == StageFailed(ExtractRecipe) <==> PassesTranscript(svc) && svc.reply.EmptyObject?
    ensures outcome == Crashed(ExtractRecipe) <==> PassesTranscript(svc) && svc.reply.Raises?
    ensures outcome.Published? <==> PassesTranscript(svc) && svc.reply.Parsed?
    ensures outcome.Published? ==>
              outcome.siteUrl == SiteUrl &&
              PublishedState(repo, old(repo.recipeFiles), old(repo.thumbnails), old(repo.index), workDir, svc, outcome.recipe)
    ensures !outcome.Published? ==>
              repo.index == old(repo.index) && repo.recipeFiles == old(repo.recipeFiles) &&
              repo.thumbnails == old(repo.thumbnails)
  {
    stages := [Download];
    var videoPath, attempts, trace := DownloadVideo(svc.downloads, workDir, MaxRetries);
    if videoPath.None? {
      return StageFailed(Download), stages;
    }

    stages := stages + [ExtractAudio];
    match svc.audio {
      case ExitFailed => return StageFailed(ExtractAudio), stages;
      case NoOutput => return Crashed(ExtractAudio), stages;
      case Wrote =>
    }

    stages := stages + [ExtractThumbnail];
    if svc.thumbnail.NoOutput? {
      return Crashed(ExtractThumbnail), stages;
    }
    outcome, stages := RunLaterStages(repo, workDir, svc);
  }

  /** The stages from the transcription on, once the thumbnail stage is
      behind the run; the thumbnail is the frame ffmpeg wrote, if it wrote
      one. */
  method RunLaterStages(repo: Repository, workDir: string, svc: Services)
    returns (outcome: RunOutcome, stages: seq<Stage>)
    requires MaxRetries <= |svc.downloads| && PassesThumbnail(svc)
    modifies repo
    ensures stages == StagesRun(outcome)
    ensures outcome == StageFailed(Transcribe) <==> !svc.transcript.TranscriptMissing? && !Transcribes(svc)
    ensures outcome == Crashed(Transcribe) <==> svc.transcript.TranscriptMissing?
    ensures outcome == StageFailed(ExtractRecipe) <==> Transcribes(svc) && svc.reply.EmptyObject?
    ensures outcome == Crashed(ExtractRecipe) <==> Transcribes(svc) && svc.reply.Raises?
    ensures outcome.Published? <==> Transcribes(svc) && svc.reply.Parsed?
    ensures outcome.Published? ==>
              outcome.siteUrl == SiteUrl &&
              PublishedState(repo, old(repo.recipeFiles), old(repo.thumbnails), old(repo.index), workDir, svc, outcome.recipe)
    ensures !outcome.Published? ==>
              repo.index == old(repo.index) && repo.recipeFiles == old(repo.recipeFiles) &&
              repo.thumbnails == old(repo.thumbnails)
  {
    var thumbnailPath := if svc.thumbnail.Wrote? then Some(JoinPath(workDir, "thumbnail.jpg")) else None;
    stages := [Download, ExtractAudio, ExtractThumbnail, Transcribe];
    var transcription;
    match svc.transcript {
      case TranscriptMissing => return Crashed(Transcribe), stages;
      case WhisperFailed => transcription := "";
      case TranscriptWritten(text) => transcription := Strip(text);
    }
    if transcription == "" {
      return StageFailed(Transcribe), stages;
    }

    stages := stages + [ExtractRecipe];
    match svc.reply {
      case Raises =>
        return Crashed(ExtractRecipe), stages;
      case EmptyObject =>
        return StageFailed(ExtractRecipe), stages;
      case Parsed(recipe) =>
        stages := stages + [Publish];
        // The frame ffmpeg wrote is still on disk when the publish step
        // checks for it.
        var saved, siteUrl := repo.SaveToGithub(recipe, svc.md5, thumbnailPath, svc.thumbnail.Wrote?);
        return Published(saved, siteUrl), stages;
    }
  }

  /** `main()`: the duplicate check, the key check, then the stages in order;
      a failed download, audio extraction, transcription or recipe extraction
      ends the run, a thumbnail extraction whose ffmpeg run fails does not. */
  method RunPipeline(repo: Repository, args: seq<string>, env: map<string, string>, workDir: string, svc: Services)
    returns (outcome: RunOutcome, stages: seq<Stage>)
    requires MaxRetries <= |svc.downloads|
    modifies repo
    ensures stages == StagesRun(outcome)
    ensures outcome == MissingArgument <==> |args| == 0
    ensures outcome.AlreadyExists? <==> |args| > 0 && IsDuplicate(old(repo.index), Strip(args[0]))
    ensures outcome.AlreadyExists? ==>
              (exists i :: 0 <= i < |old(repo.index)| &&
                 MatchesUrl(old(repo.index)[i], Strip(args[0])) && outcome.title == old(repo.index)[i].title &&
                 forall j :: 0 <= j < i ==> !MatchesUrl(old(repo.index)[j], Strip(args[0])))
    ensures outcome == MissingApiKey <==>
              |args| > 0 && !IsDuplicate(old(repo.index), Strip(args[0])) && ApiKey(env).None?
    ensures outcome == StageFailed(Download) <==> Starts(args, old(repo.index), env) && !Downloads(svc)
    ensures outcome == StageFailed(ExtractAudio) <==>
              Starts(args, old(repo.index), env) && Downloads(svc) && svc.audio == ExitFailed
    ensures outcome == Crashed(ExtractAudio) <==>
              Starts(args, old(repo.index), env) && Downloads(svc) && svc.audio == NoOutput
    ensures outcome == Crashed(ExtractThumbnail) <==>
              Starts(args, old(repo.index), env) && PassesAudio(svc) && svc.thumbnail == NoOutput
    ensures outcome == StageFailed(Transcribe) <==>
              Starts(args, old(repo.index), env) && PassesThumbnail(svc) &&
              !svc.transcript.TranscriptMissing? && !Transcribes(svc)
    ensures outcome == Crashed(Transcribe) <==>
              Starts(args, old(repo.index), env) && PassesThumbnail(svc) && svc.transcript.TranscriptMissing?
    ensures outcome == StageFailed(ExtractRecipe) <==> ReachesModel(args, old(repo.index), env, svc) && svc.reply.EmptyObject?
    ensures outcome == Crashed(ExtractRecipe) <==> ReachesModel(args, old(repo.index), env, svc) && svc.reply.Raises?
    ensures outcome.Published? <==> ReachesModel(args, old(repo.index), env, svc) && svc.reply.Parsed?
    ensures outcome != StageFailed(ExtractThumbnail) && outcome != StageFailed(Publish)
    ensures outcome != Crashed(Download) && outcome != Crashed(Publish)
    ensures outcome.Published? ==>
              outcome.siteUrl == SiteUrl &&
              PublishedState(repo, old(repo.recipeFiles), old(repo.thumbnails), old(repo.index), workDir, svc, outcome.recipe)
    ensures !outcome.Published? ==>
              repo.index == old(repo.index) && repo.recipeFiles == old(repo.recipeFiles) &&
              repo.thumbnails == old(repo.thumbnails)
    ensures UniqueNormalizedUrls(old(repo.index)) && (|args| > 0 ==> EchoesUrl(args[0], svc)) ==>
              UniqueNormalizedUrls(repo.index)
  {
    if |args| == 0 {
      return MissingArgument, [];
    }
    var videoUrl := Strip(args[0]);
    var existing := FindExisting(repo.index, videoUrl);
    if existing.Some? {
      return AlreadyExists(repo.index[existing.value].title), [];
    }
    var geminiKey := ApiKey(env);
    if geminiKey.None? {
      return MissingApiKey, [];
    }
    ghost var before := repo.index;
    outcome, stages := RunStages(repo, workDir, svc);
    if outcome.Published? && UniqueNormalizedUrls(before) && EchoesUrl(args[0], svc) {
      RunKeepsUniqueNormalizedUrls(before, args[0], outcome.recipe);
    }
  }

  // ---------------------------------------------------------------------------
  // Idempotence of resubmission
  // ---------------------------------------------------------------------------

  /** The language model echoes the URL it was given, up to trailing slashes. */
  predicate EchoesUrl(url: string, svc: Services) {
    svc.reply.Parsed? ==> NormalizeUrl(svc.reply.recipe.source.url) == NormalizeUrl(Strip(url))
  }

  /** Once an entry for a URL has been through the append, the duplicate check
      finds that URL, with or without trailing slashes. */
  lemma PublishedUrlIsDuplicate(index: seq<IndexEntry>, entry: IndexEntry, url: string)
    requires NormalizeUrl(entry.source.url) == NormalizeUrl(url)
    ensures IsDuplicate(AddEntry(index, entry), url)
  {
    var r := AddEntry(index, entry);
    if HasSourceUrl(index, entry.source.url) {
      var i :| 0 <= i < |index| && index[i].source.url == entry.source.url;
      assert MatchesUrl(r[i], url);
    } else {
      assert MatchesUrl(r[|index|], url);
    }
  }

  /** A run keeps "one entry per URL up to trailing slashes" when the model
      echoes the URL: the append is reached only after the normalised check
      has ruled the URL out. */
  lemma RunKeepsUniqueNormalizedUrls(index: seq<IndexEntry>, url: string, recipe: Recipe)
    requires UniqueNormalizedUrls(index) && recipe.colors.Some?
    requires !IsDuplicate(index, Strip(url))
    requires NormalizeUrl(recipe.source.url) == NormalizeUrl(Strip(url))
    ensures UniqueNormalizedUrls(AddEntry(index, IndexEntryOf(recipe)))
  {
    AddEntryKeepsUniqueNormalizedUrls(index, IndexEntryOf(recipe));
  }

  /** Under the normalised invariant, at most one entry matches a URL. */
  lemma OneEntryPerUrl(index: seq<IndexEntry>, url: string, i: nat, j: nat)
    requires UniqueNormalizedUrls(index)
    requires i < |index| && j < |index| && MatchesUrl(index[i], url) && MatchesUrl(index[j], url)
    ensures i == j
  {
    if i < j {
      assert MatchesUrl(index[i], index[j].source.url);
    } else if j < i {
      assert MatchesUrl(index[j], index[i].source.url);
    }
  }

  /** Submitting the same URL twice: once the first run has published the
      recipe or found it, the second run stops at the duplicate check,
      performs no stage and leaves the repository as the first run left it,
      with the URL in the index. When both runs' replies echo the URL, the
      index keeps one entry per URL, so exactly one entry matches it. */
  method SubmitTwice(repo: Repository, url: string, env: map<string, string>, workDir: string,
                     first: Services, second: Services)
    returns (outcome1: RunOutcome, outcome2: RunOutcome, stages2: seq<Stage>,
             ghost filesAfterFirst: map<string, Recipe>, ghost indexAfterFirst: seq<IndexEntry>)
    requires MaxRetries <= |first.downloads| && MaxRetries <= |second.downloads|
    requires EchoesUrl(url, first)
    modifies repo
    ensures outcome1.Published? || outcome1.AlreadyExists? ==>
              && outcome2.AlreadyExists? && stages2 == []
              && repo.index == indexAfterFirst && repo.recipeFiles == filesAfterFirst
              && IsDuplicate(repo.index, Strip(url))
    ensures UniqueNormalizedUrls(old(repo.index)) && EchoesUrl(url, second) ==> UniqueNormalizedUrls(repo.index)
  {
    var stages1;
    outcome1, stages1 := RunPipeline(repo, [url], env, workDir, first);
    if outcome1.Published? {
      PublishedUrlIsDuplicate(old(repo.index), IndexEntryOf(outcome1.recipe), Strip(url));
    }
    filesAfterFirst, indexAfterFirst := repo.recipeFiles, repo.index;
    outcome2, stages2 := RunPipeline(repo, [url], env, workDir, second);
  }
}
