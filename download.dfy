/** `download_video`: up to `max_retries` calls to the download service, a
    fixed pause between failed attempts, and an early return once the service
    answers with a ready ("tunnel") media URL. Each attempt's outcome is an
    input: the oracle sequence stands for the service, the network and the
    media fetch. */
module VideoDownload {
  import opened Wrappers

  const MaxRetries: nat := 3
  const RetryDelaySeconds: nat := 5
  const VideoFileName := "video.mp4"

  /** What one attempt amounts to. `Tunnel` is a "tunnel" status whose media
      URL was then fetched and saved; `NotTunnel` is any other status;
      `Raised` is an exception anywhere in the attempt (network error,
      timeout, unreadable reply, failed fetch). */
  datatype AttemptOutcome = Tunnel(mediaUrl: string) | NotTunnel | Raised

  /** The observable steps of a download: a service call, a pause, and the
      media fetch into the work directory. */
  datatype Event = Request(attempt: nat) | Sleep(seconds: nat) | Fetch(mediaUrl: string)

  /** `os.path.join(dir, name)` for a relative `name`. */
  function JoinPath(dir: string, name: string): (path: string)
    ensures |path| >= |dir| + |name|
    ensures path[..|dir|] == dir && path[|path| - |name|..] == name
  {
    if |dir| == 0 || dir[|dir| - 1] == '/' then dir + name else dir + "/" + name
  }

  /** The first of the first `n` attempts that succeeds, if any. */
  function FirstTunnel(outcomes: seq<AttemptOutcome>, n: nat): (r: Option<nat>)
    requires n <= |outcomes|
    ensures r.Some? ==> r.value < n && outcomes[r.value].Tunnel?
    ensures r.Some? ==> forall k :: 0 <= k < r.value ==> !outcomes[k].Tunnel?
    ensures r.None? <==> forall k :: 0 <= k < n ==> !outcomes[k].Tunnel?
  {
    if n == 0 then None
    else match FirstTunnel(outcomes, n - 1)
      case Some(k) => Some(k)
      case None => if outcomes[n - 1].Tunnel? then Some(n - 1) else None
  }

  /** `n` failed attempts, each followed by a pause. */
  function FailedAttempts(n: nat): seq<Event>
  {
    if n == 0 then [] else FailedAttempts(n - 1) + [Request(n - 1), Sleep(RetryDelaySeconds)]
  }

  /** The calls made by `n` attempts: a pause between consecutive calls and
      none after the last. */
  function RetryTrace(n: nat): seq<Event>
  {
    if n == 0 then [] else FailedAttempts(n - 1) + [Request(n - 1)]
  }

  /** `download_video(url, api_key, work_dir, max_retries)`: returns the saved
      video's path on the first successful attempt, `None` once all attempts
      failed, and `None` without a call when `max_retries` is 0. */
  method DownloadVideo(outcomes: seq<AttemptOutcome>, workDir: string, maxRetries: nat)
    returns (videoPath: Option<string>, attempts: nat, trace: seq<Event>)
    requires maxRetries <= |outcomes|
    ensures attempts <= maxRetries
    ensures match FirstTunnel(outcomes, maxRetries)
      case Some(k) =>
        && attempts == k + 1
        && videoPath == Some(JoinPath(workDir, VideoFileName))
        && trace == RetryTrace(attempts) + [Fetch(outcomes[k].mediaUrl)]
      case None =>
        && attempts == maxRetries
        && videoPath == None
        && trace == RetryTrace(attempts)
  {
    videoPath, attempts, trace := None, 0, [];
    var attempt := 0;
    while attempt < maxRetries
      invariant attempt <= maxRetries
      invariant maxRetries == 0 || attempt < maxRetries
      invariant attempts == attempt
      invariant forall k :: 0 <= k < attempt ==> !outcomes[k].Tunnel?
      invariant trace == FailedAttempts(attempt)
    {
      attempts := attempts + 1;
      trace := trace + [Request(attempt)];
      match outcomes[attempt]
      case Tunnel(mediaUrl) =>
        trace := trace + [Fetch(mediaUrl)];
        videoPath := Some(JoinPath(workDir, VideoFileName));
        return;
      case _ =>
        if attempt < maxRetries - 1 {
          trace := trace + [Sleep(RetryDelaySeconds)];
        } else {
          return;
        }
      attempt := attempt + 1;
    }
  }

  // ---------------------------------------------------------------------------
  // The shape of the trace
  // ---------------------------------------------------------------------------

  /** Failed attempts alternate a call and a pause. */
  lemma {:induction false} FailedAttemptsAt(n: nat, i: nat)
    requires i < 2 * n
    ensures |FailedAttempts(n)| == 2 * n
    ensures FailedAttempts(n)[i] == if i % 2 == 0 then Request(i / 2) else Sleep(RetryDelaySeconds)
  {
    FailedAttemptsLength(n);
    if i < 2 * (n - 1) {
      FailedAttemptsAt(n - 1, i);
    }
  }

  lemma {:induction false} FailedAttemptsLength(n: nat)
    ensures |FailedAttempts(n)| == 2 * n
  {
    if n > 0 {
      FailedAttemptsLength(n - 1);
    }
  }

  function CountRequests(t: seq<Event>): nat
  {
    if |t| == 0 then 0 else CountRequests(t[..|t| - 1]) + (if t[|t| - 1].Request? then 1 else 0)
  }

  function CountSleeps(t: seq<Event>): nat
  {
    if |t| == 0 then 0 else CountSleeps(t[..|t| - 1]) + (if t[|t| - 1].Sleep? then 1 else 0)
  }

  lemma {:induction false} FailedAttemptsCounts(n: nat)
    ensures CountRequests(FailedAttempts(n)) == n && CountSleeps(FailedAttempts(n)) == n
  {
    if n > 0 {
      var t := FailedAttempts(n - 1);
      FailedAttemptsCounts(n - 1);
      assert (t + [Request(n - 1)]) + [Sleep(RetryDelaySeconds)] == FailedAttempts(n);
      assert (t + [Request(n - 1)])[..|t|] == t;
    }
  }

  /** `n` attempts make `n` calls in order, with exactly one pause between
      each two consecutive calls and none after the last. */
  lemma RetryTraceShape(n: nat)
    requires n > 0
    ensures |RetryTrace(n)| == 2 * n - 1
    ensures forall i :: 0 <= i < |RetryTrace(n)| ==>
              RetryTrace(n)[i] == if i % 2 == 0 then Request(i / 2) else Sleep(RetryDelaySeconds)
    ensures RetryTrace(n)[|RetryTrace(n)| - 1] == Request(n - 1)
    ensures CountRequests(RetryTrace(n)) == n && CountSleeps(RetryTrace(n)) == n - 1
  {
    FailedAttemptsLength(n - 1);
    forall i | 0 <= i < 2 * (n - 1)
      ensures RetryTrace(n)[i] == if i % 2 == 0 then Request(i / 2) else Sleep(RetryDelaySeconds)
    {
      FailedAttemptsAt(n - 1, i);
    }
    FailedAttemptsCounts(n - 1);
    assert RetryTrace(n)[..|RetryTrace(n)| - 1] == FailedAttempts(n - 1);
  }

  /** Every pause in a download's trace lies between two calls. */
  lemma SleepsBetweenAttempts(n: nat, i: nat)
    requires n > 0 && i < |RetryTrace(n)| && RetryTrace(n)[i].Sleep?
    ensures 0 < i < |RetryTrace(n)| - 1
    ensures RetryTrace(n)[i - 1].Request? && RetryTrace(n)[i + 1].Request?
  {
    RetryTraceShape(n);
  }

  /** A service that never answers "tunnel" within the default three
      attempts gets exactly three calls and two pauses, nothing is fetched
      and no video is returned. */
  method AlwaysBusyBackend(outcomes: seq<AttemptOutcome>, workDir: string)
    returns (videoPath: Option<string>, attempts: nat, trace: seq<Event>)
    requires MaxRetries <= |outcomes|
    requires forall k :: 0 <= k < MaxRetries ==> !outcomes[k].Tunnel?
    ensures videoPath == None && attempts == MaxRetries
    ensures CountRequests(trace) == 3 && CountSleeps(trace) == 2
    ensures forall i :: 0 <= i < |trace| ==> !trace[i].Fetch?
  {
    videoPath, attempts, trace := DownloadVideo(outcomes, workDir, MaxRetries);
    RetryTraceShape(MaxRetries);
  }
}
