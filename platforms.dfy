/** The platform label `extract_recipe` puts in its prompt: an ordered,
    first-match, case-sensitive substring test on the URL. */
module Platforms {
  import opened Text

  datatype Platform = TikTok | Instagram | YouTube | Unknown

  /** The label as it appears in the prompt. */
  function Name(p: Platform): string
  {
    match p
    case TikTok => "tiktok"
    case Instagram => "instagram"
    case YouTube => "youtube"
    case Unknown => "unknown"
  }

  /** The first of `tiktok`, `instagram`, `youtube` contained in the URL, in
      that order, else `unknown`. */
  function DetectPlatform(url: string): (p: Platform)
    ensures p == TikTok <==> Contains(url, "tiktok")
    ensures p == Instagram <==> !Contains(url, "tiktok") && Contains(url, "instagram")
    ensures p == YouTube <==>
              !Contains(url, "tiktok") && !Contains(url, "instagram") && Contains(url, "youtube")
    ensures p == Unknown <==>
              !Contains(url, "tiktok") && !Contains(url, "instagram") && !Contains(url, "youtube")
  {
    if Contains(url, "tiktok") then TikTok
    else if Contains(url, "instagram") then Instagram
    else if Contains(url, "youtube") then YouTube
    else Unknown
  }

  /** A known platform's label occurs in the URL. */
  lemma DetectedNameOccurs(url: string)
    ensures DetectPlatform(url) != Unknown ==> Contains(url, Name(DetectPlatform(url)))
  {
  }

  /** The test is case-sensitive: a URL without lower-case letters, such as
      an upper-case host name, is never recognised. */
  lemma UpperCaseIsUnknown(url: string)
    requires forall i :: 0 <= i < |url| ==> !IsLowerLetter(url[i])
    ensures DetectPlatform(url) == Unknown
  {
    MissingCharNotContains(url, "tiktok", 0);
    MissingCharNotContains(url, "instagram", 0);
    MissingCharNotContains(url, "youtube", 0);
  }

  /** The short YouTube host `https://youtu.be/` names no platform, so a
      short link is labelled as its path alone would be: `unknown` unless the
      video id itself happens to spell a platform name. */
  lemma ShortYouTubeIsUnknown(host: string, id: string)
    requires host == ShortYouTubeHost
    ensures DetectPlatform(host + id) == DetectPlatform(id)
  {
    assert host == "https://" + "youtu.be/";
    HostNamesNoPlatform("https://", "youtu.be/");
    NeutralPrefix(host, id);
  }

  /** A prefix that ends in `/` and names no platform does not change the
      label. */
  lemma NeutralPrefix(host: string, id: string)
    requires |host| > 0 && host[|host| - 1] == '/'
    requires !Contains(host, "tiktok") && !Contains(host, "instagram") && !Contains(host, "youtube")
    ensures DetectPlatform(host + id) == DetectPlatform(id)
  {
    ContainsAcross(host, id, "tiktok");
    ContainsAcross(host, id, "instagram");
    ContainsAcross(host, id, "youtube");
  }

  lemma HostNamesNoPlatform(s: string, y: string)
    requires s == "https://" && y == "youtu.be/"
    ensures |s + y| > 0 && (s + y)[|s + y| - 1] == '/'
    ensures !Contains(s + y, "tiktok") && !Contains(s + y, "instagram") && !Contains(s + y, "youtube")
  {
    // `tiktok` and `instagram` need letters neither part has.
    MissingCharNotContains(s, "tiktok", 2);
    MissingCharNotContains(y, "tiktok", 2);
    ContainsAcross(s, y, "tiktok");
    MissingCharNotContains(s, "instagram", 5);
    MissingCharNotContains(y, "instagram", 5);
    ContainsAcross(s, y, "instagram");
    HostNotYouTube(s, y);
  }

  /** `youtube` needs a `y`, so it does not occur in `https://`, and it
      differs from each window of `youtu.be/`. */
  lemma HostNotYouTube(s: string, y: string)
    requires s == "https://" && y == "youtu.be/"
    ensures !Contains(s + y, "youtube")
  {
    MissingCharNotContains(s, "youtube", 0);
    ShorterNotContains(y[3..], "youtube");
    assert y[2..][..7][0] != "youtube"[0];
    assert !Contains(y[2..], "youtube");
    assert y[1..][..7][0] != "youtube"[0];
    assert !Contains(y[1..], "youtube");
    assert y[..7][5] != "youtube"[5];
    ContainsAcross(s, y, "youtube");
  }

  const ShortYouTubeHost := "https://youtu.be/"

  /** Every URL that mentions the `tiktok.com` host is labelled `tiktok`. */
  lemma TikTokUrl(url: string)
    requires Contains(url, "tiktok.com")
    ensures DetectPlatform(url) == TikTok
  {
    assert "tiktok.com" == "tiktok" + ".com";
    ContainsPrefixOfPattern(url, "tiktok", ".com");
  }
}
