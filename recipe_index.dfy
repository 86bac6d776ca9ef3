/** The recipe index (`data/recipes.json`, a list of entries): the
    duplicate check `main` runs before any work, which compares URLs with
    trailing slashes removed, and the append `save_to_github` performs, which
    compares URLs exactly. */
module RecipeIndex {
  import opened Wrappers
  import opened Text
  import opened Recipes

  /** `url.rstrip('/')`. */
  function NormalizeUrl(url: string): (n: string)
    ensures |n| <= |url| && n == url[..|n|]
    ensures |n| == 0 || n[|n| - 1] != '/'
  {
    RStrip(url, '/')
  }

  /** An entry whose URL differs from `candidate` at most in trailing slashes. */
  predicate MatchesUrl(e: IndexEntry, candidate: string) {
    NormalizeUrl(e.source.url) == NormalizeUrl(candidate)
  }

  predicate IsDuplicate(index: seq<IndexEntry>, candidate: string) {
    exists i :: 0 <= i < |index| && MatchesUrl(index[i], candidate)
  }

  /** The loop at the start of `main`: the first entry whose URL matches the
      candidate once trailing slashes are removed from both, if there is one. */
  method FindExisting(index: seq<IndexEntry>, candidate: string) returns (found: Option<nat>)
    ensures found.Some? ==> found.value < |index| && MatchesUrl(index[found.value], candidate)
    ensures found.Some? ==> forall j :: 0 <= j < found.value ==> !MatchesUrl(index[j], candidate)
    ensures found.None? <==> !IsDuplicate(index, candidate)
  {
    var normalized := NormalizeUrl(candidate);
    for i := 0 to |index|
      invariant forall j :: 0 <= j < i ==> !MatchesUrl(index[j], candidate)
    {
      if NormalizeUrl(index[i].source.url) == normalized {
        return Some(i);
      }
    }
    return None;
  }

  /** A URL and the same URL with trailing slashes added are the same for
      the duplicate check. */
  lemma TrailingSlashesIgnored(index: seq<IndexEntry>, url: string, n: nat)
    ensures IsDuplicate(index, url + Repeat('/', n)) <==> IsDuplicate(index, url)
  {
    RStripPadded(url, '/', n);
  }

  /** The normalisation is idempotent and leaves no trailing slash. */
  lemma NormalizeUrlShape(url: string)
    ensures NormalizeUrl(NormalizeUrl(url)) == NormalizeUrl(url)
    ensures |NormalizeUrl(url)| == 0 || NormalizeUrl(url)[|NormalizeUrl(url)| - 1] != '/'
    ensures |NormalizeUrl(url)| <= |url|
    ensures url == NormalizeUrl(url) + Repeat('/', |url| - |NormalizeUrl(url)|)
  {
    RStripShape(url, '/');
    RStripIdempotent(url, '/');
  }

  // ---------------------------------------------------------------------------
  // The append of save_to_github
  // ---------------------------------------------------------------------------

  /** `[r for r in index['recipes'] if r['source']['url'] == url]` is not
      empty. */
  predicate HasSourceUrl(index: seq<IndexEntry>, url: string) {
    exists i :: 0 <= i < |index| && index[i].source.url == url
  }

  /** The index after `save_to_github`: the entry is appended unless some
      entry has exactly the same source URL. */
  function AddEntry(index: seq<IndexEntry>, entry: IndexEntry): (r: seq<IndexEntry>)
    ensures HasSourceUrl(r, entry.source.url)
    ensures |index| <= |r| <= |index| + 1 && r[..|index|] == index
    ensures |r| == |index| + 1 <==> !HasSourceUrl(index, entry.source.url)
    ensures |r| == |index| + 1 ==> r[|index|] == entry
  {
    if HasSourceUrl(index, entry.source.url) then index
    else
      var r := index + [entry];
      assert r[|index|] == entry;
      r
  }

  /** An absent URL gets exactly one new entry, at the end, and the earlier
      entries stay as they were, in order; a present URL leaves the index
      alone. */
  lemma AddEntryEffect(index: seq<IndexEntry>, entry: IndexEntry)
    ensures !HasSourceUrl(index, entry.source.url) ==>
              && |AddEntry(index, entry)| == |index| + 1
              && AddEntry(index, entry)[..|index|] == index
              && AddEntry(index, entry)[|index|] == entry
    ensures HasSourceUrl(index, entry.source.url) ==> AddEntry(index, entry) == index
  {
  }

  /** After the update the URL is in the index, and adding the same entry
      again changes nothing. */
  lemma AddEntryIdempotent(index: seq<IndexEntry>, entry: IndexEntry)
    ensures HasSourceUrl(AddEntry(index, entry), entry.source.url)
    ensures AddEntry(AddEntry(index, entry), entry) == AddEntry(index, entry)
  {
    if !HasSourceUrl(index, entry.source.url) {
      assert AddEntry(index, entry)[|index|] == entry;
    }
  }

  /** At most one entry per exact source URL. */
  predicate UniqueUrls(index: seq<IndexEntry>) {
    forall i, j :: 0 <= i < j < |index| ==> index[i].source.url != index[j].source.url
  }

  /** At most one entry per source URL up to trailing slashes: the invariant
      the duplicate check of `main` is there to keep. */
  predicate UniqueNormalizedUrls(index: seq<IndexEntry>) {
    forall i, j :: 0 <= i < j < |index| ==> !MatchesUrl(index[i], index[j].source.url)
  }

  lemma AddEntryKeepsUniqueUrls(index: seq<IndexEntry>, entry: IndexEntry)
    requires UniqueUrls(index)
    ensures UniqueUrls(AddEntry(index, entry))
  {
  }

  /** The exact comparison of the append does not keep the normalised
      invariant by itself: it holds only when the duplicate check of `main`
      has already ruled the URL out. */
  lemma AddEntryKeepsUniqueNormalizedUrls(index: seq<IndexEntry>, entry: IndexEntry)
    requires UniqueNormalizedUrls(index)
    requires !IsDuplicate(index, entry.source.url)
    ensures UniqueNormalizedUrls(AddEntry(index, entry))
  {
    var r := AddEntry(index, entry);
    forall i, j | 0 <= i < j < |r|
      ensures !MatchesUrl(r[i], r[j].source.url)
    {
      if j == |index| {
        assert !MatchesUrl(index[i], entry.source.url);
      }
    }
  }

  /** An entry that differs from an existing one only by a trailing slash
      passes the exact comparison and breaks the normalised invariant. */
  lemma ExactComparisonAdmitsSlashVariant(e: IndexEntry, entry: IndexEntry)
    requires entry.source.url == e.source.url + "/"
    ensures AddEntry([e], entry) == [e, entry]
    ensures !UniqueNormalizedUrls(AddEntry([e], entry))
  {
    assert !HasSourceUrl([e], entry.source.url) by {
      assert |entry.source.url| == |e.source.url| + 1;
    }
    assert e.source.url + "/" == e.source.url + Repeat('/', 1);
    RStripPadded(e.source.url, '/', 1);
    assert MatchesUrl([e, entry][0], [e, entry][1].source.url);
  }
}
