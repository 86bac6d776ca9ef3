/** The file-name slug of a recipe (save_to_github): lower-case the title,
    turn spaces and slashes into hyphens, then keep only alphanumeric
    characters and hyphens. */
module Slug {
  import opened Text

  /** The characters the slug filter keeps. */
  predicate IsSlugChar(c: char) { IsAlnum(c) || c == '-' }

  /** A well-formed slug: only lower-case letters, digits and hyphens. */
  predicate IsSlug(s: string) {
    forall i :: 0 <= i < |s| ==> IsSlugChar(s[i]) && !IsUpper(s[i])
  }

  /** `''.join(c for c in s if c.isalnum() or c == '-')`. */
  function KeepSlugChars(s: string): (r: string)
    ensures |r| <= |s|
    ensures forall i :: 0 <= i < |r| ==> IsSlugChar(r[i])
    decreases |s|
  {
    if |s| == 0 then [] else (if IsSlugChar(s[0]) then [s[0]] else []) + KeepSlugChars(s[1..])
  }

  /** The slug of a title, computed in the order the source applies its steps. */
  function MakeSlug(title: string): (slug: string)
    ensures |slug| <= |title|
    ensures forall i :: 0 <= i < |slug| ==> IsSlugChar(slug[i])
  {
    KeepSlugChars(ReplaceAll(ReplaceAll(Lower(title), " ", "-"), "/", "-"))
  }

  // ---------------------------------------------------------------------------
  // A character-by-character reference definition
  // ---------------------------------------------------------------------------

  /** What one title character turns into before filtering. */
  function SlugChar(c: char): (d: char)
  {
    if c == ' ' || c == '/' then '-' else ToLower(c)
  }

  /** The slug built one title character at a time. */
  function SlugByChar(t: string): (r: string)
    decreases |t|
  {
    if |t| == 0 then []
    else (if IsSlugChar(SlugChar(t[0])) then [SlugChar(t[0])] else []) + SlugByChar(t[1..])
  }

  function MapSlugChar(t: string): (r: string)
    ensures |r| == |t| && forall i :: 0 <= i < |t| ==> r[i] == SlugChar(t[i])
  {
    seq(|t|, i requires 0 <= i < |t| => SlugChar(t[i]))
  }

  lemma {:induction false} KeepMapped(t: string)
    ensures KeepSlugChars(MapSlugChar(t)) == SlugByChar(t)
    decreases |t|
  {
    if |t| > 0 {
      assert MapSlugChar(t)[1..] == MapSlugChar(t[1..]);
      KeepMapped(t[1..]);
    }
  }

  /** The chain of `lower` and two `replace` calls is the character-wise map. */
  lemma ReplacedIsMapped(t: string)
    ensures ReplaceAll(ReplaceAll(Lower(t), " ", "-"), "/", "-") == MapSlugChar(t)
  {
    var l := Lower(t);
    assert " " == [' '] && "-" == ['-'] && "/" == ['/'];
    ReplaceCharAt(l, ' ', '-');
    var r1 := ReplaceAll(l, " ", "-");
    ReplaceCharAt(r1, '/', '-');
  }

  /** The source's slug agrees with the character-by-character definition. */
  lemma MakeSlugByChar(t: string)
    ensures MakeSlug(t) == SlugByChar(t)
  {
    ReplacedIsMapped(t);
    KeepMapped(t);
  }

  // ---------------------------------------------------------------------------
  // Properties
  // ---------------------------------------------------------------------------

  lemma {:induction false} SlugByCharShape(t: string)
    ensures IsSlug(SlugByChar(t)) && |SlugByChar(t)| <= |t|
    decreases |t|
  {
    if |t| > 0 {
      SlugByCharShape(t[1..]);
    }
  }

  /** A slug holds only lower-case letters, digits and hyphens, and is never
      longer than the title. */
  lemma SlugWellFormed(t: string)
    ensures IsSlug(MakeSlug(t))
    ensures |MakeSlug(t)| <= |t|
  {
    MakeSlugByChar(t);
    SlugByCharShape(t);
  }

  lemma {:induction false} SlugByCharFixed(s: string)
    requires IsSlug(s)
    ensures SlugByChar(s) == s
    decreases |s|
  {
    if |s| > 0 {
      SlugByCharFixed(s[1..]);
    }
  }

  /** A well-formed slug is its own slug. */
  lemma SlugOfSlug(s: string)
    requires IsSlug(s)
    ensures MakeSlug(s) == s
  {
    MakeSlugByChar(s);
    SlugByCharFixed(s);
  }

  /** Slugifying twice is slugifying once. */
  lemma SlugIdempotent(t: string)
    ensures MakeSlug(MakeSlug(t)) == MakeSlug(t)
  {
    SlugWellFormed(t);
    SlugOfSlug(MakeSlug(t));
  }

  lemma {:induction false} SlugByCharAppend(a: string, b: string)
    ensures SlugByChar(a + b) == SlugByChar(a) + SlugByChar(b)
    decreases |a|
  {
    if |a| > 0 {
      assert (a + b)[1..] == a[1..] + b;
      SlugByCharAppend(a[1..], b);
    } else {
      assert a + b == b;
    }
  }

  /** The slug of a concatenation is the concatenation of the slugs. */
  lemma SlugAppend(a: string, b: string)
    ensures MakeSlug(a + b) == MakeSlug(a) + MakeSlug(b)
  {
    MakeSlugByChar(a + b);
    MakeSlugByChar(a);
    MakeSlugByChar(b);
    SlugByCharAppend(a, b);
  }

  /** Each space or slash of the title becomes one hyphen of the slug. */
  lemma SeparatorBecomesHyphen(a: string, c: char, b: string)
    requires c == ' ' || c == '/'
    ensures MakeSlug(a + [c] + b) == MakeSlug(a) + "-" + MakeSlug(b)
  {
    SlugAppend(a + [c], b);
    SlugAppend(a, [c]);
    MakeSlugByChar([c]);
    assert SlugByChar([c]) == "-" by {
      assert [c][1..] == [];
    }
  }

  /** A worked example: the title `Test Soup` is saved as `test-soup.json`. */
  lemma ExampleSlug()
    ensures MakeSlug("Test Soup") == "test-soup"
  {
    ExampleSlugByChar();
    MakeSlugByChar("Test Soup");
  }

  lemma ExampleSlugByChar()
    ensures SlugByChar("Test Soup") == "test-soup"
  {
    assert SlugByChar("p") == "p";
    assert SlugByChar("up") == "up";
    assert SlugByChar("oup") == "oup";
    assert SlugByChar("Soup") == "soup";
    assert SlugByChar(" Soup") == "-soup";
    assert SlugByChar("t Soup") == "t-soup";
    assert SlugByChar("st Soup") == "st-soup";
    assert SlugByChar("est Soup") == "est-soup";
  }
}
