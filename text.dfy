/** ASCII string operations used by the pipeline and the handler: the parts of
    Python's `str` that the scripts rely on (`lower`, `isalnum`, `replace`,
    `rstrip`, `strip`, `startswith`, `in`, `split`), restricted to ASCII
    characters. */
module Text {

  // ---------------------------------------------------------------------------
  // Character classes
  // ---------------------------------------------------------------------------

  predicate IsUpper(c: char) { 'A' <= c <= 'Z' }

  predicate IsLowerLetter(c: char) { 'a' <= c <= 'z' }

  predicate IsDigit(c: char) { '0' <= c <= '9' }

  /** `str.isalnum` on one ASCII character. */
  predicate IsAlnum(c: char) { IsUpper(c) || IsLowerLetter(c) || IsDigit(c) }

  /** The ASCII characters for which Python's `str.isspace` holds: space, the
      control characters tab to carriage return and the four separators
      0x1C-0x1F. */
  predicate IsSpace(c: char) {
    c == ' ' || '\t' <= c <= '\r' || '\U{1C}' <= c <= '\U{1F}'
  }

  /** `str.lower` on one ASCII character. */
  function ToLower(c: char): (r: char)
    ensures !IsUpper(r)
    ensures IsUpper(c) ==> IsLowerLetter(r) && r as int == c as int + 32
    ensures !IsUpper(c) ==> r == c
  {
    if IsUpper(c) then (c as int + 32) as char else c
  }

  /** `str.lower` on a whole string. */
  function Lower(s: string): (r: string)
    ensures |r| == |s|
    ensures forall i :: 0 <= i < |s| ==> r[i] == ToLower(s[i])
  {
    seq(|s|, i requires 0 <= i < |s| => ToLower(s[i]))
  }

  predicate NoUpper(s: string) { forall i :: 0 <= i < |s| ==> !IsUpper(s[i]) }

  lemma LowerIdempotent(s: string)
    ensures NoUpper(Lower(s))
    ensures Lower(Lower(s)) == Lower(s)
  {
  }

  lemma LowerOfNoUpper(s: string)
    requires NoUpper(s)
    ensures Lower(s) == s
  {
  }

  lemma LowerAppend(a: string, b: string)
    ensures Lower(a + b) == Lower(a) + Lower(b)
  {
  }

  // ---------------------------------------------------------------------------
  // Prefixes and substrings
  // ---------------------------------------------------------------------------

  /** `s.startswith(p)`. */
  predicate StartsWith(s: string, p: string) { |p| <= |s| && s[..|p|] == p }

  /** `p in s`: the substring test, searched from the left. */
  predicate Contains(s: string, p: string)
    decreases |s|
  {
    StartsWith(s, p) || (|s| > 0 && Contains(s[1..], p))
  }

  /** `p` occurs in `s` at position `i`. */
  predicate OccursAt(s: string, p: string, i: nat) { i + |p| <= |s| && s[i..i + |p|] == p }

  /** The recursive substring test agrees with "some position holds `p`". */
  lemma {:induction false} ContainsIff(s: string, p: string)
    ensures Contains(s, p) <==> exists i: nat :: OccursAt(s, p, i)
    decreases |s|
  {
    if Contains(s, p) {
      if StartsWith(s, p) {
        assert OccursAt(s, p, 0);
      } else {
        ContainsIff(s[1..], p);
        var i: nat :| OccursAt(s[1..], p, i);
        assert s[1..][i..i + |p|] == s[i + 1..i + 1 + |p|];
        assert OccursAt(s, p, i + 1);
      }
    }
    if exists i: nat :: OccursAt(s, p, i) {
      var i: nat :| OccursAt(s, p, i);
      if i == 0 {
        assert StartsWith(s, p);
      } else {
        assert s[1..][i - 1..i - 1 + |p|] == s[i..i + |p|];
        assert OccursAt(s[1..], p, i - 1);
        ContainsIff(s[1..], p);
      }
    }
  }

  /** Every character of a contained string occurs in the containing one. */
  lemma {:induction false} ContainsChars(s: string, p: string, j: nat)
    requires Contains(s, p) && j < |p|
    ensures p[j] in s
    decreases |s|
  {
    if StartsWith(s, p) {
      assert s[j] == p[j];
    } else {
      ContainsChars(s[1..], p, j);
    }
  }

  /** A pattern longer than the text does not occur in it. */
  lemma {:induction false} ShorterNotContains(s: string, p: string)
    requires |s| < |p|
    ensures !Contains(s, p)
    decreases |s|
  {
    if |s| > 0 {
      ShorterNotContains(s[1..], p);
    }
  }

  /** A pattern with a character the text lacks does not occur in it. */
  lemma MissingCharNotContains(s: string, p: string, j: nat)
    requires j < |p| && p[j] !in s
    ensures !Contains(s, p)
  {
    if Contains(s, p) {
      ContainsChars(s, p, j);
    }
  }

  /** When `a` ends in a character the pattern lacks, no occurrence of the
      pattern in `a + b` straddles the boundary. */
  lemma ContainsAcross(a: string, b: string, p: string)
    requires |a| > 0 && a[|a| - 1] !in p
    ensures Contains(a + b, p) <==> Contains(a, p) || Contains(b, p)
  {
    ContainsIff(a + b, p);
    ContainsIff(a, p);
    ContainsIff(b, p);
    if Contains(a + b, p) {
      var i: nat :| OccursAt(a + b, p, i);
      OccursAtSplit(a, b, p, i);
    }
    if Contains(a, p) {
      var i: nat :| OccursAt(a, p, i);
      assert (a + b)[i..i + |p|] == a[i..i + |p|];
      assert OccursAt(a + b, p, i);
    }
    if Contains(b, p) {
      var i: nat :| OccursAt(b, p, i);
      assert (a + b)[|a| + i..|a| + i + |p|] == b[i..i + |p|];
      assert OccursAt(a + b, p, |a| + i);
    }
  }

  /** Where an occurrence in `a + b` lies: inside `a`, inside `b`, or across
      the boundary, and then it holds the last character of `a`. */
  lemma OccursAtSplit(a: string, b: string, p: string, i: nat)
    requires OccursAt(a + b, p, i)
    ensures i + |p| <= |a| ==> OccursAt(a, p, i)
    ensures i >= |a| ==> OccursAt(b, p, i - |a|)
    ensures i < |a| < i + |p| ==> a[|a| - 1] in p
  {
    if i + |p| <= |a| {
      assert (a + b)[i..i + |p|] == a[i..i + |p|];
    } else if i >= |a| {
      assert (a + b)[i..i + |p|] == b[i - |a|..i - |a| + |p|];
    } else {
      assert (a + b)[i..i + |p|][|a| - 1 - i] == a[|a| - 1];
    }
  }

  /** An occurrence of `p + q` is also one of `p`. */
  lemma ContainsPrefixOfPattern(s: string, p: string, q: string)
    requires Contains(s, p + q)
    ensures Contains(s, p)
  {
    ContainsIff(s, p + q);
    var i: nat :| OccursAt(s, p + q, i);
    assert s[i..i + |p|] == (p + q)[..|p|] == p;
    assert OccursAt(s, p, i);
    ContainsIff(s, p);
  }

  /** Lower-casing the text keeps every occurrence of a pattern that has no
      upper-case letters. */
  lemma {:induction false} ContainsLower(s: string, p: string)
    requires Contains(s, p) && NoUpper(p)
    ensures Contains(Lower(s), p)
    decreases |s|
  {
    if StartsWith(s, p) {
      assert Lower(s)[..|p|] == Lower(s[..|p|]);
      LowerOfNoUpper(p);
    } else {
      assert Lower(s)[1..] == Lower(s[1..]);
      ContainsLower(s[1..], p);
    }
  }

  // ---------------------------------------------------------------------------
  // replace
  // ---------------------------------------------------------------------------

  /** `s.replace(pat, rep)` for a non-empty `pat`: occurrences are found from
      the left and do not overlap. */
  function ReplaceAll(s: string, pat: string, rep: string): (r: string)
    requires |pat| > 0
    ensures |rep| == |pat| ==> |r| == |s|
    ensures |rep| <= |pat| ==> |r| <= |s|
    decreases |s|
  {
    if |s| < |pat| then s
    else if s[..|pat|] == pat then rep + ReplaceAll(s[|pat|..], pat, rep)
    else [s[0]] + ReplaceAll(s[1..], pat, rep)
  }

  /** Replacing one character by one character is a character-wise map. */
  lemma {:induction false} ReplaceCharAt(s: string, c: char, d: char)
    ensures |ReplaceAll(s, [c], [d])| == |s|
    ensures forall i :: 0 <= i < |s| ==> ReplaceAll(s, [c], [d])[i] == if s[i] == c then d else s[i]
    decreases |s|
  {
    if |s| > 0 {
      ReplaceCharAt(s[1..], c, d);
      assert s[..1] == [s[0]];
    }
  }

  /** A text without an occurrence of the pattern is left as it is. */
  lemma {:induction false} ReplaceAbsent(s: string, pat: string, rep: string)
    requires |pat| > 0 && !Contains(s, pat)
    ensures ReplaceAll(s, pat, rep) == s
    decreases |s|
  {
    if |s| >= |pat| {
      assert !StartsWith(s, pat);
      ReplaceAbsent(s[1..], pat, rep);
    }
  }

  /** Removing a pattern never lengthens the text. */
  lemma {:induction false} RemoveShortens(s: string, pat: string)
    requires |pat| > 0
    ensures |ReplaceAll(s, pat, "")| <= |s|
    decreases |s|
  {
    if |s| >= |pat| {
      if s[..|pat|] == pat {
        RemoveShortens(s[|pat|..], pat);
      } else {
        RemoveShortens(s[1..], pat);
      }
    }
  }

  // ---------------------------------------------------------------------------
  // rstrip, strip
  // ---------------------------------------------------------------------------

  /** `s.rstrip(c)`: drops every trailing `c`. */
  function RStrip(s: string, c: char): (r: string)
    ensures |r| <= |s| && r == s[..|r|]
    ensures |r| == 0 || r[|r| - 1] != c
    decreases |s|
  {
    if |s| > 0 && s[|s| - 1] == c then RStrip(s[..|s| - 1], c) else s
  }

  function Repeat(c: char, n: nat): (r: string)
    ensures |r| == n && forall i :: 0 <= i < n ==> r[i] == c
  {
    seq(n, _ => c)
  }

  /** `rstrip` leaves a prefix that does not end in `c`, and what it drops is a
      run of `c`. */
  lemma {:induction false} RStripShape(s: string, c: char)
    ensures |RStrip(s, c)| <= |s|
    ensures |RStrip(s, c)| == 0 || RStrip(s, c)[|RStrip(s, c)| - 1] != c
    ensures s == RStrip(s, c) + Repeat(c, |s| - |RStrip(s, c)|)
    decreases |s|
  {
    if |s| > 0 && s[|s| - 1] == c {
      var t := s[..|s| - 1];
      RStripShape(t, c);
      var r := RStrip(t, c);
      assert RStrip(s, c) == r;
      var n := |t| - |r|;
      assert s == t + [c] == r + Repeat(c, n) + [c];
      assert Repeat(c, n + 1) == Repeat(c, n) + [c];
    } else {
      assert s == s + Repeat(c, 0);
    }
  }

  /** A text that does not end in `c` is its own `rstrip`. */
  lemma RStripFixed(s: string, c: char)
    requires |s| == 0 || s[|s| - 1] != c
    ensures RStrip(s, c) == s
  {
  }

  lemma RStripIdempotent(s: string, c: char)
    ensures RStrip(RStrip(s, c), c) == RStrip(s, c)
  {
    RStripShape(s, c);
    RStripFixed(RStrip(s, c), c);
  }

  /** Appending more `c`s does not change the `rstrip`. */
  lemma {:induction false} RStripPadded(s: string, c: char, n: nat)
    ensures RStrip(s + Repeat(c, n), c) == RStrip(s, c)
    decreases n
  {
    if n > 0 {
      var t := s + Repeat(c, n);
      assert t[..|t| - 1] == s + Repeat(c, n - 1);
      RStripPadded(s, c, n - 1);
    } else {
      assert s + Repeat(c, 0) == s;
    }
  }

  /** Two texts have the same `rstrip` exactly when they are one text padded
      with two runs of `c`. */
  lemma RStripEqualIff(a: string, b: string, c: char)
    ensures RStrip(a, c) == RStrip(b, c) <==>
            exists t: string, m: nat, n: nat :: a == t + Repeat(c, m) && b == t + Repeat(c, n)
  {
    if RStrip(a, c) == RStrip(b, c) {
      RStripShape(a, c);
      RStripShape(b, c);
      var t := RStrip(a, c);
      assert a == t + Repeat(c, |a| - |t|) && b == t + Repeat(c, |b| - |t|);
    }
    if exists t: string, m: nat, n: nat :: a == t + Repeat(c, m) && b == t + Repeat(c, n) {
      var t: string, m: nat, n: nat :| a == t + Repeat(c, m) && b == t + Repeat(c, n);
      RStripPadded(t, c, m);
      RStripPadded(t, c, n);
    }
  }

  /** Drops leading whitespace. */
  function StripLeft(s: string): (r: string)
    ensures |r| <= |s|
    decreases |s|
  {
    if |s| > 0 && IsSpace(s[0]) then StripLeft(s[1..]) else s
  }

  /** Drops trailing whitespace. */
  function StripRight(s: string): (r: string)
    ensures |r| <= |s|
    decreases |s|
  {
    if |s| > 0 && IsSpace(s[|s| - 1]) then StripRight(s[..|s| - 1]) else s
  }

  /** `s.strip()`. */
  function Strip(s: string): (r: string)
    ensures |r| <= |s|
  {
    StripLeft(StripRight(s))
  }

  /** What `strip` keeps is one contiguous piece of the text that begins and
      ends with a non-space character, and only whitespace is dropped. */
  lemma StripShape(s: string)
    ensures exists i: nat, j: nat :: i <= j <= |s| && Strip(s) == s[i..j] &&
              (forall k :: 0 <= k < i ==> IsSpace(s[k])) &&
              (forall k :: j <= k < |s| ==> IsSpace(s[k]))
    ensures |Strip(s)| == 0 || (!IsSpace(Strip(s)[0]) && !IsSpace(Strip(s)[|Strip(s)| - 1]))
  {
    var j := StripRightShape(s);
    var i := StripLeftShape(s[..j]);
    assert s[..j][i..] == s[i..j];
    assert forall k :: 0 <= k < i ==> s[k] == s[..j][k];
    if |Strip(s)| > 0 {
      assert Strip(s)[|Strip(s)| - 1] == s[j - 1];
    }
  }

  lemma {:induction false} StripRightShape(s: string) returns (j: nat)
    ensures j <= |s| && StripRight(s) == s[..j]
    ensures forall k :: j <= k < |s| ==> IsSpace(s[k])
    ensures j == 0 || !IsSpace(s[j - 1])
    decreases |s|
  {
    if |s| > 0 && IsSpace(s[|s| - 1]) {
      j := StripRightShape(s[..|s| - 1]);
      assert s[..|s| - 1][..j] == s[..j];
    } else {
      j := |s|;
    }
  }

  lemma {:induction false} StripLeftShape(s: string) returns (i: nat)
    ensures i <= |s| && StripLeft(s) == s[i..]
    ensures forall k :: 0 <= k < i ==> IsSpace(s[k])
    ensures i == |s| || !IsSpace(s[i])
    decreases |s|
  {
    if |s| > 0 && IsSpace(s[0]) {
      var i' := StripLeftShape(s[1..]);
      i := i' + 1;
      assert s[1..][i'..] == s[i..];
    } else {
      i := 0;
    }
  }

  // ---------------------------------------------------------------------------
  // split, slicing
  // ---------------------------------------------------------------------------

  /** `s.split(sep)` for a one-character separator: always at least one piece,
      an empty piece where two separators meet or the text ends in one. */
  function Split(s: string, sep: char): (r: seq<string>)
    ensures |r| >= 1
    decreases |s|
  {
    if |s| == 0 then [""]
    else
      var rest := Split(s[1..], sep);
      if s[0] == sep then [""] + rest else [[s[0]] + rest[0]] + rest[1..]
  }

  /** `sep.join(pieces)`. */
  function Join(pieces: seq<string>, sep: char): string
    requires |pieces| >= 1
    decreases |pieces|
  {
    if |pieces| == 1 then pieces[0] else pieces[0] + [sep] + Join(pieces[1..], sep)
  }

  /** Joining the pieces of a split gives back the text, and no piece holds
      the separator. */
  lemma {:induction false} SplitJoin(s: string, sep: char)
    ensures Join(Split(s, sep), sep) == s
    ensures forall k :: 0 <= k < |Split(s, sep)| ==> sep !in Split(s, sep)[k]
    decreases |s|
  {
    if |s| > 0 {
      var rest := Split(s[1..], sep);
      SplitJoin(s[1..], sep);
      if s[0] == sep {
        assert Split(s, sep)[1..] == rest;
      } else {
        var r := Split(s, sep);
        if |rest| == 1 {
          assert Join(r, sep) == [s[0]] + rest[0];
        } else {
          assert r[1..] == rest[1..];
          assert Join(rest, sep) == rest[0] + [sep] + Join(rest[1..], sep);
        }
        assert forall k :: 1 <= k < |r| ==> r[k] == rest[k];
      }
    }
  }

  /** The last `n` characters, `s[-n:] if len(s) > n else s` for `n > 0` (the
      only use is `n = 500`). For `n = 0` this gives the empty text, where
      Python's `s[-0:]` is the whole of `s`. */
  function Tail(s: string, n: nat): (r: string)
    ensures |r| == if |s| < n then |s| else n
    ensures s == s[..|s| - |r|] + r
  {
    if |s| > n then s[|s| - n..] else s
  }
}
