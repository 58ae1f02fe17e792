/** Python's `str.strip()` with no argument, as the serial monitor applies it
    to received lines and to the command about to be recorded in history. */
module Text {

  /** The characters Python's `str.isspace()` accepts, which are exactly the
      characters `str.strip()` removes when called without an argument. */
  predicate IsSpace(c: char) {
    || ('\t' <= c <= '\r')              // tab, line feed, vertical tab, form feed, carriage return
    || ('\U{1c}' <= c <= '\U{1f}')      // file, group, record and unit separators
    || c == ' '
    || c == '\U{85}' || c == '\U{a0}'
    || c == '\U{1680}'
    || ('\U{2000}' <= c <= '\U{200a}')
    || c == '\U{2028}' || c == '\U{2029}'
    || c == '\U{202f}' || c == '\U{205f}' || c == '\U{3000}'
  }

  /** Every character of `s[a..b]` is whitespace. */
  predicate SpaceIn(s: string, a: int, b: int)
    requires 0 <= a <= b <= |s|
  {
    forall k :: a <= k < b ==> IsSpace(s[k])
  }

  /** Every character of `s` is whitespace (vacuously true of the empty string). */
  predicate AllSpace(s: string) {
    SpaceIn(s, 0, |s|)
  }

  /** `s[i..j]` is what remains of `s` once the whitespace around it is
      removed: everything outside the slice is whitespace and, unless the
      slice is empty, it starts and ends with a non-whitespace character.
      This is the declarative reading of `strip`, independent of how it is
      computed. */
  predicate StrippedAt(s: string, i: int, j: int) {
    && 0 <= i <= j <= |s|
    && SpaceIn(s, 0, i)
    && SpaceIn(s, j, |s|)
    && (i < j ==> !IsSpace(s[i]) && !IsSpace(s[j - 1]))
  }

  /** The first position at or after `i` that does not hold whitespace,
      or `|s|`: the forward scan of `strip`. */
  function SkipSpace(s: string, i: int): (k: int)
    requires 0 <= i <= |s|
    ensures i <= k <= |s|
    ensures SpaceIn(s, i, k)
    ensures k < |s| ==> !IsSpace(s[k])
    decreases |s| - i
  {
    if i < |s| && IsSpace(s[i]) then SkipSpace(s, i + 1) else i
  }

  /** The last position `k` in `lo..j` with only whitespace in `s[k..j]`:
      the backward scan of `strip`, which stops at `lo`. */
  function BackSpace(s: string, lo: int, j: int): (k: int)
    requires 0 <= lo <= j <= |s|
    ensures lo <= k <= j
    ensures SpaceIn(s, k, j)
    ensures lo < k ==> !IsSpace(s[k - 1])
    decreases j - lo
  {
    if lo < j && IsSpace(s[j - 1]) then BackSpace(s, lo, j - 1) else j
  }

  /** Number of whitespace characters `strip` removes from the front. */
  function StripStart(s: string): (i: nat)
    ensures i <= |s|
  {
    SkipSpace(s, 0)
  }

  /** `strip()`: drops whitespace at both ends. The result is the slice of
      `s` that starts at `StripStart(s)` and satisfies `StrippedAt`. */
  function Strip(s: string): (r: string)
    ensures StripStart(s) + |r| <= |s|
    ensures r == s[StripStart(s)..StripStart(s) + |r|]
    ensures StrippedAt(s, StripStart(s), StripStart(s) + |r|)
  {
    var i := SkipSpace(s, 0);
    s[i..BackSpace(s, i, |s|)]
  }

  /** A non-whitespace character of `s` lies inside any stripped slice. */
  lemma NonSpaceInside(s: string, i: int, j: int, k: int)
    requires StrippedAt(s, i, j)
    requires 0 <= k < |s| && !IsSpace(s[k])
    ensures i <= k < j
  {
  }

  /** The declarative reading determines the stripped text uniquely, so
      `Strip` computes exactly it. */
  lemma StripUnique(s: string, i: int, j: int)
    requires StrippedAt(s, i, j)
    ensures Strip(s) == s[i..j]
  {
    var r := Strip(s);
    var i', j' := StripStart(s), StripStart(s) + |r|;
    if i < j {
      NonSpaceInside(s, i, j, i);
      NonSpaceInside(s, i, j, j - 1);
      if i' < j' {
        NonSpaceInside(s, i, j, i');
        NonSpaceInside(s, i, j, j' - 1);
        NonSpaceInside(s, i', j', i);
        NonSpaceInside(s, i', j', j - 1);
      } else {
        NonSpaceInside(s, i', j', i);
      }
    } else if i' < j' {
      NonSpaceInside(s, i, j, i');
    }
  }

  /** `strip` leaves nothing exactly when the text is all whitespace: the
      test the program uses to decide whether a line is worth keeping. */
  lemma StripEmptyIff(s: string)
    ensures Strip(s) == [] <==> AllSpace(s)
  {
    var r := Strip(s);
    var i := StripStart(s);
    if r == [] {
      forall k | 0 <= k < |s|
        ensures IsSpace(s[k])
      {
        if !IsSpace(s[k]) {
          NonSpaceInside(s, i, i, k);
        }
      }
    } else {
      assert !IsSpace(s[i]);
    }
  }

  /** Stripping twice is stripping once. */
  lemma StripIdempotent(s: string)
    ensures Strip(Strip(s)) == Strip(s)
  {
    var r := Strip(s);
    StripUnique(r, 0, |r|);
    assert r[0..|r|] == r;
  }
}
