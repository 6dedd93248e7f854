/** The slug hooks of the `Product` entity
    (src/products/entities/product.entity.ts): `toLowerCase()`, then
    `replaceAll(' ', '_')`, then `replaceAll("'", '')`, with a fallback to the
    title on insert only. */
module Slug {
  import opened Wrappers
  import opened Text

  /** A slug as the hooks leave it: no space, no apostrophe, no capital. */
  predicate IsNormalSlug(s: string) {
    ' ' !in s && '\'' !in s && NoUpper(s)
  }

  /** `replaceAll(' ', '_')`. */
  function ReplaceSpaces(s: string): (r: string)
    ensures |r| == |s| && ' ' !in r
    ensures forall i | 0 <= i < |s| :: s[i] == ' ' ==> r[i] == '_'
    ensures forall i | 0 <= i < |s| :: s[i] != ' ' ==> r[i] == s[i]
  {
    seq(|s|, i requires 0 <= i < |s| => if s[i] == ' ' then '_' else s[i])
  }

  /** How many characters before position `k` of `s` are not apostrophes:
      where the character at `k` lands once apostrophes are removed. */
  function KeptBefore(s: string, k: nat): int
    requires k <= |s|
  {
    k - Count(s[..k], '\'')
  }

  /** `replaceAll("'", '')`. */
  function DropApostrophes(s: string): (r: string)
    ensures '\'' !in r
    ensures |r| == |s| - Count(s, '\'')
    ensures forall c | c in r :: c in s
    ensures '\'' !in s ==> r == s
    ensures forall k | 0 <= k < |s| && s[k] != '\'' ::
      0 <= KeptBefore(s, k) < |r| && r[KeptBefore(s, k)] == s[k]
  {
    if |s| == 0 then []
    else
      var head := if s[0] == '\'' then [] else [s[0]];
      var rest := DropApostrophes(s[1..]);
      DropStep(s, head, rest);
      KeptInOrderStep(s, head, rest);
      head + rest
  }

  /** Putting the first character (or nothing, for an apostrophe) in front
      of the rest keeps the length and character clauses of
      `DropApostrophes`' contract. */
  lemma DropStep(s: string, head: string, rest: string)
    requires |s| > 0 && head == (if s[0] == '\'' then [] else [s[0]])
    requires '\'' !in rest && |rest| == |s[1..]| - Count(s[1..], '\'')
    requires forall c | c in rest :: c in s[1..]
    requires '\'' !in s[1..] ==> rest == s[1..]
    ensures '\'' !in head + rest && |head + rest| == |s| - Count(s, '\'')
    ensures forall c | c in head + rest :: c in s
    ensures '\'' !in s ==> head + rest == s
  {
    assert s == [s[0]] + s[1..];
  }

  /** Putting the first character (or nothing, for an apostrophe) in front
      of the rest keeps every kept character where `KeptBefore` puts it. */
  lemma KeptInOrderStep(s: string, head: string, rest: string)
    requires |s| > 0 && head == (if s[0] == '\'' then [] else [s[0]])
    requires forall k | 0 <= k < |s[1..]| && s[1..][k] != '\'' ::
      0 <= KeptBefore(s[1..], k) < |rest| && rest[KeptBefore(s[1..], k)] == s[1..][k]
    ensures forall k | 0 <= k < |s| && s[k] != '\'' ::
      0 <= KeptBefore(s, k) < |head + rest| && (head + rest)[KeptBefore(s, k)] == s[k]
  {
    forall k | 0 <= k < |s| && s[k] != '\''
      ensures 0 <= KeptBefore(s, k) < |head + rest| && (head + rest)[KeptBefore(s, k)] == s[k]
    {
      if k > 0 {
        KeptBeforeStep(s, head, k);
        assert s[1..][k - 1] == s[k];
      }
    }
  }

  /** Past the first character, the kept characters before `k` are those
      before `k - 1` in the rest, plus the first one unless it is an
      apostrophe. */
  lemma KeptBeforeStep(s: string, head: string, k: nat)
    requires 0 < k <= |s| && head == (if s[0] == '\'' then [] else [s[0]])
    ensures KeptBefore(s, k) == |head| + KeptBefore(s[1..], k - 1)
  {
    assert s[..k][1..] == s[1..][..k - 1];
  }

  /** The normalisation both hooks apply. */
  function NormalizeSlug(s: string): (r: string)
    ensures IsNormalSlug(r)
    ensures |r| == |s| - Count(s, '\'')
    ensures IsNormalSlug(s) ==> r == s
  {
    var spaced := ReplaceSpaces(ToLower(s));
    LowerSpacedFacts(s, spaced);
    var r := DropApostrophes(spaced);
    NoUpperKept(spaced, r);
    r
  }

  /** The first two passes keep the apostrophes where they were, leave no
      capital, and change nothing in a normal slug. */
  lemma LowerSpacedFacts(s: string, spaced: string)
    requires spaced == ReplaceSpaces(ToLower(s))
    ensures Count(spaced, '\'') == Count(s, '\'') && NoUpper(spaced)
    ensures IsNormalSlug(s) ==> spaced == s
  {
    CountSamePositions(s, spaced, '\'');
    if IsNormalSlug(s) {
      assert ToLower(s) == s;
    }
  }

  /** Keeping only characters of a string without capitals keeps it so. */
  lemma NoUpperKept(t: string, r: string)
    requires NoUpper(t) && forall c | c in r :: c in t
    ensures NoUpper(r)
  {
    forall i | 0 <= i < |r| ensures !IsUpper(r[i]) {
      assert r[i] in t;
    }
  }

  /** Two equally long strings with the character `c` at the same positions
      hold it equally often. */
  lemma {:induction false} CountSamePositions(s: string, t: string, c: char)
    requires |s| == |t|
    requires forall i | 0 <= i < |s| :: s[i] == c <==> t[i] == c
    ensures Count(s, c) == Count(t, c)
  {
    if |s| > 0 {
      CountSamePositions(s[1..], t[1..], c);
    }
  }

  /** Normalising twice is normalising once. */
  lemma NormalizeSlugIdempotent(s: string)
    ensures NormalizeSlug(NormalizeSlug(s)) == NormalizeSlug(s)
  {
  }

  /** What one input character becomes: lower-cased, space to underscore,
      apostrophe dropped. */
  function SlugChars(c: char): string {
    if c == '\'' then [] else if c == ' ' then ['_'] else [LowerChar(c)]
  }

  /** The character-by-character reading of the three passes. */
  function PerCharSlug(s: string): string {
    if |s| == 0 then [] else SlugChars(s[0]) + PerCharSlug(s[1..])
  }

  /** The three passes agree with the character-by-character reading. */
  lemma {:induction false} NormalizeMatchesPerChar(s: string)
    ensures NormalizeSlug(s) == PerCharSlug(s)
  {
    if |s| > 0 {
      NormalizeMatchesPerChar(s[1..]);
      NormalizeCons(s);
    }
  }

  /** Normalising peels off one character at a time. */
  lemma NormalizeCons(s: string)
    requires |s| > 0
    ensures NormalizeSlug(s) == SlugChars(s[0]) + NormalizeSlug(s[1..])
  {
    var spaced := ReplaceSpaces(ToLower(s));
    SpacedCons(s);
    assert DropApostrophes(spaced) ==
      (if spaced[0] == '\'' then [] else [spaced[0]]) + DropApostrophes(spaced[1..]);
  }

  /** The first two passes work character by character. */
  lemma SpacedCons(s: string)
    requires |s| > 0
    ensures ReplaceSpaces(ToLower(s))[1..] == ReplaceSpaces(ToLower(s[1..]))
    ensures ReplaceSpaces(ToLower(s))[0] == (if s[0] == ' ' then '_' else LowerChar(s[0]))
  {
    assert ToLower(s)[1..] == ToLower(s[1..]);
  }

  /** `checkSlugInsert`: a missing or empty slug (`!this.slug`) is replaced
      by the title, then normalised. */
  function CheckSlugInsert(title: string, slug: Option<string>): (r: string)
    ensures IsNormalSlug(r)
    ensures (slug.None? || slug.value == []) ==> r == NormalizeSlug(title)
    ensures slug.Some? && slug.value != [] ==> r == NormalizeSlug(slug.value)
  {
    if slug.None? || slug.value == [] then NormalizeSlug(title)
    else NormalizeSlug(slug.value)
  }

  /** `checkSlugUpdate`: the same normalisation, with no title fallback. */
  function CheckSlugUpdate(slug: string): (r: string)
    ensures IsNormalSlug(r)
    ensures |r| == |slug| - Count(slug, '\'')
    ensures IsNormalSlug(slug) ==> r == slug
  {
    NormalizeSlug(slug)
  }

  /** With a non-empty slug the two hooks agree; with an empty one only the
      insert hook falls back to the title, the update hook keeps it empty. */
  lemma InsertAndUpdateHooks(title: string, slug: string)
    ensures slug != [] ==> CheckSlugInsert(title, Some(slug)) == CheckSlugUpdate(slug)
    ensures CheckSlugUpdate([]) == []
    ensures CheckSlugInsert(title, Some([])) == CheckSlugInsert(title, None)
  {
  }
}
