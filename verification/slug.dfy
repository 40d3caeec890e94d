/** The identifier ("slug") of a food: its name lowercased, with every space turned into a hyphen. */
module Slugs {

  predicate IsUpperAscii(c: char) {
    'A' <= c <= 'Z'
  }

  /** Lowercasing of one character, restricted to ASCII letters; every other character is kept. */
  function LowerChar(c: char): (r: char)
    ensures !IsUpperAscii(r)
    ensures r == c <==> !IsUpperAscii(c)
    ensures IsUpperAscii(c) ==> 'a' <= r <= 'z'
    ensures IsUpperAscii(c) ==> r as int - 'a' as int == c as int - 'A' as int
  {
    if IsUpperAscii(c) then (c as int - 'A' as int + 'a' as int) as char else c
  }

  lemma LowerCharIdempotent(c: char)
    ensures LowerChar(LowerChar(c)) == LowerChar(c)
  {
  }

  /** `toLowerCase()` on a whole string, character by character. */
  function Lower(s: string): (r: string)
    ensures |r| == |s|
    ensures forall i :: 0 <= i < |s| ==> r[i] == LowerChar(s[i])
  {
    if s == [] then [] else [LowerChar(s[0])] + Lower(s[1..])
  }

  /** `replace(/ /g, "-")`: every U+0020 space becomes a hyphen; tabs and other blanks are kept. */
  function ReplaceSpaces(s: string): (r: string)
    ensures |r| == |s|
    ensures forall i :: 0 <= i < |s| ==> r[i] == (if s[i] == ' ' then '-' else s[i])
  {
    if s == [] then [] else [if s[0] == ' ' then '-' else s[0]] + ReplaceSpaces(s[1..])
  }

  /** The slug of a food name, lowercasing first and then replacing the spaces. */
  function Slug(name: string): (r: string)
    ensures |r| == |name|
    ensures ' ' !in r
    ensures forall i :: 0 <= i < |r| ==> !IsUpperAscii(r[i])
    ensures forall i :: 0 <= i < |name| ==>
      r[i] == (if name[i] == ' ' then '-' else LowerChar(name[i]))
  {
    ReplaceSpaces(Lower(name))
  }

  /** A slug is its own slug: it holds no space and no upper-case letter. */
  lemma SlugIdempotent(name: string)
    ensures Slug(Slug(name)) == Slug(name)
  {
  }

  /** The slug is empty exactly when the name is. */
  lemma SlugEmpty(name: string)
    ensures Slug(name) == [] <==> name == []
  {
  }

  /** Checks a slug character by character, which the solver does far more cheaply than unfolding. */
  lemma SlugOfLiteral(name: string, slug: string)
    requires |name| == |slug|
    requires forall i :: 0 <= i < |name| ==>
      slug[i] == (if name[i] == ' ' then '-' else LowerChar(name[i]))
    ensures Slug(name) == slug
  {
  }

  lemma SlugOfApplePie()
    ensures Slug("Apple Pie") == "apple-pie"
  {
    SlugOfLiteral("Apple Pie", "apple-pie");
  }

  /** Names differing only in ASCII case share one slug. */
  lemma CaseInsensitiveCollision()
    ensures Slug("apple pie") == Slug("Apple Pie")
  {
    SlugOfLiteral("apple pie", "apple-pie");
    SlugOfApplePie();
  }
}
