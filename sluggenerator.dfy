/**
 * `generateSlug(length)`: a string of `length` characters, each picked from
 * a 62-character alphanumeric alphabet. The random draw
 * `Math.floor(Math.random() * 62)` is replaced by a sequence of indices
 * supplied by the caller.
 */
module SlugGenerator {

  /** The `n` consecutive characters starting at code point `lo`. */
  function CharRange(lo: nat, n: nat): (r: string)
    requires lo + n < 0xD800
  {
    seq(n, k requires 0 <= k < n => (lo + k) as char)
  }

  /** The alphabet slugs are drawn from, in the source's order:
      `ABCDEFGHIJKLMNOPQRSTUVWXYZabcdefghijklmnopqrstuvwxyz0123456789`,
      written as its three runs of consecutive code points. */
  const Alphabet: string := CharRange('A' as nat, 26) + CharRange('a' as nat, 26) + CharRange('0' as nat, 10)

  /** One random draw: a position in the alphabet. */
  type CharIndex = i: int | 0 <= i < 62

  /** Upper-case letters, lower-case letters and decimal digits. */
  predicate IsSlugChar(c: char)
  {
    ('A' <= c <= 'Z') || ('a' <= c <= 'z') || ('0' <= c <= '9')
  }

  /** The code point at position `i` of the alphabet. */
  function CodeAt(i: int): int
  {
    if i < 26 then 'A' as int + i else if i < 52 then 'a' as int + (i - 26) else '0' as int + (i - 52)
  }

  lemma AlphabetLayout()
    ensures |Alphabet| == 62
    ensures forall i :: 0 <= i < 62 ==> Alphabet[i] as int == CodeAt(i)
  {
  }

  /** The alphabet has 62 pairwise distinct characters, and they are exactly
      the slug characters; it starts at `A` and ends at `9`. */
  lemma AlphabetIsAlphanumeric()
    ensures |Alphabet| == 62 && Alphabet[0] == 'A' && Alphabet[61] == '9'
    ensures forall i, j :: 0 <= i < j < |Alphabet| ==> Alphabet[i] != Alphabet[j]
    ensures forall c :: c in Alphabet <==> IsSlugChar(c)
  {
    AlphabetLayout();
    forall c ensures c in Alphabet <==> IsSlugChar(c) {
      if c in Alphabet {
        var i :| 0 <= i < 62 && Alphabet[i] == c;
        assert c as int == CodeAt(i);
      }
      if IsSlugChar(c) {
        var i := if 'A' <= c <= 'Z' then c as int - 'A' as int
                 else if 'a' <= c <= 'z' then c as int - 'a' as int + 26
                 else c as int - '0' as int + 52;
        assert Alphabet[i] as int == c as int;
      }
    }
  }

  /** The slug the draws `idx` spell out, one character per draw. */
  function SlugOf(idx: seq<CharIndex>): string
  {
    if idx == [] then [] else SlugOf(idx[..|idx| - 1]) + [Alphabet[idx[|idx| - 1]]]
  }

  /** Character `k` of the slug is the alphabet character the `k`-th draw picks. */
  lemma {:induction false} SlugOfAt(idx: seq<CharIndex>)
    ensures |SlugOf(idx)| == |idx|
    ensures forall k :: 0 <= k < |idx| ==> SlugOf(idx)[k] == Alphabet[idx[k]]
  {
    if idx != [] {
      SlugOfAt(idx[..|idx| - 1]);
    }
  }

  /** Whatever the draws, a slug consists of slug characters only. */
  lemma SlugOfIsAlphanumeric(idx: seq<CharIndex>)
    ensures |SlugOf(idx)| == |idx|
    ensures forall k :: 0 <= k < |idx| ==> IsSlugChar(SlugOf(idx)[k])
  {
    SlugOfAt(idx);
    AlphabetIsAlphanumeric();
    forall k | 0 <= k < |idx| ensures IsSlugChar(SlugOf(idx)[k]) {
      assert SlugOf(idx)[k] in Alphabet;
    }
  }

  /** The number of characters the loop appends: `length`, or none when `length <= 0`. */
  function CountFor(length: int): nat
  {
    if length <= 0 then 0 else length
  }

  /** `generateSlug`: appends one alphabet character per iteration, taking the
      `i`-th draw in iteration `i`. */
  method GenerateSlug(length: int, draws: seq<CharIndex>) returns (slug: string)
    requires CountFor(length) <= |draws|
    ensures |slug| == CountFor(length)
    ensures forall k :: 0 <= k < |slug| ==> slug[k] == Alphabet[draws[k]]
    ensures forall k :: 0 <= k < |slug| ==> IsSlugChar(slug[k])
    ensures slug == SlugOf(draws[..CountFor(length)])
  {
    slug := "";
    var i := 0;
    while i < length
      invariant 0 <= i <= CountFor(length)
      invariant slug == SlugOf(draws[..i])
    {
      assert draws[..i + 1][..i] == draws[..i];
      slug := slug + [Alphabet[draws[i]]];
      i := i + 1;
    }
    SlugOfAt(draws[..i]);
    SlugOfIsAlphanumeric(draws[..i]);
  }
}
