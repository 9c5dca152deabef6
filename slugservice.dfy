/**
 * The slug service's `/generate-slug` handler: draw 6-character candidates
 * until one is not yet a slug of the `urls` table. Each round is one random
 * draw and one SELECT, either of which the caller supplies as an `Attempt`.
 */
module SlugService {
  import opened Common
  import opened SlugGenerator

  /** The length the handler asks the generator for. */
  const SlugLength: nat := 6

  /** One round of the loop: the random draws for the candidate, and whether
      the SELECT that checks it succeeds. */
  datatype Attempt = Attempt(draws: seq<CharIndex>, selectOk: bool)

  predicate WellFormed(a: Attempt)
  {
    |a.draws| >= SlugLength
  }

  /** The candidate a round produces. */
  function Candidate(a: Attempt): string
    requires WellFormed(a)
  {
    SlugOf(a.draws[..SlugLength])
  }

  /** Round `a` ends the loop: its SELECT throws, or its candidate is free. */
  predicate Stops(a: Attempt, taken: set<string>)
    requires WellFormed(a)
  {
    !a.selectOk || Candidate(a) !in taken
  }

  /** The random source eventually yields a round that ends the loop (the
      source loops for as long as it takes; the model is given that round). */
  predicate EventuallyStops(attempts: seq<Attempt>, taken: set<string>)
  {
    && (forall k :: 0 <= k < |attempts| ==> WellFormed(attempts[k]))
    && exists k :: 0 <= k < |attempts| && Stops(attempts[k], taken)
  }

  /** Every round before `k` found its candidate already taken. */
  predicate CollidedBefore(attempts: seq<Attempt>, taken: set<string>, k: int)
    requires 0 <= k <= |attempts|
    requires forall j :: 0 <= j < |attempts| ==> WellFormed(attempts[j])
  {
    forall j :: 0 <= j < k ==> attempts[j].selectOk && Candidate(attempts[j]) in taken
  }

  /** `slug` is the candidate of a round whose SELECT succeeds, after rounds
      that all collided: the loop stops there with a free slug when the
      candidate is not taken. */
  predicate FirstFreeCandidate(attempts: seq<Attempt>, taken: set<string>, slug: string)
    requires forall j :: 0 <= j < |attempts| ==> WellFormed(attempts[j])
  {
    exists k :: 0 <= k < |attempts| && CollidedBefore(attempts, taken, k)
      && attempts[k].selectOk && slug == Candidate(attempts[k]) && slug !in taken
  }

  /** The loop reaches a round whose SELECT throws, after rounds that all
      collided. */
  predicate SelectThrowsFirst(attempts: seq<Attempt>, taken: set<string>)
    requires forall j :: 0 <= j < |attempts| ==> WellFormed(attempts[j])
  {
    exists k :: 0 <= k < |attempts| && CollidedBefore(attempts, taken, k) && !attempts[k].selectOk
  }

  /** Only one round can end the loop after collisions only: a free candidate
      and a throwing SELECT cannot both be the first round that stops. */
  lemma {:induction false} FirstStopIsUnique(attempts: seq<Attempt>, taken: set<string>, slug: string)
    requires forall j :: 0 <= j < |attempts| ==> WellFormed(attempts[j])
    requires FirstFreeCandidate(attempts, taken, slug)
    ensures !SelectThrowsFirst(attempts, taken)
  {
    var k :| 0 <= k < |attempts| && CollidedBefore(attempts, taken, k)
      && attempts[k].selectOk && slug == Candidate(attempts[k]) && slug !in taken;
    forall m | 0 <= m < |attempts| && CollidedBefore(attempts, taken, m)
      ensures attempts[m].selectOk
    {
      // a later round would have seen round k's free candidate as taken
      assert m <= k;
    }
  }

  /** The handler, against the set `taken` of slugs already in the table. It
      only reads that set. On success the slug is the candidate of the first
      round whose candidate is free; every earlier round collided. On failure
      the first SELECT that threw ended the loop, after collisions only. */
  method GenerateUniqueSlug(taken: set<string>, attempts: seq<Attempt>) returns (r: Result<string>)
    requires EventuallyStops(attempts, taken)
    ensures r.Success? ==> r.value !in taken
    ensures r.Success? ==> |r.value| == SlugLength && forall i :: 0 <= i < |r.value| ==> IsSlugChar(r.value[i])
    ensures r.Success? ==> FirstFreeCandidate(attempts, taken, r.value)
    ensures r.Failure? ==> r.error == SlugGenerationError
    ensures r.Failure? <==> SelectThrowsFirst(attempts, taken)
  {
    var k := 0;
    var slug := "";
    var isUnique := false;
    while !isUnique
      invariant 0 <= k <= |attempts|
      invariant isUnique ==> 0 < k
      invariant CollidedBefore(attempts, taken, if isUnique then k - 1 else k)
      invariant !isUnique ==> exists m :: k <= m < |attempts| && Stops(attempts[m], taken)
      invariant isUnique ==> attempts[k - 1].selectOk && slug == Candidate(attempts[k - 1]) && slug !in taken
      invariant isUnique ==> |slug| == SlugLength && forall i :: 0 <= i < |slug| ==> IsSlugChar(slug[i])
      decreases |attempts| - k
    {
      slug := GenerateSlug(SlugLength, attempts[k].draws);
      if !attempts[k].selectOk {
        r := Failure(SlugGenerationError);
        assert SelectThrowsFirst(attempts, taken) by {
          assert CollidedBefore(attempts, taken, k) && !attempts[k].selectOk;
        }
        return;
      }
      if slug !in taken {
        isUnique := true;
      }
      k := k + 1;
    }
    r := Success(slug);
    assert FirstFreeCandidate(attempts, taken, slug) by {
      assert CollidedBefore(attempts, taken, k - 1);
    }
    FirstStopIsUnique(attempts, taken, slug);
  }
}
