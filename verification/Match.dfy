/**
 The launcher's fuzzy match: a greedy left-to-right scan for the query as a subsequence of the
 field, with a bonus for hits at word boundaries and for consecutive hits.
 */
module Match {
  const BASE_HIT := 1.0
  const BOUNDARY_BONUS := 3.0
  const CONSECUTIVE_BONUS := 2.0
  const LEADING_PENALTY := 0.1
  const LENGTH_PENALTY := 0.01

  predicate IsBoundary(prev: char) {
    prev == ' ' || prev == '-' || prev == '_' || prev == '.' || prev == ':' || prev == '/'
  }

  /** at places the first |at| characters of q in f, in order. */
  ghost predicate Places(q: string, f: string, at: seq<nat>) {
    && |at| <= |q|
    && (forall k | 0 <= k < |at| :: at[k] < |f| && f[at[k]] == q[k])
    && (forall k | 0 < k < |at| :: at[k - 1] < at[k])
  }

  ghost predicate Embeds(q: string, f: string, at: seq<nat>) { Places(q, f, at) && |at| == |q| }

  ghost predicate IsSubsequence(q: string, f: string) { exists at :: Embeds(q, f, at) }

  /** What the k-th hit is worth. */
  function HitValue(f: string, at: seq<nat>, k: nat): real
    requires k < |at| && at[k] <= |f|
  {
    BASE_HIT
    + (if at[k] == 0 || IsBoundary(f[at[k] - 1]) then BOUNDARY_BONUS else 0.0)
    + (if k > 0 && at[k] == at[k - 1] + 1 then CONSECUTIVE_BONUS else 0.0)
  }

  function HitTotal(f: string, at: seq<nat>, k: nat): real
    requires k <= |at| && forall i | 0 <= i < |at| :: at[i] <= |f|
  {
    if k == 0 then 0.0 else HitTotal(f, at, k - 1) + HitValue(f, at, k - 1)
  }

  /** In points: one, three more at the start or after a separator, two more right after the hit before. */
  lemma {:induction false} HitIsWorth(f: string, at: seq<nat>, k: nat)
    requires k < |at| && at[k] <= |f|
    ensures HitValue(f, at, k) == 1.0 + (if at[k] == 0 || f[at[k] - 1] in " -_.:/" then 3.0 else 0.0)
                                + (if k > 0 && at[k] == 1 + at[k - 1] then 2.0 else 0.0)
  {
  }

  lemma {:induction false} TotalOfPrefix(f: string, at: seq<nat>, i: nat, k: nat)
    requires k <= |at| && i <= |f| && forall j | 0 <= j < |at| :: at[j] <= |f|
    ensures HitTotal(f, at + [i], k) == HitTotal(f, at, k)
  {
    if k > 0 { TotalOfPrefix(f, at, i, k - 1); }
  }

  /** Every hit is worth at least one point and at most six; the first is never consecutive. */
  lemma {:induction false} TotalBounds(f: string, at: seq<nat>, k: nat)
    requires k <= |at| && forall i | 0 <= i < |at| :: at[i] <= |f|
    ensures k as real <= HitTotal(f, at, k)
    ensures k > 0 ==> HitTotal(f, at, k) <= 6.0 * k as real - 2.0
  {
    if k > 0 { TotalBounds(f, at, k - 1); }
  }

  /** No placement reaches its k-th character before the greedy one, nor its next before the scan. */
  ghost predicate Earliest(q: string, f: string, at: seq<nat>, scanned: nat) {
    forall e | Places(q, f, e) ::
      && (forall k | 0 <= k < |e| && k < |at| :: at[k] <= e[k])
      && (|e| > |at| ==> e[|at|] >= scanned)
  }

  lemma {:induction false} HitKeepsEarliest(q: string, f: string, at: seq<nat>, i: nat)
    requires Earliest(q, f, at, i)
    ensures Earliest(q, f, at + [i], i + 1)
  {
    forall e | Places(q, f, e)
      ensures (forall k | 0 <= k < |e| && k < |at| + 1 :: (at + [i])[k] <= e[k]) && (|e| > |at| + 1 ==> e[|at| + 1] >= i + 1)
    {
      if |e| > |at| + 1 { assert e[|at| + 1 - 1] < e[|at| + 1]; }
    }
  }

  lemma {:induction false} MissKeepsEarliest(q: string, f: string, at: seq<nat>, i: nat)
    requires Earliest(q, f, at, i) && |at| < |q| && i < |f| && f[i] != q[|at|]
    ensures Earliest(q, f, at, i + 1)
  {
    forall e | Places(q, f, e)
      ensures (forall k | 0 <= k < |e| && k < |at| :: at[k] <= e[k]) && (|e| > |at| ==> e[|at|] >= i + 1)
    {
    }
  }

  /**
   Succeeds exactly if both are non-empty and the query is a subsequence of the field; the hits are then
   the earliest possible, pointwise, and the score is their total less the penalties, within bounds.
   */
  method SubsequenceScore(q: string, f: string) returns (score: real, ok: bool, hits: seq<nat>)
    ensures ok <==> q != "" && f != "" && IsSubsequence(q, f)
    ensures !ok ==> score == 0.0
    ensures ok ==> Embeds(q, f, hits) && forall e | Embeds(q, f, e) :: forall k | 0 <= k < |q| :: hits[k] <= e[k]
    ensures ok ==> score == HitTotal(f, hits, |q|) - 0.1 * hits[0] as real - 0.01 * |f| as real
    ensures ok ==> |q| as real - LEADING_PENALTY * hits[0] as real - LENGTH_PENALTY * |f| as real <= score
    ensures ok ==> score <= 6.0 * |q| as real - 2.0 - LEADING_PENALTY * hits[0] as real - LENGTH_PENALTY * |f| as real
  {
    hide Earliest, Places, HitTotal, IsSubsequence;
    score, hits := 0.0, [];
    if q == "" || f == "" { return 0.0, false, []; }
    var prevHit, firstHit := -2, -1;
    var i := 0;
    NothingScanned(q, f);
    while i < |f| && |hits| < |q|
      invariant i <= |f| && |hits| <= |q| && Places(q, f, hits) && Earliest(q, f, hits, i)
      invariant forall k | 0 <= k < |hits| :: hits[k] < i
      invariant score == HitTotal(f, hits, |hits|)
      invariant if hits == [] then prevHit == -2 && firstHit == -1 else prevHit == hits[|hits| - 1] && firstHit == hits[0]
    {
      if f[i] == q[|hits|] {
        var hit := BASE_HIT;
        if i == 0 || IsBoundary(f[i - 1]) { hit := hit + BOUNDARY_BONUS; }
        if i == prevHit + 1 { hit := hit + CONSECUTIVE_BONUS; }
        if firstHit < 0 { firstHit := i; }
        score := score + hit;
        prevHit := i;
        HitExtends(q, f, hits, i);
        hits := hits + [i];
      } else {
        MissKeepsEarliest(q, f, hits, i);
      }
      i := i + 1;
    }
    if |hits| < |q| {
      NoRoomLeft(q, f, hits);
      return 0.0, false, hits;
    }
    FoundEarliest(q, f, hits, i);
    TotalBounds(f, hits, |q|);
    score := score - LEADING_PENALTY * firstHit as real;
    score := score - LENGTH_PENALTY * |f| as real;
    ok := true;
  }

  /** One more hit: still a placement, still the earliest, and worth its value. */
  lemma {:induction false} HitExtends(q: string, f: string, at: seq<nat>, i: nat)
    requires Places(q, f, at) && Earliest(q, f, at, i) && |at| < |q| && i < |f| && f[i] == q[|at|]
    requires forall k | 0 <= k < |at| :: at[k] < i
    ensures Places(q, f, at + [i]) && Earliest(q, f, at + [i], i + 1)
    ensures HitTotal(f, at + [i], |at| + 1) == HitTotal(f, at, |at|) + HitValue(f, at + [i], |at|)
  {
    hide Earliest;
    HitKeepsEarliest(q, f, at, i);
    TotalOfPrefix(f, at, i, |at|);
  }

  lemma {:induction false} NothingScanned(q: string, f: string)
    ensures Places(q, f, []) && Earliest(q, f, [], 0) && HitTotal(f, [], 0) == 0.0
  {
  }

  lemma {:induction false} NoRoomLeft(q: string, f: string, at: seq<nat>)
    requires Earliest(q, f, at, |f|) && |at| < |q|
    ensures !IsSubsequence(q, f)
  {
    forall e ensures !Embeds(q, f, e) {
    }
  }

  lemma {:induction false} FoundEarliest(q: string, f: string, at: seq<nat>, i: nat)
    requires Places(q, f, at) && |at| == |q| && Earliest(q, f, at, i)
    ensures IsSubsequence(q, f) && Embeds(q, f, at)
    ensures forall e | Embeds(q, f, e) :: forall k | 0 <= k < |q| :: at[k] <= e[k]
  {
    assert Embeds(q, f, at);
  }
}
