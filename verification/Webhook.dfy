/** The delivery retry loop (controller/internal/notify/notify.go). */
module Webhook {

  /** How one post ends: nil, a PermanentError, any other error. */
  datatype Outcome = Accepted | Permanent | Transient

  const TOO_MANY_REQUESTS := 429

  function Classify(status: int): Outcome {
    if 200 <= status < 300 then Accepted
    else if 400 <= status < 500 && status != TOO_MANY_REQUESTS then Permanent
    else Transient
  }

  /** What a post gets: a status, or an error from the request or the connection. */
  datatype Response = Answered(status: int) | Broken

  function Ended(r: Response): Outcome {
    if r.Broken? then Transient else Classify(r.status)
  }

  /** nil, the permanent error, the error after the last attempt, or the context's. */
  datatype Result = Delivered | Rejected | GaveUp | Cancelled

  // ---------------------------------------------------------------- durations: int64 nanoseconds

  const MAX_INT64: int := 0x7fff_ffff_ffff_ffff
  const TWO_64: int := 0x1_0000_0000_0000_0000
  const DEFAULT_BACKOFF: int := 500_000_000
  const DEFAULT_RETRIES: int := 2

  function Wrap(n: int): (r: int)
    ensures -0x8000_0000_0000_0000 <= r <= 0x7fff_ffff_ffff_ffff
    ensures -0x8000_0000_0000_0000 <= n <= 0x7fff_ffff_ffff_ffff ==> r == n
    ensures (n - r) % 0x1_0000_0000_0000_0000 == 0
  {
    var low := n % TWO_64;
    if low > MAX_INT64 then low - TWO_64 else low
  }

  function Pow2(k: nat): (r: nat)
    ensures r > k
  {
    if k == 0 then 1 else 2 * Pow2(k - 1)
  }

  /** `backoff * time.Duration(1<<(attempt-1))` */
  function Delay(backoff: int, attempt: nat): (d: int)
    requires attempt > 0
    ensures d <= MAX_INT64
  {
    Wrap(backoff * Wrap(Pow2(attempt - 1)))
  }

  /** A delay is the one meant exactly when that one fits. */
  lemma DelayExact(backoff: int, attempt: nat)
    requires 0 < backoff && attempt > 0
    ensures Delay(backoff, attempt) == backoff * Pow2(attempt - 1) <==> backoff * Pow2(attempt - 1) <= MAX_INT64
  {
  }

  lemma {:induction false} Pow2Grows(j: nat, k: nat)
    requires j <= k
    ensures Pow2(j) <= Pow2(k)
    decreases k - j
  {
    if j < k {
      Pow2Grows(j, k - 1);
    }
  }

  lemma Pow2By8(k: nat)
    ensures Pow2(k + 8) == 256 * Pow2(k)
  {
    assert Pow2(k + 2) == 4 * Pow2(k);
    assert Pow2(k + 4) == 16 * Pow2(k);
    assert Pow2(k + 6) == 64 * Pow2(k);
  }

  /** The first delay is the backoff, and each next one twice the last, while that fits. */
  lemma DelaysDouble(backoff: int, attempt: nat)
    requires 0 < backoff <= MAX_INT64 && attempt > 0
    ensures Delay(backoff, 1) == backoff
    ensures 2 * Delay(backoff, attempt) <= 0x7fff_ffff_ffff_ffff && Delay(backoff, attempt) == backoff * Pow2(attempt - 1) ==>
      Delay(backoff, attempt + 1) == 2 * Delay(backoff, attempt)
  {
    assert backoff * 1 == backoff;
    assert backoff * Pow2(attempt) == 2 * (backoff * Pow2(attempt - 1));
    DelayExact(backoff, attempt + 1);
  }

  /** With the default backoff the delays are the ones meant up to 35 retries, and no further. */
  lemma DefaultDelays(attempt: nat)
    requires attempt > 0
    ensures Delay(500_000_000, attempt) == 500_000_000 * Pow2(attempt - 1) <==> attempt <= 35
  {
    DelayExact(DEFAULT_BACKOFF, attempt);
    Pow2By8(0);
    Pow2By8(8);
    Pow2By8(16);
    Pow2By8(24);
    assert Pow2(34) == 2 * Pow2(33) == 4 * Pow2(32) == 0x4_0000_0000;
    if attempt <= 35 {
      Pow2Grows(attempt - 1, 34);
    } else {
      Pow2Grows(35, attempt - 1);
    }
  }

  /** Time spent waiting: a timer for a negative duration fires at once. */
  function Waited(waits: seq<int>): nat {
    if waits == [] then 0
    else Waited(waits[..|waits| - 1]) + if waits[|waits| - 1] > 0 then waits[|waits| - 1] else 0
  }

  /** The delays before attempts 1 to `n`. */
  function Delays(backoff: int, n: nat): seq<int> {
    seq(n, i requires 0 <= i => Delay(backoff, i + 1))
  }

  lemma Twice(b: int, p: int)
    ensures b * (2 * p - 1) == b * (p - 1) + b * p
  {
    assert b * (2 * p - 1) == b * ((p - 1) + p);
  }

  lemma Smaller(b: nat, p: nat, q: nat)
    requires p <= q
    ensures b * p <= b * q
  {
  }

  lemma DelaysFront(backoff: int, n: nat)
    requires n > 0
    ensures Delays(backoff, n) == Delays(backoff, n - 1) + [Delay(backoff, n)]
  {
  }

  /** The waits of `n` retries add up to a closed form as long as the last of them fits. */
  lemma {:induction false} TotalWait(backoff: int, n: nat)
    requires 0 < backoff && (n > 0 ==> backoff * Pow2(n - 1) <= MAX_INT64)
    ensures Waited(Delays(backoff, n)) == backoff * (Pow2(n) - 1)
    decreases n
  {
    if n == 0 {
      assert Delays(backoff, 0) == [];
    } else {
      var p := Pow2(n - 1);
      if n > 1 {
        Smaller(backoff, Pow2(n - 2), p);
      }
      TotalWait(backoff, n - 1);
      DelayExact(backoff, n);
      DelaysFront(backoff, n);
      Smaller(backoff, 1, p);
      Twice(backoff, p);
    }
  }

  // ---------------------------------------------------------------- the loop

  /** The attempts allowed. */
  function Tries(maxRetries: int): nat {
    if maxRetries == 0 then DEFAULT_RETRIES + 1 else if maxRetries < 0 then 0 else maxRetries + 1
  }

  function Base(backoff: int): int {
    if backoff == 0 then DEFAULT_BACKOFF else backoff
  }

  /** Where the first `n` answers first settle the matter, or `n`. */
  function Settled(responses: nat -> Response, n: nat): (k: nat)
    ensures k <= n
    ensures forall i :: 0 <= i < k ==> Ended(responses(i)) == Transient
    ensures k < n ==> Ended(responses(k)) != Transient
  {
    if n == 0 then 0
    else
      var k := Settled(responses, n - 1);
      if k < n - 1 || Ended(responses(n - 1)) != Transient then k else n
  }

  /** The matter stays open after this answer: no answer at all, 429, or a status that is neither a success nor a
      rejection. */
  predicate Retried(r: Response) {
    r.Broken? || r.status == 429 || !(200 <= r.status < 300 || 400 <= r.status < 500)
  }

  /** `responses(i)` is what post `i` would get; `cancelled(i)` whether the context ends before the wait for
      attempt `i` does. Posts go on until an answer settles the matter, attempts run out, or the context ends;
      the result says which: nil exactly when the last post was answered with a status in the two hundreds, the
      permanent error exactly when with one in the four hundreds other than 429. No retries given means two, and no
      backoff half a second. The waits are the backoff's delays, which `TotalWait` adds up. */
  method Notify(maxRetries: int, backoff: int, responses: nat -> Response, cancelled: nat -> bool)
    returns (result: Result, posts: nat, waits: seq<int>)
    ensures posts <= if maxRetries == 0 then 3 else if maxRetries < 0 then 0 else maxRetries + 1
    ensures forall i :: 0 <= i < posts - 1 ==> Retried(responses(i))
    ensures forall i :: 0 < i < posts ==> !cancelled(i)
    ensures result.Delivered? <==> posts > 0 && responses(posts - 1).Answered? && 200 <= responses(posts - 1).status < 300
    ensures result.Rejected? <==>
      posts > 0 && responses(posts - 1).Answered? && 400 <= responses(posts - 1).status < 500 && responses(posts - 1).status != 429
    ensures result.Cancelled? ==> 0 < posts < Tries(maxRetries) && cancelled(posts)
    ensures result.GaveUp? ==> posts == if maxRetries == 0 then 3 else if maxRetries < 0 then 0 else maxRetries + 1
    ensures waits == Delays(if backoff == 0 then 500_000_000 else backoff, if posts == 0 then 0 else posts - 1)
    ensures (forall i :: !cancelled(i)) && result.GaveUp? && posts > 0 ==> Retried(responses(posts - 1))
    ensures (forall i :: !cancelled(i)) ==> !result.Cancelled?
    ensures (forall i :: !cancelled(i)) ==>
      (var n := Tries(maxRetries);
       var k := Settled(responses, n);
       posts == (if k < n then k + 1 else n) &&
       result == (if k == n then GaveUp else if Ended(responses(k)) == Accepted then Delivered else Rejected))
  {
    var retries := maxRetries;
    if retries == 0 {
      retries := DEFAULT_RETRIES;
    }
    var base := backoff;
    if base == 0 {
      base := DEFAULT_BACKOFF;
    }
    posts, waits := 0, [];
    var attempt := 0;
    while attempt <= retries
      invariant 0 <= attempt && attempt <= Tries(maxRetries) == if retries < 0 then 0 else retries + 1
      invariant posts == attempt && waits == Delays(base, if posts == 0 then 0 else posts - 1)
      invariant forall i :: 0 <= i < posts ==> Ended(responses(i)) == Transient
      invariant forall i :: 0 < i < posts ==> !cancelled(i)
      decreases retries + 1 - attempt
    {
      if attempt > 0 {
        if cancelled(attempt) {
          return Cancelled, posts, waits;
        }
        waits := waits + [Delay(base, attempt)];
      }
      var last := Ended(responses(attempt));
      posts := posts + 1;
      if last == Accepted {
        return Delivered, posts, waits;
      }
      if last == Permanent {
        return Rejected, posts, waits;
      }
      attempt := attempt + 1;
    }
    result := GaveUp;
  }
}
