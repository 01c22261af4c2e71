/** The fixed-window rate limiter that both agents implement: requests are
    counted per wall-clock minute ("bucket") and at most `limit` of them are
    admitted while the bucket stays the same. */
module FixedWindow {
  import opened Numbers

  /** The limiter's state: the bucket last seen and the admissions counted in it. */
  datatype Window = Window(bucket: int, count: nat)

  /** One admission decision for a call made in bucket `now`: the new state and
      whether the call is admitted. */
  function Step(w: Window, now: int, limit: nat): (r: (Window, bool))
    ensures r.0.bucket == now
    ensures r.1 ==> r.0.count >= 1
    ensures w.count <= limit ==> r.0.count <= limit
    ensures !r.1 && w.bucket == now ==> r.0 == w
    ensures !r.1 && limit > 0 ==> r.0 == w && w.count >= limit
    ensures w.bucket != now && limit > 0 ==> r.1 && r.0.count == 1
    ensures w.bucket == now ==> (r.1 <==> w.count < limit)
  {
    var current := if now != w.bucket then Window(now, 0) else w;
    if current.count >= limit then (current, false)
    else (Window(now, current.count + 1), true)
  }

  /** The state after a sequence of calls, one per entry of `nows`. */
  function After(w: Window, nows: seq<int>, limit: nat): Window
    decreases |nows|
  {
    if nows == [] then w else After(Step(w, nows[0], limit).0, nows[1..], limit)
  }

  /** How many of the calls in `nows` are admitted. */
  function Admitted(w: Window, nows: seq<int>, limit: nat): nat
    decreases |nows|
  {
    if nows == [] then 0
    else var (w', ok) := Step(w, nows[0], limit);
      (if ok then 1 else 0) + Admitted(w', nows[1..], limit)
  }

  predicate SameBucket(nows: seq<int>, b: int) {
    forall i :: 0 <= i < |nows| ==> nows[i] == b
  }

  /** Calls that all fall in one bucket: the first ones are admitted until the
      limit is reached and the rest are denied. In particular no more than
      `limit` calls are admitted within one bucket, and a new bucket starts
      again from zero. */
  lemma {:induction false} AdmittedInOneBucket(w: Window, nows: seq<int>, b: int, limit: nat)
    requires SameBucket(nows, b)
    requires w.count <= limit
    ensures Admitted(w, nows, limit)
         == if w.bucket == b then Min(|nows|, limit - w.count) else Min(|nows|, limit)
    ensures Admitted(w, nows, limit) <= limit
    decreases |nows|
  {
    if nows != [] {
      var (w', ok) := Step(w, nows[0], limit);
      assert SameBucket(nows[1..], b);
      AdmittedInOneBucket(w', nows[1..], b, limit);
    }
  }

  /** The state after calls that all fall in one bucket. */
  lemma {:induction false} AfterOneBucket(w: Window, nows: seq<int>, b: int, limit: nat)
    requires SameBucket(nows, b) && nows != []
    requires w.count <= limit
    ensures After(w, nows, limit)
         == if w.bucket == b then Window(b, Min(w.count + |nows|, limit))
            else Window(b, Min(|nows|, limit))
    decreases |nows|
  {
    var w' := Step(w, nows[0], limit).0;
    if |nows| > 1 {
      assert SameBucket(nows[1..], b);
      AfterOneBucket(w', nows[1..], b, limit);
    }
  }

  /** The limit is an invariant of every run that starts within it. */
  lemma {:induction false} AfterWithinLimit(w: Window, nows: seq<int>, limit: nat)
    requires w.count <= limit
    ensures After(w, nows, limit).count <= limit
    decreases |nows|
  {
    if nows != [] {
      AfterWithinLimit(Step(w, nows[0], limit).0, nows[1..], limit);
    }
  }

  /** The k-th call (counting from 0) of a run within one bucket is admitted
      exactly when fewer than `limit` calls were admitted before it in that
      bucket: with a fresh bucket, calls 0 to limit - 1 pass and call `limit`
      is the first one denied. */
  lemma NthCallInBucket(w: Window, nows: seq<int>, b: int, limit: nat, k: nat)
    requires SameBucket(nows, b) && k < |nows|
    requires w.count <= limit
    ensures Step(After(w, nows[..k], limit), b, limit).1
        <==> if w.bucket == b then w.count + k < limit else k < limit
  {
    if k > 0 {
      assert SameBucket(nows[..k], b);
      AfterOneBucket(w, nows[..k], b, limit);
    } else {
      assert nows[..k] == [];
    }
  }
}
