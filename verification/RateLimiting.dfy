/** The fixed-window rate limiter: bounds over whole traces of requests. */
module RateLimiting {
  import opened Prelude

  datatype Bucket = Bucket(start: int, count: int)

  type Buckets = map<string, Bucket>

  /** A missing entry is Go's zero value, whose start is the zero time. */
  function BucketOf(buckets: Buckets, key: string): Bucket {
    if key in buckets then buckets[key] else Bucket(0, 0)
  }

  datatype Hit = Hit(key: string, now: int)

  function Counted(b: Bucket, now: int): Bucket {
    if b.start == 0 || Sub(now, b.start) >= MINUTE then Bucket(now, 1) else b.(count := b.count + 1)
  }

  class RateLimiter {
    const limit: int
    var buckets: Buckets

    constructor (limit: int)
      ensures this.limit == limit && buckets == map[]
    {
      this.limit, buckets := limit, map[];
    }

    /** The critical section; `now` is read just before the lock is taken. */
    method Admit(key: string, now: int) returns (admitted: bool)
      modifies this
      ensures buckets == old(buckets)[key := Counted(BucketOf(old(buckets), key), now)]
      ensures admitted <==> buckets[key].count <= limit
    {
      var bucket := BucketOf(buckets, key);
      if bucket.start == 0 || Sub(now, bucket.start) >= MINUTE {
        bucket := Bucket(now, 0);
      }
      bucket := bucket.(count := bucket.count + 1);
      buckets := buckets[key := bucket];
      var exceeded := bucket.count > limit;
      return !exceeded;
    }
  }

  // ----- traces

  /** The buckets after a trace of requests, in lock order. */
  ghost function After(trace: seq<Hit>): Buckets {
    if trace == [] then map[]
    else
      var before := After(trace[..|trace| - 1]);
      var hit := trace[|trace| - 1];
      before[hit.key := Counted(BucketOf(before, hit.key), hit.now)]
  }

  ghost predicate Admitted(trace: seq<Hit>, limit: int, i: nat)
    requires i < |trace|
  {
    After(trace[..i + 1])[trace[i].key].count <= limit
  }

  /** How many requests of `key` the trace admits at instants in [from, to). */
  ghost function Admissions(trace: seq<Hit>, limit: int, key: string, from: int, to: int): nat {
    if trace == [] then 0
    else
      var i := |trace| - 1;
      assert trace[..i + 1] == trace;
      Admissions(trace[..i], limit, key, from, to)
        + if trace[i].key == key && from <= trace[i].now < to && Admitted(trace, limit, i) then 1 else 0
  }

  /** The clock is past the zero time and does not go back in lock order. */
  ghost predicate Clocked(trace: seq<Hit>) {
    && (forall i | 0 <= i < |trace| :: trace[i].now > 0)
    && forall i, j | 0 <= i <= j < |trace| :: trace[i].now <= trace[j].now
  }

  function Min(a: int, b: int): int { if a < b then a else b }

  function Max(a: int, b: int): int { if a > b then a else b }

  lemma {:induction false} AfterPrefix(trace: seq<Hit>, limit: int, key: string, from: int, to: int)
    requires trace != []
    ensures
      var before := trace[..|trace| - 1];
      var hit := trace[|trace| - 1];
      var b := Counted(BucketOf(After(before), hit.key), hit.now);
      && After(trace) == After(before)[hit.key := b]
      && Admissions(trace, limit, key, from, to) == Admissions(before, limit, key, from, to)
           + if hit.key == key && from <= hit.now < to && b.count <= limit then 1 else 0
  {
    assert trace[..|trace|] == trace;
  }

  /** Bucket facts every trace keeps. */
  lemma {:induction false} BucketsAreSane(trace: seq<Hit>, key: string)
    requires Clocked(trace)
    ensures key in After(trace) ==>
              && After(trace)[key].count >= 1
              && exists i :: 0 <= i < |trace| && trace[i].key == key && trace[i].now == After(trace)[key].start
    ensures key in After(trace) <==> exists i :: 0 <= i < |trace| && trace[i].key == key
    ensures forall i | 0 <= i < |trace| && trace[i].key == key :: trace[i].now < After(trace)[key].start + MINUTE
  {
    if trace != [] {
      var before := trace[..|trace| - 1];
      var hit := trace[|trace| - 1];
      BucketsAreSane(before, key);
      assert forall i | 0 <= i < |before| :: before[i] == trace[i];
      if key in After(trace) && (hit.key != key || After(trace)[key].start == BucketOf(After(before), key).start) {
        if key in After(before) {
          var i :| 0 <= i < |before| && before[i].key == key && before[i].now == After(before)[key].start;
          assert trace[i].now == After(before)[key].start;
        }
      }
      if hit.key == key {
        assert trace[|trace| - 1].key == key;
      }
    }
  }

  /** Within the current bucket exactly the first `limit` requests are admitted. */
  lemma {:induction false} BucketAdmitsExactly(trace: seq<Hit>, limit: int, key: string, to: int)
    requires Clocked(trace) && key in After(trace)
    requires forall i | 0 <= i < |trace| :: trace[i].now < to
    ensures Admissions(trace, limit, key, After(trace)[key].start, to) == Max(0, Min(After(trace)[key].count, limit))
    decreases |trace|
  {
    var before := trace[..|trace| - 1];
    var hit := trace[|trace| - 1];
    var start := After(trace)[key].start;
    AfterPrefix(trace, limit, key, start, to);
    assert forall i | 0 <= i < |before| :: before[i] == trace[i];
    if hit.key != key {
      BucketAdmitsExactly(before, limit, key, to);
    } else {
      BucketsAreSane(before, key);
      if key in After(before) && start == After(before)[key].start
         && After(trace)[key].count == After(before)[key].count + 1
      {
        BucketAdmitsExactly(before, limit, key, to);
      } else {
        NothingSince(before, limit, key, start, to);
      }
    }
  }

  lemma {:induction false} NothingSince(trace: seq<Hit>, limit: int, key: string, from: int, to: int)
    requires forall i | 0 <= i < |trace| && trace[i].key == key :: trace[i].now < from
    ensures Admissions(trace, limit, key, from, to) == 0
  {
    if trace != [] {
      NothingSince(trace[..|trace| - 1], limit, key, from, to);
    }
  }

  /** The bound while the window is being filled: at most one full bucket before the current one. */
  lemma {:induction false} WindowInvariant(trace: seq<Hit>, limit: int, key: string, from: int)
    requires Clocked(trace)
    ensures
      var n := Admissions(trace, limit, key, from, from + MINUTE);
      && n <= 2 * Max(0, limit)
      && (trace != [] && trace[|trace| - 1].now < from ==> n == 0)
      && (key !in After(trace) ==> n == 0)
      && (key in After(trace) && After(trace)[key].start < from ==> n <= Max(0, Min(After(trace)[key].count, limit)))
      && (key in After(trace) && from <= After(trace)[key].start < from + MINUTE ==>
            n <= Max(0, limit) + Max(0, Min(After(trace)[key].count, limit)))
  {
    if trace != [] {
      var before := trace[..|trace| - 1];
      AfterPrefix(trace, limit, key, from, from + MINUTE);
      WindowInvariant(before, limit, key, from);
      BucketsAreSane(before, key);
      assert before != [] ==> before[|before| - 1].now <= trace[|trace| - 1].now;
      assert key in After(before) ==> After(before)[key].start > 0;
    }
  }

  /** Any one-minute half-open interval admits at most twice the limit for one key. */
  lemma {:induction false} AtMostTwiceTheLimit(trace: seq<Hit>, limit: int, key: string, from: int)
    requires Clocked(trace)
    ensures Admissions(trace, limit, key, from, from + 60_000_000_000) <= 2 * Max(0, limit)
  {
    WindowInvariant(trace, limit, key, from);
  }

  /** A rejection means the limit was already used up by that key within the minute before. */
  lemma {:induction false} RejectionMeansLimitUsed(trace: seq<Hit>, limit: int)
    requires Clocked(trace) && trace != [] && !Admitted(trace, limit, |trace| - 1)
    ensures
      var hit := trace[|trace| - 1];
      Admissions(trace[..|trace| - 1], limit, hit.key, hit.now - 60_000_000_000 + 1, hit.now + 1) >= limit
  {
    var before := trace[..|trace| - 1];
    var hit := trace[|trace| - 1];
    if limit > 0 {
      AfterPrefix(trace, limit, hit.key, 0, 0);
      assert trace[..|trace|] == trace;
      BucketsAreSane(before, hit.key);
      assert forall i | 0 <= i < |before| :: before[i] == trace[i];
      BucketAdmitsExactly(before, limit, hit.key, hit.now + 1);
      AdmissionsGrow(before, limit, hit.key, After(before)[hit.key].start, hit.now - MINUTE + 1, hit.now + 1);
    }
  }

  lemma {:induction false} AdmissionsGrow(trace: seq<Hit>, limit: int, key: string, from: int, earlier: int, to: int)
    requires earlier <= from
    ensures Admissions(trace, limit, key, from, to) <= Admissions(trace, limit, key, earlier, to)
  {
    if trace != [] {
      AdmissionsGrow(trace[..|trace| - 1], limit, key, from, earlier, to);
    }
  }

  /** Other keys neither help nor hurt: dropping their requests changes no bucket of this key. */
  ghost function Only(trace: seq<Hit>, key: string): seq<Hit> {
    if trace == [] then []
    else
      var rest := Only(trace[..|trace| - 1], key);
      if trace[|trace| - 1].key == key then rest + [trace[|trace| - 1]] else rest
  }

  lemma {:induction false} KeysAreIndependent(trace: seq<Hit>, limit: int, key: string, from: int, to: int)
    ensures BucketOf(After(trace), key) == BucketOf(After(Only(trace, key)), key)
    ensures Admissions(trace, limit, key, from, to) == Admissions(Only(trace, key), limit, key, from, to)
  {
    if trace != [] {
      var before := trace[..|trace| - 1];
      KeysAreIndependent(before, limit, key, from, to);
      AfterPrefix(trace, limit, key, from, to);
      if trace[|trace| - 1].key == key {
        var only := Only(trace, key);
        assert only[..|only| - 1] == Only(before, key);
        AfterPrefix(only, limit, key, from, to);
      }
    }
  }
}
