/** The per-minute token bucket the listener and the dispatcher pace themselves with. */
module RateLimit {
  import opened Types

  const WINDOW: Time := MINUTE
  const MIN_WAIT: Time := SECOND

  datatype Bucket = Bucket(tokens: int, refilled: Time)

  datatype Verdict = Granted | Denied(wait: Time)

  /** The bucket a call at this instant draws from. */
  function Current(b: Option<Bucket>, limit: int, now: Time): Bucket {
    if b.None? || now - b.value.refilled >= WINDOW then Bucket(limit, now) else b.value
  }

  /** One call for one key: the verdict and the bucket it leaves. */
  function Call(b: Option<Bucket>, limit: int, now: Time): (Verdict, Bucket) {
    var c := Current(b, limit, now);
    if c.tokens <= 0 then (Denied(Max(WINDOW - (now - c.refilled), MIN_WAIT)), c)
    else (Granted, c.(tokens := c.tokens - 1))
  }

  function Lookup(buckets: map<string, Bucket>, key: string): Option<Bucket> {
    if key in buckets then Some(buckets[key]) else None
  }

  class Limiter {
    var buckets: map<string, Bucket>

    constructor ()
      ensures buckets == map[]
    {
      buckets := map[];
    }

    method Allow(key: string, limit: int, now: Time) returns (wait: Time, ok: bool)
      modifies this
      ensures limit <= 0 ==> ok && wait == 0 && buckets == old(buckets)
      ensures limit > 0 ==>
                var (verdict, left) := Call(Lookup(old(buckets), key), limit, now);
                && buckets == old(buckets)[key := left]
                && ok == verdict.Granted?
                && wait == (if ok then 0 else verdict.wait)
    {
      if limit <= 0 {
        return 0, true;
      }
      if key !in buckets || now - buckets[key].refilled >= WINDOW {
        buckets := buckets[key := Bucket(limit, now)];
      }
      var b := buckets[key];
      if b.tokens <= 0 {
        buckets := buckets[key := b];
        wait := WINDOW - (now - b.refilled);
        if wait < MIN_WAIT {
          wait := MIN_WAIT;
        }
        return wait, false;
      }
      buckets := buckets[key := b.(tokens := b.tokens - 1)];
      return 0, true;
    }
  }

  // ---- Whole call sequences for one key -------------------------------------

  ghost predicate NonDecreasing(times: seq<Time>) {
    forall i, j :: 0 <= i < j < |times| ==> times[i] <= times[j]
  }

  /** The bucket after a sequence of calls. */
  ghost function After(b: Option<Bucket>, limit: int, times: seq<Time>): Option<Bucket>
    decreases |times|
  {
    if times == [] then b else After(Some(Call(b, limit, times[0]).1), limit, times[1..])
  }

  /** How many of the calls at an instant in [from, until) are granted. */
  ghost function Grants(b: Option<Bucket>, limit: int, times: seq<Time>, from: Time, until: Time): nat
    decreases |times|
  {
    if times == [] then 0
    else
      var (verdict, left) := Call(b, limit, times[0]);
      (if verdict.Granted? && from <= times[0] < until then 1 else 0)
      + Grants(Some(left), limit, times[1..], from, until)
  }

  ghost predicate WellFormed(b: Option<Bucket>, limit: int) {
    b.Some? ==> 0 <= b.value.tokens <= limit
  }

  /** A bucket refilled inside the interval serves it to the end with the tokens it has left. */
  lemma {:induction false} OneBucket(b: Bucket, limit: int, times: seq<Time>, from: Time)
    requires 0 < limit && 0 <= b.tokens <= limit
    requires NonDecreasing(times) && from <= b.refilled
    ensures Grants(Some(b), limit, times, from, from + WINDOW) <= b.tokens
    decreases |times|
  {
    if times != [] {
      var left := Call(Some(b), limit, times[0]).1;
      if times[0] - b.refilled >= WINDOW {
        PastTheEnd(Some(left), limit, times[1..], times[0], from);
      } else {
        OneBucket(left, limit, times[1..], from);
      }
    }
  }

  /** Calls after the interval add nothing to it. */
  lemma {:induction false} PastTheEnd(b: Option<Bucket>, limit: int, times: seq<Time>, start: Time, from: Time)
    requires NonDecreasing(times) && from + WINDOW <= start
    requires forall i :: 0 <= i < |times| ==> start <= times[i]
    ensures Grants(b, limit, times, from, from + WINDOW) == 0
    decreases |times|
  {
    if times != [] {
      PastTheEnd(Some(Call(b, limit, times[0]).1), limit, times[1..], start, from);
    }
  }

  /**
   The rate bound: whatever the calls, a key gets at most twice its limit in any half-open
   minute, because at most two buckets can serve one minute.
   */
  lemma {:induction false} TwiceTheLimit(b: Option<Bucket>, limit: int, times: seq<Time>, from: Time)
    requires 0 < limit && WellFormed(b, limit) && NonDecreasing(times)
    ensures Grants(b, limit, times, from, from + WINDOW) <= 2 * limit
    decreases |times|
  {
    if times != [] {
      if times[0] < from {
        TwiceTheLimit(Some(Call(b, limit, times[0]).1), limit, times[1..], from);
      } else {
        TokensAndALimit(b, limit, times, from);
      }
    }
  }

  /** Inside the interval the bucket found there is spent first, then at most one more. */
  lemma {:induction false} TokensAndALimit(b: Option<Bucket>, limit: int, times: seq<Time>, from: Time)
    requires 0 < limit && WellFormed(b, limit) && NonDecreasing(times)
    requires forall i :: 0 <= i < |times| ==> from <= times[i]
    ensures Grants(b, limit, times, from, from + WINDOW) <= (if b.Some? then b.value.tokens else 0) + limit
    decreases |times|
  {
    if times != [] {
      var left := Call(b, limit, times[0]).1;
      if Current(b, limit, times[0]) == Bucket(limit, times[0]) && (b.None? || times[0] - b.value.refilled >= WINDOW) {
        OneBucket(left, limit, times[1..], from);
      } else {
        TokensAndALimit(Some(left), limit, times[1..], from);
      }
    }
  }

  /** Between two refills a key gets no more than its limit. */
  lemma PerBucket(limit: int, times: seq<Time>)
    requires 0 < limit && NonDecreasing(times) && times != []
    ensures Grants(None, limit, times, times[0], times[0] + WINDOW) <= limit
  {
    var left := Call(None, limit, times[0]).1;
    OneBucket(left, limit, times[1..], times[0]);
  }

  /** A new key's calls are granted, one by one, until its limit is reached or the minute is over. */
  lemma NewKeyIsServed(limit: int, times: seq<Time>)
    requires 0 < limit && NonDecreasing(times) && times != []
    ensures Grants(None, limit, times, times[0], times[0] + MINUTE) == Min(limit, CallsBefore(times, times[0] + MINUTE))
  {
    var left := Call(None, limit, times[0]).1;
    TokensAreGranted(left, limit, times[1..]);
  }

  /** How many calls come before this instant. */
  ghost function CallsBefore(times: seq<Time>, until: Time): nat {
    if times == [] then 0 else (if times[0] < until then 1 else 0) + CallsBefore(times[1..], until)
  }

  lemma {:induction false} TokensAreGranted(b: Bucket, limit: int, times: seq<Time>)
    requires 0 < limit && 0 <= b.tokens <= limit && NonDecreasing(times)
    requires forall i :: 0 <= i < |times| ==> b.refilled <= times[i]
    ensures Grants(Some(b), limit, times, b.refilled, b.refilled + MINUTE) ==
            Min(b.tokens, CallsBefore(times, b.refilled + MINUTE))
    decreases |times|
  {
    if times != [] {
      var left := Call(Some(b), limit, times[0]).1;
      if times[0] - b.refilled >= WINDOW {
        PastTheEnd(Some(left), limit, times[1..], times[0], b.refilled);
        NoneBefore(times[1..], b.refilled + MINUTE);
      } else {
        TokensAreGranted(left, limit, times[1..]);
      }
    }
  }

  lemma {:induction false} NoneBefore(times: seq<Time>, until: Time)
    requires forall i :: 0 <= i < |times| ==> until <= times[i]
    ensures CallsBefore(times, until) == 0
  {
    if times != [] {
      NoneBefore(times[1..], until);
    }
  }

  lemma {:induction false} StaysDenied(b: Bucket, limit: int, times: seq<Time>)
    requires 0 < limit && b.tokens <= 0
    requires forall i :: 0 <= i < |times| ==> times[i] - b.refilled < WINDOW
    ensures After(Some(b), limit, times) == Some(b)
    decreases |times|
  {
    if times != [] {
      StaysDenied(b, limit, times[1..]);
    }
  }

  lemma {:induction false} AfterBoth(b: Option<Bucket>, limit: int, first: seq<Time>, second: seq<Time>)
    ensures After(b, limit, first + second) == After(After(b, limit, first), limit, second)
    decreases |first|
  {
    if first == [] {
      assert first + second == second;
    } else {
      assert (first + second)[1..] == first[1..] + second;
      AfterBoth(Some(Call(b, limit, first[0]).1), limit, first[1..], second);
    }
  }

  /** Calls too close together to refill spend one token each until there are none. */
  lemma {:induction false} Spent(b: Bucket, limit: int, times: seq<Time>)
    requires 0 < limit && 0 <= b.tokens
    requires forall i :: 0 <= i < |times| ==> times[i] - b.refilled < WINDOW
    ensures After(Some(b), limit, times) == Some(Bucket(Max(b.tokens - |times|, 0), b.refilled))
    decreases |times|
  {
    if times != [] {
      Spent(Call(Some(b), limit, times[0]).1, limit, times[1..]);
    }
  }

  /** The first late call refills the bucket, the others draw on it. */
  lemma SpentSinceRefill(b: Bucket, limit: int, late: seq<Time>)
    requires 0 < limit && late != [] && b.refilled + WINDOW <= late[0]
    requires forall i :: 0 <= i < |late| ==> late[i] - late[0] < WINDOW
    ensures After(Some(b), limit, late) == Some(Bucket(Max(limit - |late|, 0), late[0]))
  {
    Spent(Bucket(limit - 1, late[0]), limit, late[1..]);
  }

  /**
   The wait a denial reports lies between a second and a minute. Once it has passed the next
   call for the key is granted, unless the wait was rounded up to a second and the whole
   limit was used between the refill and the end of it.
   */
  lemma WaitIsEnough(b: Option<Bucket>, limit: int, now: Time, early: seq<Time>, late: seq<Time>, later: Time)
    requires 0 < limit && WellFormed(b, limit) && Call(b, limit, now).0.Denied?
    requires b.Some? ==> b.value.refilled <= now
    requires var refill := Call(b, limit, now).1.refilled + WINDOW;
             && (forall i :: 0 <= i < |early| ==> early[i] < refill)
             && (forall i :: 0 <= i < |late| ==> refill <= late[0] <= late[i] < now + Call(b, limit, now).0.wait)
    requires now + Call(b, limit, now).0.wait <= later
    ensures MIN_WAIT <= Call(b, limit, now).0.wait <= WINDOW
    ensures Call(After(Some(Call(b, limit, now).1), limit, early + late), limit, later).0 == Granted
            <==> |late| < limit || later - late[0] >= WINDOW
  {
    var left := Call(b, limit, now).1;
    assert left == Current(b, limit, now) && left.tokens <= 0;
    AfterBoth(Some(left), limit, early, late);
    StaysDenied(left, limit, early);
    if late != [] {
      SpentSinceRefill(left, limit, late);
    }
  }

  /** In particular a wait that was not rounded up is always enough. */
  lemma UnroundedWaitIsEnough(b: Option<Bucket>, limit: int, now: Time, between: seq<Time>, later: Time)
    requires 0 < limit && WellFormed(b, limit) && Call(b, limit, now).0.Denied?
    requires b.Some? ==> b.value.refilled <= now
    requires Call(b, limit, now).0.wait > MIN_WAIT
    requires forall i :: 0 <= i < |between| ==> between[i] < now + Call(b, limit, now).0.wait
    requires now + Call(b, limit, now).0.wait <= later
    ensures Call(After(Some(Call(b, limit, now).1), limit, between), limit, later).0 == Granted
  {
    WaitIsEnough(b, limit, now, between, [], later);
    assert between + [] == between;
  }

  /** A rounded wait can be used up: one token a minute, denied a nanosecond before the refill. */
  lemma RoundedWaitCanBeUsedUp()
    ensures var b := Bucket(0, 0);
            var now := WINDOW - 1;
            && Call(Some(b), 1, now).0 == Denied(MIN_WAIT)
            && Call(After(Some(b), 1, [WINDOW]), 1, now + MIN_WAIT).0.Denied?
  {
    assert After(Some(Bucket(0, 0)), 1, [WINDOW]) == After(Some(Bucket(0, WINDOW)), 1, []);
  }
}
