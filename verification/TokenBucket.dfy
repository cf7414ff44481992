/**
  The rate limit of `join`, kept per socket. A bucket holds up to 20 tokens and fills
  at 20 per minute; counted in 1/3000 of a token, it holds up to 60000, gains one unit
  per millisecond, and a join costs 3000.
*/
module TokenBucket {

  const CAPACITY := 60000
  const COST := 3000

  datatype Bucket = Bucket(credit: int, refilledAt: int)

  datatype Outcome = Outcome(bucket: Bucket, accepted: bool)

  function Refill(b: Bucket, now: int): (r: Bucket) {
    var credit := b.credit + (now - b.refilledAt);
    Bucket(if credit > CAPACITY then CAPACITY else credit, now)
  }

  function Take(b: Bucket, now: int): (r: Outcome) {
    var filled := Refill(b, now);
    if filled.credit < COST then Outcome(filled, false)
    else Outcome(filled.(credit := filled.credit - COST), true)
  }

  // ---- runs of attempts -------------------------------------------------------

  /** The bucket after the attempts made at `times`. */
  function After(b: Bucket, times: seq<int>): (r: Bucket)
    decreases |times|
  {
    if times == [] then b else After(Take(b, times[0]).bucket, times[1..])
  }

  /** Which of them were accepted. */
  function Answers(b: Bucket, times: seq<int>): (answers: seq<bool>)
    ensures |answers| == |times|
    decreases |times|
  {
    if times == [] then [] else [Take(b, times[0]).accepted] + Answers(Take(b, times[0]).bucket, times[1..])
  }

  function Count(answers: seq<bool>): (r: nat) {
    if answers == [] then 0 else (if answers[0] then 1 else 0) + Count(answers[1..])
  }

  /** The clock never goes back, from `start` on. */
  ghost predicate Monotone(start: int, times: seq<int>) {
    && (forall i :: 0 <= i < |times| ==> start <= times[i])
    && (forall i, j :: 0 <= i < j < |times| ==> times[i] <= times[j])
  }

  lemma {:induction false} RunSplits(b: Bucket, first: seq<int>, second: seq<int>)
    ensures After(b, first + second) == After(After(b, first), second)
    ensures Answers(b, first + second) == Answers(b, first) + Answers(After(b, first), second)
    decreases |first|
  {
    if first == [] {
      assert first + second == second;
    } else {
      assert (first + second)[1..] == first[1..] + second;
      RunSplits(Take(b, first[0]).bucket, first[1..], second);
    }
  }

  // ---- the rate -----------------------------------------------------------------

  /** Credit is never made: what was spent and what is left came from the clock and the start. */
  lemma {:induction false} CreditIsConserved(b: Bucket, times: seq<int>)
    requires b.credit <= CAPACITY
    ensures var last := After(b, times);
            && last.credit <= CAPACITY
            && COST * Count(Answers(b, times)) + last.credit - last.refilledAt <= b.credit - b.refilledAt
    decreases |times|
  {
    if times != [] {
      CreditIsConserved(Take(b, times[0]).bucket, times[1..]);
    }
  }

  lemma {:induction false} CreditStaysPositive(b: Bucket, times: seq<int>)
    requires 0 <= b.credit && Monotone(b.refilledAt, times)
    ensures var last := After(b, times);
            0 <= last.credit && last.refilledAt == if times == [] then b.refilledAt else times[|times| - 1]
    decreases |times|
  {
    if times != [] {
      CreditStaysPositive(Take(b, times[0]).bucket, times[1..]);
    }
  }

  /** Refilling at the first attempt of a window leaves a full bucket at most, whatever it held before. */
  lemma WindowBound(b: Bucket, window: seq<int>, span: nat)
    requires 0 <= b.credit <= CAPACITY && Monotone(b.refilledAt, window)
    requires window != [] && window[|window| - 1] - window[0] <= span
    ensures COST * Count(Answers(b, window)) <= CAPACITY + span
  {
    var full := Refill(b, window[0]);
    assert Take(b, window[0]) == Take(full, window[0]);
    CreditIsConserved(full, window);
    CreditStaysPositive(full, window);
  }

  /**
    In any run and any window of attempts of it lasting at most `span` milliseconds,
    at most 20 + span / 3000 joins are accepted.
  */
  lemma RateBound(b: Bucket, times: seq<int>, i: nat, j: nat, span: nat)
    requires 0 <= b.credit <= CAPACITY && Monotone(b.refilledAt, times)
    requires i < j <= |times| && times[j - 1] - times[i] <= span
    ensures Count(Answers(b, times)[i..j]) <= 20 + span / 3000
  {
    var start := After(b, times[..i]);
    AnswersOfWindow(b, times, i, j);
    StartOfWindow(b, times, i);
    WindowStaysMonotone(start.refilledAt, times, i, j);
    WindowBound(start, times[i..j], span);
  }

  lemma StartOfWindow(b: Bucket, times: seq<int>, i: nat)
    requires 0 <= b.credit <= CAPACITY && Monotone(b.refilledAt, times) && i < |times|
    ensures var start := After(b, times[..i]);
            0 <= start.credit <= CAPACITY && start.refilledAt <= times[i]
  {
    CreditIsConserved(b, times[..i]);
    CreditStaysPositive(b, times[..i]);
  }

  lemma WindowStaysMonotone(start: int, times: seq<int>, i: nat, j: nat)
    requires i < j <= |times| && start <= times[i]
    requires forall k, l :: 0 <= k < l < |times| ==> times[k] <= times[l]
    ensures Monotone(start, times[i..j])
  {
  }

  lemma AnswersOfWindow(b: Bucket, times: seq<int>, i: nat, j: nat)
    requires i <= j <= |times|
    ensures Answers(b, times)[i..j] == Answers(After(b, times[..i]), times[i..j])
  {
    RunSplits(b, times[..i], times[i..]);
    RunSplits(After(b, times[..i]), times[i..j], times[j..]);
    assert times == times[..i] + times[i..] && times[i..] == times[i..j] + times[j..];
  }

  /**
    The same bound on a clock that may jump: for the window that ends at an accepted join,
    measured by what the clock said at its two ends.
  */
  lemma RateBoundOnAnyClock(b: Bucket, times: seq<int>)
    requires b.credit <= CAPACITY && times != [] && Answers(b, times)[|times| - 1]
    ensures COST * Count(Answers(b, times)) <= CAPACITY + times[|times| - 1] - times[0]
  {
    var full := Refill(b, times[0]);
    assert Take(b, times[0]) == Take(full, times[0]);
    CreditIsConserved(full, times);
    var n := |times| - 1;
    RunSplits(b, times[..n], times[n..]);
    assert times == times[..n] + times[n..];
    assert Answers(After(b, times[..n]), times[n..])[0];
  }

  // ---- refused attempts are free --------------------------------------------------

  /** Leaving a refused attempt out changes no later answer, on any clock. */
  lemma RefusedAttemptsAreFree(b: Bucket, before: seq<int>, refused: int, later: seq<int>)
    requires !Take(After(b, before), refused).accepted
    ensures Answers(b, before + [refused] + later) ==
            Answers(b, before) + [false] + Answers(After(b, before), later)
    ensures Answers(b, before + later) == Answers(b, before) + Answers(After(b, before), later)
  {
    var here := After(b, before);
    RunSplits(b, before, later);
    assert before + [refused] + later == before + ([refused] + later);
    RunSplits(b, before, [refused] + later);
    assert ([refused] + later)[1..] == later;
    if later != [] {
      assert Refill(Take(here, refused).bucket, later[0]) == Refill(here, later[0]);
      assert Take(Take(here, refused).bucket, later[0]) == Take(here, later[0]);
    }
  }

  // ---- who is refused ---------------------------------------------------------------

  /** A client that waits 3000 ms between joins is never refused. */
  lemma {:induction false} SpacedJoinsAreAccepted(b: Bucket, times: seq<int>)
    requires 0 <= b.credit <= CAPACITY
    requires times != [] ==> b.credit + (times[0] - b.refilledAt) >= COST
    requires forall i :: 0 < i < |times| ==> times[i] - times[i - 1] >= COST
    ensures forall i :: 0 <= i < |times| ==> Answers(b, times)[i]
    decreases |times|
  {
    if times != [] {
      var rest := times[1..];
      assert rest != [] ==> rest[0] == times[1];
      SpacedJoinsAreAccepted(Take(b, times[0]).bucket, rest);
    }
  }

  /** Accepting a join at `now`, after those accepted at `accepted`, would exceed the rate in no window. */
  ghost predicate Admits(accepted: seq<int>, now: int) {
    forall i :: 0 <= i < |accepted| ==> 3000 * (|accepted| - i + 1) <= 20 * 3000 + (now - accepted[i])
  }

  /** What the busiest window ending at `now` leaves of the bucket. */
  ghost predicate IsTightest(credit: int, accepted: seq<int>, now: int) {
    && credit <= CAPACITY
    && (forall i :: 0 <= i < |accepted| ==> credit <= Slack(accepted, i, now))
    && (credit == CAPACITY || exists i :: 0 <= i < |accepted| && credit == Slack(accepted, i, now))
  }

  ghost function Slack(accepted: seq<int>, i: nat, now: int): (r: int)
    requires i < |accepted|
  {
    CAPACITY + (now - accepted[i]) - COST * (|accepted| - i)
  }

  lemma RefillKeepsTightest(b: Bucket, accepted: seq<int>, now: int)
    requires IsTightest(b.credit, accepted, b.refilledAt) && b.refilledAt <= now
    ensures IsTightest(Refill(b, now).credit, accepted, now)
  {
    forall i | 0 <= i < |accepted|
      ensures Slack(accepted, i, now) == Slack(accepted, i, b.refilledAt) + (now - b.refilledAt)
    {
    }
  }

  lemma SpendKeepsTightest(credit: int, accepted: seq<int>, now: int)
    requires IsTightest(credit, accepted, now)
    ensures IsTightest(credit - COST, accepted + [now], now)
  {
    var more := accepted + [now];
    forall i | 0 <= i < |accepted| ensures Slack(more, i, now) == Slack(accepted, i, now) - COST {
    }
    assert Slack(more, |accepted|, now) == CAPACITY - COST;
  }

  /** A join is refused exactly when accepting it would break the rate in some window. */
  lemma RefusedExactlyOverTheRate(b: Bucket, accepted: seq<int>, now: int)
    requires IsTightest(b.credit, accepted, b.refilledAt) && b.refilledAt <= now
    ensures Take(b, now).accepted <==> Admits(accepted, now)
    ensures IsTightest(Take(b, now).bucket.credit, if Take(b, now).accepted then accepted + [now] else accepted, now)
  {
    RefillKeepsTightest(b, accepted, now);
    var credit := Refill(b, now).credit;
    SpendKeepsTightest(credit, accepted, now);
    forall i | 0 <= i < |accepted| ensures COST <= Slack(accepted, i, now) <==>
                                           COST * (|accepted| - i + 1) <= CAPACITY + (now - accepted[i]) {
    }
  }

  /** If the clock jumps back, credit is lost: even a first join is refused beyond 57 seconds. */
  lemma ClockBackRefuses(connectedAt: int, now: int)
    ensures Take(Bucket(CAPACITY, connectedAt), now).accepted <==> connectedAt - now <= 57_000
  {
  }

  // ---- the socket ------------------------------------------------------------------

  class Socket {
    var credit: int
    var refilledAt: int
    /** When joins were accepted, and whether the clock has kept going forward. */
    ghost var accepted: seq<int>
    ghost var clockWentBack: bool

    ghost predicate Valid()
      reads this
    {
      credit <= CAPACITY && (!clockWentBack ==> IsTightest(credit, accepted, refilledAt))
    }

    constructor Authenticate(now: int)
      ensures Valid() && credit == 20 * 3000 && refilledAt == now && accepted == [] && !clockWentBack
    {
      credit, refilledAt := CAPACITY, now;
      accepted, clockWentBack := [], false;
    }

    method TakeToken(now: int) returns (ok: bool)
      requires Valid()
      modifies this
      ensures Valid()
      ensures Outcome(Bucket(credit, refilledAt), ok) == Take(old(Bucket(credit, refilledAt)), now)
      ensures accepted == if ok then old(accepted) + [now] else old(accepted)
      ensures clockWentBack == (old(clockWentBack) || now < old(refilledAt))
      ensures !clockWentBack ==> (ok <==> Admits(old(accepted), now))
    {
      ghost var before := Bucket(credit, refilledAt);
      credit := credit + (now - refilledAt);
      if credit > CAPACITY { credit := CAPACITY; }
      if now < refilledAt { clockWentBack := true; }
      refilledAt := now;
      if !clockWentBack { RefusedExactlyOverTheRate(before, accepted, now); }
      if credit < COST { return false; }
      credit := credit - COST;
      accepted := accepted + [now];
      return true;
    }
  }
}
