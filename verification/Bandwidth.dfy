/** Bandwidth limiting: the token bucket and the metering of one direction of a stream.

    Floating-point quantities are modelled as reals, so rounding is not captured; instants are reals in seconds. */
module Bandwidth {
  import opened Basics

  datatype Bucket = Bucket(rate: nat, tokens: real, maxTokens: real, lastRefill: real)

  ghost predicate Valid(b: Bucket) {
    0.0 <= b.tokens <= b.maxTokens
  }

  function MinReal(x: real, y: real): real { if x <= y then x else y }

  /** Tokens that accrue over a time span, `rate * span`, as a repeated sum. */
  function Accrued(rate: nat, span: real): (tokens: real)
  {
    if rate == 0 then 0.0 else span + Accrued(rate - 1, span)
  }

  lemma AccruedIsProduct(rate: nat, span: real)
    ensures Accrued(rate, span) == rate as real * span
  {
    if rate == 0 {
    } else {
      AccruedIsProduct(rate - 1, span);
      assert rate as real * span == (rate - 1) as real * span + span;
    }
  }

  lemma AccruedNonNegative(rate: nat, span: real)
    requires span >= 0.0
    ensures Accrued(rate, span) >= 0.0
  {
  }

  function Refilled(b: Bucket, now: real): Bucket {
    b.(tokens := MinReal(b.tokens + Accrued(b.rate, now - b.lastRefill), b.maxTokens), lastRefill := now)
  }

  /** How many bytes a poll offers to the inner stream. */
  function Offer(b: Bucket, want: nat, now: real): nat
    requires Refilled(b, now).tokens >= 0.0
  {
    Min(Refilled(b, now).tokens.Floor, want)
  }

  /** What a poll reports: pending without a whole token, otherwise whatever the inner stream does with the offer. */
  function Outcome(b: Bucket, want: nat, transfer: nat -> Option<nat>, now: real): Option<nat>
    requires Refilled(b, now).tokens >= 0.0
  {
    if Refilled(b, now).tokens.Floor == 0 then None else transfer(Offer(b, want, now))
  }

  class TokenBucket {
    var state: Bucket

    constructor (bytesPerSec: nat, now: real)
      ensures state == Bucket(bytesPerSec, bytesPerSec as real, bytesPerSec as real, now) && Valid(state)
    {
      state := Bucket(bytesPerSec, bytesPerSec as real, bytesPerSec as real, now);
    }

    method Refill(now: real)
      modifies this
      ensures state == Refilled(old(state), now)
    {
      state := Refilled(state, now);
    }

    method Consume(bytes: nat, now: real) returns (ok: bool)
      modifies this
      ensures var r := Refilled(old(state), now);
        && (ok <==> r.tokens >= bytes as real)
        && state == if ok then r.(tokens := r.tokens - bytes as real) else r
    {
      Refill(now);
      ok := state.tokens >= bytes as real;
      if ok {
        state := state.(tokens := state.tokens - bytes as real);
      }
    }

    method Available(now: real) returns (n: nat)
      requires Valid(state) && now >= state.lastRefill
      modifies this
      ensures state == Refilled(old(state), now) && Valid(state)
      ensures n == state.tokens.Floor
    {
      RefillKeepsValid(state, now);
      Refill(now);
      n := state.tokens.Floor;
    }

    /** One metered poll: `transfer(n)` is what the inner stream moves when offered `n` bytes, None when not ready;
        `now` and `later` are the instants of the two refills.  The debit after the transfer always succeeds. */
    method Poll(want: nat, transfer: nat -> Option<nat>, now: real, later: real) returns (moved: Option<nat>)
      requires Valid(state) && state.lastRefill <= now <= later
      requires forall n :: transfer(n).Some? ==> transfer(n).value <= n
      modifies this
      ensures Valid(state)
      ensures Refilled(old(state), now).tokens >= 0.0 && moved == Outcome(old(state), want, transfer, now)
      ensures moved.None? ==> state == Refilled(old(state), now)
      ensures moved.Some? ==>
        var x := Transfer(now, now, later, moved.value);
        Passes(old(state), x) && state == AfterTransfer(old(state), x)
    {
      var available := Available(now);
      if available == 0 {
        return None;
      }
      var n := Min(available, want);
      moved := transfer(n);
      if moved.Some? {
        DebitSucceeds(state, moved.value, later);
        var ok := Consume(moved.value, later);
        assert ok;
      }
    }
  }

  /** A refill fills the bucket, or adds exactly the rate times the elapsed time, whichever is less; nothing else of the
      bucket changes but the instant. */
  lemma RefillExact(b: Bucket, elapsed: real)
    ensures var r := Refilled(b, b.lastRefill + elapsed);
      && r.rate == b.rate && r.maxTokens == b.maxTokens && r.lastRefill == b.lastRefill + elapsed
      && (b.tokens + b.rate as real * elapsed >= b.maxTokens ==> r.tokens == b.maxTokens)
      && (b.tokens + b.rate as real * elapsed <= b.maxTokens ==> r.tokens == b.tokens + b.rate as real * elapsed)
  {
    assert b.lastRefill + elapsed - b.lastRefill == elapsed;
    AccruedIsProduct(b.rate, elapsed);
  }

  /** Progress: a limited stream never stalls for good.  A poll is pending on its own account exactly as long as no
      whole token has accrued (or the bucket cannot hold one); from then on a poll with something to move offers at
      least one byte, at most what was wanted, and as much as the tokens allow. */
  lemma PollMakesProgress(b: Bucket, want: nat, transfer: nat -> Option<nat>, elapsed: real)
    requires Valid(b) && elapsed >= 0.0
    ensures var now := b.lastRefill + elapsed;
      var accrued := b.tokens + b.rate as real * elapsed;
      && Refilled(b, now).tokens >= 0.0
      && (accrued < 1.0 || b.maxTokens < 1.0 ==> Outcome(b, want, transfer, now) == None)
      && (accrued >= 1.0 && b.maxTokens >= 1.0 ==> Outcome(b, want, transfer, now) == transfer(Offer(b, want, now)))
      && (accrued >= 1.0 && b.maxTokens >= 1.0 && want > 0 ==> 1 <= Offer(b, want, now) <= want)
      && (Offer(b, want, now) < want ==>
            Offer(b, want, now) as real + 1.0 > b.maxTokens || Offer(b, want, now) as real + 1.0 > accrued)
  {
    RefillExact(b, elapsed);
    RefillKeepsValid(b, b.lastRefill + elapsed);
  }

  lemma RefillKeepsValid(b: Bucket, now: real)
    requires Valid(b) && now >= b.lastRefill
    ensures Valid(Refilled(b, now)) && Refilled(b, now).tokens >= b.tokens
  {
    AccruedNonNegative(b.rate, now - b.lastRefill);
  }

  lemma DebitSucceeds(b: Bucket, n: nat, later: real)
    requires Valid(b) && n as real <= b.tokens && later >= b.lastRefill
    ensures Refilled(b, later).tokens >= n as real
  {
    RefillKeepsValid(b, later);
  }

  // ---------------------------------------------------------------- runs

  /** A transfer of `bytes` bytes at instant `at`, between the refill that allowed it and the one that debits it. */
  datatype Transfer = Transfer(offered: real, at: real, debited: real, bytes: nat)

  ghost function AfterTransfer(s: Bucket, x: Transfer): Bucket {
    var r := Refilled(Refilled(s, x.offered), x.debited);
    r.(tokens := r.tokens - x.bytes as real)
  }

  /** The bucket lets the transfer pass. */
  ghost predicate Passes(s: Bucket, x: Transfer) {
    && s.lastRefill <= x.offered <= x.at <= x.debited
    && x.bytes as real <= Refilled(s, x.offered).tokens
  }

  /** Polls that move nothing only refill the bucket. */
  datatype Step = Move(x: Transfer) | Idle(now: real)

  ghost predicate Run(s: Bucket, steps: seq<Step>)
    decreases |steps|
  {
    if steps == [] then true
    else
      match steps[0]
      case Move(x) => Passes(s, x) && Run(AfterTransfer(s, x), steps[1..])
      case Idle(now) => s.lastRefill <= now && Run(Refilled(s, now), steps[1..])
  }

  /** The step moves bytes at an instant from `t0` to `t1`. */
  predicate InWindow(s: Step, t0: real, t1: real) {
    s.Move? && t0 <= s.x.at <= t1
  }

  /** The bytes a run moves from `t0` to `t1`. */
  function Moved(steps: seq<Step>, t0: real, t1: real): nat {
    if steps == [] then 0
    else (if InWindow(steps[0], t0, t1) then steps[0].x.bytes else 0) + Moved(steps[1..], t0, t1)
  }

  lemma {:induction false} AccruedAdds(rate: nat, x: real, y: real)
    ensures Accrued(rate, x) + Accrued(rate, y) == Accrued(rate, x + y)
    ensures x <= y ==> Accrued(rate, x) <= Accrued(rate, y)
  {
    if rate == 0 {
    } else {
      AccruedAdds(rate - 1, x, y);
    }
  }

  /** A refill adds at most what accrued, and a debited transfer leaves at most the capacity minus its bytes. */
  lemma TransferBounds(s: Bucket, x: Transfer)
    requires Valid(s) && Passes(s, x)
    ensures var t := AfterTransfer(s, x);
      && Valid(t) && t.rate == s.rate && t.maxTokens == s.maxTokens && t.lastRefill == x.debited
      && x.bytes as real <= s.tokens + Accrued(s.rate, x.offered - s.lastRefill)
      && t.tokens + x.bytes as real <= s.tokens + Accrued(s.rate, x.debited - s.lastRefill)
      && x.bytes as real <= s.maxTokens && t.tokens + x.bytes as real <= s.maxTokens
  {
    RefillKeepsValid(s, x.offered);
    RefillKeepsValid(Refilled(s, x.offered), x.debited);
    AccruedAdds(s.rate, x.offered - s.lastRefill, x.debited - x.offered);
  }

  lemma {:induction false} NothingMovesLater(s: Bucket, steps: seq<Step>, t0: real, t1: real)
    requires Run(s, steps) && s.lastRefill > t1
    ensures Moved(steps, t0, t1) == 0
    decreases |steps|
  {
    if steps == [] {
    } else {
      match steps[0] {
        case Idle(now) => NothingMovesLater(Refilled(s, now), steps[1..], t0, t1);
        case Move(x) => NothingMovesLater(AfterTransfer(s, x), steps[1..], t0, t1);
      }
    }
  }

  /** From a given bucket, at most its tokens plus what accrues until `t1` can be moved by `t1`. */
  lemma {:induction false} MovedFromBucket(s: Bucket, steps: seq<Step>, t0: real, t1: real)
    requires Valid(s) && Run(s, steps) && s.lastRefill <= t1
    ensures Moved(steps, t0, t1) as real <= s.tokens + Accrued(s.rate, t1 - s.lastRefill)
    decreases |steps|
  {
    AccruedNonNegative(s.rate, t1 - s.lastRefill);
    if steps == [] {
    } else {
      match steps[0] {
        case Idle(now) =>
          var s' := Refilled(s, now);
          RefillKeepsValid(s, now);
          if now <= t1 {
            MovedFromBucket(s', steps[1..], t0, t1);
            AccruedAdds(s.rate, now - s.lastRefill, t1 - now);
          } else {
            NothingMovesLater(s', steps[1..], t0, t1);
          }
        case Move(x) =>
          var s' := AfterTransfer(s, x);
          TransferBounds(s, x);
          if x.debited <= t1 {
            MovedFromBucket(s', steps[1..], t0, t1);
            AccruedAdds(s.rate, x.debited - s.lastRefill, t1 - x.debited);
          } else {
            NothingMovesLater(s', steps[1..], t0, t1);
            AccruedAdds(s.rate, x.offered - s.lastRefill, t1 - s.lastRefill);
          }
      }
    }
  }

  lemma {:induction false} WindowBound(s: Bucket, steps: seq<Step>, t0: real, t1: real)
    requires Valid(s) && Run(s, steps) && t0 <= t1
    ensures Moved(steps, t0, t1) as real <= s.maxTokens + Accrued(s.rate, t1 - t0)
    decreases |steps|
  {
    AccruedNonNegative(s.rate, t1 - t0);
    if steps == [] {
    } else {
      match steps[0] {
        case Idle(now) =>
          RefillKeepsValid(s, now);
          WindowBound(Refilled(s, now), steps[1..], t0, t1);
        case Move(x) =>
          var s' := AfterTransfer(s, x);
          TransferBounds(s, x);
          if x.at < t0 {
            WindowBound(s', steps[1..], t0, t1);
          } else if x.debited <= t1 {
            MovedFromBucket(s', steps[1..], t0, t1);
            AccruedAdds(s.rate, t1 - x.debited, t1 - t0);
          } else {
            NothingMovesLater(s', steps[1..], t0, t1);
          }
      }
    }
  }

  /** Token bucket bound: over every run from any valid bucket and for every time window, the bytes moved within the
      window are at most the burst size plus the rate times the length of the window. */
  lemma {:induction false} TokenBucketBound(s: Bucket, steps: seq<Step>, start: real, span: real)
    requires Valid(s) && Run(s, steps) && span >= 0.0
    ensures Moved(steps, start, start + span) as real <= s.maxTokens + s.rate as real * span
  {
    WindowBound(s, steps, start, start + span);
    assert start + span - start == span;
    AccruedIsProduct(s.rate, span);
  }
}
