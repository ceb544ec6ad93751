/**
 One callback download: up to three admissions, and the body that owns the last permit. What the
 limiter, the network and the context answer is a script, so every outcome is covered.
 */
module CallbackReader {

  const REQUEST_ATTEMPTS := 3

  datatype Reply = Opened | Rejected | Failed

  datatype Attempt = Attempt(admitted: bool, reply: Reply, cancelled: bool)

  datatype Failure = NotAdmitted | OpenFailed | CapacityExceeded | Cancelled | AttemptsExhausted

  datatype Opening = Body | Error(reason: Failure)

  /** What a request does to its limiter. */
  datatype Use = Acquire | Release

  function Count(trace: seq<Use>, u: Use): nat {
    if trace == [] then 0 else Count(trace[..|trace| - 1], u) + if trace[|trace| - 1] == u then 1 else 0
  }

  /** Permits held when the trace ends. */
  function Held(trace: seq<Use>): int {
    Count(trace, Acquire) - Count(trace, Release)
  }

  /** The attempt was admitted, told to come back, and lived through the delay. */
  predicate Retries(a: Attempt) {
    a.admitted && a.reply == Rejected && !a.cancelled
  }

  /** Attempt `k` is the one that settles the request. */
  ghost predicate Settles(script: seq<Attempt>, k: nat)
    requires |script| == REQUEST_ATTEMPTS
  {
    && k < REQUEST_ATTEMPTS
    && (forall j :: 0 <= j < k ==> Retries(script[j]))
    && (k + 1 == REQUEST_ATTEMPTS || !Retries(script[k]))
  }

  function Verdict(a: Attempt, last: bool): Opening {
    if !a.admitted then Error(NotAdmitted)
    else if a.reply == Opened then Body
    else if a.reply == Failed then Error(OpenFailed)
    else if last then Error(CapacityExceeded)
    else Error(Cancelled)
  }

  /** The request never holds two permits at a time. */
  ghost predicate OneAtATime(trace: seq<Use>) {
    trace == [] || (OneAtATime(trace[..|trace| - 1]) && 0 <= Held(trace) <= 1)
  }

  /** A permit is taken and given back, `n` times over. */
  function Cycles(n: nat): seq<Use> {
    if n == 0 then [] else Cycles(n - 1) + [Acquire] + [Release]
  }

  lemma {:induction false} Takes(trace: seq<Use>)
    requires OneAtATime(trace) && Held(trace) == 0
    ensures OneAtATime(trace + [Acquire]) && Held(trace + [Acquire]) == 1
    ensures Count(trace + [Acquire], Acquire) == Count(trace, Acquire) + 1
  {
    assert (trace + [Acquire])[..|trace|] == trace;
  }

  lemma {:induction false} Gives(trace: seq<Use>)
    requires OneAtATime(trace) && Held(trace) == 1
    ensures OneAtATime(trace + [Release]) && Held(trace + [Release]) == 0
    ensures Count(trace + [Release], Acquire) == Count(trace, Acquire)
  {
    assert (trace + [Release])[..|trace|] == trace;
  }

  /** What that comes to: no permit is held in the end, and never two at a time. */
  lemma {:induction false} CyclesHold(n: nat)
    ensures Count(Cycles(n), Acquire) == n && Held(Cycles(n)) == 0 && OneAtATime(Cycles(n))
  {
    if n > 0 {
      CyclesHold(n - 1);
      Takes(Cycles(n - 1));
      Gives(Cycles(n - 1) + [Acquire]);
    }
  }

  /** What holds of a trace that ends with or without a permit. */
  ghost predicate Balanced(trace: seq<Use>, acquired: nat, held: nat) {
    Count(trace, Acquire) == acquired && Held(trace) == held && OneAtATime(trace)
  }

  lemma {:induction false} CyclesBalance(n: nat)
    ensures Balanced(Cycles(n), n, 0) && Balanced(Cycles(n) + [Acquire], n + 1, 1)
  {
    CyclesHold(n);
    Takes(Cycles(n));
  }

  /** The retry loop. The return after the loop is never reached. */
  method OpenRange(script: seq<Attempt>) returns (r: Opening, trace: seq<Use>, ghost k: nat)
    requires |script| == REQUEST_ATTEMPTS
    ensures Settles(script, k) && r == Verdict(script[k], k + 1 == REQUEST_ATTEMPTS)
    ensures trace == if r.Body? then Cycles(k) + [Acquire] else Cycles(if script[k].admitted then k + 1 else k)
    ensures Balanced(trace, if script[k].admitted then k + 1 else k, if r.Body? then 1 else 0)
  {
    trace, k := [], 0;
    for attempt := 0 to REQUEST_ATTEMPTS
      invariant forall j :: 0 <= j < attempt ==> Retries(script[j])
      invariant attempt < REQUEST_ATTEMPTS
      invariant trace == Cycles(attempt)
    {
      k := attempt;
      CyclesBalance(attempt);
      CyclesBalance(attempt + 1);
      var a := script[attempt];
      if !a.admitted {
        return Error(NotAdmitted), trace, k;
      }
      trace := trace + [Acquire];
      if a.reply == Opened {
        return Body, trace, k;
      }
      trace := trace + [Release];
      if a.reply == Failed {
        return Error(OpenFailed), trace, k;
      }
      if attempt + 1 == REQUEST_ATTEMPTS {
        return Error(CapacityExceeded), trace, k;
      }
      if a.cancelled {
        return Error(Cancelled), trace, k;
      }
    }
    return Error(AttemptsExhausted), trace, k;
  }

  /**
   When a request ends in which way, from the script alone. A failed open ends it at once, and so does a
   context that is done while it waits to try again.
   */
  lemma VerdictMeans(script: seq<Attempt>, k: nat)
    requires |script| == 3 && Settles(script, k)
    ensures k < 3
    ensures forall j :: 0 <= j < k ==> script[j].admitted && script[j].reply == Rejected && !script[j].cancelled
    ensures var a, r := script[k], Verdict(script[k], k + 1 == 3);
      && (r == Body <==> a.admitted && a.reply == Opened)
      && (r == Error(NotAdmitted) <==> !a.admitted)
      && (r == Error(OpenFailed) <==> a.admitted && a.reply == Failed)
      && (r == Error(CapacityExceeded) <==> k == 2 && a.admitted && a.reply == Rejected)
      && (r == Error(Cancelled) <==> k < 2 && a.admitted && a.reply == Rejected && a.cancelled)
      && r != Error(AttemptsExhausted)
  {
  }

  // ---------------------------------------------------------------- the body

  /** `ContextDone` is the cancellation callback; it may fire before its `stop` is installed. */
  datatype BodyEvent = StopInstalled | ReadData | ReadError | CloseCall | ContextDone

  class CallbackBody {
    var once: bool
    var hasStop: bool
    var uses: seq<Use>
    ghost var bodyCloses: nat
    ghost var stops: nat

    /** Nothing has happened to the permit, or it was returned and the response closed, once. */
    ghost predicate Valid()
      reads this
    {
      && uses == (if once then [Release] else [])
      && bodyCloses == (if once then 1 else 0)
      && stops <= bodyCloses
    }

    constructor ()
      ensures Valid() && !once
    {
      once, hasStop := false, false;
      uses, bodyCloses, stops := [], 0, 0;
    }

    /** Only the first close reports the response's own error. */
    method Close(bodyFails: bool) returns (err: bool)
      requires Valid()
      modifies this
      ensures Valid() && once
      ensures err == (bodyFails && !old(once))
    {
      err := false;
      if !once {
        once := true;
        if hasStop {
          stops := stops + 1;
        }
        bodyCloses := bodyCloses + 1;
        err := bodyFails;
        uses := uses + [Release];
      }
    }

    method Handle(e: BodyEvent, bodyFails: bool)
      requires Valid()
      modifies this
      ensures Valid() && once == (old(once) || e == ReadError || e == CloseCall || e == ContextDone)
    {
      match e {
        case StopInstalled => hasStop := true;
        case ReadData =>
        case ReadError => var _ := Close(bodyFails);
        case CloseCall => var _ := Close(bodyFails);
        case ContextDone => var _ := Close(bodyFails);
      }
    }
  }

  /** The attempt opened a body that saw no read error, no close and no cancellation. */
  ghost predicate StaysOpen(a: Attempt, events: seq<BodyEvent>) {
    a.admitted && a.reply == Opened && ReadError !in events && CloseCall !in events && ContextDone !in events
  }

  /**
   A request from the first admission to the last thing that happens to its body: it holds a permit
   at the end only while an opened body has seen no read error, no close and no cancellation.
   */
  method Lifetime(script: seq<Attempt>, events: seq<BodyEvent>) returns (r: Opening, uses: seq<Use>, ghost k: nat)
    requires |script| == REQUEST_ATTEMPTS
    ensures Settles(script, k) && r == Verdict(script[k], k + 1 == REQUEST_ATTEMPTS)
    ensures Balanced(uses, if script[k].admitted then k + 1 else k, if StaysOpen(script[k], events) then 1 else 0)
    ensures uses ==
      if StaysOpen(script[k], events) then Cycles(k) + [Acquire]
      else Cycles(if script[k].admitted then k + 1 else k)
  {
    r, uses, k := OpenRange(script);
    CyclesBalance(k + 1);
    if r.Body? {
      var given := LiveBody(events);
      assert uses + [] == uses;
      uses := uses + given;
    }
  }

  /** A body from its first event to its last: it gives its permit back once, or not at all. */
  method LiveBody(events: seq<BodyEvent>) returns (given: seq<Use>)
    ensures given == if ReadError in events || CloseCall in events || ContextDone in events then [Release] else []
  {
    var b := new CallbackBody();
    for i := 0 to |events|
      invariant b.Valid() && fresh(b)
      invariant b.once <==> ReadError in events[..i] || CloseCall in events[..i] || ContextDone in events[..i]
    {
      assert events[..i + 1] == events[..i] + [events[i]];
      b.Handle(events[i], false);
    }
    assert events[..|events|] == events;
    given := b.uses;
  }
}
