/** Facts about call traces: which recorded call failed first, and the shape of a trace
    once the data carried by its events is erased. */
module Traces {
  import opened ResultCodes
  import opened Collaborators

  /** Every event but `Free` is a call whose answer the harness may look at. */
  predicate IsCall(e: Event) {
    !e.Free?
  }

  /** The call recorded at position k of t was answered with a failure. */
  predicate FailedAt(p: Plan, t: seq<Event>, k: nat)
    requires k < |t|
  {
    IsCall(t[k]) && p.status(t[..k + 1]) != Success
  }

  /** No call recorded at or after position a failed. */
  ghost predicate OkSince(p: Plan, t: seq<Event>, a: nat) {
    forall k :: a <= k < |t| ==> !FailedAt(p, t, k)
  }

  /** t starts with u. */
  predicate Extends(t: seq<Event>, u: seq<Event>) {
    |u| <= |t| && t[..|u|] == u
  }

  /** Appending to a trace keeps what it extends. */
  lemma ExtendsAppend(t: seq<Event>, u: seq<Event>, rest: seq<Event>)
    requires Extends(t, u)
    ensures Extends(t + rest, u)
  {
    assert (t + rest)[..|u|] == t[..|u|];
  }

  /** The position of the first failed call at or after a, or |t| when there is none. */
  function FirstFailure(p: Plan, t: seq<Event>, a: nat): (k: nat)
    requires a <= |t|
    ensures a <= k <= |t|
    ensures k < |t| ==> FailedAt(p, t, k)
    ensures forall i :: a <= i < k ==> !FailedAt(p, t, i)
    decreases |t| - a
  {
    if a == |t| then |t|
    else if FailedAt(p, t, a) then a
    else FirstFailure(p, t, a + 1)
  }

  /** The first failure is the unique position that is failed and preceded only by successes. */
  lemma FirstFailureIs(p: Plan, t: seq<Event>, a: nat, k: nat)
    requires a <= k <= |t|
    requires forall i :: a <= i < k ==> !FailedAt(p, t, i)
    requires k < |t| ==> FailedAt(p, t, k)
    ensures FirstFailure(p, t, a) == k
  {
  }

  /** Whether a call failed depends only on the trace up to that call. */
  lemma FailedAtPrefix(p: Plan, t: seq<Event>, u: seq<Event>, k: nat)
    requires Extends(t, u) && k < |u|
    ensures FailedAt(p, t, k) == FailedAt(p, u, k)
  {
    assert t[k] == u[k];
    assert t[..k + 1] == u[..k + 1];
  }

  lemma OkSinceStep(p: Plan, t: seq<Event>, a: nat, e: Event)
    requires a <= |t| && OkSince(p, t, a)
    requires IsCall(e) ==> p.status(t + [e]) == Success
    ensures OkSince(p, t + [e], a)
  {
    var t' := t + [e];
    forall k | a <= k < |t'|
      ensures !FailedAt(p, t', k)
    {
      if k < |t| {
        FailedAtPrefix(p, t', t, k);
      } else {
        assert t'[..k + 1] == t';
      }
    }
  }

  /** A stretch of successful calls does not move the first failure. */
  lemma FirstFailureSkip(p: Plan, t: seq<Event>, u: seq<Event>, a: nat)
    requires Extends(t, u) && a <= |u|
    requires OkSince(p, u, a)
    ensures FirstFailure(p, t, a) == FirstFailure(p, t, |u|)
  {
    var k := FirstFailure(p, t, |u|);
    forall i | a <= i < |u|
      ensures !FailedAt(p, t, i)
    {
      FailedAtPrefix(p, t, u, i);
    }
    FirstFailureIs(p, t, a, k);
  }

  /** When u ends with a failed call preceded by successes, that call is the first failure of
      every trace t that starts with u. */
  lemma FirstFailureAtEnd(p: Plan, t: seq<Event>, u: seq<Event>, a: nat)
    requires Extends(t, u) && a < |u|
    requires OkSince(p, u[..|u| - 1], a)
    requires IsCall(u[|u| - 1]) && p.status(u) != Success
    ensures FirstFailure(p, t, a) == |u| - 1
  {
    var k := |u| - 1;
    forall i | a <= i < k
      ensures !FailedAt(p, t, i)
    {
      FailedAtPrefix(p, t, u, i);
      FailedAtPrefix(p, u, u[..k], i);
    }
    assert u[..k + 1] == u;
    FailedAtPrefix(p, t, u, k);
    FirstFailureIs(p, t, a, k);
  }

  lemma NoFailure(p: Plan, t: seq<Event>, a: nat)
    requires a <= |t| && OkSince(p, t, a)
    ensures FirstFailure(p, t, a) == |t|
  {
    FirstFailureIs(p, t, a, |t|);
  }

  /** Concatenation of traces is associative. */
  lemma AppendAssoc(x: seq<Event>, y: seq<Event>, z: seq<Event>)
    ensures (x + y) + z == x + (y + z)
  {
  }

  /** An event with the data it carries removed. */
  function Erase(e: Event): Event {
    match e
    case Run(_) => Run([])
    case Send(_) => Send([])
    case _ => e
  }

  function Erased(t: seq<Event>): (r: seq<Event>)
    ensures |r| == |t| && forall i :: 0 <= i < |t| ==> r[i] == Erase(t[i])
  {
    seq(|t|, i requires 0 <= i < |t| => Erase(t[i]))
  }

  lemma ErasedConcat(a: seq<Event>, b: seq<Event>)
    ensures Erased(a + b) == Erased(a) + Erased(b)
  {
  }

  lemma ErasedOne(e: Event)
    ensures Erased([e]) == [Erase(e)]
  {
  }

  /** n copies of block, one after the other. */
  function Repeat(block: seq<Event>, n: nat): seq<Event> {
    if n == 0 then [] else block + Repeat(block, n - 1)
  }

  /** n blocks hold n times the events of one; kept out of Repeat's own contract so that the
      product does not enter every proof that mentions Repeat. */
  lemma {:induction false} RepeatLength(block: seq<Event>, n: nat)
    ensures |Repeat(block, n)| == n * |block|
  {
    if n > 0 {
      RepeatLength(block, n - 1);
    }
  }

  /** One prefix of a trace after the same head is a prefix of the other behind it. */
  lemma PrefixAfter(h: seq<Event>, x: seq<Event>, y: seq<Event>)
    requires x <= y
    ensures h + x <= h + y
  {
    assert (h + y)[..|h + x|] == h + y[..|x|];
  }

  /** A prefix of y is a prefix of anything y begins. */
  lemma PrefixWithin(x: seq<Event>, y: seq<Event>, z: seq<Event>)
    requires x <= y
    ensures x <= y + z
  {
    assert (y + z)[..|x|] == y[..|x|];
  }

  /** Erasing data keeps prefixes. */
  lemma ErasedMono(x: seq<Event>, y: seq<Event>)
    requires x <= y
    ensures Erased(x) <= Erased(y)
  {
    assert Erased(y)[..|x|] == Erased(x);
  }

  /** The events from b up to k of a trace that starts with u and goes past it: u's events
      from b, then t's from the end of u up to k. */
  lemma CutJoin(t: seq<Event>, u: seq<Event>, b: nat, k: nat)
    requires Extends(t, u) && b <= |u| <= k + 1 <= |t|
    ensures t[b..k + 1] == u[b..] + t[|u|..k + 1]
  {
  }

  /** The events from b up to k begin the events from b on. */
  lemma CutPrefix(t: seq<Event>, b: nat, k: nat)
    requires b <= k < |t|
    ensures t[b..k + 1] <= t[b..]
  {
    assert t[b..][..k + 1 - b] == t[b..k + 1];
  }

  /** Fewer copies of a block begin more copies of it. */
  lemma {:induction false} RepeatPrefix(block: seq<Event>, m: nat, n: nat)
    requires m <= n
    ensures Repeat(block, m) <= Repeat(block, n)
  {
    if m > 0 {
      RepeatPrefix(block, m - 1, n - 1);
      PrefixAfter(block, Repeat(block, m - 1), Repeat(block, n - 1));
    }
  }

  /** After a stretch of successful calls u, every event up to the first failure lies in
      what follows u. */
  lemma TailPrefix(p: Plan, u: seq<Event>, rest: seq<Event>, a: nat)
    requires a <= |u| && OkSince(p, u, a)
    ensures var t := u + rest; var k := FirstFailure(p, t, a);
      k < |t| ==> |u| <= k && t[|u|..k + 1] <= rest
  {
    var t := u + rest;
    FirstFailureSkip(p, t, u, a);
    var k := FirstFailure(p, t, a);
    if k < |t| {
      CutPrefix(t, |u|, k);
      assert t[|u|..] == rest;
    }
  }

  /** A failed call that ends u, preceded by successes, is the first failure whatever follows
      it, and the events from b up to it are those of u. */
  lemma FailPrefix(p: Plan, u: seq<Event>, rest: seq<Event>, b: nat, a: nat)
    requires a <= b < |u| && OkSince(p, u[..|u| - 1], a)
    requires IsCall(u[|u| - 1]) && p.status(u) != Success
    ensures FirstFailure(p, u + rest, a) == |u| - 1 && (u + rest)[b..|u|] == u[b..]
  {
    FirstFailureAtEnd(p, u + rest, u, a);
  }

  /** The events from b to k of t, where t goes on from u and u's events from b are blk,
      begin blk + more when t's events after u up to k begin more. */
  lemma JoinPrefix(t: seq<Event>, u: seq<Event>, b: nat, k: nat, blk: seq<Event>, more: seq<Event>)
    requires Extends(t, u) && b <= |u| <= k + 1 <= |t| && u[b..] == blk
    requires t[|u|..k + 1] <= more
    ensures t[b..k + 1] <= blk + more
  {
    CutJoin(t, u, b, k);
    PrefixAfter(blk, t[|u|..k + 1], more);
  }

  /** JoinPrefix with the data the events carry erased. */
  lemma ErasedJoinPrefix(t: seq<Event>, u: seq<Event>, b: nat, k: nat, blk: seq<Event>, more: seq<Event>)
    requires Extends(t, u) && b <= |u| <= k + 1 <= |t| && Erased(u[b..]) == blk
    requires Erased(t[|u|..k + 1]) <= more
    ensures Erased(t[b..k + 1]) <= blk + more
  {
    CutJoin(t, u, b, k);
    ErasedConcat(u[b..], t[|u|..k + 1]);
    PrefixAfter(blk, Erased(t[|u|..k + 1]), more);
  }

  /** Up to the first failed call at or after a, the events of t from b on begin h. */
  predicate UpToFailure(p: Plan, t: seq<Event>, b: nat, a: nat, h: seq<Event>)
    requires a <= |t|
  {
    var k := FirstFailure(p, t, a);
    k < |t| ==> b <= k && t[b..k + 1] <= h
  }

  /** TailPrefix as an UpToFailure fact. */
  lemma TailUpTo(p: Plan, u: seq<Event>, rest: seq<Event>, a: nat)
    requires a <= |u| && OkSince(p, u, a)
    ensures UpToFailure(p, u + rest, |u|, a, rest)
  {
    TailPrefix(p, u, rest, a);
  }

  /** A failed call that ends u, preceded by successes, when u's events from b begin h. */
  lemma ExactFailUpTo(p: Plan, u: seq<Event>, rest: seq<Event>, b: nat, a: nat, h: seq<Event>)
    requires a <= b < |u| && OkSince(p, u[..|u| - 1], a)
    requires IsCall(u[|u| - 1]) && p.status(u) != Success && u[b..] <= h
    ensures FirstFailure(p, u + rest, a) < |u + rest| && UpToFailure(p, u + rest, b, a, h)
  {
    FailPrefix(p, u, rest, b, a);
  }

  /** The events of u from b are blk: in front of what t records after u up to the first
      failure, they begin blk + more. */
  lemma JoinUpTo(p: Plan, t: seq<Event>, u: seq<Event>, b: nat, a: nat, blk: seq<Event>, more: seq<Event>)
    requires Extends(t, u) && b <= |u| && a <= |u| && u[b..] == blk
    requires UpToFailure(p, t, |u|, a, more)
    ensures UpToFailure(p, t, b, a, blk + more)
  {
    var k := FirstFailure(p, t, a);
    if k < |t| {
      JoinPrefix(t, u, b, k, blk, more);
    }
  }

  /** Up to the first failed call at or after a, the events of t from b on, data erased,
      begin h. */
  predicate ErasedUpToFailure(p: Plan, t: seq<Event>, b: nat, a: nat, h: seq<Event>)
    requires a <= |t|
  {
    var k := FirstFailure(p, t, a);
    k < |t| ==> b <= k && Erased(t[b..k + 1]) <= h
  }

  /** TailPrefix with the data the events carry erased. */
  lemma ErasedTailPrefix(p: Plan, u: seq<Event>, rest: seq<Event>, more: seq<Event>, a: nat)
    requires a <= |u| && OkSince(p, u, a) && Erased(rest) <= more
    ensures ErasedUpToFailure(p, u + rest, |u|, a, more)
  {
    var t := u + rest;
    TailPrefix(p, u, rest, a);
    var k := FirstFailure(p, t, a);
    if k < |t| {
      ErasedMono(t[|u|..k + 1], rest);
      PrefixTrans(Erased(t[|u|..k + 1]), Erased(rest), more);
    }
  }

  /** The events of u from b, data erased, are blk: in front of what t records after u up to
      the first failure, they begin blk + more. */
  lemma ErasedJoinUpTo(p: Plan, t: seq<Event>, u: seq<Event>, b: nat, a: nat, blk: seq<Event>, more: seq<Event>)
    requires Extends(t, u) && b <= |u| && a <= |u| && Erased(u[b..]) == blk
    requires ErasedUpToFailure(p, t, |u|, a, more)
    ensures ErasedUpToFailure(p, t, b, a, blk + more)
  {
    var k := FirstFailure(p, t, a);
    if k < |t| {
      ErasedJoinPrefix(t, u, b, k, blk, more);
    }
  }

  /** A failed call that ends u, preceded by successes, when u's events from b, data erased,
      begin h. */
  lemma FailUpTo(p: Plan, u: seq<Event>, rest: seq<Event>, b: nat, a: nat, h: seq<Event>)
    requires a <= b < |u| && OkSince(p, u[..|u| - 1], a)
    requires IsCall(u[|u| - 1]) && p.status(u) != Success && Erased(u[b..]) <= h
    ensures FirstFailure(p, u + rest, a) < |u + rest| && ErasedUpToFailure(p, u + rest, b, a, h)
  {
    FailPrefix(p, u, rest, b, a);
  }

  /** Beginning h, the events up to the first failure begin anything h begins. */
  lemma UpToFailureWithin(p: Plan, t: seq<Event>, b: nat, a: nat, h: seq<Event>, h': seq<Event>)
    requires a <= |t| && ErasedUpToFailure(p, t, b, a, h) && h <= h'
    ensures ErasedUpToFailure(p, t, b, a, h')
  {
    var k := FirstFailure(p, t, a);
    if k < |t| {
      PrefixTrans(Erased(t[b..k + 1]), h, h');
    }
  }

  lemma PrefixTrans(x: seq<Event>, y: seq<Event>, z: seq<Event>)
    requires x <= y && y <= z
    ensures x <= z
  {
    assert z[..|x|] == y[..|x|];
  }
}
