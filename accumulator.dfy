/**
 * The argument accumulator behind `curry_n` (its inner `accum_curry`), as a
 * pure state machine. A wrapper is fixed by its threshold; every call hands
 * it a positional batch and a keyword batch, and the call either invokes the
 * target with everything accumulated so far or yields a continuation that
 * holds the updated accumulation.
 *
 * This module gives every call chain its own accumulation state, which is the
 * behaviour the documentation describes. The in-place sharing of the keyword
 * dictionary that the code actually performs is modelled in module
 * SharedKeywords.
 */
module Accumulator {

  /** How many positional arguments a wrapper waits for. `Unbounded` stands
      for the float infinity the arity inspector uses for variadic targets. */
  datatype Threshold = Finite(n: nat) | Unbounded

  /** Whether `count` accumulated positional arguments meet the threshold:
      `len(accum_args) >= n`, which no count meets when n is infinite. */
  predicate Reached(t: Threshold, count: nat)
  {
    match t
    case Finite(n) => count >= n
    case Unbounded => false
  }

  /** The accumulation state: positional arguments in the order supplied, and
      keyword arguments by name. */
  datatype Accum<V> = Accum(args: seq<V>, kwargs: map<string, V>)

  /** The state a top-level call starts from. */
  function Fresh<V>(): Accum<V>
  {
    Accum([], map[])
  }

  /** The arguments of one call. */
  datatype Batch<V> = Batch(args: seq<V>, kwargs: map<string, V>)
  {
    /** A call that supplies neither positional nor keyword arguments. */
    predicate IsEmpty()
    {
      |args| == 0 && |kwargs| == 0
    }
  }

  /** What one call yields: the target invoked on the accumulated arguments,
      or a continuation holding the accumulation so far. */
  datatype StepResult<V> = Invoke(args: seq<V>, kwargs: map<string, V>) | Continue(state: Accum<V>)
  {
    /** The accumulation after the call, whichever way it went. */
    function Accumulated(): Accum<V>
    {
      match this
      case Invoke(args, kwargs) => Accum(args, kwargs)
      case Continue(state) => state
    }
  }

  /** `dict.update`: the names of both maps, the later value winning. */
  function Merge<V>(m: map<string, V>, update: map<string, V>): (r: map<string, V>)
    ensures r.Keys == m.Keys + update.Keys
    ensures forall name :: name in update ==> r[name] == update[name]
    ensures forall name :: name in m && name !in update ==> r[name] == m[name]
  {
    m + update
  }

  /** One call of the wrapper (or of a continuation) with positional batch
      `args` and keyword batch `kwargs`, from accumulation `s`. */
  function AccumCurry<V>(t: Threshold, s: Accum<V>, args: seq<V>, kwargs: map<string, V>): (r: StepResult<V>)
    // positional arguments accumulate by order-preserving concatenation
    ensures r.Accumulated().args == s.args + args
    // keyword arguments merge by update
    ensures r.Accumulated().kwargs == Merge(s.kwargs, kwargs)
    // the target is invoked exactly when the call is empty or the count meets the threshold
    ensures r.Invoke? <==> Batch(args, kwargs).IsEmpty() || Reached(t, |s.args| + |args|)
  {
    var accumArgs := s.args + args;
    var accumKwargs := Merge(s.kwargs, kwargs);
    if (|args| == 0 && |kwargs| == 0) || Reached(t, |accumArgs|) then
      Invoke(accumArgs, accumKwargs)
    else
      Continue(Accum(accumArgs, accumKwargs))
  }

  /** How a chain of calls ends: still pending with an accumulation, or the
      target invoked, with the calls that were left over (those would be
      applied to whatever the target returned, which is outside the model). */
  datatype Outcome<V> =
    | Pending(state: Accum<V>)
    | Invoked(args: seq<V>, kwargs: map<string, V>, rest: seq<Batch<V>>)

  /** Feeds `calls` one after another to a wrapper with threshold `t`,
      starting from accumulation `s`. */
  function Apply<V>(t: Threshold, s: Accum<V>, calls: seq<Batch<V>>): Outcome<V>
    decreases |calls|
  {
    if |calls| == 0 then Pending(s)
    else
      match AccumCurry(t, s, calls[0].args, calls[0].kwargs)
      case Invoke(args, kwargs) => Invoked(args, kwargs, calls[1..])
      case Continue(next) => Apply(t, next, calls[1..])
  }

  /** All positional arguments of `calls`, in order. */
  function Flatten<V>(calls: seq<Batch<V>>): seq<V>
  {
    if |calls| == 0 then [] else calls[0].args + Flatten(calls[1..])
  }

  /** The keyword map after merging every call of `calls` into `m`, in order. */
  function MergeAll<V>(m: map<string, V>, calls: seq<Batch<V>>): map<string, V>
    decreases |calls|
  {
    if |calls| == 0 then m else MergeAll(Merge(m, calls[0].kwargs), calls[1..])
  }

  /** Every keyword name supplied by `calls`. */
  function Names<V>(calls: seq<Batch<V>>): set<string>
  {
    if |calls| == 0 then {} else calls[0].kwargs.Keys + Names(calls[1..])
  }

  /** Whether the `j`-th call of the chain (counting from 1) invokes the
      target, provided none before it did. */
  ghost predicate Fires<V>(t: Threshold, s: Accum<V>, calls: seq<Batch<V>>, j: nat)
    requires 1 <= j <= |calls|
  {
    calls[j - 1].IsEmpty() || Reached(t, |s.args| + |Flatten(calls[..j])|)
  }

  lemma {:induction false} FlattenConcat<V>(xs: seq<Batch<V>>, ys: seq<Batch<V>>)
    ensures Flatten(xs + ys) == Flatten(xs) + Flatten(ys)
    decreases |xs|
  {
    if |xs| == 0 {
      assert xs + ys == ys;
    } else {
      assert (xs + ys)[1..] == xs[1..] + ys;
      FlattenConcat(xs[1..], ys);
    }
  }

  lemma {:induction false} MergeAllConcat<V>(m: map<string, V>, xs: seq<Batch<V>>, ys: seq<Batch<V>>)
    ensures MergeAll(m, xs + ys) == MergeAll(MergeAll(m, xs), ys)
    decreases |xs|
  {
    if |xs| == 0 {
      assert xs + ys == ys;
    } else {
      assert (xs + ys)[1..] == xs[1..] + ys;
      MergeAllConcat(Merge(m, xs[0].kwargs), xs[1..], ys);
    }
  }

  /** Merging a chain into `m` is merging the chain's own keywords into `m`. */
  lemma {:induction false} MergeAllShift<V>(m: map<string, V>, calls: seq<Batch<V>>)
    ensures MergeAll(m, calls) == Merge(m, MergeAll(map[], calls))
    decreases |calls|
  {
    if |calls| > 0 {
      var k := calls[0].kwargs;
      var tail := MergeAll(map[], calls[1..]);
      MergeAllShift(Merge(m, k), calls[1..]);
      MergeAllShift(Merge(map[], k), calls[1..]);
      assert Merge(map[], k) == k;
      MergeAssociative(m, k, tail);
    }
  }

  lemma MergeAssociative<V>(a: map<string, V>, b: map<string, V>, c: map<string, V>)
    ensures Merge(Merge(a, b), c) == Merge(a, Merge(b, c))
  {
  }

  /** The names in the merged map are those of `m` and of the calls. */
  lemma {:induction false} MergeAllKeys<V>(m: map<string, V>, calls: seq<Batch<V>>)
    ensures MergeAll(m, calls).Keys == m.Keys + Names(calls)
    decreases |calls|
  {
    if |calls| > 0 {
      MergeAllKeys(Merge(m, calls[0].kwargs), calls[1..]);
    }
  }

  /** A name no call supplies keeps the value it had in `m`. */
  lemma {:induction false} MergeAllUntouched<V>(m: map<string, V>, calls: seq<Batch<V>>, name: string)
    requires name in m
    requires forall j :: 0 <= j < |calls| ==> name !in calls[j].kwargs
    ensures name in MergeAll(m, calls) && MergeAll(m, calls)[name] == m[name]
    decreases |calls|
  {
    if |calls| > 0 {
      MergeAllUntouched(Merge(m, calls[0].kwargs), calls[1..], name);
    }
  }

  /** For a name supplied again, the latest value wins. */
  lemma {:induction false} MergeAllLatestWins<V>(m: map<string, V>, calls: seq<Batch<V>>, i: nat, name: string)
    requires i < |calls| && name in calls[i].kwargs
    requires forall j :: i < j < |calls| ==> name !in calls[j].kwargs
    ensures name in MergeAll(m, calls) && MergeAll(m, calls)[name] == calls[i].kwargs[name]
    decreases |calls|
  {
    var m' := Merge(m, calls[0].kwargs);
    if i == 0 {
      MergeAllUntouched(m', calls[1..], name);
    } else {
      MergeAllLatestWins(m', calls[1..], i - 1, name);
    }
  }

  /** A prefix of a chain, seen from its first call. */
  lemma UnfoldPrefix<V>(m: map<string, V>, calls: seq<Batch<V>>, j: nat)
    requires 1 <= j <= |calls|
    ensures Flatten(calls[..j]) == calls[0].args + Flatten(calls[1..][..j - 1])
    ensures MergeAll(m, calls[..j]) == MergeAll(Merge(m, calls[0].kwargs), calls[1..][..j - 1])
  {
    assert calls[..j][0] == calls[0];
    assert calls[..j][1..] == calls[1..][..j - 1];
  }

  /** What it means for `o` to be how the chain `calls` ends from `s`. If it
      is still pending, its state holds every positional argument in order and
      every keyword merged in order, and no call fired. If the target was
      invoked, it was at the first call that fired, with exactly the arguments
      accumulated up to that call, and the calls after it are left over. */
  ghost predicate Describes<V>(t: Threshold, s: Accum<V>, calls: seq<Batch<V>>, o: Outcome<V>)
  {
    match o
    case Pending(state) =>
      && state == Accum(s.args + Flatten(calls), MergeAll(s.kwargs, calls))
      && forall j :: 1 <= j <= |calls| ==> !Fires(t, s, calls, j)
    case Invoked(args, kwargs, rest) =>
      var j := |calls| - |rest|;
      && 1 <= j <= |calls|
      && rest == calls[j..]
      && args == s.args + Flatten(calls[..j])
      && kwargs == MergeAll(s.kwargs, calls[..j])
      && Fires(t, s, calls, j)
      && forall i :: 1 <= i < j ==> !Fires(t, s, calls, i)
  }

  /** After a first call that did not fire, the rest of the chain sees the
      same prefixes, shifted by one call. */
  lemma ShiftAfterFirstCall<V>(t: Threshold, s: Accum<V>, calls: seq<Batch<V>>, next: Accum<V>, j: nat)
    requires 1 <= j < |calls|
    requires next == Accum(s.args + calls[0].args, Merge(s.kwargs, calls[0].kwargs))
    ensures Fires(t, next, calls[1..], j) == Fires(t, s, calls, j + 1)
    ensures next.args + Flatten(calls[1..][..j]) == s.args + Flatten(calls[..j + 1])
    ensures MergeAll(next.kwargs, calls[1..][..j]) == MergeAll(s.kwargs, calls[..j + 1])
  {
    UnfoldPrefix(s.kwargs, calls, j + 1);
  }

  /** A description of the chain after its first call, when that call did not
      fire, is a description of the whole chain. */
  lemma DescribesAfterFirstCall<V>(t: Threshold, s: Accum<V>, calls: seq<Batch<V>>, next: Accum<V>, o: Outcome<V>)
    requires |calls| > 0 && !Fires(t, s, calls, 1)
    requires next == Accum(s.args + calls[0].args, Merge(s.kwargs, calls[0].kwargs))
    requires Describes(t, next, calls[1..], o)
    ensures Describes(t, s, calls, o)
  {
    if o.Pending? {
      PendingAfterFirstCall(t, s, calls, next, o.state);
    } else {
      InvokedAfterFirstCall(t, s, calls, next, o.args, o.kwargs, o.rest);
    }
  }

  lemma PendingAfterFirstCall<V>(t: Threshold, s: Accum<V>, calls: seq<Batch<V>>, next: Accum<V>, state: Accum<V>)
    requires |calls| > 0 && !Fires(t, s, calls, 1)
    requires next == Accum(s.args + calls[0].args, Merge(s.kwargs, calls[0].kwargs))
    requires Describes(t, next, calls[1..], Pending(state))
    ensures Describes(t, s, calls, Pending(state))
  {
    UnfoldPrefix(s.kwargs, calls, |calls|);
    assert calls[..|calls|] == calls;
    assert calls[1..][..|calls| - 1] == calls[1..];
    forall j | 1 < j <= |calls| ensures !Fires(t, s, calls, j) {
      ShiftAfterFirstCall(t, s, calls, next, j - 1);
      assert !Fires(t, next, calls[1..], j - 1);
    }
  }

  lemma InvokedAfterFirstCall<V>(t: Threshold, s: Accum<V>, calls: seq<Batch<V>>, next: Accum<V>,
                                 args: seq<V>, kwargs: map<string, V>, rest: seq<Batch<V>>)
    requires |calls| > 0 && !Fires(t, s, calls, 1)
    requires next == Accum(s.args + calls[0].args, Merge(s.kwargs, calls[0].kwargs))
    requires Describes(t, next, calls[1..], Invoked(args, kwargs, rest))
    ensures Describes(t, s, calls, Invoked(args, kwargs, rest))
  {
    var j := |calls| - |rest|;
    assert calls[1..][j - 1..] == calls[j..];
    ShiftAfterFirstCall(t, s, calls, next, j - 1);
    forall i | 1 < i < j ensures !Fires(t, s, calls, i) {
      ShiftAfterFirstCall(t, s, calls, next, i - 1);
      assert !Fires(t, next, calls[1..], i - 1);
    }
  }

  /** Every chain ends as Describes says. */
  lemma {:induction false} ApplyOutcome<V>(t: Threshold, s: Accum<V>, calls: seq<Batch<V>>)
    ensures Describes(t, s, calls, Apply(t, s, calls))
    decreases |calls|
  {
    if |calls| > 0 {
      var c := calls[0];
      UnfoldPrefix(s.kwargs, calls, 1);
      assert calls[1..][..0] == [];
      match AccumCurry(t, s, c.args, c.kwargs)
      case Invoke(args, kwargs) =>
        assert Fires(t, s, calls, 1);
      case Continue(next) =>
        ApplyOutcome(t, next, calls[1..]);
        DescribesAfterFirstCall(t, s, calls, next, Apply(t, next, calls[1..]));
    }
  }

  /** Grouping invariance. From any accumulation, a chain of non-empty
      calls whose positional count first meets the threshold at its last call
      ends in the same invocation as supplying all of its arguments in one
      call, overshoot included. */
  lemma ChainSplitInvariance<V>(n: nat, s: Accum<V>, calls: seq<Batch<V>>)
    requires |calls| > 0
    requires forall i :: 0 <= i < |calls| ==> !calls[i].IsEmpty()
    requires |s.args| + |Flatten(calls[..|calls| - 1])| < n <= |s.args| + |Flatten(calls)|
    ensures Apply(Finite(n), s, calls) == Invoked(s.args + Flatten(calls), MergeAll(s.kwargs, calls), [])
    ensures Apply(Finite(n), s, [Batch(Flatten(calls), MergeAll(map[], calls))]) == Apply(Finite(n), s, calls)
  {
    var last := |calls| - 1;
    assert calls[..|calls|] == calls;
    forall i | 1 <= i <= last ensures !Fires(Finite(n), s, calls, i) {
      FlattenConcat(calls[..i], calls[i..last]);
      assert calls[..i] + calls[i..last] == calls[..last];
    }
    assert Fires(Finite(n), s, calls, |calls|);
    ApplyOutcome(Finite(n), s, calls);
    MergeAllShift(s.kwargs, calls);
  }

  /** Grouping invariance from a fresh wrapper call: splitting `n` positional
      arguments into successive calls that each supply at least one of them
      ends in the same invocation as supplying them all at once. */
  lemma GroupingInvariance<V>(n: nat, calls: seq<Batch<V>>)
    requires |calls| > 0
    requires forall i :: 0 <= i < |calls| ==> |calls[i].args| > 0
    requires |Flatten(calls)| == n
    ensures Apply(Finite(n), Fresh(), calls) == Invoked(Flatten(calls), MergeAll(map[], calls), [])
    ensures Apply(Finite(n), Fresh(), [Batch(Flatten(calls), MergeAll(map[], calls))]) == Apply(Finite(n), Fresh(), calls)
  {
    var last := |calls| - 1;
    FlattenConcat(calls[..last], calls[last..]);
    assert calls[..last] + calls[last..] == calls;
    assert Flatten(calls[last..]) == calls[last].args + Flatten(calls[last..][1..]);
    ChainSplitInvariance(n, Fresh(), calls);
  }

  /** A pending chain: no call fired. */
  lemma PendingNoneFired<V>(t: Threshold, s: Accum<V>, calls: seq<Batch<V>>)
    requires Apply(t, s, calls).Pending?
    ensures forall j :: 1 <= j <= |calls| ==> !Fires(t, s, calls, j)
  {
    ApplyOutcome(t, s, calls);
  }

  /** An invoked chain: the invoking call is the first that fired. */
  lemma InvokedFirstFired<V>(t: Threshold, s: Accum<V>, calls: seq<Batch<V>>)
    requires Apply(t, s, calls).Invoked?
    ensures 1 <= |calls| - |Apply(t, s, calls).rest| <= |calls|
    ensures Fires(t, s, calls, |calls| - |Apply(t, s, calls).rest|)
    ensures forall i :: 1 <= i < |calls| - |Apply(t, s, calls).rest| ==> !Fires(t, s, calls, i)
  {
    ApplyOutcome(t, s, calls);
  }

  /** With an unbounded threshold only an empty call invokes the target, and
      it is the first empty call of the chain that does. */
  lemma UnboundedWaitsForEmptyCall<V>(s: Accum<V>, calls: seq<Batch<V>>)
    ensures match Apply(Unbounded, s, calls)
            case Pending(_) => forall i :: 0 <= i < |calls| ==> !calls[i].IsEmpty()
            case Invoked(_, _, rest) =>
              var i := |calls| - |rest| - 1;
              && 0 <= i && calls[i].IsEmpty()
              && forall h :: 0 <= h < i ==> !calls[h].IsEmpty()
  {
    var o := Apply(Unbounded, s, calls);
    if o.Pending? {
      PendingNoneFired(Unbounded, s, calls);
      forall i | 0 <= i < |calls| ensures !calls[i].IsEmpty() {
        assert !Fires(Unbounded, s, calls, i + 1);
      }
    } else {
      InvokedFirstFired(Unbounded, s, calls);
      var i := |calls| - |o.rest| - 1;
      assert Fires(Unbounded, s, calls, i + 1);
      forall h | 0 <= h < i ensures !calls[h].IsEmpty() {
        assert !Fires(Unbounded, s, calls, h + 1);
      }
    }
  }

  /** Keyword arguments never count toward the threshold: two chains whose
      calls supply the same numbers of positional arguments, and are empty
      or not alike, invoke the target at the same call, whatever keywords
      and whatever values they carry. */
  lemma {:induction false} KeywordsNeverCount<V>(t: Threshold, s1: Accum<V>, s2: Accum<V>,
                                                 calls1: seq<Batch<V>>, calls2: seq<Batch<V>>)
    requires |s1.args| == |s2.args| && |calls1| == |calls2|
    requires forall i :: 0 <= i < |calls1| ==>
               |calls1[i].args| == |calls2[i].args| && calls1[i].IsEmpty() == calls2[i].IsEmpty()
    ensures Apply(t, s1, calls1).Invoked? <==> Apply(t, s2, calls2).Invoked?
    ensures Apply(t, s1, calls1).Invoked? ==> |Apply(t, s1, calls1).rest| == |Apply(t, s2, calls2).rest|
    decreases |calls1|
  {
    if |calls1| > 0 {
      var r1 := AccumCurry(t, s1, calls1[0].args, calls1[0].kwargs);
      var r2 := AccumCurry(t, s2, calls2[0].args, calls2[0].kwargs);
      if r1.Continue? {
        KeywordsNeverCount(t, r1.state, r2.state, calls1[1..], calls2[1..]);
      }
    }
  }

  /** The keywords an invocation receives are those merged up to the call
      that fired. */
  lemma InvokedKeywords<V>(t: Threshold, s: Accum<V>, calls: seq<Batch<V>>)
    requires Apply(t, s, calls).Invoked?
    ensures |Apply(t, s, calls).rest| < |calls|
    ensures Apply(t, s, calls).kwargs == MergeAll(s.kwargs, calls[..|calls| - |Apply(t, s, calls).rest|])
  {
    ApplyOutcome(t, s, calls);
  }

  /** With a fresh state per chain, the keyword names the target receives are
      exactly those supplied by the calls of this chain up to the invocation;
      nothing from any other chain reaches it. */
  lemma ChainKeywordsFromOwnCalls<V>(t: Threshold, calls: seq<Batch<V>>)
    ensures match Apply(t, Fresh(), calls)
            case Pending(_) => true
            case Invoked(_, kwargs, rest) => |rest| < |calls| && kwargs.Keys == Names(calls[..|calls| - |rest|])
  {
    var s: Accum<V> := Fresh();
    var o := Apply(t, s, calls);
    if o.Invoked? {
      InvokedKeywords(t, s, calls);
      MergeAllKeys(s.kwargs, calls[..|calls| - |o.rest|]);
    }
  }
}
