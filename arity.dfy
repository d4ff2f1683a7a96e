/**
 * The arity inspector behind `curried`: the wrapper's threshold is the number
 * of declared parameters without a default, or unbounded when the target
 * declares `*args`. The parameter list is given as a record rather than
 * found by introspection.
 */
module ArityInspector {
  import opened Accumulator

  /** The parts of a target's argument specification that `curried` reads:
      how many named positional parameters it declares, how many of them carry
      a default value (none and an empty tuple of defaults both count as 0),
      and whether it declares a variadic `*args` parameter. */
  datatype Signature = Signature(params: nat, defaults: nat, hasVarargs: bool)
  {
    /** Defaults belong to trailing declared parameters, so there are never
        more of them than parameters. */
    predicate WellFormed()
    {
      defaults <= params
    }
  }

  /** The threshold `curried` hands to `curry_n`. */
  function CurriedThreshold(sig: Signature): (t: Threshold)
    requires sig.WellFormed()
    // variadic targets never reach their threshold on count alone
    ensures t.Unbounded? <==> sig.hasVarargs
    // otherwise the threshold is the number of parameters without a default
    ensures t.Finite? ==> t.n + sig.defaults == sig.params
  {
    var required := sig.params - sig.defaults;
    if sig.hasVarargs then Unbounded else Finite(required)
  }

  /** A wrapper made by `curried` invokes its target on the first call that
      brings the positional count up to the number of parameters without a
      default, or on the first empty call, whichever comes first. A variadic
      target is invoked by an empty call only. */
  lemma CurriedInvokesWhenRequiredSupplied<V>(sig: Signature, calls: seq<Batch<V>>, j: nat)
    requires sig.WellFormed() && 1 <= j <= |calls|
    ensures Fires(CurriedThreshold(sig), Fresh(), calls, j) <==>
              calls[j - 1].IsEmpty()
              || (!sig.hasVarargs && |Flatten(calls[..j])| >= sig.params - sig.defaults)
  {
  }

  /** A variadic target is invoked only by, and at, the first empty call of a
      chain. */
  lemma VariadicNeedsEmptyCall<V>(sig: Signature, calls: seq<Batch<V>>)
    requires sig.WellFormed() && sig.hasVarargs
    ensures Apply(CurriedThreshold(sig), Fresh(), calls).Invoked? <==>
              exists i :: 0 <= i < |calls| && calls[i].IsEmpty()
  {
    UnboundedWaitsForEmptyCall(Fresh(), calls);
  }
}
