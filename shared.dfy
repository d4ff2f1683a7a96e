/**
 * The wrapper as the code builds it. `curry_func` defines `accum_curry` with
 * the default argument `accum_kwargs={}`; that dictionary is created once,
 * when `curry_func` runs, and is then the one `accum_kwargs` of every
 * top-level call of the wrapper and of every continuation made from it. Each
 * call updates it in place. Positional arguments, in contrast, are an
 * immutable tuple that each continuation captures.
 *
 * Here that dictionary is a KeywordDict object, the wrapper holds it as its
 * default, and each Continuation holds the reference it was given. Every step
 * agrees with Accumulator.AccumCurry applied to whatever the dictionary holds
 * at the time of the call.
 */
module SharedKeywords {
  import opened Accumulator
  import opened ArityInspector

  /** A mutable keyword dictionary. */
  class KeywordDict<V> {
    var entries: map<string, V>

    /** The empty dictionary literal `{}`. */
    constructor ()
      ensures entries == map[]
    {
      entries := map[];
    }

    /** `dict.update`, in place. */
    method Update(update: map<string, V>)
      modifies this
      ensures entries == Merge(old(entries), update)
    {
      entries := Merge(entries, update);
    }
  }

  /** What a call returns: the target invoked on the arguments it was handed
      (the keyword dictionary is unpacked, so the target sees its contents at
      that moment), or a continuation to call next. */
  datatype Reply<V> = Called(args: seq<V>, kwargs: map<string, V>) | Continued(next: Continuation<V>)

  /** The callable `curry_n(n, func)` returns: `curried_func` together with
      its `accum_curry` and that function's default dictionary. */
  class Wrapper<V> {
    const threshold: Threshold
    const defaultKwargs: KeywordDict<V>

    /** `curry_func(func)`: a new `accum_curry` and a new default dictionary. */
    constructor (threshold: Threshold)
      ensures this.threshold == threshold
      ensures fresh(defaultKwargs) && defaultKwargs.entries == map[]
    {
      this.threshold := threshold;
      defaultKwargs := new KeywordDict();
    }

    /** Whether `r`, returned while `dict` was the accumulation's dictionary,
        is the reply Accumulator.AccumCurry describes by `step`. */
    ghost predicate Mirrors(r: Reply<V>, step: StepResult<V>, dict: KeywordDict<V>)
      reads dict
    {
      match r
      case Called(args, kwargs) => step == Invoke(args, kwargs)
      case Continued(c) =>
        && c.owner == this && c.accumKwargs == dict
        && step == Continue(Accum(c.accumArgs, dict.entries))
    }

    /** `accum_curry(args, kwargs, accum_args, accum_kwargs)`: appends the
        positional batch, updates the dictionary in place, then invokes the
        target or returns a continuation that captures the new positional
        tuple and the same dictionary. */
    method AccumCurry(args: seq<V>, kwargs: map<string, V>, accumArgs: seq<V>, accumKwargs: KeywordDict<V>)
      returns (r: Reply<V>)
      modifies accumKwargs
      ensures accumKwargs.entries == Merge(old(accumKwargs.entries), kwargs)
      ensures Mirrors(r, Accumulator.AccumCurry(threshold, Accum(accumArgs, old(accumKwargs.entries)), args, kwargs), accumKwargs)
      ensures r.Continued? ==> fresh(r.next)
    {
      var newArgs := accumArgs + args;
      accumKwargs.Update(kwargs);
      if (|args| == 0 && |kwargs| == 0) || Reached(threshold, |newArgs|) {
        r := Called(newArgs, accumKwargs.entries);
      } else {
        var c := new Continuation(this, newArgs, accumKwargs);
        r := Continued(c);
      }
    }

    /** `curried_func(*args, **kwargs)`: a top-level call starts from no
        positional arguments but from the default dictionary, as left by every
        earlier call of this wrapper and of its continuations. */
    method Call(args: seq<V>, kwargs: map<string, V>) returns (r: Reply<V>)
      modifies defaultKwargs
      ensures defaultKwargs.entries == Merge(old(defaultKwargs.entries), kwargs)
      ensures Mirrors(r, Accumulator.AccumCurry(threshold, Accum([], old(defaultKwargs.entries)), args, kwargs), defaultKwargs)
      ensures r.Continued? ==> fresh(r.next)
    {
      r := AccumCurry(args, kwargs, [], defaultKwargs);
    }
  }

  /** The continuation lambda: it captured the positional tuple and the
      dictionary of the call that made it. */
  class Continuation<V> {
    const owner: Wrapper<V>
    const accumArgs: seq<V>
    const accumKwargs: KeywordDict<V>

    constructor (owner: Wrapper<V>, accumArgs: seq<V>, accumKwargs: KeywordDict<V>)
      ensures this.owner == owner && this.accumArgs == accumArgs && this.accumKwargs == accumKwargs
    {
      this.owner := owner;
      this.accumArgs := accumArgs;
      this.accumKwargs := accumKwargs;
    }

    /** `lambda *a, **kw: accum_curry(a, kw, accum_args, accum_kwargs)`. */
    method Call(args: seq<V>, kwargs: map<string, V>) returns (r: Reply<V>)
      modifies accumKwargs
      ensures accumKwargs.entries == Merge(old(accumKwargs.entries), kwargs)
      ensures owner.Mirrors(r, Accumulator.AccumCurry(owner.threshold, Accum(accumArgs, old(accumKwargs.entries)), args, kwargs), accumKwargs)
      ensures r.Continued? ==> fresh(r.next)
    {
      r := owner.AccumCurry(args, kwargs, accumArgs, accumKwargs);
    }
  }

  /** `curry_n(n, func)`. */
  method CurryN<V>(n: nat) returns (w: Wrapper<V>)
    ensures fresh(w) && fresh(w.defaultKwargs)
    ensures w.threshold == Finite(n) && w.defaultKwargs.entries == map[]
  {
    w := new Wrapper(Finite(n));
  }

  /** `curried(func)`: `curry_n` with the threshold read off the signature. */
  method Curried<V>(sig: Signature) returns (w: Wrapper<V>)
    requires sig.WellFormed()
    ensures fresh(w) && fresh(w.defaultKwargs)
    ensures w.threshold == CurriedThreshold(sig) && w.defaultKwargs.entries == map[]
  {
    w := new Wrapper(CurriedThreshold(sig));
  }
}
