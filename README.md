# curry.py in Dafny

A model of the currying utility `curry.py`, with proofs about it.

- `curry_n(n, func)` wraps `func`. Each call of the wrapper, or of a callable it returned, supplies a batch of positional arguments and a batch of keyword arguments.
- These accumulate. Positional arguments are appended in order. Keyword arguments are merged so that the latest value for a name wins.
- The target is invoked with everything accumulated as soon as a call supplies nothing at all, or as soon as the accumulated positional count is at least `n`. Until then, each call returns a continuation.
- `curried(func)` does the same with `n` read off the target's signature. `n` is the number of parameters without a default, or infinity when the target declares `*args`.

The model has four modules:

- `Accumulator` (accumulator.dfy) is the pure model. A wrapper is its `Threshold` (`Finite(n)` or `Unbounded`), and one call is the function `AccumCurry` from an accumulation `Accum(args, kwargs)` to `Invoke(args, kwargs)` or `Continue(state)`. `Apply` feeds a chain of calls (`Batch`es) to it. Every chain starts from its own fresh accumulation (`Fresh()`). The lemmas characterise how any chain ends (`ApplyOutcome`) and derive the documented properties from that.
- `ArityInspector` (arity.dfy) gives the threshold `curried` computes from a `Signature` record: parameter count, default count, and a has-varargs flag.
- `SharedKeywords` (shared.dfy) is the wrapper as the code builds it, with objects:
  - The default `accum_kwargs={}` of `accum_curry` is evaluated once per `curry_func(func)` call. It is a `KeywordDict` object that the `Wrapper` holds.
  - Every top-level call and every `Continuation` updates that same dictionary in place.
  - The contract of each step ties its reply to `Accumulator.AccumCurry`, applied to whatever the dictionary holds at that moment.
- `DocTests` (doctests.dfy) restates the documentation examples. It also shows, on the shared-dictionary model, a keyword from one chain reaching a later, unrelated chain.

The docstring of `curry_n` says keyword arguments accumulate until the target is evaluated, so each top-level call chain would start afresh. The code does not do this for keyword arguments: they survive into later chains of the same wrapper. The pure `Accumulator` model gives each chain a fresh accumulation, and `SharedKeywords` follows the code. The difference is recorded under Findings.

## Model

| member | source | states |
|---|---|---|
| `Accumulator.Merge` | curry.py:24 | `dict.update`: the result has the names of both maps; an updated name takes the new value; every other name keeps its old value |
| `Accumulator.AccumCurry` | curry.py:22-29 | one call: the accumulated positional sequence is the old one followed by this call's arguments; the keywords are the old ones merged with this call's; the target is invoked exactly when the call supplied nothing or the new positional count meets the threshold, otherwise a continuation holds exactly the updated accumulation |
| `Accumulator.ApplyOutcome` | curry.py:22-33 | any chain of calls either stays pending with every argument accumulated in order and no call having fired, or invokes the target at the first call that is empty or brings the count to the threshold, with exactly the arguments accumulated up to that call, leaving the later calls over |
| `Accumulator.DescribesAfterFirstCall` | curry.py:28-29 | a continuation resumes the chain: how the rest of the chain ends from the continuation's state is how the whole chain ends |
| `Accumulator.FlattenConcat` | curry.py:23 | positional accumulation over two successive parts of a chain is the concatenation of both parts |
| `Accumulator.MergeAllConcat` | curry.py:24 | keyword accumulation over two successive parts of a chain is merging the first part, then the second |
| `Accumulator.MergeAllShift` | curry.py:24 | merging a chain into a map equals merging the chain's own merged keywords into it |
| `Accumulator.MergeAllKeys` | curry.py:24 | after a chain, the keyword names are those already present plus every name some call supplied |
| `Accumulator.MergeAllUntouched` | curry.py:24 | a name that no call of the chain supplies keeps its earlier value |
| `Accumulator.MergeAllLatestWins` | curry.py:24 | a name supplied several times has the value given by the last call that supplied it |
| `Accumulator.ChainSplitInvariance` | curry.py:22-29 | from any accumulation, a chain of non-empty calls whose count first meets the threshold at its last call, overshoot included, invokes the target with all its arguments in order; supplying them in one call gives the same outcome |
| `Accumulator.GroupingInvariance` | curry.py:10-19 | from a fresh wrapper, any split of `n` positional arguments into calls that each supply at least one ends in the same invocation as supplying all `n` at once |
| `Accumulator.UnboundedWaitsForEmptyCall` | curry.py:26-27 | with an unbounded threshold, a chain invokes the target if and only if it contains an empty call, and it does so at the first one |
| `Accumulator.KeywordsNeverCount` | curry.py:26 | only positional counts and emptiness decide when the target is invoked: two chains that agree on them invoke at the same call, whatever keywords and values they carry |
| `Accumulator.ChainKeywordsFromOwnCalls` | curry.py:22-24 | with a fresh accumulation per chain, the keyword names the target receives are exactly those supplied by the chain's own calls up to the invocation |
| `ArityInspector.CurriedThreshold` | curry.py:64-67 | the threshold is unbounded exactly when the signature has `*args`; otherwise it is the number of parameters without a default |
| `ArityInspector.CurriedInvokesWhenRequiredSupplied` | curry.py:64-69 | a `curried` wrapper's call fires when it is empty, or when the target has no `*args` and the count reaches the number of required parameters |
| `ArityInspector.VariadicNeedsEmptyCall` | curry.py:54-67 | a `curried` variadic target is invoked by a chain if and only if the chain contains an empty call |
| `SharedKeywords.KeywordDict.constructor` | curry.py:22 | the default dictionary starts empty |
| `SharedKeywords.KeywordDict.Update` | curry.py:24 | updates the dictionary in place, merged as `Accumulator.Merge` states |
| `SharedKeywords.Wrapper.constructor` | curry.py:21-22 | `curry_func`: a wrapper with the given threshold and its own new, empty default dictionary |
| `SharedKeywords.Wrapper.AccumCurry` | curry.py:22-29 | updates the dictionary it was handed; the reply is the invocation or continuation `Accumulator.AccumCurry` gives for the dictionary's prior contents; a continuation captures the new positional sequence and the same dictionary object |
| `SharedKeywords.Wrapper.Call` | curry.py:31-33 | a top-level call starts with no positional arguments but with the wrapper's default dictionary as every earlier call left it |
| `SharedKeywords.Continuation.constructor` | curry.py:29 | a continuation holds its wrapper, the accumulated positional sequence and the dictionary reference |
| `SharedKeywords.Continuation.Call` | curry.py:29 | calling a continuation is a step from its captured positional sequence on its captured dictionary |
| `SharedKeywords.CurryN` | curry.py:35-37 | `curry_n(n, func)` gives a new wrapper with threshold `Finite(n)` and an empty dictionary |
| `SharedKeywords.Curried` | curry.py:64-69 | `curried` gives a new wrapper whose threshold is read off the signature |
| `DocTests.CurriedMax` | curry.py:10-12 | `curry_n(4, max)(2)(3, 5)(4)` invokes the target on `2, 3, 5, 4` |
| `DocTests.CurriedMaxOvershoot` | curry.py:26 | a call that takes the count past the threshold invokes the target at once, with every argument |
| `DocTests.CurryNAdd` | curry.py:13-19 | `curry_n(2)` on `add`: `add(3)(4)` invokes the target on `3, 4` |
| `DocTests.CurriedAddWithDefault` | curry.py:45-52 | `curried` on `add(x, y, z=0)` has threshold 2; `add(4)(5)` invokes on `4, 5`; `add(4, z=3)(5)` invokes on `4, 5` with `z=3` |
| `DocTests.CurriedAddAll` | curry.py:54-62 | `curried` on `add_all(*nums)` is unbounded; `add_all(1)(2)(3)(4)()` invokes on `1, 2, 3, 4` at the empty call |
| `DocTests.SharedKeywordsLeak` | curry.py:22-24 | on one wrapper built as the code builds it, `add(4)(5)`, then `add(4, z=3)(5)`, then `add(4)(5)` make the last call receive `z=3` from the previous chain |

## Findings

| source | as written | input that shows it | evidently intended | confidence | as-written member | corrected member |
|---|---|---|---|---|---|---|
| curry.py:22 | the keyword accumulator is the default `accum_kwargs={}`. It is evaluated once per wrapper and updated in place by every call, so keywords survive from one call chain into every later chain and branch of the same wrapper | with `@curried def add(x, y, z=0)`: `add(4, z=3)(5)` and then `add(4)(5)` make the second chain invoke `add(4, 5, z=3)`, which is 12 where 9 is documented | the docstring says keyword arguments accumulate "until func is evaluated". Each top-level chain should start from an empty keyword map | not executed; high | `DocTests.SharedKeywordsLeak` | `Accumulator.ChainKeywordsFromOwnCalls` |

## Left out

- Decorator dispatch: `curry_n(n)` without a target returns `curry_func` to be applied later (curry.py:37). `CurryN` models the wrapper once the target is given.
- `functools.wraps` only copies metadata (curry.py:1, 29, 31), so it is not modelled.
- The target is opaque. The model states only the arguments it is invoked with. Its result, its own errors and its argument-mismatch errors are not modelled, and neither is anything applied to its result (`Apply` hands back those calls as `rest`).
- The sample targets of the documentation examples (`max`, the `add`s, `reduce` in `add_all`) are not modelled. The examples state the invocation arguments instead of the numeric results.
- `inspect.getargspec` introspection (curry.py:64) is replaced by the `Signature` record given as input. The introspection error for targets whose signature cannot be read is not modelled.
- `CurriedThreshold` requires `defaults <= params`. An inspected Python signature always has this, because defaults belong to trailing declared parameters.
- The float `inf` threshold (curry.py:67) is the `Unbounded` constructor. Float arithmetic is not modelled.
- `curry_n` with a negative or non-integer `n` is not modelled: `Threshold` holds a `nat`.
- Positional and keyword values are of one type parameter `V`. Python's dynamic typing of arguments is not modelled.
- The `doctest` harness (curry.py:72-74) is test glue.
