/**
 * The documentation examples of curry.py as statements about the model. The
 * targets there (`max`, an `add`, a summing `add_all`) are not modelled; each
 * statement gives the arguments the target is invoked with instead.
 */
module DocTests {
  import opened Accumulator
  import opened ArityInspector
  import opened SharedKeywords

  function NoKeywords(): map<string, int>
  {
    map[]
  }

  /** `curry_n(4, max)(2)(3, 5)(4)` invokes `max(2, 3, 5, 4)`: the second call
      brings the count to 3 and the third to 4. */
  lemma CurriedMax()
    ensures Apply(Finite(4), Fresh(), [Batch([2], NoKeywords()), Batch([3, 5], NoKeywords()), Batch([4], NoKeywords())])
            == Invoked([2, 3, 5, 4], NoKeywords(), [])
  {
  }

  /** `curry_n(4, max)(2)(3, 5, 4, 1)`: the positional count jumps from 1 to 5
      in one call, past the threshold, and the target is invoked there with
      all five arguments. */
  lemma CurriedMaxOvershoot()
    ensures Apply(Finite(4), Fresh(), [Batch([2], NoKeywords()), Batch([3, 5, 4, 1], NoKeywords())])
            == Invoked([2, 3, 5, 4, 1], NoKeywords(), [])
  {
  }

  /** `@curry_n(2) def add(x, y)`; `add(3)(4)` invokes `add(3, 4)`. */
  lemma CurryNAdd()
    ensures Apply(Finite(2), Fresh(), [Batch([3], NoKeywords()), Batch([4], NoKeywords())])
            == Invoked([3, 4], NoKeywords(), [])
  {
  }

  /** `@curried def add(x, y, z=0)` has threshold 2; `add(4)(5)` invokes
      `add(4, 5)` and `add(4, z=3)(5)` invokes `add(4, 5, z=3)`: the keyword
      does not count toward the threshold. */
  lemma CurriedAddWithDefault()
    ensures CurriedThreshold(Signature(3, 1, false)) == Finite(2)
    ensures Apply(Finite(2), Fresh(), [Batch([4], NoKeywords()), Batch([5], NoKeywords())])
            == Invoked([4, 5], NoKeywords(), [])
    ensures Apply(Finite(2), Fresh(), [Batch([4], map["z" := 3]), Batch([5], NoKeywords())])
            == Invoked([4, 5], map["z" := 3], [])
  {
  }

  /** `@curried def add_all(*nums)` is unbounded; `add_all(1)(2)(3)(4)()`
      invokes `add_all(1, 2, 3, 4)` at the empty call. */
  lemma CurriedAddAll()
    ensures CurriedThreshold(Signature(0, 0, true)) == Unbounded
    ensures Apply(Unbounded, Fresh(),
                  [Batch([1], NoKeywords()), Batch([2], NoKeywords()), Batch([3], NoKeywords()),
                   Batch([4], NoKeywords()), Batch([], NoKeywords())])
            == Invoked([1, 2, 3, 4], NoKeywords(), [])
  {
  }

  /** The same `add(x, y, z=0)` through the wrapper as the code builds it.
      Run in the documentation's order, `add(4)(5)` and then `add(4, z=3)(5)`
      invoke the target as documented. A further `add(4)(5)` on the same
      wrapper then invokes `add(4, 5, z=3)`: the `z` of the earlier chain is
      still in the shared dictionary. Each chain on its own, with a fresh
      accumulation, invokes `add(4, 5)` (CurriedAddWithDefault). */
  method SharedKeywordsLeak() returns (first: Reply<int>, second: Reply<int>, third: Reply<int>)
    ensures first == Called([4, 5], NoKeywords())
    ensures second == Called([4, 5], map["z" := 3])
    ensures third == Called([4, 5], map["z" := 3])
  {
    var add := Curried<int>(Signature(3, 1, false));
    assert add.threshold == Finite(2);
    var z := map["z" := 3];
    assert Merge(NoKeywords(), NoKeywords()) == NoKeywords();
    assert Merge(NoKeywords(), z) == z && Merge(z, NoKeywords()) == z;

    var r := add.Call([4], NoKeywords());
    assert r.Continued? && r.next.accumArgs == [4];
    first := r.next.Call([5], NoKeywords());
    assert add.defaultKwargs.entries == NoKeywords();

    r := add.Call([4], z);
    assert r.Continued? && r.next.accumArgs == [4];
    second := r.next.Call([5], NoKeywords());
    assert add.defaultKwargs.entries == z;

    r := add.Call([4], NoKeywords());
    assert r.Continued? && r.next.accumArgs == [4];
    third := r.next.Call([5], NoKeywords());
  }
}
