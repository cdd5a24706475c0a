/** A lazy generator of `n` evenly spaced numbers from `a` to `b` inclusive.
    The element type of the Rust `linspace` (src/linspace.rs) is a generic
    float-like type; here it is `real`, so every arithmetic fact below is exact. */
module Linspace {

  /** The end-of-sequence marker: `None` once the generator is exhausted. */
  datatype Option<T> = None | Some(value: T)

  /** The step `(b - a) / (n - 1)`, where the divisor is computed over the
      number type (`n` embedded into `real`, minus one), not as an unsigned
      `n - 1`: for `n == 0` it divides by `-1`. For `n == 1` the Rust code
      divides by zero; since that step is never applied (see
      `StepIrrelevantWhenShort`), the model picks `0.0` there. */
  function Step(a: real, b: real, n: nat): (r: real)
    ensures n != 1 ==> r * ((n as real) - 1.0) == b - a
    ensures n == 0 ==> r == a - b
  {
    if n == 1 then 0.0 else (b - a) / ((n as real) - 1.0)
  }

  /** The values a generator in state (`start`, `step`, `len`) still yields,
      in order: `start`, then whatever the advanced state yields. */
  function Emitted(start: real, step: real, len: nat): (s: seq<real>)
    ensures |s| == len
    ensures len > 0 ==> s[0] == start
    decreases len
  {
    if len == 0 then [] else [start] + Emitted(start + step, step, len - 1)
  }

  /** Closed form: the k-th yielded value is `start + k * step`. */
  lemma {:induction false} EmittedAt(start: real, step: real, len: nat, k: nat)
    requires k < len
    ensures Emitted(start, step, len)[k] == start + (k as real) * step
    decreases k
  {
    if k > 0 {
      EmittedAt(start + step, step, len - 1, k - 1);
      assert Emitted(start, step, len)[k] == Emitted(start + step, step, len - 1)[k - 1];
    }
  }

  /** Consecutive yielded values differ by exactly `step`. */
  lemma ConsecutiveDifference(start: real, step: real, len: nat, i: nat)
    requires i + 1 < len
    ensures Emitted(start, step, len)[i + 1] - Emitted(start, step, len)[i] == step
  {
    EmittedAt(start, step, len, i);
    EmittedAt(start, step, len, i + 1);
  }

  /** What `linspace(a, b, n)` yields when drained. */
  function Linspaced(a: real, b: real, n: nat): seq<real>
  {
    Emitted(a, Step(a, b, n), n)
  }

  /** For `n >= 2` the first value is `a` and the last is `b`. The
      documentation of `linspace` states this for every `n`, but for `n == 1`
      the only value is `a` (so `b` is never reached when `a != b`) and for
      `n == 0` nothing is yielded; hence `n >= 2` is required here. */
  lemma Endpoints(a: real, b: real, n: nat)
    requires n >= 2
    ensures |Linspaced(a, b, n)| == n
    ensures Linspaced(a, b, n)[0] == a
    ensures Linspaced(a, b, n)[n - 1] == b
  {
    var step := Step(a, b, n);
    EmittedAt(a, step, n, n - 1);
    assert ((n - 1) as real) == (n as real) - 1.0;
  }

  /** Every value of `linspace(a, b, n)` lies on the line from `a` to `b`:
      the k-th is `a + k * (b - a) / (n - 1)`. */
  lemma LinspacedAt(a: real, b: real, n: nat, k: nat)
    requires k < n
    ensures Linspaced(a, b, n)[k] == a + (k as real) * Step(a, b, n)
    ensures n >= 2 ==> Linspaced(a, b, n)[k] == a + (k as real) * (b - a) / ((n as real) - 1.0)
  {
    EmittedAt(a, Step(a, b, n), n, k);
  }

  /** With fewer than two elements the step is never applied: the yielded
      sequence is `[]` or `[start]` whatever the step (this is why the
      division by zero at `n == 1` is harmless). */
  lemma StepIrrelevantWhenShort(start: real, step1: real, step2: real, len: nat)
    requires len <= 1
    ensures Emitted(start, step1, len) == Emitted(start, step2, len)
    ensures Emitted(start, step1, len) == if len == 0 then [] else [start]
  {
  }

  /** The worked example of the documentation:
      `linspace(0., 1., 5)` yields `[0., 0.25, 0.5, 0.75, 1.0]`. */
  lemma DocExample()
    ensures Linspaced(0.0, 1.0, 5) == [0.0, 0.25, 0.5, 0.75, 1.0]
  {
  }

  /** Equal endpoints give a constant sequence: `linspace(5., 5., 3)` yields
      `[5., 5., 5.]`. */
  lemma EqualEndpointsExample()
    ensures Linspaced(5.0, 5.0, 3) == [5.0, 5.0, 5.0]
  {
  }

  /** The generator state: the next value to yield, the constant increment
      and the number of values left. */
  class Linspace {
    var start: real
    var step: real
    var len: nat

    /** The values this generator will still yield. */
    ghost function Remaining(): seq<real>
      reads this
    {
      Emitted(start, step, len)
    }

    /** `linspace(a, b, n)`: start at `a`, step `(b - a) / (n - 1)`, `n` values
        left. No check on `n` is made. */
    constructor (a: real, b: real, n: nat)
      ensures start == a && step == Step(a, b, n) && len == n
      ensures Remaining() == Linspaced(a, b, n)
    {
      start := a;
      step := Step(a, b, n);
      len := n;
    }

    /** Yields the current value and advances, or reports exhaustion and
        changes nothing. */
    method Next() returns (r: Option<real>)
      modifies this
      ensures step == old(step)
      ensures old(len) == 0 ==> r == None && start == old(start) && len == 0
      ensures old(len) > 0 ==>
        r == Some(old(start)) && len == old(len) - 1 && start == old(start) + step
      ensures old(Remaining()) == [] ==> r == None && Remaining() == []
      ensures old(Remaining()) != [] ==>
        r == Some(old(Remaining())[0]) && Remaining() == old(Remaining())[1..]
    {
      if len == 0 {
        r := None;
      } else {
        len := len - 1;
        var elt := start;
        start := start + step;
        r := Some(elt);
      }
    }

    /** The size hint: lower and upper bound are both the exact number of
        values still to come. */
    function SizeHint(): (r: (nat, Option<nat>))
      reads this
      ensures r.0 == |Remaining()|
      ensures r.1 == Some(|Remaining()|)
    {
      (len, Some(len))
    }
  }

  /** Builds `linspace(a, b, n)` and pulls from it until it reports the end,
      then pulls twice more. Yields exactly `n` values, the k-th being
      `a + k * step`, the last `b` when `n >= 2`; once exhausted it stays
      exhausted. */
  method Drain(a: real, b: real, n: nat) returns (out: seq<real>, after1: Option<real>, after2: Option<real>)
    ensures out == Linspaced(a, b, n)
    ensures |out| == n
    ensures forall k :: 0 <= k < n ==> out[k] == a + (k as real) * Step(a, b, n)
    ensures n >= 2 ==> out[0] == a && out[n - 1] == b
    ensures after1 == None && after2 == None
  {
    var it := new Linspace(a, b, n);
    ghost var step := it.step;
    out := [];
    var r := it.Next();
    while r.Some?
      invariant it.step == step == Step(a, b, n)
      invariant r.None? ==> it.len == 0
      invariant |out| + it.len + (if r.Some? then 1 else 0) == n
      invariant out + (if r.Some? then [r.value] else []) + it.Remaining() == Linspaced(a, b, n)
      decreases it.len + (if r.Some? then 1 else 0)
    {
      out := out + [r.value];
      r := it.Next();
    }
    after1 := it.Next();
    after2 := it.Next();
    forall k | 0 <= k < n ensures out[k] == a + (k as real) * step {
      EmittedAt(a, step, n, k);
    }
    if n >= 2 {
      Endpoints(a, b, n);
    }
  }
}
