# Linspace — evenly spaced lazy sequence, modelled in Dafny

This project models `linspace(a, b, n)` from `src/linspace.rs`. It is a lazy iterator
that yields `n` evenly spaced values. For `n >= 2` the first is `a` and the last is `b`. The generator
holds three fields, `start`, `step` and `len`. `next` yields `start`, decrements `len` and
adds `step` to `start` until `len` reaches zero, then yields `None` forever. `size_hint`
reports the exact remaining count.

The generic float-like element type `F` is modelled as Dafny `real`, so the endpoint
property holds exactly. `usize` is modelled as `nat`. `len` is decremented only when it
is positive, so it cannot wrap.

Everything lives in `linspace.dfy`, module `Linspace`:
- `Step` is the step computation.
- `Emitted(start, step, len)` is the sequence that a generator state still yields.
- `Linspaced(a, b, n)` is what a fresh `linspace(a, b, n)` yields.
- class `Linspace` is the iterator state. Its constructor is `linspace`; it has the
  methods `Next` and `SizeHint`.
- `Drain` is a consumer loop. It pulls from a fresh generator until `None`, then pulls
  twice more.

The divisor is `n.to_float() - 1usize.to_float()` (`src/linspace.rs:58-59`). It is
computed in the number type, not as an unsigned `n - 1`. For `n == 0` it is `-1.0`, with
no underflow. For `n == 1` the code divides by zero.
The model gives the step the value `0.0` there. `StepIrrelevantWhenShort` proves that
the yielded values do not depend on the step when `n <= 1`.

## Model

| member | source | states |
|---|---|---|
| Linspace.Step | src/linspace.rs:58-59 | for `n != 1` the step times `n - 1` (taken in the number type) is `b - a`; for `n == 0` it is `a - b` (division by `-1`) |
| Linspace.Emitted | src/linspace.rs:21-27 | a state with `len` remaining yields exactly `len` values, the first of them `start` when `len > 0` |
| Linspace.EmittedAt | src/linspace.rs:25-26 | the k-th yielded value (0-based) is `start + k * step` |
| Linspace.ConsecutiveDifference | src/linspace.rs:25-26 | consecutive yielded values differ by exactly `step` |
| Linspace.Endpoints | src/linspace.rs:42-43 | for `n >= 2`, `linspace(a, b, n)` yields `n` values, the first is `a` and the last is `b` |
| Linspace.LinspacedAt | src/linspace.rs:58-62 | the k-th value of `linspace(a, b, n)` is `a + k * step`, i.e. `a + k * (b - a) / (n - 1)` for `n >= 2` |
| Linspace.StepIrrelevantWhenShort | src/linspace.rs:21-27 | with `len <= 1` the yielded sequence is `[]` or `[start]` whatever the step, so the step computed by dividing by zero at `n == 1` is never observed |
| Linspace.DocExample | src/linspace.rs:47-51 | `linspace(0, 1, 5)` yields `[0, 0.25, 0.5, 0.75, 1.0]` |
| Linspace.EqualEndpointsExample | src/linspace.rs:54-64 | `linspace(5, 5, 3)` yields `[5, 5, 5]` (zero step when the endpoints are equal) |
| Linspace.Linspace.constructor | src/linspace.rs:54-65 | a fresh generator has `start == a`, `len == n` and the step above; it will yield exactly `Linspaced(a, b, n)`; no check is made on `n` |
| Linspace.Linspace.Next | src/linspace.rs:19-29 | with `len == 0` it returns `None` and changes nothing; otherwise it returns the old `start`, decrements `len` and adds `step` to `start`; `step` never changes; the remaining sequence loses exactly its head |
| Linspace.Linspace.SizeHint | src/linspace.rs:31-35 | returns `(len, Some(len))`, and both bounds equal the exact number of values still to be yielded, as `ExactSizeIterator` (lines 38-40) requires |
| Linspace.Drain | src/linspace.rs:19-29 | draining `linspace(a, b, n)` yields exactly `n` values: the k-th is `a + k * step`, and for `n >= 2` the first is `a` and the last is `b`; the two pulls after the end both return `None`; after `k` successful pulls the loop keeps `len == n - k`, and the values pulled so far followed by the generator's remaining values always form the full sequence |

## Left out
- Floating-point rounding of `f32`/`f64`: `F` is modelled as exact `real`, so nothing is stated about IEEE rounding. Over floats the last value is only close to `b`.
- Linspace.Endpoints: requires `n >= 2`. The documentation at `src/linspace.rs:42-43` promises a last element `b` for every `n`, but for `n == 1` the only value is `a`, so `b` is never reached when `a != b`. For `n == 0` nothing is yielded. `StepIrrelevantWhenShort` states what is yielded in both cases.
- Linspace.Step: for `n == 1` the source divides by zero, which gives an infinite or NaN step for floats. The model returns `0.0` there and proves that the step is irrelevant in that case.
- The `ToFloat` conversion from the crate's `misc` module is not part of this model. It is taken to be the plain embedding of a count into `real`.
- The trait bounds (`Copy`, `Add`, `Sub`, `Div`) and the empty `ExactSizeIterator` marker impl have no counterpart beyond the exact size hint stated on `SizeHint`.
- Iterator adaptors and consumers such as `assert_equal` are outside this component. `Drain` stands for a generic consumer loop.
- The `usize` bound on `n` is not modelled (`nat` is unbounded). `len` is never incremented, so no overflow can occur.
