# Taichi ndarray marshalling and the diffmpm particle scene, in Dafny

This project models two small pieces of the Taichi repository and proves
properties of them.

**The flat-buffer marshalling of `src/python/export_math.cpp`.** A
`width x height` array holds cells of `channels` components each. The Python
bindings copy it from and to a flat NumPy buffer. Component `k` of cell
`(i, j)` sits at `i * height * channels + j * channels + k`, which is a
row-major `(width, height, channels)` layout.

- `ndarray_to_image_buffer` and `ndarray_to_array2d` decode a buffer into a
  freshly sized array. `ExportMath.Array2D.FromBuffer` models both.
- `ndarray_to_array2d_real` is the scalar decoder, modelled by
  `ExportMath.Array2D.FromScalarBuffer`.
- The two `array2d_to_ndarray` overloads encode the array back into a
  buffer. `ExportMath.Array2D.ToBuffer` models both.

The methods work in place on Dafny arrays: an `array3<T>` for the cells and
an `array<T>` for the buffer. Each one is proved against the value-level
specification of module `Layout`:

- `Decode` cuts the buffer into columns and the columns into cells.
- `Encode` lays the cells end to end over the old buffer contents.

The layout lemmas show four things. Every position is in bounds. The map
from coordinates to positions is injective, and it covers the whole prefix.
Decoding and encoding are inverse to each other. The small pure helpers of
the same file are also modelled:

- `return_constant`, as registered for `get_channels`;
- `make_range`;
- `get_type_short_name`;
- the vector class names built from it.

The two decoders compute the first term of the position as
`i * channels * height` and `i * height * channels` respectively. Both are the
same number, so they share one layout and one method. The element type of the
buffer does differ between them.

**The `Scene` class of `examples/diffmpm.py`.** It is the host-side builder
of the particle set.

- `add_rect` appends, for each `i` in `range(w_count)` and each `j` in
  `range(h_count)`, the position
  `[x + (i + 0.5) * real_dx, y + (j + 0.5) * real_dy]` and the id
  `actuation`, and it bumps the counter.
- `finalize` publishes the count to the global `n_particles`.

The scene is a class with the fields `nParticles`, `x` and `actuatorId`.
Positions are exact reals. `w_count = int(w / dx)` is written out as
truncation toward zero, with `dx = 1 / 128`. If either count is zero,
`w / w_count` or `h / h_count` raises `ZeroDivisionError` before anything is
appended. The model reports this as `ok == false` and leaves the state as it
was. The inner `for j` loop is a separate method, `Scene.AddColumn`.

The modules are `Arith` (multiplication and division steps), `Layout`,
`ExportMath` and `DiffMpmScene`.

## Model

| member | source | states |
|---|---|---|
| ExportMath.GetChannels | src/python/export_math.cpp:32-35 | the `get_channels` constant is positive; it is 1 exactly for the level sets, 3 for `Array2D<Vector3>` and 4 for `Array2D<Vector4>` (registrations at lines 360, 374, 400 and 425) |
| ExportMath.GetChannelsIgnoresObject | src/python/export_math.cpp:32-35 | `return_constant` gives the same answer whatever object it is passed |
| ExportMath.MakeRange | src/python/export_math.cpp:28-30 | the result has exactly three elements: `start`, `end`, `delta`, in that order |
| ExportMath.ShortName | src/python/export_math.cpp:185-198 | the short name is one letter and not a digit; it is `"i"` exactly for `int`, `"I"` exactly for `int64` and `"U"` exactly for `uint64` |
| ExportMath.NatToString | src/python/export_math.cpp:279-280 | `std::to_string(DIM)` is a non-empty string of decimal digits, one digit long exactly when `DIM < 10` |
| ExportMath.NatToStringRoundTrip | src/python/export_math.cpp:279-280 | reading the digits back as a decimal number gives `DIM` |
| ExportMath.NatToStringInjective | src/python/export_math.cpp:279-280 | different dimensions get different digit strings |
| ExportMath.VectorName | src/python/export_math.cpp:279-280 | the vector class name starts with `"Vector"` and is the digits plus one letter longer |
| ExportMath.BaseName | src/python/export_math.cpp:282 | the base class name is the vector name plus 4 characters and ends in `"Base"` |
| ExportMath.VectorNameInjective | src/python/export_math.cpp:279-280 | equal vector class names come from equal dimension and element type |
| ExportMath.BaseNameInjective | src/python/export_math.cpp:282 | equal base class names come from equal dimension and element type |
| ExportMath.VectorNameIsNotBaseName | src/python/export_math.cpp:279-282 | no vector class name is ever also a base class name |
| ExportMath.ReadCell | src/python/export_math.cpp:45-48 | the channel loop sets component `k` of cell `(i, j)` to the buffer entry at `i * channels * height + j * channels + k`, for every `k`, and leaves every other cell unchanged |
| ExportMath.ReadScalar | src/python/export_math.cpp:134-135 | cell `(i, j)` of a scalar array receives `input[i * height + j]`; no other cell changes |
| ExportMath.WriteCell | src/python/export_math.cpp:146-151 | the channel loop writes the `channels` consecutive slots starting at the flat position of `(i, j, 0)` with the cell's components; every other slot keeps its value |
| ExportMath.Array2D.FromBuffer | src/python/export_math.cpp:37-126 | `ndarray_to_image_buffer` (lines 37-50) and `ndarray_to_array2d` (lines 113-126) resize the array to `w x h` in a fresh `array3` and leave its contents equal to `Decode` of the buffer |
| ExportMath.Array2D.FromScalarBuffer | src/python/export_math.cpp:128-137 | the single-channel decoder resizes to `w x h` and leaves contents equal to `Decode` at one channel; by `ScalarDecodeAt` this is cell `(i, j) == input[i * height + j]` |
| ExportMath.Array2D.ToBuffer | src/python/export_math.cpp:139-170 | both overloads succeed exactly when `width > 0` and `height > 0`; the new buffer is `Encode` of the cells over the old buffer; when encoding fails, the buffer is unchanged |
| ExportMath.FromThenToNdarray | src/python/export_math.cpp:113-170 | decoding a buffer into a fresh array and encoding it back succeeds exactly for a non-empty array; the result reproduces the first `w * h * channels` entries of the input |
| Layout.FlatIndexInBounds | src/python/export_math.cpp:46-47 | for in-range `i`, `j`, `k` the flat position lies in `[0, width * height * channels)` |
| Layout.FlatIndexInjective | src/python/export_math.cpp:146-152 | distinct in-range coordinates have distinct flat positions, so the encoder never overwrites its own writes |
| Layout.Decompose | src/python/export_math.cpp:146-152 | quotient and remainder of a flat position recover its column, row and channel |
| Layout.Recompose | src/python/export_math.cpp:143-152 | every slot below `width * height * channels` is the position of exactly the coordinates it decodes to: the encoder fills the whole prefix |
| Layout.DecodeAt | src/python/export_math.cpp:43-49 | the decoded component `(i, j, k)` is the buffer entry at the flat position of `(i, j, k)`, which is in bounds |
| Layout.EncodeAt | src/python/export_math.cpp:146-152 | encoding puts component `(i, j, k)` at its flat position |
| Layout.EncodeCell | src/python/export_math.cpp:146-152 | the components of cell `(i, j)` occupy the `channels` consecutive slots from the position of `(i, j, 0)`, inside the prefix |
| Layout.EncodeKeepsTail | src/python/export_math.cpp:143-152 | every slot from `width * height * channels` on keeps its old value |
| Layout.DecodeEncode | src/python/export_math.cpp:139-153 | decoding an encoded grid gives the grid back |
| Layout.EncodeDecode | src/python/export_math.cpp:37-50 | encoding a decoded buffer reproduces its first `width * height * channels` entries; encoding it over the buffer itself gives the buffer back whole |
| Layout.SingleChannel | src/python/export_math.cpp:133-136 | at one channel the flat position of `(i, j, 0)` is `i * height + j` |
| Layout.ScalarDecodeAt | src/python/export_math.cpp:133-136 | at one channel, decoded cell `(i, j)` is `input[i * height + j]`, which is in bounds |
| DiffMpmScene.Trunc | examples/diffmpm.py:210-211 | `int()` truncates toward zero: a non-negative number's floor, or the negated floor of its negation |
| DiffMpmScene.TruncNegate | examples/diffmpm.py:210-211 | truncation commutes with negation |
| DiffMpmScene.TruncZero | examples/diffmpm.py:210-211 | `int(r) == 0` exactly when `-1 < r < 1` |
| DiffMpmScene.CellCountZero | examples/diffmpm.py:210-213 | a side count is zero, so that lines 212-213 divide by zero, exactly when the side is shorter than `dx` in absolute value |
| DiffMpmScene.CellCountPositive | examples/diffmpm.py:210-211 | a side count is positive exactly when the side is at least `dx` |
| DiffMpmScene.RectDefinedIff | examples/diffmpm.py:210-213 | `add_rect` gets past its divisions exactly when both sides are at least `dx` in absolute value |
| DiffMpmScene.Steps | examples/diffmpm.py:214-215 | `range(count)` runs `count` times for a non-negative count and never for a negative one |
| DiffMpmScene.RectParticlesCount | examples/diffmpm.py:214-218 | a rectangle gets `Steps(w_count) * Steps(h_count)` particles: `w_count * h_count` when both counts are positive, none when either is negative |
| DiffMpmScene.RectParticlesAt | examples/diffmpm.py:214-216 | new particle `i * h_count + j` is at `[x + (i + 0.5) * real_dx, y + (j + 0.5) * real_dy]` |
| DiffMpmScene.RectOffset | examples/diffmpm.py:214-216 | every new offset is `i * h_count + j` for an in-range column `i` and row `j`, and its particle is that of `(i, j)` |
| DiffMpmScene.SlotInside | examples/diffmpm.py:212-216 | each slot coordinate lies strictly between the side's start and end |
| DiffMpmScene.RectParticlesInside | examples/diffmpm.py:210-216 | every particle of a rectangle lies strictly inside `(x, x + w) x (y, y + h)` |
| DiffMpmScene.SlotInjective | examples/diffmpm.py:212-216 | different slots of a side have different coordinates |
| DiffMpmScene.RectParticlesDistinct | examples/diffmpm.py:214-216 | no two particles of a rectangle share a position |
| DiffMpmScene.Simulation.constructor | examples/diffmpm.py:12 | the global particle count starts at 8192 |
| DiffMpmScene.Scene.constructor | examples/diffmpm.py:203-206 | a new scene has no particles and empty position and id lists, and satisfies the size invariant |
| DiffMpmScene.Scene.AddRect | examples/diffmpm.py:208-218 | succeeds exactly when both counts are non-zero. On success it preserves the size invariant, only appends the rectangle's particles to `x` and as many copies of `actuation` to `actuator_id`, and raises the counter by `Steps(w_count) * Steps(h_count)`. On failure nothing changes |
| DiffMpmScene.Scene.AddColumn | examples/diffmpm.py:215-218 | the inner loop appends column `i`'s particles and one `actuation` id per particle, keeping the size invariant |
| DiffMpmScene.Scene.Finalize | examples/diffmpm.py:220-222 | the global particle count becomes the scene's count |
| DiffMpmScene.MainSceneCounts | examples/diffmpm.py:227-228 | `int(0.2 / dx) == 25` and `int(0.5 / dx) == 64` |
| DiffMpmScene.MainScene | examples/diffmpm.py:226-229 | the scene `main` builds, and the global count after `finalize`, hold `25 * 25 + 64 * 25 == 2225` particles |

## Left out

- pybind11 registration is not modelled: `VectorRegistration`, `register_vec_field`, `VectorInitializer`, `get_dim` and the body of `export_math` (src/python/export_math.cpp:200-475). It is binding glue with no behaviour of its own. The one exception is the name composition at lines 279-282.
- The `Matrix4` transform helpers and `get_rotation_matrix` (src/python/export_math.cpp:65-111) are not modelled. They are floating-point trigonometry over a type that is not part of this model.
- `rasterize_levelset` (src/python/export_math.cpp:52-63) is not modelled. It calls `LevelSet2D::sample` and `RGB::append_to_string`, which are not part of this model.
- The internals of `Array2D`, `LevelSet2D/3D` and the other bound classes are not modelled, because their implementations are not part of this model. This includes `initialize`, `get_region` and indexing. A fresh `array3` stands for `initialize`. `get_region` is taken to visit cells column by column, `i` outer and `j` inner. The final buffer and array do not depend on that order, because the positions are injective.
- The element types `real` and `float` and the raw pointer casts of lines 46, 122, 135 and 148-150 are not modelled. Components are copied as opaque values of one type `T`.
- ToBuffer: the `Vector3` overload's padding is abstracted. It reads `entry[k]`, while the generic overload reads the `k`-th float in the cell's memory. Both are modelled as component `k` of the cell.
- The `"f"`/`"d"` short names of `float32`/`float64` (src/python/export_math.cpp:175-183) are not modelled. `ScalarType` has only the three integer types.
- FlatIndex: the C++ index is a 32-bit `int` product, which overflows past 2^31 slots. The model uses unbounded integers, so it does not capture that overflow.
- Trunc: `w / dx` and the positions are computed in binary floating point in the source. The model uses exact reals with `dx = 1 / 128`, so a rounding that pushes a quotient across an integer is not captured.
- Scene.AddRect: requires the size invariant `Valid()`, which every scene has. Construction establishes it and every `add_rect` preserves it.
- All Taichi kernels of diffmpm.py are not modelled, for example `p2g`, `g2p`, `grid_op`, `compute_loss`, `forward` and `backward`. They are parallel floating-point physics with autodiff.
- `main`'s optimisation loop and the visualisation (examples/diffmpm.py:230-277) are not modelled. They are I/O and floating-point gradient descent. Only the scene built at lines 226-229 is modelled, as `MainScene`.
- `dx = 1 / n_grid` is read with Python 3 division. Under Python 2 it would be 0.
