# speclite `redshift.transform` in Dafny

This project models `transform` from speclite's `redshift` module. The function
rescales named columns of a structured (record) NumPy array of spectral data
from redshift `z_in` to redshift `z_out` by the power law

    X_out = X_in * ((1 + z_out) / (1 + z_in)) ** exponent

Each rule names a column and an exponent. A rule may also carry its own input
array (`array_in`) in place of a column of `data_in`. The model follows the
function's four jobs:

- It validates the arguments and every rule, in the function's own order,
  with one error per `raise`.
- It resolves the input shape and broadcasts it against the shape of the
  redshift factor, using NumPy's broadcasting rule written out in full.
- It allocates a (masked) output, or checks the caller's `data_out` for mask
  capability and shape.
- It copies `data_in` into the output, overwrites each ruled column with the
  rescaled input, and carries masks over.

Files:

- `wrappers.dfy`: `Option` and `Result`.
- `shapes.dfy`: shapes, `Broadcast`, and `Stretch`. `Stretch` maps a flat
  row-major index of the broadcast shape to the element an operand supplies
  there.
- `arrays.dfy`: plain and masked float arrays, and structured arrays
  (`Records`) as named columns with optional per-field masks.
- `redshift.dfy`: the arguments, the errors, and the caller's output table.
  The output table is the class `OutTable`, written in place. The rule list is
  an `array<Rule>`, because `transform` writes back into it. Pure functions
  describe what a call must do: `Validate` covers lines 57-127, `RulesAfter`
  the write-back, `Copied` line 132, `Written` lines 129-140, and `Outcome`
  the error line 138 raises on a 0-dimensional output. They are built from
  per-step functions: `RedshiftFactor` (lines 57-65), `InitialScan`
  (72-79), `CheckRule` (82-111), `ScanRules` (the loop of line 81),
  `WriteBack` (113), `Allocate` (115-127), `CopyIn` (132), `Rescale`
  (138), `WriteRule` (135-140) and `WriteRules` (the loop of line 134).
  The imperative `Transform` performs the steps, and each of its methods
  is proved against the matching function.
- `properties.dfy`: the properties the function promises, proved about those
  functions. The lemmas about `Written` describe the output of every call
  that returns. On a 0-dimensional output they describe what line 138
  evidently intends (see "Findings").

Modelling choices:

- Floats are `real`. NumPy's `**` is a parameter `pow`. The identity property
  assumes only `pow(1.0, e) == 1.0`.
- `np.empty` leaves values undefined. The model fills them with zeros, and
  `FreshOutputFullyWritten` shows that every field of a new output is then
  overwritten.
- Assigning an array to a masked array sets the target mask to the source's
  mask, or to all False when the source is a plain array.
- `data_out[...] = data_in` assigns structured arrays field by field by name,
  as NumPy did when this code was written: a field of `data_out` that
  `data_in` lacks is zero-filled and, on a masked output, unmasked.

## Model

| member | source | states |
|---|---|---|
| `Shapes.BroadcastCorrect` | speclite/redshift.py:115 | broadcasting succeeds exactly when right-aligned extents are equal or one of them is 1; the result takes, axis by axis, the non-1 extent, or the extent of the longer shape |
| `Shapes.BroadcastCommutes` | speclite/redshift.py:65 | the broadcast shape does not depend on operand order |
| `Shapes.BroadcastOperands` | speclite/redshift.py:115 | both operands stretch to the broadcast shape |
| `Shapes.BroadcastNeutral` | speclite/redshift.py:115 | broadcasting with a scalar shape, or with the same shape, returns the shape unchanged |
| `Shapes.Stretch` | speclite/redshift.py:138 | each element of the broadcast result reads an in-range element of the operand |
| `Shapes.StretchIdentity` | speclite/redshift.py:138 | stretching to the operand's own shape reads each element in place |
| `Shapes.StretchCompose` | speclite/redshift.py:115-138 | stretching to the factor's shape and then to the output shape reads the same element as stretching straight to the output shape |
| `Shapes.Unflat` | speclite/redshift.py:138 | a flat index of a shape stands for one in-range index per axis |
| `Shapes.FlatUnflat` | speclite/redshift.py:138 | turning a flat index into per-axis indices and back gives the same flat index |
| `Shapes.UnflatFlat` | speclite/redshift.py:138 | in-range per-axis indices give an in-range flat index that turns back into the same indices |
| `Shapes.StretchReadsAxes` | speclite/redshift.py:138 | the element `Stretch` reads is the one broadcasting reads axis by axis: leading axes the operand lacks are dropped, and an axis of extent 1 is read at 0 |
| `Shapes.ExpandSame` | speclite/redshift.py:132 | copying an array to its own shape leaves it unchanged |
| `Arrays.Records.Column` | speclite/redshift.py:113 | `data_in[name]` has the table's shape and the field's values; it is masked exactly when the table has a mask for the field, and its mask is then that field's mask |
| `Arrays.ValueMask` | speclite/redshift.py:138 | assigning a plain array writes an all-False mask of the output size; the mask written at each element is set exactly where the assigned array, stretched, is masked |
| `Redshift.ZArg.AsArray` | speclite/redshift.py:57-62 | a number becomes the unmasked 0-dimensional array holding that number; an array keeps its shape and values, unmasked; a valid redshift gives a valid array |
| `Redshift.Blank` | speclite/redshift.py:116-121 | a new output has every dtype field at the output size, and its mask is all False when masked |
| `Redshift.OutTable.Empty` | speclite/redshift.py:116-121 | allocates a table of the given shape, dtype and mask capability, blank as above |
| `Redshift.OutTable.Assign` | speclite/redshift.py:132 | `data_out[...] = data_in` copies every shared field and its mask, stretched to the output shape; every other field is zero-filled and unmasked |
| `Redshift.OutTable.SetColumn` | speclite/redshift.py:138 | replaces one column, and on a masked table its mask; nothing else changes |
| `Redshift.OutTable.SetMask` | speclite/redshift.py:140 | replaces one column's mask; nothing else changes |
| `Redshift.ZFactor` | speclite/redshift.py:65 | the redshift factor is a valid unmasked array of the broadcast redshift shape |
| `Redshift.RedshiftFactor` | speclite/redshift.py:57-65 | an accepted pair of redshifts yields a valid factor |
| `Redshift.Validate` | speclite/redshift.py:57-127 | an accepted call yields a valid factor |
| `Redshift.Checked` | speclite/redshift.py:72-127 | once the redshifts and argument types are accepted, an accepted call keeps the given factor |
| `Redshift.Rescale` | speclite/redshift.py:138 | the rescaled column has the output size |
| `Redshift.ScanStops` | speclite/redshift.py:81-111 | the first rejected rule decides the loop's error, whatever follows it |
| `Redshift.AcceptedKept` | speclite/redshift.py:101-108 | a later accepted rule keeps the shape, dtype and mask facts an earlier one relies on |
| `Redshift.CheckOne` | speclite/redshift.py:82-113 | checks one rule in the source's order, writes `data_in[name]` back into an accepted rule that lacks `array_in`, and leaves the other rules alone |
| `Redshift.CheckRules` | speclite/redshift.py:72-113 | the loop returns the specified scan result; it fails with a rule index in range; the rules before a failure, or all rules on success, are written back and the rest keep their values |
| `Redshift.AllocateOut` | speclite/redshift.py:115-127 | rejects exactly as specified; on success returns the caller's table, or a fresh blank table with the new dtype, shape and mask capability |
| `Redshift.WriteOne` | speclite/redshift.py:135-140 | fails, changing nothing, exactly when the output is 0-dimensional; otherwise writes one rule's rescaled column, and on a masked output its input's mask (line 140 writes the same mask that line 138 carried) |
| `Redshift.WriteOutput` | speclite/redshift.py:134-140 | fails at the first rule, changing nothing, exactly when there is a rule and the output is 0-dimensional; otherwise the table ends with every rule's rescaled column and mask written in order |
| `Redshift.Fill` | speclite/redshift.py:129-140 | the table ends with `data_in` copied in and then every rule written, as specified; when line 138 fails on a 0-dimensional output, it ends with `data_in` copied in and nothing else |
| `Redshift.Finish` | speclite/redshift.py:115-142 | after an accepted loop, fails exactly as allocation specifies, leaving a supplied `data_out` unchanged, or with the 0-dimensional error after `data_in` has been copied into it; on success returns the supplied or a fresh table with the specified content |
| `Redshift.Apply` | speclite/redshift.py:72-142 | after the argument checks, fails exactly as specified (a check error leaves `data_out` unchanged; the 0-dimensional error leaves it with `data_in` copied in), with the rules written back up to the failing one; on success returns the specified table content |
| `Redshift.RulesAfterNone` | speclite/redshift.py:57-70 | an error before the loop leaves the rules as they were |
| `Redshift.Transform` | speclite/redshift.py:57-142 | fails exactly when validation fails, with the same error, leaving `data_out` unchanged, or when validation passes with a 0-dimensional output and at least one rule, raising at line 138 after `data_in` has been copied into `data_out`; the rules end written back; on success returns the caller's `data_out` or a fresh table, holding the specified content |
| `RedshiftProperties.ScanPrefix` | speclite/redshift.py:81 | a loop that accepts all rules accepts every prefix of them |
| `RedshiftProperties.ScanFailure` | speclite/redshift.py:81-111 | a failing loop fails at one rule in range, after every earlier rule passed |
| `RedshiftProperties.ScanFacts` | speclite/redshift.py:72-113 | after a successful loop every rule has a string name, a float exponent and a `data_out` field; with `data_in` the state is `data_in`'s and no rule has `array_in`; without it every rule has an `array_in` of one shape, the dtype lists the rule names, and the inputs are marked masked exactly when some `array_in` is masked |
| `RedshiftProperties.FirstViolationReported` | speclite/redshift.py:82-111 | a rule is accepted iff it violates no check; otherwise the error names the earliest check it violates |
| `RedshiftProperties.ArgumentErrorsFirst` | speclite/redshift.py:57-70 | redshift and argument-type errors do not depend on the rules and leave the rules untouched |
| `RedshiftProperties.ValidateErrors` | speclite/redshift.py:57-127 | errors raised after the loop start only once the redshifts and argument types are accepted |
| `RedshiftProperties.NegativeRedshiftRejected` | speclite/redshift.py:59-64 | the negative-`z_in` and negative-`z_out` errors are raised exactly when a redshift has a negative element; an accepted call has no negative redshift |
| `RedshiftProperties.RuleErrorIsFirstFailure` | speclite/redshift.py:81-111 | a rule error names exactly the first failing rule and its first failing check |
| `RedshiftProperties.OutputShape` | speclite/redshift.py:72-73 | the output shape is the broadcast of the input shape (`data_in`'s, else the shared `array_in` shape) with the factor's; a supplied `data_out` has exactly that shape; scalar redshifts keep the input shape |
| `RedshiftProperties.OutputMasked` | speclite/redshift.py:75 | the output is masked exactly when `data_in` or some `array_in` is masked, and then a supplied `data_out` is masked; the new dtype is `data_in`'s, else the rule names |
| `RedshiftProperties.FreshOutputFullyWritten` | speclite/redshift.py:116-121 | every field of a newly allocated output is copied from `data_in` or named by a rule |
| `RedshiftProperties.ReachedAccepted` | speclite/redshift.py:81-113 | a call that reached some rules had passed the argument checks, and the loop accepted every rule it reached |
| `RedshiftProperties.ConflictAtFirstRule` | speclite/redshift.py:95-97 | with `data_in`, a well-formed first rule that has `array_in` stops the call with the source conflict |
| `RedshiftProperties.SecondCallConflicts` | speclite/redshift.py:112-113 | every rule the loop accepted gets `data_in[name]` as `array_in`, even when a later rule fails; a second call with the same `data_in` and these rules then fails at the first rule with the source conflict |
| `RedshiftProperties.LastRule` | speclite/redshift.py:134 | finds the last rule naming a field, or reports that none does |
| `RedshiftProperties.WriteRulesAt` | speclite/redshift.py:134-140 | an unruled column and its mask are kept; a ruled column holds its last rule's rescaled input, with that input's mask on a masked output |
| `RedshiftProperties.FactorOfEqualRedshifts` | speclite/redshift.py:57-65 | when `z_out` and `z_in` are equal as arrays (a number and a 0-dimensional array holding it count as equal), the factor is 1 everywhere |
| `RedshiftProperties.RescaleByOne` | speclite/redshift.py:138 | rescaling by a factor of 1 only stretches the input |
| `RedshiftProperties.ColumnsFromDataIn` | speclite/redshift.py:129-138 | each `data_in` field in the output is the input copied, or, for a ruled field, its last rule's rescaled input; on a masked output its mask is `data_in`'s |
| `RedshiftProperties.OtherOutputFields` | speclite/redshift.py:129-140 | a supplied `data_out` field that neither `data_in` has nor any rule names is zero-filled and unmasked when `data_in` is given, and keeps its values and mask otherwise |
| `RedshiftProperties.NoRulesCopiesDataIn` | speclite/redshift.py:46-47 | with no rules the output keeps its fields; each `data_in` field holds `data_in`'s column stretched to the output shape, with `data_in`'s mask on a masked output; every other field is zero-filled and unmasked |
| `RedshiftProperties.FactorIsRedshiftRatio` | speclite/redshift.py:65 | an accepted call's factor has the broadcast shape of the two redshifts, is unmasked, and at each element equals `(1 + z_out) / (1 + z_in)` at the redshift elements broadcasting reads there |
| `RedshiftProperties.RedshiftFactorIsRatio` | speclite/redshift.py:57-65 | the same, for the factor computed from two accepted redshifts |
| `RedshiftProperties.RatioAt` | speclite/redshift.py:65-138 | the factor element read for an output element is `(1 + z_out) / (1 + z_in)` at the redshift elements read for that output element |
| `RedshiftProperties.RuledColumnPowerLaw` | speclite/redshift.py:11 | each element of a ruled `data_in` column in the output is the `data_in` element broadcasting reads there times `((1 + z_out) / (1 + z_in)) ** exponent` of its last rule, the redshifts read at the same output element; where that `data_in` element is masked, it is stored unscaled, as numpy.ma leaves masked entries of a product unprocessed |
| `RedshiftProperties.ScalarOutputRaisesAfterCopy` | speclite/redshift.py:132-138 | with z_in = 0, z_out = 1, a 0-dimensional `data_in` with field `flux`, one rule for `flux` and a matching supplied `data_out`, every check passes, the call raises the 0-dimensional error, and `data_out` already holds `data_in`'s value |
| `RedshiftProperties.ScalarOutputIntended` | speclite/redshift.py:11 | for the same call, the column written in place whatever the rank holds `data_in * 2 ** exponent` |
| `RedshiftProperties.SameRedshiftIsIdentity` | speclite/redshift.py:11 | when `z_out` and `z_in` are equal as arrays, every `data_in` field of the output equals the input stretched to the output shape, ruled or not; with 0-dimensional redshifts it is the very same column |
| `RedshiftProperties.ColumnsFromArrays` | speclite/redshift.py:137-140 | without `data_in`, a ruled column holds its last rule's `array_in` rescaled, and a masked `array_in`'s mask is copied onto it |
| `RedshiftProperties.ArrayColumnPowerLaw` | speclite/redshift.py:137-138 | without `data_in`, each element of a ruled column is its last rule's `array_in` element that broadcasting reads there times `((1 + z_out) / (1 + z_in)) ** exponent`, the redshifts read at the same output element; a masked `array_in` element is stored unscaled |
| `RedshiftProperties.ArrayColumnIdentity` | speclite/redshift.py:11 | without `data_in` and with `z_out` and `z_in` equal as arrays, each ruled column holds its last rule's `array_in` unchanged apart from broadcasting to the output shape |

## Left out

- `accumulate` and its tests are not part of this model. Its implementation is not among the modelled files.
- Floating point: `np.float` conversion, division and `**` are taken on reals. `**` is the parameter `pow`, with `pow(1.0, e) == 1.0` assumed only where the identity property needs it.
- Only "convertible or not" is modelled for `np.float` on a rule's exponent. The `TypeError` and `ValueError` paths are not distinguished.
- A redshift is a number, an array, or an unconvertible value. Masks and NaN in redshift arrays are not modelled.
- Astropy units are ignored, as the function itself ignores them.
- Python 2's `basestring` is reduced to "the name is a string or it is not".
- NumPy dtypes are reduced to their lists of field names. A non-structured `data_in` (with no field names) is not modelled.
- Field types are not modelled: every column holds reals. An integer-typed output field truncates the rescaled values at line 138. Such a field can be `data_in`'s own, or the dtype of an `array_in` that line 106 puts into the new dtype. The model keeps the values unrounded.
- Hard masks are not modelled. For a supplied `data_out` with a hard mask, lines 132 and 138 neither overwrite nor unmask its masked entries. The model treats every masked output as soft-masked, so both lines replace values and masks.
- With neither `data_in` nor any rule, `np.empty(None)` at line 115 is library-defined. The model raises `NoInputShape` there.
- A new dtype that names a field twice makes NumPy raise at lines 118/121. The model raises `DuplicateField`.
- `np.empty` values are undefined. The model fills them with zeros.
- `data_out[...] = data_in` is modelled as a copy by field name, which zero-fills and unmasks the `data_out` fields that `data_in` lacks. This is how NumPy assigned structured arrays before version 1.14. Later versions assign by position and refuse differing field counts; that behaviour is not modelled.
- `rules` is modelled as a list (an `array<Rule>`). The docstring (line 41) allows any iterable. With a one-shot iterable such as a generator, `rules[i]` at line 113 raises `TypeError`, and the loop at line 134 would see no rules; neither is modelled.
- A `data_out` that is a plain ndarray without field names makes `name not in data_out.dtype.names` (line 92) raise `TypeError`. The model has no such `data_out`: a rule naming a field that `data_out` lacks raises `MissingOutField`.
- Aliasing is not modelled: the same rule dictionary listed twice, `data_out` being `data_in`, or `array_in` views into `data_out`. The written-back `array_in` is a value copy of `data_in[name]`, not a view.
- `Redshift.Rescale`: its own contract states only the result's size. The values are stated by `RuledColumnPowerLaw` for a `data_in` column and by `ArrayColumnPowerLaw` for an `array_in`, elementwise, masked elements included; `RescaleByOne`, `SameRedshiftIsIdentity` and `ArrayColumnIdentity` state the equal-redshift case.
- `Redshift.Validate`: its own contract states only that an accepted call's plan is valid. The factor's values are stated by `FactorIsRedshiftRatio`, the output shape by `OutputShape`, the mask capability by `OutputMasked`, and the errors by `ValidateErrors`, `ArgumentErrorsFirst`, `NegativeRedshiftRejected` and `RuleErrorIsFirstFailure`.
- `Redshift.Checked`: its own contract states only that the factor is kept. Its errors are stated, as errors of the whole call, by `ValidateErrors` and `RuleErrorIsFirstFailure`; each rule's check by `FirstViolationReported`; its plan by `OutputShape` and `OutputMasked`.
- `Redshift.RedshiftFactor`: its own contract states only that the factor is valid. Its values are stated by `RedshiftFactorIsRatio`. Its negative-redshift errors are stated, as errors of the whole call, by `NegativeRedshiftRejected`.
- `Redshift.ZFactor`: its own contract states only the factor's shape and validity. Its values are stated by `RedshiftFactorIsRatio` and, for equal redshifts, by `FactorOfEqualRedshifts`.

## Findings

| source | as written | input that shows it | evidently intended | confidence | as-written member | corrected member |
|---|---|---|---|---|---|---|
| speclite/redshift.py:132-138 | `data_out[name][:] = ...` needs an axis, so a 0-dimensional output raises `IndexError` at the first rule. For a supplied `data_out`, line 132 has already copied `data_in` into it, so the failed call leaves it changed | z_in = 0.0, z_out = 1.0, `data_in` of shape () with field `flux`, rules `[{'name': 'flux', 'exponent': 1}]`, `data_out` of shape () with field `flux` | the column is written whatever the output's rank (`data_out[name][...] = ...`), so the call returns `flux * 2 ** 1` | not executed | `RedshiftProperties.ScalarOutputRaisesAfterCopy` (on `Redshift.Transform`, whose contract admits the failure through `Redshift.Outcome`) | `RedshiftProperties.ScalarOutputIntended` (on `Redshift.Written`, which the column lemmas describe) |
