# PyParamGUI core, modelled in Dafny

PyParamGUI is a notebook widget that collects the parameters of a spectroscopy simulation
(decay rates, spectral shapes, a Gaussian instrument response function, noise and scheme
settings) and hands them to an external modelling library, which generates a kinetic model,
its parameters and a simulated dataset. The repository's own logic is small, and this
project models it:

- **The parameter-label rewriter** (`_update_parameter_values`). After the library has
  generated a model's parameters, the rewriter walks them in order and assigns each value by
  parsing its dotted label. `shapes.species_N.<attr>` takes entry N (counting from 1) of the
  spectral list `<attr>`. `rates.species_N` takes decay rate N. An `irf...` label takes the
  IRF width or centre, but only when the Gaussian-IRF flag is set. Modelled in
  `parameters.dfy`: one parameter step is the pure function `Rewrite`, and the loop is the
  in-place method `UpdateParameterValues` over an `array<Parameter>`. The Python string and
  list operations the rewriter uses are modelled in `pytext.dfy`: `startswith`, `in`,
  `split`, `int()`, and negative subscripts.
- **The tree sanitiser** (`_sanitize_dict`, written twice, identically, in `utils.py` and
  `io.py`). In every mapping, recursively, it drops entries whose value is `None`, `[]` or
  `{}`. One function, `Sanitizer.Sanitize`, models both copies, and both pipelines use it.
  YAML values are a recursive datatype, and a mapping is a sequence of key/value pairs, so
  key order is kept.
- **The pipeline** (`generate_model_parameter_and_data_files`, in both files). Each of the
  external library's calls is opaque: what it returns is passed in, and what it is asked to
  do is recorded as a `Step`. From the configuration the pipeline derives the generator name,
  the compartment count and the noise flag. The `utils.py` copy rewrites the parameters
  before saving them. The `io.py` copy saves them as generated. `pipeline.dfy` models the
  first copy and `io.dfy` the second; `Io.GenerateModelParameterAndDataFiles` proves that the
  two agree on everything except the rewrite.

The configuration records are datatypes in `schema.dfy`. They use the field names of
`schema.py` (`amplitude`, `location`, `width`, `skewness`), not the `amplitudes` and
`location_mean` of `config.py`: the rewriter reads the `schema.py` names.

Semantics worth knowing, all proved:
- The species number goes through Python's `int()` and negative indexing. `species_0`
  therefore takes the LAST entry of its list instead of failing. More generally, N in
  `1 - len .. 0` counts from the end.
- The species number is parsed before the attribute is looked at. So `shapes.species_x.foo`
  raises, while `shapes.species_99.foo` keeps its value: an unknown attribute never
  subscripts a list.
- If an IRF label mentions both "width" and "center", the centre wins, because it is assigned
  last.
- An exception stops the loop part-way. The parameters before the failing one keep their new
  values, and the rest keep their old ones. The method's contract states exactly this.
- The sanitiser tests a value BEFORE sanitising it. A nested mapping that becomes empty is
  therefore kept as `{}`, and the sanitiser is not idempotent
  (`{"a": {"b": None}}` → `{"a": {}}` → `{}`).
- Lists are never descended into. Falsy scalars (`0`, `""`, `False`) are kept.

## Model

| member | source | states |
|---|---|---|
| `ParameterUpdate.UpdateParameterValues` | pyparamgui/utils.py:77-102 | Rewrites each parameter in place, in order, and returns the same collection. Labels, count and order are unchanged. It succeeds exactly when every parameter's step succeeds. On an exception, the parameters before the failing one are rewritten and the rest are untouched. |
| `ParameterUpdate.Rewrite` | pyparamgui/utils.py:78-101 | One loop step assigns only the value: a successful step keeps the label. |
| `ParameterUpdate.ShapeLabelValue` | pyparamgui/utils.py:79-91 | `shapes.species_<n>.<attr>` selects index `n - 1` of the attribute's spectral list when the attribute is amplitude, location, width or skewness. Otherwise it keeps the value. |
| `ParameterUpdate.AttributeValueColumn` | pyparamgui/utils.py:84-91 | The attribute test selects from the list named by the attribute (amplitude, location, width or skewness) and keeps the current value for any other attribute. |
| `ParameterUpdate.ShapesRoute` | pyparamgui/utils.py:79-91 | For 1 ≤ N ≤ len, `shapes.species_N.<attr>` gets `spectral_parameters.<attr>[N-1]`. |
| `ParameterUpdate.ShapesNonPositiveSpeciesWraps` | pyparamgui/utils.py:81-91 | For N ≤ 0 within range, Python negative indexing takes entry `len + N - 1`, so `species_0` takes the last entry. |
| `ParameterUpdate.ShapesOutOfRange` | pyparamgui/utils.py:81-91 | A species number outside the list raises IndexError, and the error carries the index and the list length. |
| `ParameterUpdate.ShapesOtherAttribute` | pyparamgui/utils.py:84-91 | Any other attribute leaves the value unchanged for every species number, because the elif chain has no else. |
| `ParameterUpdate.ShapesBadSpeciesNumber` | pyparamgui/utils.py:81 | Species text that `int()` rejects raises ValueError, whatever the attribute, because parsing comes first. |
| `ParameterUpdate.ShapesMissingAttribute` | pyparamgui/utils.py:80-82 | A `shapes.species_N` label with no third dot-piece raises IndexError. |
| `ParameterUpdate.RateLabelValue` | pyparamgui/utils.py:93-95 | `rates.species_<n>` selects index `n - 1` of the decay rates, Python style, for every integer `n`. |
| `ParameterUpdate.RatesRoute` | pyparamgui/utils.py:93-95 | For 1 ≤ N ≤ len, `rates.species_N` gets `decay_rates[N-1]`. |
| `ParameterUpdate.RatesNonPositiveSpeciesWraps` | pyparamgui/utils.py:94-95 | For N ≤ 0 within range, `rates.species_N` counts from the end of the decay rates. |
| `ParameterUpdate.RatesOutOfRange` | pyparamgui/utils.py:94-95 | A rate species number outside the list raises IndexError. |
| `ParameterUpdate.RatesBadSpeciesNumber` | pyparamgui/utils.py:94 | Text after the `_` that `int()` rejects raises ValueError. |
| `ParameterUpdate.IrfWithoutFlag` | pyparamgui/utils.py:97 | Without `add_gaussian_irf`, an `irf` label keeps its value. |
| `ParameterUpdate.IrfRoute` | pyparamgui/utils.py:97-101 | With the flag, a label containing "center" gets the IRF centre, even if it also contains "width". Otherwise a label containing "width" gets the IRF width. Otherwise the value is kept. |
| `ParameterUpdate.OtherLabelUnchanged` | pyparamgui/utils.py:79-101 | A label with none of the three prefixes keeps its value. |
| `ParameterUpdate.ExampleRate` | tests/test_simulate.py:16-31 | With the test form's values, `rates.species_2` gets the second decay rate, 0.2. |
| `ParameterUpdate.ExampleShape` | tests/test_simulate.py:16-31 | With the test form's values, `shapes.species_1.location` gets the first location, 400. |
| `ParameterUpdate.ExampleIrf` | tests/test_simulate.py:16-31 | With the test form's values and the IRF on, `irf.width` gets the IRF width, 0.1. |
| `PyText.Split` | pyparamgui/utils.py:80-81 | `str.split` gives at least one piece, and two or more exactly when the separator occurs. No piece contains the separator. |
| `PyText.SplitJoin` | pyparamgui/utils.py:80 | Splitting loses nothing: joining the pieces with the separator gives back the label. |
| `PyText.ParseIntText` | pyparamgui/utils.py:81 | `int(str(n)) == n` for every integer, negative ones included. |
| `Sanitizer.Sanitize` | pyparamgui/utils.py:189-202 | A non-mapping is returned unchanged. A mapping stays a mapping and never grows. No kept value is `None` or `[]`. |
| `Sanitizer.Kept` | pyparamgui/utils.py:202 | The filter of the comprehension keeps only input entries, and none whose value is `None`, `[]` or `{}`. |
| `Sanitizer.SanitizeLookup` | pyparamgui/utils.py:202 | For a dictionary, looking a key up in the result gives `None` if the input value was `None`/`[]`/`{}` or the key was absent. Otherwise it gives the sanitised input value. |
| `Sanitizer.SanitizeKeepsKeyOrder` | pyparamgui/utils.py:202 | The result's keys are a subsequence of the input's keys, so their order is kept. |
| `Sanitizer.SanitizeKeysFromInput` | pyparamgui/utils.py:202 | Every key of the result is a key of the input. |
| `Sanitizer.SanitizeKeepsUniqueKeys` | pyparamgui/utils.py:202 | A dictionary (unique keys) stays a dictionary. |
| `Sanitizer.SanitizeKeepsWellFormed` | pyparamgui/utils.py:200-202 | Unique keys at every depth are preserved by the recursion. |
| `Sanitizer.SanitizeFixedIffClean` | pyparamgui/utils.py:200-202 | The sanitiser leaves a value unchanged exactly when no mapping outside lists, at any depth, holds `None`, `[]` or `{}`. |
| `Sanitizer.SanitizeToEmptyIff` | pyparamgui/utils.py:202 | The result is `{}` exactly when the input is a mapping all of whose values are `None`/`[]`/`{}`. Because the filter runs before the recursion, such a nested mapping is kept as `{}`. |
| `Sanitizer.NotIdempotent` | pyparamgui/utils.py:202 | `{"a": {"b": None}}` sanitises to `{"a": {}}`, and a second pass gives `{}`. |
| `Sanitizer.KeepsFalsyScalarsAndLists` | pyparamgui/io.py:39-42 | `{"zero": 0, "nested": [None], "none": None}` sanitises to `{"zero": 0, "nested": [None]}`. The falsy `0` is kept, because removal is by equality with `None`, `[]` or `{}` only. The list is kept as it is, because lists are not descended into. |
| `Pipeline.GeneratorName` | pyparamgui/utils.py:45-49 | The generator is "spectral_decay_sequential" exactly when `use_sequential_scheme` holds, and "spectral_decay_parallel" exactly when it does not. |
| `Pipeline.ModelFileStep` | pyparamgui/utils.py:28-59 | The model is requested from the chosen generator, with the IRF flag of the settings. Its file holds the sanitised saved document under the requested name. |
| `Pipeline.DataFileStep` | pyparamgui/utils.py:129-158 | The simulation adds noise exactly when `stdev_noise != 0`. It passes the deviation and the seed, and simulates the given parameters. |
| `Pipeline.CompartmentsMatchRates` | pyparamgui/utils.py:177-178 | The model gets `len(decay_rates)` compartments. For N ≥ 1, `rates.species_N` resolves exactly for N ≤ that count. |
| `Pipeline.IrfParametersFollowModel` | pyparamgui/utils.py:50-56 | When the model is generated without an IRF, `irf` parameters keep their generated values. |
| `Pipeline.GenerateModelParameterAndDataFiles` | pyparamgui/utils.py:161-186 | Writes the model file first. If the rewrite raises, it stops there with the error, leaving the parameters partly rewritten. Otherwise it writes the rewritten parameters and then the dataset simulated from them. |
| `Io.GenerateModelParameterAndDataFiles` | pyparamgui/io.py:15-37 | The `io.py` copy writes the same model file (the same generator name, compartment count and sanitiser) and makes the same simulation request as the `utils.py` copy. It writes and simulates the generated parameters without rewriting them. |

## Left out

- The widget (`widget.py`): UI state, the global widget and event observation are UI binding with no logic beyond copying fields.
- `generate_simulation_coordinates` (`schema.py`, `config.py`): a wrapper over `numpy.arange` with floating-point steps. The coordinate axes are also left out of `SimulationConfig`.
- File handling in `_sanitize_yaml_file`: opening files, YAML loading and dumping, and removal of the temporary file (which only the `utils.py` copy does). The loaded document is an input and the written one is recorded in `Step`.
- The external library's calls (`generate_model`, `save_model`, `generate_parameters`, `validate`, `save_parameters`, `simulate`, `save_dataset`): foreign code. What they return is passed in. An exception from `model.validate` is not modelled.
- pydantic validation and coercion of the records: done by a library. Nothing makes the spectral lists the same length, and the model does not assume it.
- Floating point: values are reals, so NaN does not exist. Under Python, a NaN `stdev_noise` would turn noise on.
- Parameter attributes other than label and value (bounds, `vary`, expressions): the rewriter never reads or writes them.
- `PyText.ParseInt`: only ASCII digits and the six ASCII whitespace characters are modelled. Python's `int()` also accepts other Unicode digits and whitespace. Underscores between digits are not modelled, and they cannot reach `int()` here: the text is always a piece of a split on `_`.
- YAML values: the datatype covers null, booleans, integers, floats, strings, lists and string-keyed mappings. Dates, binary data and non-string keys are not modelled.
- The default file-name arguments (`model.yml`, `parameters.csv`, `dataset.nc`): callers pass the names.
- `__init__.py` only re-exports names, and `tests/test_simulate.py` only checks that files exist.
- ParameterUpdate.ShapesRoute: the routing lemmas are stated for labels built as `shapes.species_<n>.<attr>` or `rates.species_<n>`. Labels with extra pieces (`species_1_x`, a fourth dot-piece) follow `NewValue` but have no lemma of their own.
