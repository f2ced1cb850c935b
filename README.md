# Cosmology generator: a verified model

This project models three small parts of a procedural "cosmology" generator.

- **Element** (`cosmology/element.py`) is an attribute bag built from keyword arguments.
  It is read and written by key, and its display form lists `name=value` entries in insertion order.
  Python's insertion-ordered `dict` is module `Dict`.
  The bag, its display form and the luminary specialisation are module `Elements`.
- **Cosmology** (`cosmology/cosmology.py`) holds a seed, the luminaries generated from it, and a `number` list.
  The number list starts as one entry: how many luminaries are visible.
  The random draws are constructor inputs, in the order the code makes them:
  - the body count `n`, from [1, 13);
  - `n` distance samples, already rounded and given in hundredths;
  - `n + 1` RGB triples with channels in [0, 255].

  The deterministic pipeline is module `Cosmologies`:
  - append the anchor 0;
  - take absolute values;
  - sort in place (module `Sorting`);
  - mark `visible = distance <= 9.5`, which is 950 in hundredths;
  - build one luminary per index;
  - count the visible ones.

  `count(name)` and `repr` are modelled too.
- **Timeline** (`chronology/timeline.py`) holds a day counter, one event slot per day and a date format.
  It is module `Chronology`.
  `Event` is an opaque type parameter.
  An assigned value is a tagged item: one event, a list, or a value of another type, which raises TypeError.

Python exceptions become values (module `Errors`): `KeyError`, `TypeError`, `AttributeError`.
Module `Text` holds the text pieces the repr and date strings need:
decimal rendering of integers (with its inverse), `", ".join`, `str` of an int list, and ASCII `lower()`.

## Model

| member | source | states |
|---|---|---|
| Text.ShowNat | cosmology/cosmology.py:42-46 | `str(n)` of a count is a non-empty string of digits with no leading zero |
| Text.ParseShowNat | cosmology/cosmology.py:42-46 | reading the decimal rendering back gives the number: rendering round-trips |
| Text.ShowNatInjective | cosmology/cosmology.py:42-46 | different counts render differently |
| Text.ShowInt | chronology/timeline.py:26 | `str(i)` begins with '-' exactly when i is negative; the rest is decimal digits with no leading zero that read back as the magnitude |
| Text.JoinAppend | cosmology/element.py:19 | joining one more entry appends the separator and that entry |
| Text.ShowIntList | cosmology/cosmology.py:45 | `str(list)` is bracketed: `[]` for an empty list and `[` + `str(x)` + `]` for a one-element list |
| Text.ShowIntListAppend | cosmology/cosmology.py:45 | one more element renders as the old entries, `", "` unless the list was empty, then `str(x)`, inside brackets |
| Text.Lower | cosmology/cosmology.py:82 | `lower()` keeps the length, maps each ASCII upper-case letter to its lower-case letter and keeps every other character |
| Text.LowerIdempotent | cosmology/cosmology.py:82 | lowering twice equals lowering once |
| Dict.IndexOf | cosmology/element.py:24-25 | a present key's position holds that key, and no earlier position does |
| Dict.Get | cosmology/element.py:21-22 | a lookup succeeds exactly for present keys, and the value found is stored under that key |
| Dict.GetIffItem | cosmology/element.py:12-22 | in a bag built from distinct keyword arguments, `e[k] == v` exactly when (k, v) was passed; there are no other keys |
| Dict.PutShape | cosmology/element.py:24-25 | writing a new key appends it; overwriting replaces the item where it stands |
| Dict.KeysPut | cosmology/element.py:24-25 | key order after a write is unchanged for an existing key, and a new key comes last |
| Dict.PutDistinct | cosmology/element.py:24-25 | writing keeps keys unique |
| Dict.GetPutSame | cosmology/element.py:21-25 | after `e[k] = v`, `e[k]` is v |
| Dict.GetPutOther | cosmology/element.py:21-25 | `e[k] = v` leaves every other key's lookup unchanged |
| Dict.PutPut | cosmology/element.py:24-25 | last write wins: writing k twice is writing it once with the second value |
| Elements.Render | cosmology/element.py:15-19 | `ClassName(` + entries + `)`; empty bag gives `ClassName()`; one entry gives `ClassName(entry)` |
| Elements.EntriesPut | cosmology/element.py:16-25 | after a write the overwritten key's entry keeps its position, and a new key's entry comes last |
| Elements.RenderPutNew | cosmology/element.py:15-25 | the display form after writing a new key is the old entries, `", "`, then `k=v` |
| Elements.LuminaryLookup | cosmology/cosmology.py:61 | a luminary has exactly the keys distance, visible and rgb, answering the values it was built from |
| Elements.Element.constructor | cosmology/element.py:12-13 | the bag holds exactly the keyword arguments, in order, under class name Element |
| Elements.Element.Luminary | cosmology/cosmology.py:61 | a luminary is a bag of the three keyword arguments under class name Luminary |
| Elements.Element.Get | cosmology/element.py:21-22 | `e[key]` is the stored value; a missing key raises KeyError(key) |
| Elements.Element.Set | cosmology/element.py:24-25 | `e[key] = value` performs the dictionary write; afterwards the key reads value and no other key changes |
| Elements.Element.Repr | cosmology/element.py:15-19 | the display form starts with the class name and `(`, ends with `)`, and is `ClassName()` for an empty bag |
| Sorting.InsertionSortCorrect | cosmology/cosmology.py:54 | the reference sort yields an ascending permutation of its input |
| Sorting.SortedUnique | cosmology/cosmology.py:54 | two ascending sequences with the same elements are equal, so the sort's result is determined |
| Sorting.SortInPlace | cosmology/cosmology.py:54 | `dist.sort()` leaves the array ascending, a permutation of what it held, and equal to the reference sort |
| Cosmologies.AnchoredItems | cosmology/cosmology.py:53 | the anchored list is the absolute samples, then a final 0, all non-negative |
| Cosmologies.SortedDistancesSpec | cosmology/cosmology.py:52-54 | the distances are an ascending permutation of the anchored samples, n + 1 long, non-negative, and the first is 0 |
| Cosmologies.Generate | cosmology/cosmology.py:48-62 | there is one luminary per distance: n + 1 of them |
| Cosmologies.LuminaryCount | cosmology/cosmology.py:50-62 | with n drawn from [1, 13) there are between 2 and 13 luminaries |
| Cosmologies.LuminaryAttributes | cosmology/cosmology.py:52-62 | luminary i holds the i-th sorted distance, `visible == (distance <= 9.5)`, and the i-th triple with channels in [0, 255] |
| Cosmologies.CountTrue | cosmology/cosmology.py:39 | the visible count is at most the number of luminaries, and at least 1 when the first is visible |
| Cosmologies.VisibleCountIsMaskCount | cosmology/cosmology.py:39 | filtering luminaries on `l["visible"]` counts the true entries of the visibility mask |
| Cosmologies.VisibleCountBounds | cosmology/cosmology.py:39 | the initial number is at least 1 (the anchor is visible) and at most the number of luminaries |
| Cosmologies.CollectionCaseInsensitive | cosmology/cosmology.py:82 | the collection `count` looks up is the same for a name and its lower-case form |
| Cosmologies.Cosmology.constructor | cosmology/cosmology.py:30-39 | the seed kept is the one passed; n + 1 fresh, pairwise distinct luminaries are built from the pipeline; number is the one-element list of the visible count |
| Cosmologies.Cosmology.Count | cosmology/cosmology.py:69-82 | `count("luminary")` is the number of luminaries and `count("number")` the length of number, in any case; any other name raises AttributeError |
| Cosmologies.Cosmology.Repr | cosmology/cosmology.py:41-46 | the display form is `Cosmology(luminary=`, the luminary count in decimal (which reads back), then `, number=`, `str(number)` and `)` |
| Chronology.Timeline.constructor | chronology/timeline.py:28-32 | a new timeline is at day 0 with one empty slot and the default format |
| Chronology.Timeline.Day | chronology/timeline.py:54-57 | the day is one less than the number of slots |
| Chronology.Timeline.GetItem | chronology/timeline.py:46-47 | `t[k]` is the stored slot, and a slot never assigned is empty |
| Chronology.Timeline.SetItem | chronology/timeline.py:35-43 | one event is stored as a one-element list, a list as itself; only slot k changes; any other type raises TypeError with the source's message and changes nothing |
| Chronology.Timeline.Date | chronology/timeline.py:49-52 | with the default format the date is `str(day) + " days have elapsed."` |
| Chronology.Timeline.Progress | chronology/timeline.py:59-74 | `progress(d)`, with d = 1 by default, advances the day by d and appends d empty slots; d <= 0 changes nothing; `len(event) == day + 1` is kept |
| Chronology.Timeline.SetFormat | chronology/timeline.py:76-94 | afterwards `date` is f(day), or the default for `None`; day and slots are unchanged |

Every timeline method keeps the invariant `Valid()`.
It says `len(event) == day + 1`, and every slot no assignment has written is empty.

## Left out

- Random sources: `default_rng`, `random_sample` and `skewnorm.rvs` are not modelled.
  Their draws (`n`, the samples, the RGB triples) are constructor inputs, and their ranges are preconditions.
  The `rng` attribute is therefore absent.
- The seed is a natural number. numpy rejects negative seeds with an error; that path is not modelled.
- Seed derivation when no seed is given (a float `random_sample` scaled to 32 bits) is not modelled: the seed is always an input.
- Values in an attribute bag are limited to the five kinds of `Elements.Value`: strings, integers, booleans, two-decimal distances and RGB triples.
  Python's bag stores any value (`None`, lists, arbitrary floats, other objects); those are not modelled.
- Floating point: distances are whole numbers of hundredths, already rounded.
  numpy's `round(2)` is not modelled, and neither is the float comparison with 9.5 (it is exact on hundredths).
- `Sorting.SortInPlace` is an insertion sort, not numpy's sort.
  Any ascending permutation is the same sequence (`Sorting.SortedUnique`), so the outcome is the same.
- The `Luminary` class body is not part of this model.
  A luminary is an `Element` with class name Luminary and the keys `distance`, `visible` and `rgb`, in the order of the keyword arguments.
- The initial visible count is computed from the luminaries' key/value items.
  These are equal to the `Element` objects' associations (constructor postcondition); the objects themselves are not re-read.
- `Elements.Render`: values other than strings are rendered by an abstract `show` parameter, because Python's `str` of numpy floats, booleans and arrays is not modelled.
- `Elements.Element.Repr`: same abstract `show`; its contract gives only the frame of the display form, and `Elements.Render` and `Elements.RenderPutNew` give the entries.
- `Cosmologies.Cosmology.Count`: every name other than `luminary` and `number` (after lower-casing) is reported as AttributeError.
  For most names Python does the same, including the private seed, whose mangled name does not survive lower-casing.
  For `rng`, `seed` and `count`, Python's `getattr` finds the attribute and `len` then raises TypeError.
  For dunder names such as `__dict__`, `__doc__` or `__module__`, Python returns a length.
- `Text.Lower`: only ASCII letters are lowered; Python's Unicode case mapping is not modelled.
- `Chronology.Timeline.GetItem` and `Chronology.Timeline.SetItem` require `0 <= key < len(event)`.
  Python's negative indices and IndexError are not modelled.
- `Chronology.Timeline.SetItem` stores a list by value.
  Python stores the list object itself, so later changes through another reference would show in the slot; that aliasing is not modelled.
- The contents of an assigned list are not checked in the source.
  In the model a list carries values of the event type, so a list of non-events cannot be written.
- `Event` is not part of this model; it is an opaque type parameter.
- The `itertools.count` iterator behind the day counter is folded into the day field.
  Each `progress` step advances it by one.
- A user date format is a total `int -> string` function; a format that raises is not modelled.
- The drawn distances' distribution (the skew-normal shape and the scale 15) is not modelled; only the drawn values matter.
