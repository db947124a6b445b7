# ReadsAlignmentSet interface — a Dafny model

This project models `ReadsAlignmentSetInterfaceV1`, the layer of the SetAPI
service that validates and shapes requests to save and fetch a
ReadsAlignmentSet. A ReadsAlignmentSet is a set object that groups alignment
objects which must all be aligned against one genome.

- **Save side.** `save_reads_alignment_set` rejects a missing or null `data`.
  Otherwise it validates `data` in place:
  - it adds an empty `description` when there is none;
  - it rejects a missing or empty `items` list;
  - it walks the items, collecting their `ref`s and adding an empty `label`
    where one is missing;
  - it asks the object store for the objects' info and accepts only when
    their metadata carry exactly one distinct `genome_id`.

  Only then does it save the set through the generic set interface. It
  builds `set_ref` as `workspace id/object id/version` from positions 6, 0
  and 4 of the returned object info.
- **Get side.** `get_reads_alignment_set` requires a non-null `ref` that
  passes the reference-format check. It accepts `include_item_info` only as
  0 or 1 and turns it into a flag. It defaults `ref_path_to_set` to the empty
  list, then returns exactly what the generic set interface's `get_set`
  gives.

Files:
- `wrappers.dfy`: module `Wrappers`, with the `Option`, `Result` and `Outcome` types.
- `strings.dfy`: module `Strings`, with Python's `str` on integers as decimal
  rendering, a parser that reads it back, and splitting at a separator.
- `reads_alignment_set.dfy`: module `ReadsAlignmentSetInterface`, the model of
  the interface itself.

Modelling choices:
- The `data` dictionary is the class `SetData`. Its `description` field and
  its `items` array are what validation changes in place. Each item
  dictionary is an `Item` value in an array slot, so writing a label
  replaces that slot.
- Python dictionary keys that may be missing are `Option` fields. On the get
  side, a key can be absent, present but null, or present, so it is a
  `Field`.
- The object store's `get_object_info3` call is the parameter `lookup`, a
  function from the reference list sent to the list of object infos returned.
  The validator also returns the reference list it sent (`request`).
- `check_reference` comes from `SetAPI.util`, which is not part of this model.
  It is the parameter `checkReference: string -> bool`.
- `SetInterfaceV1.save_set` is not part of this model. Its result is the
  input `saveReply`, and `saved` says whether it would have been called.
  `get_set` is the parameter `getSet`.
- Each Python exception is one `Failure` case. A `KeyError` (an item without
  `ref`, an info without `genome_id`) and the `IndexError` of an empty save
  reply are failures too. `Message` gives the text Python shows for each: the
  `ValueError` message, the quoted key of a `KeyError`, or the `IndexError`
  text.

## Model

| member | source | states |
|---|---|---|
| `Strings.NatToDecimal` | lib/SetAPI/readsalignment/ReadsAlignmentSetInterfaceV1.py:26 | `str` of a non-negative integer is a non-empty run of digits with no leading zero unless the value is 0, one digit exactly for values below 10 |
| `Strings.IntToDecimal` | lib/SetAPI/readsalignment/ReadsAlignmentSetInterfaceV1.py:26 | `str` of any integer is digits, possibly after a leading minus sign, so it contains no `/` |
| `Strings.ParseIntOfDecimal` | lib/SetAPI/readsalignment/ReadsAlignmentSetInterfaceV1.py:26 | parsing the decimal rendering of an integer gives back that integer |
| `Strings.Split` | lib/SetAPI/readsalignment/ReadsAlignmentSetInterfaceV1.py:26 | splitting at `/` gives at least one piece and no piece contains `/` |
| `Strings.SplitAtFirstSeparator` | lib/SetAPI/readsalignment/ReadsAlignmentSetInterfaceV1.py:26 | joining a `/`-free piece to the rest with `/` splits back into that piece followed by the rest's pieces |
| `ReadsAlignmentSetInterface.WithLabels` | lib/SetAPI/readsalignment/ReadsAlignmentSetInterfaceV1.py:40-43 | label defaulting keeps the count, order and refs of the items; every item ends with a label, its old one when it had one and `""` when it had none |
| `ReadsAlignmentSetInterface.FirstMissingRef` | lib/SetAPI/readsalignment/ReadsAlignmentSetInterfaceV1.py:40-41 | the loop stops at the first item without `ref`: every earlier item has one, and that item has none |
| `ReadsAlignmentSetInterface.GenomeIds` | lib/SetAPI/readsalignment/ReadsAlignmentSetInterfaceV1.py:52 | the genome-id set exists exactly when every info's metadata has `genome_id`, and then it holds exactly those values |
| `ReadsAlignmentSetInterface.SameGenomeGivesSingleton` | lib/SetAPI/readsalignment/ReadsAlignmentSetInterfaceV1.py:52 | a non-empty list of infos that agree on `genome_id` yields the one-element set of that id |
| `ReadsAlignmentSetInterface.GenomeCheckPassesIff` | lib/SetAPI/readsalignment/ReadsAlignmentSetInterfaceV1.py:52-55 | the genome check passes if and only if there is at least one info, all have `genome_id`, and all have the same one; zero or several distinct ids are rejected |
| `ReadsAlignmentSetInterface.GenomeMismatchExample` | lib/SetAPI/readsalignment/ReadsAlignmentSetInterfaceV1.py:52-55 | alignments against `G1` and `G2` fail with the same-genome error |
| `ReadsAlignmentSetInterface.ValidationPassesIff` | lib/SetAPI/readsalignment/ReadsAlignmentSetInterfaceV1.py:35-55 | validation passes if and only if the items are present and non-empty, all have refs, and the store's infos for them name one genome |
| `ReadsAlignmentSetInterface.LabelsAfterValidation` | lib/SetAPI/readsalignment/ReadsAlignmentSetInterfaceV1.py:39-43 | after a successful validation, the item count, order and refs are unchanged; every item has a label, `""` exactly where it had none |
| `ReadsAlignmentSetInterface.ValidateData` | lib/SetAPI/readsalignment/ReadsAlignmentSetInterfaceV1.py:30-55 | the new `description` is `""` if it was absent and unchanged otherwise; the items are labelled up to the first item without `ref`; the request sent holds `{"ref": r}` per item in item order, and is sent only when the items are non-empty and all have refs; the outcome is the genome check on the reply |
| `ReadsAlignmentSetInterface.Message` | lib/SetAPI/readsalignment/ReadsAlignmentSetInterfaceV1.py:17-83 | no contract: the definition is the model, mapping each failure to the text raised at lines 17, 36-37, 54-55, 78, 80 and 83 (or the quoted key of a `KeyError`) |
| `ReadsAlignmentSetInterface.SetData.constructor` | lib/SetAPI/readsalignment/ReadsAlignmentSetInterfaceV1.py:30 | the `data` dictionary as an object: its `description` and its `items` array are the fields validation updates in place |
| `ReadsAlignmentSetInterface.SetData.Items` | lib/SetAPI/readsalignment/ReadsAlignmentSetInterfaceV1.py:35 | no contract: the definition is the model, giving `data["items"]` as a value, `None` when the key is absent; `ValidateData` is stated over it |
| `ReadsAlignmentSetInterface.LabelledItems` | lib/SetAPI/readsalignment/ReadsAlignmentSetInterfaceV1.py:40-43 | the items after the loop: same count and refs; up to the first item without `ref` a missing label becomes `""` and an existing one stays; from that item on, labels are untouched |
| `ReadsAlignmentSetInterface.RefList` | lib/SetAPI/readsalignment/ReadsAlignmentSetInterfaceV1.py:39-45 | one `{"ref": r}` per item, in item order, with `r` that item's ref |
| `ReadsAlignmentSetInterface.WorkspaceRequest` | lib/SetAPI/readsalignment/ReadsAlignmentSetInterfaceV1.py:35-51 | a reference list is sent exactly when the items are present, non-empty and all have refs, and then it holds each item's ref in item order |
| `ReadsAlignmentSetInterface.GenomeCheck` | lib/SetAPI/readsalignment/ReadsAlignmentSetInterfaceV1.py:52-55 | no contract: the definition is the model (a missing key fails, otherwise pass exactly when the set has one element); `GenomeCheckPassesIff` describes it |
| `ReadsAlignmentSetInterface.ValidationOutcome` | lib/SetAPI/readsalignment/ReadsAlignmentSetInterfaceV1.py:35-55 | no contract: the definition is the model, giving the checks in the source's order (empty items, then a missing ref, then the genome check on the store's reply); `ValidationPassesIff` describes it |
| `ReadsAlignmentSetInterface.SetRef` | lib/SetAPI/readsalignment/ReadsAlignmentSetInterfaceV1.py:26 | no contract: the definition is the model, joining workspace id, object id and version in decimal with `/`; `SetRefRoundTrip`, `SetRefInjective` and `SetRefExample` describe it |
| `ReadsAlignmentSetInterface.SetRefRoundTrip` | lib/SetAPI/readsalignment/ReadsAlignmentSetInterfaceV1.py:26 | `set_ref` reads back as the info's workspace id, object id and version, in that order |
| `ReadsAlignmentSetInterface.SetRefInjective` | lib/SetAPI/readsalignment/ReadsAlignmentSetInterfaceV1.py:26 | two infos with the same `set_ref` agree on workspace id, object id and version |
| `ReadsAlignmentSetInterface.SetRefExample` | lib/SetAPI/readsalignment/ReadsAlignmentSetInterfaceV1.py:26 | object id 5, version 3 and workspace id 7 give `"7/5/3"` |
| `ReadsAlignmentSetInterface.BuildSaveResult` | lib/SetAPI/readsalignment/ReadsAlignmentSetInterfaceV1.py:24-28 | `set_info` is the first info of the save reply, unchanged; `set_ref` is `SetRef` of it, so it encodes positions 6, 0 and 4; an empty reply is an error |
| `ReadsAlignmentSetInterface.SaveReadsAlignmentSet` | lib/SetAPI/readsalignment/ReadsAlignmentSetInterfaceV1.py:13-28 | a null or absent `data` is rejected with nothing sent or saved; otherwise `data` is validated in place, and the save happens if and only if validation passes |
| `ReadsAlignmentSetInterface.CheckGetParams` | lib/SetAPI/readsalignment/ReadsAlignmentSetInterfaceV1.py:76-83 | the parameters pass if and only if `ref` is present, non-null and passes `check_reference`, and `include_item_info` is absent, 0 or 1 |
| `ReadsAlignmentSetInterface.RefCheckedBeforeFormat` | lib/SetAPI/readsalignment/ReadsAlignmentSetInterfaceV1.py:77-79 | a missing or null `ref` is rejected whatever `check_reference` would say |
| `ReadsAlignmentSetInterface.GetRequestOf` | lib/SetAPI/readsalignment/ReadsAlignmentSetInterfaceV1.py:60-67 | the flag is true exactly when `include_item_info` is 1; `ref_path_to_set` is `[]` when absent and passed through, null included, when present |
| `ReadsAlignmentSetInterface.IncludeItemInfoFaithful` | lib/SetAPI/readsalignment/ReadsAlignmentSetInterfaceV1.py:60-63 | on accepted parameters the flag loses nothing: a present value is 1 exactly when the flag is set, and an absent one gives false |
| `ReadsAlignmentSetInterface.GetReadsAlignmentSet` | lib/SetAPI/readsalignment/ReadsAlignmentSetInterfaceV1.py:57-74 | a fetch fails exactly when the parameter check fails, with the same error; otherwise it returns `get_set`'s result for the defaulted request, unmodified |

## Left out

- The object store's network call (`get_object_info3`, line 51). Its reply is the function parameter `lookup`, so transport failures are not modelled.
- `SetInterfaceV1.save_set` and `get_set` (lines 19-23, 69-73). These are not part of this model. Their results are the inputs `saveReply` and `getSet`, and the type name and provenance they receive are not modelled.
- `check_reference`'s syntax (line 79). `SetAPI.util` is not part of this model, so the check is an arbitrary predicate parameter.
- Provenance (`ctx['provenance']`, line 21). It is passed through opaquely and plays no part in any decision.
- Exception classes. `ValueError`, `KeyError` and `IndexError` are all one `Failure` result, told apart only by their case.
- Python's dynamic typing. A `description` or `label` that is present but null is left unchanged by the source, and the model does not tell it apart from a present string. An item whose `ref` is present but null is collected and sent by the source; the model has no such item, as `Item.ref` is either absent or a string. The model also does not cover an `items` value that is null or not a list, or an `include_item_info` given as `True`/`False` or as a float.
- Aliasing of item dictionaries. Each item is its own array slot, so one dictionary listed twice is not modelled. Items decoded from a JSON request are distinct objects in any case.
- The object store returns one info per reference sent, in order. `lookup` does not have to respect this, and no property depends on it.
