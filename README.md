# useInertiaForm core, modelled in Dafny

useInertiaForm is a React hook library for forms that submit to an Inertia.js
(Rails) back end. This project models the part of it that is not React
plumbing:

- The path-addressed tree engine that form data lives in. Paths are written
  in dot/bracket notation (`user.phones[0].number`, `contacts[].phone`). Its
  operations are:
  - lodash-style `get` and `set` at such a path;
  - `unsetCompact`, which removes a value and splices array elements out
    rather than leaving holes;
  - `fillEmptyValues`, `renameObjectWithAttributes`, `stripAttributes`,
    `coerceArray` and `isUnset`.
- The older `unsetCompact` and `fillEmptyValues` of `src/utils.ts`.
- Both versions of `inputStrategy`, which builds an input's `name` and `id`
  attributes.
- The form state of `useInertiaForm`, as the class `InertiaForm.Form`. It
  holds:
  - the data and the defaults;
  - the error map and `hasErrors`;
  - the submission flags and the cancel token;
  - whether the form is mounted;
  - the `transform` callback.

  It has one method per data, default and error operation, and one per
  submission hook. The hooks are also written as functions on a `Status`
  value, so that lemmas can follow a whole sequence of events.
- Both versions of `useDynamicInputs`, which keeps a list of records at one
  path of the form data.

Modules, one per file:

| module | file | what it holds |
|---|---|---|
| JsonValues | json.dfy | form values (`Json`), `Option`, `Result` |
| Paths | paths.dfy | path tokens, writing a path down and reading it back |
| Tree | tree.dfy | `get`/`set` at a token path |
| Text | text.dfy | first-occurrence search and replace |
| UnsetCompact | unset_compact.dfy | `unsetCompact` |
| LegacyUtils | legacy_utils.dfy | the older `unsetCompact` and `fillEmptyValues` |
| FillEmptyValues | fill_empty_values.dfy | `fillEmptyValues` |
| IsUnset | is_unset.dfy | `isUnset` |
| AttributeUtils | attribute_utils.dfy | `stripAttributes`, `coerceArray` |
| RenameAttributes | rename_attributes.dfy | `renameObjectWithAttributes` |
| InputStrategy | input_strategy.dfy | both `inputStrategy` versions |
| InertiaForm | inertia_form.dfy | the form class and its hooks |
| FormProperties | form_properties.dfy | lemmas about the form |
| DynamicInputs | dynamic_inputs.dfy | both `useDynamicInputs` versions |

Modelling choices:

- Values are JSON-like: strings, integers, booleans, `null`, `undefined`,
  arrays and objects. Objects are maps, so key order is not recorded.
- A path string is read into tokens: `Key(name)`, `Index(i)` and
  `Wildcard` (for `[]`). There are two readings.
  - `RawParse` keeps every token as written, including empty keys:
    `a.[0]` is `a`, `""`, `[0]`.
  - `Parse` is lodash's reading. It is `RawParse` followed by `Resolve`,
    which drops an empty key directly before a bracket, so `a.[0]` reads as
    `a[0]`. Other empty keys stay the key `""`: `a.` reads as `a` then `""`.
  - `get` and `set` read a path as lodash does. `unsetCompact` cuts the
    string itself before a bracket and hands each piece to lodash, so it is
    modelled on the raw tokens, and each prefix is read with `Resolve`.
- In the model a key reads only an object and an index only an array.
  lodash also reads a digit key such as `a.0` as element 0 of an array;
  the model does not (see "Left out").
- `set` creates an object for a missing step that a key follows, and an
  array for one that an index follows. Where an index points past the end
  of an array, it pads the array with `undefined`.
- Where the source mutates a clone and hands it back, the model computes
  the new value and the method assigns it.
- Where the source mutates its argument in place, the model keeps the
  mutation:
  - `unsetCompact` works on the `root` field of an `UnsetCompact.Document`;
  - the form methods reassign the fields of `Form`.
- Where a loop computes the result, the method keeps the loop and is proved
  equal to a specification function.

## Model

| member | source | states |
|---|---|---|
| UnsetCompact.Document.UnsetCompact | src/utils/unsetCompact.ts:11-42 | The in-place removal, with its `for` loop over the elements of a `[]` array, leaves exactly the tree `Compacted` describes. |
| UnsetCompact.KeyRemoved | src/utils/unsetCompact.ts:39-41 | A path ending in key `k` deletes exactly `k` from the object that lodash reads at the text before it. When that parent is not an object, nothing changes. |
| UnsetCompact.CompactedKey | src/utils/unsetCompact.ts:39-41 | Removing a path that ends in a key is a key deletion at the parent lodash reads from the text before the key. |
| UnsetCompact.KeyRemovedFrame | src/utils/unsetCompact.ts:39-41 | Removing a key leaves every node off its path unchanged. |
| UnsetCompact.IndexSpliced | src/utils/unsetCompact.ts:30-38 | `q[i]` splices element `i` out of the array that lodash reads at the text `q` before the bracket: one element fewer, the others in their original order. |
| UnsetCompact.CompactedIndex | src/utils/unsetCompact.ts:32-37 | Removing a path that ends in an index is a splice at the array lodash reads from the text before the bracket. |
| UnsetCompact.IndexOutOfRange | src/utils/unsetCompact.ts:34-37 | When the text before `[i]` reads no array, or `i` is past its end, the tree is unchanged. |
| UnsetCompact.TrailingWildcardIgnored | src/utils/unsetCompact.ts:12-13 | One trailing `[]` is dropped first, so `p[]` removes exactly what `p` removes. |
| UnsetCompact.MissingParentUnchanged | src/utils/unsetCompact.ts:32-41 | A path without `[]` whose parent is missing changes nothing. |
| UnsetCompact.WildcardEach | src/utils/unsetCompact.ts:16-28 | `start[].rest` removes `rest` below elements 0, 1, … of the array lodash reads at `start`, in order, once per element. The array keeps its length. Without an array there, nothing changes. |
| UnsetCompact.RemoveLastThroughWildcard | src/utils/unsetCompact.ts:32-41 | After the loop, the final splice or unset of a path running through `[]` finds nothing, so it changes nothing. |
| UnsetCompact.WithinIndependent | src/utils/unsetCompact.ts:16-28 | The loop bound used to define the removal does not change its result. |
| LegacyUtils.UnsetCompactLegacy | src/utils.ts:19-32 | The older version (unset, then a `while` loop copying each array before a `[` without holes) computes `LegacyUnsetCompact`. It gives `Err` where `forEach` throws. |
| LegacyUtils.Unset | src/utils.ts:20 | lodash `unset` deletes a key. An element of an array becomes a hole, reported beside the tree. |
| LegacyUtils.CopyPresent | src/utils.ts:26-27 | The `forEach`/`push` copy drops only the hole: the other elements stay, in order. |
| LegacyUtils.LegacyThrows | src/utils.ts:22-27 | The older version throws exactly when some prefix before a `[` of the path holds no array. |
| LegacyUtils.UnsetKeyKeepsPrefixes | src/utils.ts:20-27 | The unset does not change which bracket prefixes hold arrays. |
| LegacyUtils.LegacyAgrees | src/utils.ts:19-32 | Where it does not throw, and the path has no `[]` and no empty key before a bracket, the older version leaves the same tree as the current one. This covers splicing `a[i]` and the plain unset of a path without `[`. |
| LegacyUtils.LegacyFill | src/utils.ts:34-46 | The older `fillEmptyValues` keeps an object's keys, leaves no entry null or undefined, and copies arrays unchanged. |
| LegacyUtils.LegacyField | src/utils.ts:38-42 | One entry: never nullish afterwards, and an array is kept as it is. |
| LegacyUtils.LegacyFillAgrees | src/utils.ts:34-46 | On data without arrays, the older and current `fillEmptyValues` agree, except that the current one turns a missing argument into `{}`. |
| LegacyUtils.FillEmptyValuesLegacy | src/utils.ts:34-46 | The `for…in` loop over a clone computes `LegacyFill`. |
| FillEmptyValues.Fill | src/utils/fillEmptyValues.ts:9-26 | The result has no null or undefined anywhere and the same shape as the input: the same keys, array lengths and other scalars. A missing argument gives `{}`. |
| FillEmptyValues.FillField | src/utils/fillEmptyValues.ts:13-22 | One entry: no nullish value anywhere, the same shape, and a nullish entry becomes `""`. |
| FillEmptyValues.FilledUnchanged | src/utils/fillEmptyValues.ts:12-23 | A value without null or undefined comes back unchanged. |
| FillEmptyValues.FillIdempotent | src/utils/fillEmptyValues.ts:9-26 | Filling twice equals filling once. |
| FillEmptyValues.FillEmptyValues | src/utils/fillEmptyValues.ts:9-26 | The `for…in` loop over the clone computes `Fill`. |
| FillEmptyValues.FillObject | src/utils/fillEmptyValues.ts:12-23 | The loop over an object's keys computes `Fill`. |
| FillEmptyValues.FillArray | src/utils/fillEmptyValues.ts:16-18 | The element-wise `map` computes `Fill`, so a nullish element becomes `{}`. |
| FillEmptyValues.FillEntry | src/utils/fillEmptyValues.ts:13-22 | The loop body for one entry computes `FillField`. |
| IsUnset.IsUnset | src/utils/isUnset.ts:6-28 | True exactly for `null`, `undefined`, `""`, `[]` and `{}`; every other value, including `0` and `false`, is set. |
| IsUnset.SameShapeUnset | src/utils/isUnset.ts:6-28 | Two values of the same shape are both unset or both set. This holds because `isUnset` is true exactly for nullish values, `""` and empty arrays and objects. |
| IsUnset.FillKeepsUnset | src/utils/isUnset.ts:6-28 | `fillEmptyValues` does not change whether a value, or any entry it rewrites, is unset. |
| AttributeUtils.StripAttributesSpec | src/utils/index.ts:10-11 | Without `a.` in the string, nothing changes. Otherwise only the first `a.` becomes `.`: the result is `\|a\|` shorter, agrees before and after the match, and putting `a` back restores the input. |
| AttributeUtils.StripRenamedKey | src/utils/index.ts:10-11 | Stripping undoes the renaming of one segment: `k` + `a` + `.rest` becomes `k.rest`. |
| AttributeUtils.CoerceArray | src/utils/index.ts:16 | Always an array. An array comes back as it is; anything else is wrapped in a one-element array. |
| RenameAttributes.RenameObjectWithAttributes | src/utils/renameObjectWithAttributes.ts:7-17 | `null`/`undefined` throws. Top-level keys are never renamed, and only plain-object top-level values (array elements, for an array) are processed. The result is `RenameObjectAs` wherever new names do not clash. |
| RenameAttributes.RecursiveAppendString | src/utils/renameObjectWithAttributes.ts:19-29 | The loop over the entries gives `RenamedAs`: an object-valued key gets the suffix and its value is processed recursively. An array-valued key gets the suffix and keeps its elements. A scalar keeps its key and value. There is no other key. |
| RenameAttributes.RenamedUnique | src/utils/renameObjectWithAttributes.ts:19-29 | Where names do not clash, the renamed object is uniquely determined. |
| RenameAttributes.EmptySuffixIdentity | src/utils/renameObjectWithAttributes.ts:31-36 | With an empty suffix, `renameKey` does nothing, so the result equals the input. |
| RenameAttributes.RenamedKeyCount | src/utils/renameObjectWithAttributes.ts:32-35 | A renamed key carries the old value, and the old key is gone. An object whose new names do not clash keeps its key count. |
| InputStrategy.Strategy | src/useInertiaInput/inputStrategy.ts:11-31 | With a falsy model, id and name are both the name. Otherwise the name starts with the model. |
| InputStrategy.LegacyStrategy | src/useInertiaInput.ts:14-34 | The same two facts for the older version. |
| InputStrategy.SameInputName | src/useInertiaInput/inputStrategy.ts:19-25 | Both versions build the same `inputName`. |
| InputStrategy.InputNameJoinsPaths | src/useInertiaInput/inputStrategy.ts:21-25 | Reading the input name back as a path gives the model's tokens, then the name's. A name that starts with `[` is appended without a dot. |
| InputStrategy.FindDigitIndex | src/useInertiaInput/inputStrategy.ts:28 | Finds the first match of `/\[(\d)\]/`, and no earlier position matches. |
| InputStrategy.ReplaceDigitIndexSpec | src/useInertiaInput/inputStrategy.ts:28 | Only the first one-digit `[d]` becomes `_d`: one character shorter, everything else kept. Without such a match, nothing changes. |
| InputStrategy.MultiDigitIndexKept | src/useInertiaInput/inputStrategy.ts:28 | A multi-digit index `[12]` is never matched. |
| InputStrategy.StrategyIdDots | src/useInertiaInput/inputStrategy.ts:28 | The current id has one dot fewer than model and name together, when there is one: the first dot anywhere is replaced. |
| InputStrategy.LegacyIdDots | src/useInertiaInput.ts:31 | In the older id, only a dot of the model can be replaced; every dot of the name survives. |
| InputStrategy.IdsAgreeWithDottedModel | src/useInertiaInput.ts:31 | When the model has a dot, the two versions build the same id. |
| Text.ReplaceFirstSpec | src/useInertiaInput/inputStrategy.ts:28 | `replace` with a string pattern replaces the first occurrence only, and putting the pattern back restores the input. |
| Text.ReplaceCharCount | src/useInertiaInput/inputStrategy.ts:28 | Replacing the first `.` by `_` removes one dot when there is one. |
| Paths.ParseRender | src/utils/unsetCompact.ts:18-25 | A well-formed token path, written down and read back, gives itself. |
| Paths.ParseResolved | src/utils/unsetCompact.ts:18-41 | lodash's reading of a path string is its token-by-token reading with each empty key before a bracket dropped. |
| Paths.ResolveAppend | src/utils/unsetCompact.ts:18-41 | Cutting the text at a token that is not an empty key before a bracket: lodash reads the two pieces as the whole, split in two. |
| Paths.RawParseRender | src/utils/unsetCompact.ts:18-25 | A path of plain keys and indices, written down, reads back token by token as itself. |
| Paths.RawParseAppendIndex | src/Inputs/useDynamicInputs.ts:56 | Appending `[i]` to any readable path string appends exactly the token `Index(i)`. |
| Paths.DigitsValueOfNatToString | src/utils/unsetCompact.ts:33-37 | The index written into `[${i}]` reads back as `i`. |
| Paths.ParseAppendIndex | src/Inputs/useDynamicInputs.ts:56 | Appending `[i]` to a rendered path appends the token `Index(i)`, unless the path ends in an empty key. |
| Paths.ParseThen | src/Inputs/useDynamicInputs.ts:26-29 | A rendered path followed by more path text reads as the path's tokens, then those of the text. |
| Paths.ParseTailDotIndex | src/Inputs/useDynamicInputs.ts:56 | `.[i]` reads as the index alone: the empty key before the bracket is dropped. |
| Tree.GetSet | src/useInertiaForm.ts:346-380 | After `set(t, p, v)`, `get(t, p)` is `v`, wherever `set` can write. |
| Tree.UnsettableMissing | src/useInertiaForm.ts:346-380 | Where `set` cannot carry the write through, the path reads nothing afterwards. |
| Tree.GetSetOther | src/useInertiaForm.ts:354 | A write leaves every node off its path unchanged. |
| Tree.SetTwice | src/useInertiaForm.ts:354 | A second write at the same path overrides the first. |
| Tree.SetSame | src/useInertiaForm.ts:354 | Writing back the value already at a path changes nothing. |
| Tree.ExistingSettable | src/useInertiaForm.ts:354 | A path that already leads somewhere can be written through. |
| InertiaForm.Form.constructor | src/useInertiaForm.ts:111-124 | Data are the filled initial values. Defaults equal them when truthy, else `{}`, so the form starts clean. There are no errors and no flags, and the `transform` callback is the identity. |
| InertiaForm.Form.Mount | src/useInertiaForm.ts:162-167 | The mount effect sets `mounted`. |
| InertiaForm.Form.Unmount | src/useInertiaForm.ts:162-167 | The cleanup clears `mounted` and nothing else. |
| InertiaForm.Form.SetData | src/useInertiaForm.ts:346-358 | The value is written into a copy of the data, where `getData(key)` then finds it. |
| InertiaForm.Form.SetAll | src/useInertiaForm.ts:371-375 | `setData(object)` replaces the data. |
| InertiaForm.Form.Update | src/useInertiaForm.ts:360-369 | `setData(callback)` stores the callback's result on the old data. |
| InertiaForm.Form.GetData | src/useInertiaForm.ts:378-380 | `getData(k)` for a plain key `k` of object data is the value stored under `k`, or nothing when `k` is absent. |
| InertiaForm.Form.IsDirty | src/useInertiaForm.ts:330 | The form is dirty exactly when the data differ from the defaults. |
| InertiaForm.Form.UnsetData | src/useInertiaForm.ts:382-391 | The data become `unsetCompact` of the key, read token by token as written, applied to a copy. |
| InertiaForm.Form.SetTransform | src/useInertiaForm.ts:338-340 | Stores the transform callback. |
| InertiaForm.Form.SnapshotDefaults | src/useInertiaForm.ts:394-397 | `setDefaults()` makes the defaults the current data, so the form is clean. |
| InertiaForm.Form.SetDefault | src/useInertiaForm.ts:399-402 | `setDefaults(k, v)` adds `k` as a literal top-level key. |
| InertiaForm.Form.MergeDefaults | src/useInertiaForm.ts:399-402 | `setDefaults(obj)` shallow-merges `obj` over the defaults. |
| InertiaForm.Form.Reset | src/useInertiaForm.ts:405-426 | `reset()` restores all data, empties the errors and leaves `hasErrors`. `reset(fields)` sets each listed path in a copy from the defaults, keeps only the errors not listed, and recomputes `hasErrors`. |
| InertiaForm.Form.GetError | src/useInertiaForm.ts:441-443 | An error stored under the literal key (as `root.k` is stored) is found; a plain key with no entry reads nothing. |
| InertiaForm.Form.SetError | src/useInertiaForm.ts:428-439 | The new entries are merged over the errors, and `hasErrors` says whether any remain. |
| InertiaForm.Form.ClearErrors | src/useInertiaForm.ts:307-326 | `clearErrors()` empties the map and leaves `hasErrors` as it was. `clearErrors(fields)` keeps the unlisted entries and recomputes `hasErrors`. |
| InertiaForm.Form.Submit | src/useInertiaForm.ts:277-297 | The payload is the transformed data, renamed with `_attributes` when the form asks for Rails attributes; renaming `null`/`undefined` throws. An async submit whose payload was built runs the before and start hooks itself; otherwise the status is unchanged. The root model key of the submitted data is kept for the error hook. |
| InertiaForm.Form.OnCancelToken | src/useInertiaForm.ts:192-198 | Stores the cancel token. |
| InertiaForm.Form.OnBefore | src/useInertiaForm.ts:199-207 | Clears `wasSuccessful` and `recentlySuccessful`, and cancels the pending timer. |
| InertiaForm.Form.OnStart | src/useInertiaForm.ts:208-214 | Sets `processing`. |
| InertiaForm.Form.OnProgress | src/useInertiaForm.ts:215-221 | Stores the progress event. |
| InertiaForm.Form.OnSuccess | src/useInertiaForm.ts:222-240 | While mounted: idle, no progress, no errors, `hasErrors` false, successful and recently successful, with the timer scheduled. Unmounted: nothing. |
| InertiaForm.Form.OnError | src/useInertiaForm.ts:241-252 | While mounted: idle, no progress, and the errors replaced by the server's errors rewritten under the root model key of the data that were submitted, `hasErrors` true. |
| InertiaForm.Form.OnCancel | src/useInertiaForm.ts:253-262 | While mounted: `processing` false, `progress` null. |
| InertiaForm.Form.OnFinish | src/useInertiaForm.ts:263-274 | While mounted: `processing` false, `progress` null. Always drops the cancel token. |
| InertiaForm.Form.ExpireRecentlySuccessful | src/useInertiaForm.ts:230-234 | The scheduled timeout fires once: it clears `recentlySuccessful` if still mounted. A cancelled timeout does nothing. |
| InertiaForm.Form.Cancel | src/useInertiaForm.ts:469-473 | `cancel()` acts on the stored token, if there is one. |
| FormProperties.CancelTokenOfRun | src/useInertiaForm.ts:192-274 | After any sequence of hooks, the stored token is the one the latest `onCancelToken` delivered, unless an `onFinish` came after it; so `cancel()` reaches the visit in flight and nothing once it finished. |
| InertiaForm.RootModelKey | src/useInertiaForm.ts:127-134 | A root model key is only ever the single key of a one-key object whose value is a plain object, or `"0"` for a one-element array holding one. |
| InertiaForm.RewriteErrorKeys | src/useInertiaForm.ts:141-149 | Without a root key the errors come back as they are. Under root `r`, each error `k` is stored as `r.k` with its value. |
| InertiaForm.OnlyKey | src/useInertiaForm.ts:128-131 | The single key of a one-key object. |
| InertiaForm.PrefixedInverse | src/useInertiaForm.ts:145-147 | `root.k` starts with `root.`, and stripping that prefix gives `k` back. |
| FormProperties.RootModelKeySpec | src/useInertiaForm.ts:127-134 | The root model key is `k` exactly when the data is an object whose only key `k` holds a plain object. For a one-element array holding a plain object, it is `"0"`. |
| FormProperties.RewriteErrorKeysSpec | src/useInertiaForm.ts:141-149 | Under root `r`, every server error `k` is stored as `r.k` with its value. Every stored key is such an `r.k`. |
| FormProperties.ErrorsWithoutRoot | src/useInertiaForm.ts:142 | Without a usable root model key, errors are stored as they come. |
| FormProperties.SetErrorThenGet | src/useInertiaForm.ts:428-443 | After `setError(f, v)`, `getError(f)` is `v`, other errors stay, and `hasErrors` holds. |
| FormProperties.SetErrorsMerge | src/useInertiaForm.ts:430-435 | `setError(object)` keeps every old key, and the new entries win. |
| FormProperties.ClearedErrorsSpec | src/useInertiaForm.ts:313-324 | `clearErrors(fields)` keeps exactly the errors whose key is not listed, with their values. An empty list keeps none. |
| FormProperties.SetDefaultTopLevel | src/useInertiaForm.ts:399-402 | `setDefaults(k, v)` writes the top-level key `k` and leaves every path that starts elsewhere. |
| FormProperties.DottedKeyIsNotItsPath | src/useInertiaForm.ts:401 | A dotted key is not the path it spells. |
| FormProperties.SetDefaultDottedKey | src/useInertiaForm.ts:399-402 | `setDefaults("user.username", v)` leaves the nested `user.username` of the defaults untouched. |
| FormProperties.ResetFieldsAppend | src/useInertiaForm.ts:418-420 | The `forEach` over the fields composes: resetting `a + b` is resetting `a`, then `b`. |
| FormProperties.ResetFieldsFrame | src/useInertiaForm.ts:418-420 | `reset(fields)` leaves every path that diverges from all listed ones. |
| FormProperties.ResetFieldsReads | src/useInertiaForm.ts:418-420 | A listed path that `set` can write when its turn comes, and that no later listed path overlaps, reads its default afterwards. |
| FormProperties.PresentSettable | src/useInertiaForm.ts:418-420 | A listed path that is present in the data and apart from the paths listed before it can be written when its turn comes. |
| FormProperties.RunAppend | src/useInertiaForm.ts:187-297 | Running events `a + b` is running `a`, then `b`. |
| FormProperties.RunConsistent | src/useInertiaForm.ts:199-274 | No sequence of hooks breaks: timer pending ⇒ recently successful ⇒ was successful. |
| FormProperties.UploadsOnlyProgress | src/useInertiaForm.ts:215-221 | Upload progress only changes `progress`, to the latest event. |
| FormProperties.AsyncSuccess | src/useInertiaForm.ts:281-297 | A mounted async submit that succeeds (before, start, uploads, success, finish) ends idle, successful, without errors or cancel token, with the timer set. |
| FormProperties.AsyncError | src/useInertiaForm.ts:281-297 | A mounted async submit that fails ends idle, not successful, without cancel token, holding the rewritten server errors with `hasErrors`. |
| FormProperties.UnmountedKeepsErrors | src/useInertiaForm.ts:222-252 | Once unmounted, no hook changes the errors or `hasErrors`. |
| FormProperties.SuccessTimer | src/useInertiaForm.ts:199-234 | The timer clears `recentlySuccessful` and keeps `wasSuccessful`. A new submission first clears the timer, so it never fires. |
| DynamicInputs.TargetInForm | src/Inputs/useDynamicInputs.ts:22-29 | Inside a form model and nested fields, the target reads as the form model's path, then the nested path, then the model's key. |
| DynamicInputs.TargetNestedOnly | src/Inputs/useDynamicInputs.ts:22-29 | Without a form model, the nested path alone gives the scope. |
| DynamicInputs.TargetUnscoped | src/useDynamicInputs.ts:21-28 | Outside nested fields, the form model alone gives the scope. Without one, the scope is the empty key. |
| DynamicInputs.TargetPath | src/Inputs/useDynamicInputs.ts:29 | A dot and a key after a rendered scope read back as the scope, then that key. |
| DynamicInputs.ElementOfTarget | src/Inputs/useDynamicInputs.ts:56-57 | With a model, `${inputModel}[${i}]` reads as the target path, then index `i`. |
| DynamicInputs.ElementOfPath | src/Inputs/useDynamicInputs.ts:56 | `name[i]` for a rendered path is that path, then `Index(i)`. |
| DynamicInputs.ElementOfNothing | src/Inputs/useDynamicInputs.ts:66 | `[i]` alone reads as `Index(i)`. |
| DynamicInputs.AddRecord | src/Inputs/useDynamicInputs.ts:32-52 | The `setData` callback computes `AppendRecord`. |
| DynamicInputs.AddRecordLegacy | src/useDynamicInputs.ts:31-44 | The older callback computes `AppendRecord` without an override. |
| DynamicInputs.NewArrayFound | src/Inputs/useDynamicInputs.ts:36-39 | Where no array is at the target, `set` then `get` finds an empty one, or nothing when the target cannot be written. |
| DynamicInputs.AppendRecordSpec | src/Inputs/useDynamicInputs.ts:34-49 | `addInput` succeeds exactly when the target can be written. The target then holds the old records, then one new record: `emptyData` with the override's fields, a function override being given the old records. |
| DynamicInputs.AppendRecordFrame | src/Inputs/useDynamicInputs.ts:48-49 | `addInput` leaves every value off the target's path unchanged. |
| DynamicInputs.LegacyRecordIsEmptyData | src/useDynamicInputs.ts:40-41 | The older `addInput` appends `emptyData` itself, so the list grows by exactly that record. |
| DynamicInputs.AddInput | src/Inputs/useDynamicInputs.ts:31-53 | The form data become the appended tree. Where `push` would throw, the data stay. |
| DynamicInputs.AddInputLegacy | src/useDynamicInputs.ts:30-45 | The same for the older `addInput`. |
| DynamicInputs.RemoveInput | src/Inputs/useDynamicInputs.ts:55-59 | The evidently intended `removeInput`: returns what lodash reads at `${inputModel}[${i}]` in the current data before removal, and applies `unsetCompact` to that string, read token by token as written. |
| DynamicInputs.RemoveInputAsWritten | src/Inputs/useDynamicInputs.ts:55-59 | `removeInput` as written: the record is read from the data of the hook's first render, since the callback is memoised with no dependencies; the removal acts on the current data. |
| DynamicInputs.StaleReadMissesAddedRecord | src/Inputs/useDynamicInputs.ts:31-59 | With the data seen at mount, removing the record `addInput` added reads nothing, although the record is in the current data and the removal takes it out of the list. |
| DynamicInputs.RemoveInputLegacy | src/useDynamicInputs.ts:47-49 | Applies `unsetCompact` to `${inputModel}[${i}]`, read token by token as written. |
| DynamicInputs.RemovesElement | src/Inputs/useDynamicInputs.ts:55-59 | For an existing record of the list lodash reads at the written target, removal leaves the other records, in order: one fewer. When the target does not end in an empty key, the record read is element `i`. |
| DynamicInputs.RemovesNothing | src/Inputs/useDynamicInputs.ts:55-59 | For a missing record, nothing changes, and (target not ending in an empty key) nothing is read. |
| DynamicInputs.RemoveInputSpec | src/Inputs/useDynamicInputs.ts:55-59 | From the `inputModel` string: when it does not end in an empty key, `removeInput(i)` returns element `i` of the list at `inputModel` and removes exactly it; a missing element is neither read nor removed. |
| DynamicInputs.InputPaths | src/Inputs/useDynamicInputs.ts:61-67 | One path per record of the array at the target, none without an array. |
| DynamicInputs.InputPathsSpec | src/Inputs/useDynamicInputs.ts:61-67 | One path per record, none without an array. Path `i` reads back as the model's key and index `i` (the index alone without a model). |
| DynamicInputs.ElementPathParses | src/useDynamicInputs.ts:56 | `${model}[${i}]` reads back as the model's key and index `i`. |
| DynamicInputs.PathsAfterAdd | src/Inputs/useDynamicInputs.ts:48-67 | After `addInput`, there is one more path: the one for the new record. |
| DynamicInputs.PathsAfterRemove | src/Inputs/useDynamicInputs.ts:55-67 | After removing an existing record of the list lodash reads at the written target, the last path is gone. |
| DynamicInputs.RemoveMissesTargetWithoutModel | src/Inputs/useDynamicInputs.ts:29-59 | Without a model, `addInput` grows a list at `scope.""`. `removeInput(i)` reads `scope.[i]` with lodash, which is `scope[i]`, and returns nothing, while `unsetCompact` still splices element `i` out of the list at `scope.""`. |
| DynamicInputs.IntendedElementPath | src/Inputs/useDynamicInputs.ts:29-57 | With the dot and the model added only for a non-empty model, element `i` is always index `i` of the list `addInput` grows, and the target never ends in an empty key. With a model, the name equals the one the code builds. |
| DynamicInputs.IntendedRemoval | src/Inputs/useDynamicInputs.ts:29-59 | With that target, `removeInput(i)` returns element `i` of the list `addInput` grows and removes exactly it. |

## Left out

- React, context lookup, rendering, and the `onChange` callback and its effect timing. They are UI plumbing.
- The network and persistence: `router.visit`/`router[method]`, the axios call, the HTTP method and URL, and `useMaybeRemember`/`rememberKey`. The hooks are events that the caller fires, in any order.
- The user's own callbacks in the visit options, which each hook calls after its own work. They are opaque to the form.
- Real time: the 2000 ms timeout is the explicit event `ExpireRecentlySuccessful`, and the mount effect is `Mount`/`Unmount`.
- InertiaForm.Form.OnSuccess: a second success while a timer is pending overwrites the timeout id without clearing the first timeout. The model keeps a single pending flag, so the first timeout's later firing is not modelled.
- InertiaForm.Form.OnBefore, OnStart and OnProgress are not guarded by the mounted flag, following the code.
- InertiaForm.Form.OnError: in async mode the code passes the rejection object itself to `onError`. The model takes an error map, as a router visit delivers.
- Dates, NaN and floating point: `isUnset`'s NaN and invalid-Date branches are left out, and numbers are integers. Progress events are opaque.
- lodash's full path grammar: quoted keys, non-canonical indices (`[01]`) and other strings outside the modelled grammar. Operations that take a path string require it to parse.
- InertiaForm.Form.GetData: lodash `get` also tries a literal key such as `user.username` before reading it as a path. The model reads data only as a path; only `getError` tries the literal key.
- UnsetCompact: the fall-through `unset` of a path that still contains `[]` is a no-op.
- LegacyUtils.UnsetCompactLegacy is modelled on lodash's reading of the path, so LegacyAgrees covers only paths without an empty key before a bracket.
- InertiaForm.Form.OnError: with several visits in flight, the model keeps the root model key of the latest submit only.
- JavaScript holes: `set` past the end of an array pads with `undefined` rather than holes.
- Keys that are digits: lodash reads `a.0` on an array as element 0, and `set` creates an array, not an object, for a missing step followed by a digit key. The model reads a key only on an object and creates an object for it.
- lodash `set` with a non-digit key on an existing array stores a named property on the array, and with an index on an existing object stores a property such as `"0"`. The model treats such a step as unwritable.
- RenameAttributes.RenameObjectWithAttributes: where a renamed key collides with an existing key, the source's result depends on key insertion order. The contract covers only objects without such collisions.
- Key order of objects, which `renameKey` changes, is not modelled, since objects are maps.
- `stripAttributes` builds a regular expression from the suffix. Regular-expression metacharacters in the suffix are read literally here.
- LegacyUtils.UnsetCompactLegacy: when `forEach` throws, the in-place changes made before the throw are not modelled. The result is `Err`.
- DynamicInputs.AddRecord: `Object.assign(emptyData, merge)` mutates the shared `emptyData` object. The model builds the new record by value, so that aliasing is not modelled.
- InertiaForm.Form.MergeDefaults and SetDefault spread only object defaults. Spreading a non-object is not modelled.
- DynamicInputs.RemoveInput: negative or fractional indices are not modelled (indices are `nat`).
- DynamicInputs.RemoveInput reads the record from the current data. The source reads it from the data of the hook's first render; RemoveInputAsWritten models that, and the difference is listed under "Findings".
- DynamicInputs.AddInput and RemoveInput take the target name as a parameter. The source's callbacks keep the name computed at the hook's first render, so a form model or nested scope that changes after mount is not modelled.
- The type-level `Path`/`PathValue` of `src/utils/index.ts` and the declaration files: types only.
- `createContext` and the components of `src/Form`, `src/Inputs` and `src/NestedFields.tsx`: UI.

## Findings

| source | as written | input that shows it | evidently intended | confidence | as-written member | corrected member |
|---|---|---|---|---|---|---|
| src/Inputs/useDynamicInputs.ts:29-59 | Without a `model`, the target is `${scope}.`, read as `scope` then the empty key, and `addInput` grows a list there. `removeInput(i)` reads `${scope}.[${i}]` with lodash, which is `scope[i]`, and returns `undefined`. `unsetCompact` cuts the same string before the bracket, finds the list at `${scope}.`, and splices element `i` out of it. So the record is removed, but `removeInput` returns `undefined` instead of it. | form model `contact`, no `model`: `addInput()` then `removeInput(0)` returns `undefined`, and the record under `contact.""` is gone | add `.` + model only when a model is given, so the list and the element read share one path | not executed; medium (a `model` may always be passed in practice) | DynamicInputs.RemoveMissesTargetWithoutModel | DynamicInputs.IntendedRemoval |
| src/Inputs/useDynamicInputs.ts:55-59 | `handleRemoveInputs` is wrapped in `useCallback(..., [])`, so it keeps the `getData` of the hook's first render, which reads that render's data. The record returned is the one at mount, while `unsetData` removes from the current data. | data at mount hold no records: `addInput()` then `removeInput(0)` removes the new record and returns `undefined`; a record edited since mount is returned with its old values | read the record from the current data (list `getData` as a dependency, or read inside the update) | not executed; high (the returned type promises the removed record) | DynamicInputs.RemoveInputAsWritten | DynamicInputs.RemoveInput |
