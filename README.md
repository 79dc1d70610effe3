# select2list in Dafny

A model of the jQuery plugin `jquery.select2list.js`. The plugin turns a `<select>` element into a list of
radio-button-style links. This model covers:

- its option parsing (`parse_options`);
- the enumeration order `$.each` gives the parsed object;
- rendering of the list items (`render_generated_element`);
- selection (`select_option_by_value` and the click handler);
- `add`, `enable` and `disable`;
- the `$.fn.select2list` dispatcher, which binds one `SelectList` per matched element and passes method
  calls through by name.

The modules follow the program's structure:

| file | module | what it holds |
|---|---|---|
| js.dfy | `Js` | the JavaScript values the widget is handed (`undefined`, strings, arrays of strings), truthiness, `String()`, `===` |
| seqs.dfy | `Seqs` | sequences without repetitions |
| property_order.dfy | `PropertyOrder` | own-key enumeration order of a plain object: array-index keys ascending, then the other keys in insertion order |
| option_store.dfy | `OptionStore` | the `<option>` entries, the parsed `selectable_options` object (`Parsed`), toggling `disabled` through a snapshot |
| settings.dfy | `Settings` | the options object and the configuration made from the defaults |
| rendering.dfy | `Rendering` | the list items built from a snapshot and the current value |
| widget.dfy | `Widget` | the backing `<select>` (`SelectElement`) and the widget instance (`SelectList`), both classes whose fields the operations update in place |
| dispatch.dfy | `Dispatch` | `$.fn.select2list`: the per-element instance storage (`Registry`) and its dispatch loop |

Decisions the code forces, where a plain reading of the plugin's documentation would suggest otherwise:

- **Missing value attribute.** With jQuery 1.9 or later, an `<option>` without a `value` attribute is stored under
  the key `"undefined"`, since `.attr('value')` is `undefined` and the key is `String(undefined)`. It is not stored
  under the empty string. The model follows jQuery 1.9 or later throughout; see "## Left out" for the older versions.
- **Duplicate values.** The last writer wins. The key keeps the position of its first occurrence.
- **Order of keys.** `$.each` over the parsed object visits array-index keys such as `"2"` or `"10"` first, in
  numeric order, and only then the other keys in source order.
- **`add` never re-renders.** It appends the option and then reads the undeclared name `attribtues`, which
  throws a `ReferenceError` before the re-render. The snapshot stays stale until the next re-render (`redraw`,
  `enable`, `disable`, or a `select` of some other value that is accepted). Until then a value that is neither a
  known key nor a name inherited from `Object.prototype` cannot be selected, even though `add` put it in the select.
  An `enable` or `disable` right after `add` also goes through the stale snapshot. It skips a value that `add`
  introduced. For a value that was already a key, it toggles the option the stale snapshot points at. Example: with
  one option `a`, `add("a", "A2")` and then `disable("a")` disable the first `a` option. The re-render then maps
  `a` to the appended option, which is still enabled, so `a` is still shown as a link.
- **Method results are never unwrapped.** The test `typeof return_value === 'Array'` is never true. A string
  call that reaches at least one instance returns the results array, even an empty one.
- **`select` does not re-parse.** It checks the value against the last-parsed snapshot, not against a freshly
  parsed one.
- **Inherited names pass `select`'s guard.** The test `value in selectable_options` also holds for names the
  parsed object inherits from `Object.prototype` (`toString`, `constructor`, `hasOwnProperty`, ...). Such a value
  is accepted and becomes current, and the change handler receives `undefined` as its label.
- **Merged options accumulate.** `$.extend(options, data)` merges each unbound element's `data-*` values into
  the caller's own options object. A later element therefore also sees the data of the earlier ones.
- **String call on an unbound element.** It constructs the widget with just that element's data.

## Model

| member | source | states |
|---|---|---|
| PropertyOrder.InsertPermutes | jquery.select2list.js:127-129 | inserting a key into the index-key order keeps exactly the same keys (a permutation) |
| PropertyOrder.InsertSorted | jquery.select2list.js:127-129 | inserting a key into ascending array-index keys keeps them ascending |
| PropertyOrder.SortByValueSorted | jquery.select2list.js:127-129 | the array-index keys are visited in ascending numeric order, and they are the same keys |
| PropertyOrder.EnumerationOrderPermutes | jquery.select2list.js:146 | `$.each` over the parsed object visits every key exactly once, and no other key |
| PropertyOrder.EnumerationOrderShape | jquery.select2list.js:146 | array-index keys come first, in ascending order; the other keys keep their insertion order |
| OptionStore.ParsedWellFormed | jquery.select2list.js:103-120 | the parsed object's keys are exactly the option keys, each once; every record points at one of the options |
| OptionStore.ParsedAt | jquery.select2list.js:111-116 | last writer wins: a key's record is the one made from the last option carrying that key |
| OptionStore.ParsedOrderIsFirstOccurrence | jquery.select2list.js:106-117 | parsed keys are in the order of each key's first occurrence among the options |
| OptionStore.ParsedOrderByKeys | jquery.select2list.js:111 | the parsed key order depends on the option keys alone, not on labels or flags |
| OptionStore.ToggledReparsed | jquery.select2list.js:246-282 | when the options are toggled through a fresh parse of those same options (the state after any re-render, so not right after `add`), re-parsing gives the same keys in the same order and the same labels, and exactly the targeted known keys get the new flag |
| Settings.MakeConfig | jquery.select2list.js:34-43 | every default (`ul`, `select2list`, `li`, `select2list-option`, `select2list-value`) holds unless the option is given; a given string option overrides; a change handler is called unless `change` is overridden by a non-function |
| Rendering.OneItemPerKey | jquery.select2list.js:146-170 | the items' stashed values are the snapshot's keys, each exactly once; each item carries its value under both data keys |
| Rendering.ItemKinds | jquery.select2list.js:147-161 | an item is "selected" exactly when its value `===` the current value; "disabled" exactly when it is disabled and not current; otherwise a link to `#value`; its text is the label; at most one item is selected |
| Widget.SelectList.constructor | jquery.select2list.js:224-236 | the instance is configured from the options, takes the selected value as current, and renders once from a fresh parse |
| Widget.SelectList.ParseOptions | jquery.select2list.js:103-120 | the loop builds exactly the parsed object of the current options |
| Widget.SelectList.AllValues | jquery.select2list.js:125-132 | the list is the snapshot's keys in enumeration order |
| Widget.SelectList.Redraw | jquery.select2list.js:138-171 | re-parses, then the items are the rendering of the fresh snapshot and the unchanged current value |
| Widget.SelectList.Select | jquery.select2list.js:76-96 | an accepted value (truthy, not `===` current, `in` the last-parsed object: an own key or a name inherited from `Object.prototype`) becomes current; the list is re-rendered from a fresh parse; then the value is written back to the select, `change` fires, and the handler gets the fresh label, `undefined` for an inherited name. The options are untouched. A refused value changes nothing |
| Widget.SelectList.Add | jquery.select2list.js:182-204 | the option (text defaults to the value) is appended, the widget is untouched, and the call throws the `attribtues` ReferenceError |
| Widget.SelectList.Enable | jquery.select2list.js:246-263 | clears `disabled` on the options that the resolved known keys point at, then re-renders |
| Widget.SelectList.Disable | jquery.select2list.js:265-282 | sets `disabled` on the options that the resolved known keys point at, then re-renders |
| Widget.SelectList.ToggleEntries | jquery.select2list.js:255-260 | the `$.each` over resolved keys toggles exactly the options a known key points at |
| Widget.SelectList.Click | jquery.select2list.js:214-222 | the options are never touched; clicking a span changes nothing; clicking a link selects its stashed value, which always succeeds unless that value is empty: the value becomes current and is written back, the snapshot is re-parsed and the handler gets the value's label |
| Widget.SelectAfterAdd | jquery.select2list.js:196-203 | `add` throws; an option just added is in the select but not in the snapshot, so selecting it at once is refused |
| Dispatch.Invoke | jquery.select2list.js:312-317 | the named method runs on the instance with the positional arguments, missing ones `undefined`, with exactly that method's effect (`Effect`: re-render, selection with its event log, append, or toggling); only `add` throws |
| Dispatch.PassThrough | jquery.select2list.js:304-319 | a string call on a bound element starts the results array; when the name is a method, that method runs with its effect and one result is pushed; an unknown name or an options call changes nothing |
| Dispatch.Bind | jquery.select2list.js:322-327 | the new instance is fresh, bound to the element, configured from the merged options, takes the element's value as current, has parsed its options and rendered once |
| Dispatch.Registry.VisitBound | jquery.select2list.js:302-319 | on a bound element only that element and its instance change: the named method's effect, or nothing for an unknown name or an options call |
| Dispatch.Registry.VisitUnbound | jquery.select2list.js:320-328 | an unbound element gets a fresh instance built from the options merged with its data (the caller's options object accumulates the data); no other binding changes |
| Dispatch.Registry.Visit | jquery.select2list.js:296-328 | a bound element gets the pass-through with the named method's effect on its instance; an unbound one gets a fresh instance, configured and rendered as the constructor does, from the options merged with its data |
| Dispatch.Registry.Step | jquery.select2list.js:296-328 | one turn of `this.each`: a throw happens only for `add` at a bound element, with no bound element before it, and leaves the earlier elements bound; otherwise the results, the merged options and the bindings extend by this element |
| Dispatch.Registry.Dispatch | jquery.select2list.js:291-340 | see below |

`Dispatch.Registry.Dispatch` guarantees:

- every old binding is kept;
- every element is bound, or, when `add` threw, every element before the one it threw at;
- each new instance is built from the accumulated options;
- the call returns a throw exactly when `add` reaches an instance;
- it returns the jQuery set exactly when no method name was passed (an options object or no argument at all) or no instance was reached;
- otherwise it returns one result per instance reached when the name is a method, and none when it is not.

## Left out

- DOM and markup: the generated `<ul>`, hiding the select, inserting the list and HTML escaping are not modelled. Items are values.
- Label content: labels and hrefs are kept as strings; the HTML they would be parsed as is not modelled.
- The HTML string `add` builds is modelled as the entry it denotes; a value or display containing quotes or markup would parse differently.
- Event delegation: the `click` listener, `closest()` and `preventDefault` are reduced to `Click(i)` on the `i`-th item.
- The change event: the native `change` and the handler call are recorded as events in a ghost log; listeners and their effects are not run.
- Re-entrant handlers: a `change` handler that calls back into the widget is not modelled.
- The `attributes` parameter of `add` is never applied, because the call throws before reaching it; the model has no such parameter.
- JSON-looking `data-display` values (`{...}`, `[...]`) that jQuery parses into objects are not modelled.
- `OptionStore.Label`: jQuery's `.data()` also converts `data-display` values such as `"12"` to the number 12, `"true"` to `true` and `"null"` to `null`. The model decides truthiness from the converted value as jQuery does, but keeps the label as the string; the type of the label the change handler receives is not modelled.
- jQuery data keys: camel-casing of data keys is not modelled. The data map is taken as given.
- jQuery versions: the model follows jQuery 1.9 or later, although the plugin states it works with jQuery 1.7.1 and later. Three differences of 1.7.x and 1.8.x are not modelled.
  - `.attr('value')` there returns the option's `value` property. An option without a value attribute is then stored under its text, not under `"undefined"`. It becomes the current value, and its item renders as selected.
  - `$.each` there treats any object with a `length` property as array-like. An option valued `length` then makes both `$.each` loops over the parsed object visit nothing.
  - 1.7.x's `.data()` converts every numeric-looking string with `parseFloat`. `"0.0"` and `"00"` are then falsy labels, while `"NaN"` stays a truthy string. `OptionStore.DisplayIsTruthy` encodes the 1.8 and later rule.
- Non-string option values in string settings (a function as `tagName`) fall back to the default in the model; JavaScript would stringify them.
- The select's value: `$(select).val(v)` is modelled as the select's `value` field. `option:selected` handling of multiple or missing selections is not modelled.
- `Widget.SelectList.Select`: an array passed to `select` is compared and stored as one value, and stringified for the key test. The select's own coercion of an array value is not modelled.
- `Widget.SelectList.Select`: array identity is not modelled. `StrictEquals` treats every array as a new object. When the same array object is passed to `select` twice, the source refuses the second call because `current_option_value === value`. The model accepts it again: it re-renders, fires `change` and calls the handler a second time.
- `Widget.SelectList.Select`: numbers, booleans and objects are not JavaScript values of the model (`Value` holds `undefined`, strings and arrays of strings). The source accepts `select(5)` when `"5"` is a key; since `5 === "5"` is false, no item then renders as selected, and `enable(5)` or `disable(5)` would throw in jQuery 3. None of this is modelled.
- `Widget.SelectList.Select`: the change handler is called with `self` as `this` and as its first argument; that `self` is the widget's `this` inside `select_option_by_value`, not the public API object. The event log records only the value and the label.
- `OptionStore.Parsed`: an option whose value is `__proto__` makes `parsed_options["__proto__"] = {...}` replace the parsed object's prototype instead of adding a key. `$.each` then also visits the record's fields (`label`, `value`, `disabled`, `option_element`) as if they were options. The model stores `__proto__` as an ordinary key.
- `Dispatch.PassThrough`: names such as `toString` that the API object inherits from `Object.prototype` pass the dispatcher's `method_name in sl` and `$.isFunction` tests, so the source calls, say, `toString()` on the instance and pushes its result. The model treats them as unknown names and pushes nothing for them.
- The options object an instance keeps is shared with the caller and mutated by later `$.extend` calls. The model records it as of construction, which is all the configuration reads.
- `Dispatch.Registry.Dispatch`: it does not state, across the whole call, that new instances are fresh, that an options call leaves bound instances untouched, or what the named method did to each bound instance (`Effect`, including the `add` append on the element it throws at). `Dispatch.Registry.Visit` states all three for each element.
- `Dispatch.Registry.Dispatch`: it requires the matched elements to be distinct. A jQuery set such as `$([el, el])` lists an element twice and `this.each` visits it twice; for a string call on an unbound element the first visit builds the instance and the second passes the call through to it, in the same call. Repeated elements are not modelled.
