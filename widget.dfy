/** One SelectList instance: the closure that owns the generated list for a
    `<select>` element. */
module Widget {
  import opened Js
  import opened PropertyOrder
  import opened OptionStore
  import opened Settings
  import opened Rendering

  /** The backing `<select>` element. `value` is what the element reports
      as its value: at first the `value` attribute of the option marked
      selected (`Undefined` when there is none or it has no such attribute),
      afterwards whatever the widget last wrote with `.val(...)`. */
  class SelectElement {
    const data: Options
    var options: seq<OptionEntry>
    var value: Value

    constructor (data: Options, options: seq<OptionEntry>, value: Value)
      ensures this.data == data && this.options == options && this.value == value
    {
      this.data := data;
      this.options := options;
      this.value := value;
    }
  }

  /** What the widget makes observable, in order: a re-render, the native
      `change` event fired on the select, a call of the `change` handler. */
  datatype Event = Rendered | ChangeTriggered(value: Value) | ChangeHandled(value: Value, caption: Value)

  /** How a public operation ends: it returns `undefined`, or it throws. */
  datatype Outcome = Returned | Thrown(error: string)

  /** `add` tests the misspelt, undeclared name `attribtues`. */
  const AddError := "ReferenceError: attribtues is not defined"

  /** The option `add(value, display)` appends: its value attribute is
      `value` and its text is `display`, or `value` when `display` is falsy. */
  function NewEntry(value: Value, display: Value): OptionEntry {
    OptionEntry(Some(ToString(value)), ToString(if Truthy(display) then display else value), None, false)
  }

  /** The keys `enable(v)` and `disable(v)` walk: every known value when `v`
      is falsy, `[v]` for a string, the elements of an array. */
  function Targets(v: Value, s: Snapshot): seq<string> {
    if !Truthy(v) then EnumerationOrder(s.order)
    else if v.Str? then [v.s]
    else v.items
  }

  class SelectList {
    const element: SelectElement
    const options: Options
    const config: Config
    /** `current_option_value` */
    var current: Value
    /** `selectable_options`, as last parsed */
    var snapshot: Snapshot
    /** the children of the generated element */
    var items: seq<Item>
    ghost var events: seq<Event>

    /** The snapshot is well formed, every key it holds is still a key of
        the backing options (they only ever gain entries), and the items
        are the rendering of the snapshot and the current value. */
    ghost predicate Valid()
      reads this, element
    {
      && WellFormed(snapshot, |element.options|)
      && (forall k | k in snapshot.entries :: k in Parsed(element.options).entries)
      && items == RenderedItems(snapshot, current, config)
    }

    /** `select_option_by_value`'s guard: a truthy value, not identical to
        the current one, and `in` the last-parsed snapshot (an own key or a
        name inherited from `Object.prototype`). Identity of arrays follows
        `StrictEquals`: an array is never taken to be the current value. */
    ghost predicate Accepts(v: Value)
      reads this
    {
      Truthy(v) && !StrictEquals(current, v) && Has(snapshot, ToString(v))
    }

    /** `new SelectList(element, options)`: pick up the selected value,
        render once. */
    constructor (element: SelectElement, options: Options)
      ensures Valid()
      ensures this.element == element && this.options == options && config == MakeConfig(options)
      ensures current == element.value && snapshot == Parsed(element.options)
      ensures events == [Rendered]
    {
      this.element := element;
      this.options := options;
      config := MakeConfig(options);
      current := element.value;
      snapshot := Empty;
      items := [];
      events := [];
      new;
      Redraw();
    }

    /** `parse_options`: one property assignment per option, in order. */
    method ParseOptions()
      modifies this`snapshot
      ensures snapshot == Parsed(element.options)
    {
      var opts := element.options;
      var parsed := Empty;
      for i := 0 to |opts|
        invariant parsed == Parsed(opts[..i])
      {
        assert opts[..i + 1][..i] == opts[..i];
        parsed := Put(parsed, Key(opts[i]), Record(opts[i], i));
      }
      assert opts[..|opts|] == opts;
      snapshot := parsed;
    }

    /** `get_all_values`: the snapshot's keys in enumeration order. */
    method AllValues() returns (list: seq<string>)
      ensures list == EnumerationOrder(snapshot.order)
    {
      var keys := EnumerationOrder(snapshot.order);
      list := [];
      for i := 0 to |keys|
        invariant list == keys[..i]
      {
        list := list + [keys[i]];
      }
    }

    /** `render_generated_element` (the public `redraw`): re-parse, clear,
        append one item per key. */
    method Redraw()
      modifies this
      ensures Valid()
      ensures snapshot == Parsed(element.options)
      ensures items == RenderedItems(snapshot, current, config)
      ensures current == old(current) && events == old(events) + [Rendered]
    {
      ParseOptions();
      var parsed, selected := snapshot, current;
      var keys := EnumerationOrder(parsed.order);
      assert forall j | 0 <= j < |keys| :: keys[j] in parsed.entries by {
        ParsedWellFormed(element.options);
        EnumerationOrderPermutes(parsed.order);
      }
      var children: seq<Item> := [];
      for i := 0 to |keys|
        invariant |children| == i
        invariant forall j | 0 <= j < i :: children[j] == RenderItem(keys[j], parsed.entries[keys[j]], selected, config)
      {
        children := children + [RenderItem(keys[i], parsed.entries[keys[i]], selected, config)];
      }
      items := children;
      events := events + [Rendered];
      ParsedWellFormed(element.options);
    }

    /** `select_option_by_value` (the public `select`): the value becomes
        current, the list is re-rendered, the select is written back and
        fires `change`, and the handler gets the label the fresh snapshot
        holds for the value. */
    method Select(v: Value)
      requires Valid()
      modifies this, element
      ensures Valid()
      ensures element.options == old(element.options)
      ensures old(Accepts(v)) ==>
        && current == v && element.value == v
        && snapshot == Parsed(element.options)
        && items == RenderedItems(snapshot, current, config)
        && (ToString(v) in old(snapshot.entries) ==> ToString(v) in snapshot.entries)
        && events == old(events) + [Rendered, ChangeTriggered(v)]
             + (if config.hasChange then [ChangeHandled(v, LabelOf(snapshot, ToString(v)))] else [])
      ensures !old(Accepts(v)) ==>
        && current == old(current) && element.value == old(element.value)
        && snapshot == old(snapshot) && items == old(items) && events == old(events)
    {
      if Truthy(v) && !StrictEquals(current, v) && Has(snapshot, ToString(v)) {
        assert ToString(v) in snapshot.entries ==> ToString(v) in Parsed(element.options).entries;
        current := v;
        Redraw();
        element.value := v;
        events := events + [ChangeTriggered(v)];
        if config.hasChange {
          events := events + [ChangeHandled(v, LabelOf(snapshot, ToString(v)))];
        }
      }
    }

    /** `add_option` (the public `add`): the option is appended, then the
        misspelt attributes test throws before the re-render. */
    method Add(value: Value, display: Value) returns (outcome: Outcome)
      requires Valid()
      modifies element
      ensures Valid()
      ensures element.options == old(element.options) + [NewEntry(value, display)]
      ensures element.value == old(element.value)
      ensures unchanged(this)
      ensures outcome == Thrown(AddError)
    {
      ParsedAppend(element.options, NewEntry(value, display));
      element.options := element.options + [NewEntry(value, display)];
      outcome := Thrown(AddError);
    }

    /** The public `enable`: remove `disabled` from each resolved known key's
        entry, then re-render. */
    method Enable(v: Value)
      requires Valid()
      modifies this, element
      ensures Valid()
      ensures element.options == Toggled(old(element.options), old(snapshot), Targets(v, old(snapshot)), false)
      ensures element.value == old(element.value) && current == old(current)
      ensures snapshot == Parsed(element.options) && events == old(events) + [Rendered]
    {
      SetDisabled(v, false);
    }

    /** The public `disable`: set `disabled` on each resolved known key's
        entry, then re-render. */
    method Disable(v: Value)
      requires Valid()
      modifies this, element
      ensures Valid()
      ensures element.options == Toggled(old(element.options), old(snapshot), Targets(v, old(snapshot)), true)
      ensures element.value == old(element.value) && current == old(current)
      ensures snapshot == Parsed(element.options) && events == old(events) + [Rendered]
    {
      SetDisabled(v, true);
    }

    method SetDisabled(v: Value, flag: bool)
      requires Valid()
      modifies this, element
      ensures Valid()
      ensures element.options == Toggled(old(element.options), old(snapshot), Targets(v, old(snapshot)), flag)
      ensures element.value == old(element.value) && current == old(current)
      ensures snapshot == Parsed(element.options) && events == old(events) + [Rendered]
    {
      var targets: seq<string>;
      if !Truthy(v) {
        targets := AllValues();
      } else if v.Str? {
        targets := [v.s];
      } else {
        targets := v.items;
      }
      assert targets == Targets(v, snapshot);
      ToggleEntries(snapshot, targets, flag);
      Redraw();
    }

    /** The `$.each` over the resolved keys: the `disabled` attribute of the
        entry each known key points at is set or removed in place. */
    method ToggleEntries(s: Snapshot, targets: seq<string>, flag: bool)
      requires forall t | t in s.entries :: s.entries[t].index < |element.options|
      modifies element
      ensures element.options == Toggled(old(element.options), s, targets, flag)
      ensures element.value == old(element.value)
    {
      for j := 0 to |targets|
        invariant element.options == Toggled(old(element.options), s, targets[..j], flag)
        invariant element.value == old(element.value)
      {
        var t := targets[j];
        assert targets[..j + 1] == targets[..j] + [t];
        if t in s.entries {
          var idx := s.entries[t].index;
          element.options := element.options[idx := element.options[idx].(disabled := flag)];
          assert Refs(s, targets[..j + 1]) == Refs(s, targets[..j]) + {idx};
        } else {
          assert Refs(s, targets[..j + 1]) == Refs(s, targets[..j]);
        }
      }
      assert targets[..|targets|] == targets;
    }

    /** `handle_option_click` on the `i`-th item: only links listen, and a
        link's stashed value is selected. A link is never the current value,
        so the click changes the selection exactly when that value is not
        the empty string. */
    method Click(i: nat)
      requires Valid() && i < |items|
      modifies this, element
      ensures Valid()
      ensures element.options == old(element.options)
      ensures old(items[i].content.Span?) ==>
        && current == old(current) && element.value == old(element.value)
        && snapshot == old(snapshot) && items == old(items) && events == old(events)
      ensures old(items[i].content.Anchor?) ==>
        var k := ItemValue(old(items[i]));
        && (k != "" ==>
              && current == Str(k) && element.value == Str(k)
              && snapshot == Parsed(element.options) && k in snapshot.entries
              && events == old(events) + [Rendered, ChangeTriggered(Str(k))]
                   + (if config.hasChange then [ChangeHandled(Str(k), Str(snapshot.entries[k].labelText))] else []))
        && (k == "" ==>
              && current == old(current) && element.value == old(element.value)
              && snapshot == old(snapshot) && items == old(items) && events == old(events))
    {
      OneItemPerKey(snapshot, current, config);
      ItemKinds(snapshot, current, config);
      if items[i].content.Anchor? {
        Select(Str(items[i].data[config.optionValueDataKey]));
      }
    }
  }

  /** Because `add` throws before it re-renders, the option it appended is
      in the backing element but not in the snapshot: a caller that catches
      the exception and selects the new value at once is refused, until
      something re-renders. */
  method SelectAfterAdd(sl: SelectList, value: Value, display: Value) returns (outcome: Outcome)
    requires sl.Valid() && !Has(sl.snapshot, ToString(value))
    modifies sl, sl.element
    ensures outcome == Thrown(AddError)
    ensures ToString(value) in Parsed(sl.element.options).entries
    ensures ToString(value) !in sl.snapshot.entries
    ensures sl.current == old(sl.current) && sl.events == old(sl.events)
  {
    outcome := sl.Add(value, display);
    sl.Select(value);
  }
}
