/** The list items `render_generated_element` builds from a snapshot and the
    current value. */
module Rendering {
  import opened Js
  import opened Seqs
  import opened PropertyOrder
  import opened OptionStore
  import opened Settings

  /** An item's markup: a `<span>` with the label, or an `<a>` with an href. */
  datatype Content = Span(text: string) | Anchor(href: string, text: string)

  /** One generated child: its class attribute, its jQuery data, its markup. */
  datatype Item = Item(className: string, data: map<string, string>, content: Content)

  /** The data key every item carries besides the configured one. */
  const FixedValueKey := "select2list-value"

  /** The value an item was rendered for. */
  function ItemValue(it: Item): string {
    if FixedValueKey in it.data then it.data[FixedValueKey] else ""
  }

  /** The item for key `key`: the current value is a "selected" span (even
      when disabled), a disabled entry a "disabled" span, anything else a link
      to "#" + key. */
  function RenderItem(key: string, opt: ParsedOption, current: Value, cfg: Config): Item {
    var data := map[FixedValueKey := key][cfg.optionValueDataKey := key];
    if current == Str(key) then Item(cfg.childClassName + " selected", data, Span(opt.labelText))
    else if opt.disabled then Item(cfg.childClassName + " disabled", data, Span(opt.labelText))
    else Item(cfg.childClassName, data, Anchor("#" + key, opt.labelText))
  }

  /** The children, one per key of the snapshot, in enumeration order. */
  function RenderedItems(s: Snapshot, current: Value, cfg: Config): (r: seq<Item>)
    requires forall k | k in s.order :: k in s.entries
    ensures |r| == |EnumerationOrder(s.order)|
    ensures forall i | 0 <= i < |r| :: EnumerationOrder(s.order)[i] in s.entries
    ensures forall i | 0 <= i < |r| ::
      var k := EnumerationOrder(s.order)[i]; r[i] == RenderItem(k, s.entries[k], current, cfg)
  {
    var keys := EnumerationOrder(s.order);
    EnumerationOrderPermutes(s.order);
    seq(|keys|, i requires 0 <= i < |keys| => RenderItem(keys[i], s.entries[keys[i]], current, cfg))
  }

  /** Exactly one item per snapshot key: the items' values are the
      snapshot's keys, each once, in enumeration order; every item carries
      its value under both data keys. */
  lemma OneItemPerKey(s: Snapshot, current: Value, cfg: Config)
    requires Consistent(s)
    ensures var r := RenderedItems(s, current, cfg);
      && |r| == |s.order|
      && (forall i | 0 <= i < |r| ::
            ItemValue(r[i]) == EnumerationOrder(s.order)[i]
            && r[i].data[cfg.optionValueDataKey] == ItemValue(r[i])
            && ItemValue(r[i]) in s.entries)
      && (forall k | k in s.entries :: exists i | 0 <= i < |r| :: ItemValue(r[i]) == k)
      && (forall i, j | 0 <= i < j < |r| :: ItemValue(r[i]) != ItemValue(r[j]))
  {
    ItemCount(s);
    ItemValues(s, current, cfg);
    EveryKeyHasItem(s, current, cfg);
    ItemValuesDistinct(s, current, cfg);
  }

  lemma ItemCount(s: Snapshot)
    ensures |EnumerationOrder(s.order)| == |s.order|
  {
    var keys := EnumerationOrder(s.order);
    EnumerationOrderPermutes(s.order);
    assert |multiset(keys)| == |keys|;
    assert |multiset(s.order)| == |s.order|;
  }

  lemma ItemValues(s: Snapshot, current: Value, cfg: Config)
    requires forall k | k in s.order :: k in s.entries
    ensures var r, keys := RenderedItems(s, current, cfg), EnumerationOrder(s.order);
      forall i | 0 <= i < |r| ::
        ItemValue(r[i]) == keys[i] && r[i].data[cfg.optionValueDataKey] == keys[i] && keys[i] in s.entries
  {
  }

  lemma EveryKeyHasItem(s: Snapshot, current: Value, cfg: Config)
    requires Consistent(s)
    ensures var r := RenderedItems(s, current, cfg);
      forall k | k in s.entries :: exists i | 0 <= i < |r| :: ItemValue(r[i]) == k
  {
    var keys := EnumerationOrder(s.order);
    var r := RenderedItems(s, current, cfg);
    EnumerationOrderPermutes(s.order);
    ItemValues(s, current, cfg);
    forall k | k in s.entries ensures exists i | 0 <= i < |r| :: ItemValue(r[i]) == k {
      assert k in keys;
      FirstIndexBound(keys, k);
      var i := FirstIndex(keys, k);
      assert ItemValue(r[i]) == k;
    }
  }

  lemma ItemValuesDistinct(s: Snapshot, current: Value, cfg: Config)
    requires Consistent(s)
    ensures var r := RenderedItems(s, current, cfg);
      forall i, j | 0 <= i < j < |r| :: ItemValue(r[i]) != ItemValue(r[j])
  {
    var keys := EnumerationOrder(s.order);
    EnumerationOrderPermutes(s.order);
    ItemValues(s, current, cfg);
    PermutationKeepsDistinct(s.order, keys);
  }

  lemma ClassSuffixesDiffer(c: string)
    ensures c + " selected" != c + " disabled"
    ensures c + " selected" != c && c + " disabled" != c
  {
    assert (c + " selected")[|c| + 1] == 's';
    assert (c + " disabled")[|c| + 1] == 'd';
  }

  /** How each item looks: it is "selected" exactly when its value is the
      current value, "disabled" exactly when its entry is disabled and it is
      not the current value, and a link to "#" + value exactly when neither
      holds. So no two items are selected. */
  lemma ItemKinds(s: Snapshot, current: Value, cfg: Config)
    requires Consistent(s)
    ensures var r := RenderedItems(s, current, cfg);
      forall i | 0 <= i < |r| ::
        var k := ItemValue(r[i]);
        && k in s.entries
        && (r[i].className == cfg.childClassName + " selected" <==> current == Str(k))
        && (r[i].className == cfg.childClassName + " disabled" <==> current != Str(k) && s.entries[k].disabled)
        && (r[i].content.Anchor? <==> current != Str(k) && !s.entries[k].disabled)
        && (r[i].content.Anchor? ==> r[i].content.href == "#" + k)
        && r[i].content.text == s.entries[k].labelText
    ensures var r := RenderedItems(s, current, cfg);
      forall i, j | 0 <= i < j < |r| ::
        !(r[i].className == cfg.childClassName + " selected" && r[j].className == cfg.childClassName + " selected")
  {
    OneItemPerKey(s, current, cfg);
    ClassSuffixesDiffer(cfg.childClassName);
  }
}
