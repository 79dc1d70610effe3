/** The backing `<select>`'s option entries and the snapshot the widget
    parses from them (the `selectable_options` object). */
module OptionStore {
  import opened Js
  import opened Seqs

  /** One `<option>`: its `value` attribute (absent is `None`), its text,
      its `data-display` attribute (absent is `None`) and whether the
      `disabled` attribute is present. */
  datatype OptionEntry = OptionEntry(value: Option<string>, text: string, display: Option<string>, disabled: bool)

  /** The record parsed from one entry; `index` is the position of the entry
      it came from (the source's `option_element`). */
  datatype ParsedOption = ParsedOption(labelText: string, value: Option<string>, disabled: bool, index: nat)

  /** A plain object from value to record: `order` lists its keys in the
      order they were first added, `entries` maps them to their records. */
  datatype Snapshot = Snapshot(order: seq<string>, entries: map<string, ParsedOption>)

  const Empty := Snapshot([], map[])

  /** The property key an entry is stored under: `String(attr('value'))`,
      which with jQuery 1.9 or later is "undefined" for an entry without a
      value attribute. */
  function Key(o: OptionEntry): string {
    match o.value
    case Some(v) => v
    case None => "undefined"
  }

  function Keys(opts: seq<OptionEntry>): (ks: seq<string>)
    ensures |ks| == |opts| && forall i | 0 <= i < |opts| :: ks[i] == Key(opts[i])
  {
    seq(|opts|, i requires 0 <= i < |opts| => Key(opts[i]))
  }

  /** jQuery's `.data('display')` (1.8 or later) turns "true", "false",
      "null" and numeric strings into booleans, null and numbers; the falsy
      results are those of "", "false", "null", "0" and "NaN". */
  predicate DisplayIsTruthy(d: string) {
    d !in ["", "false", "null", "0", "NaN"]
  }

  /** The label: the `data-display` value when it is truthy, else the text. */
  function Label(o: OptionEntry): string {
    if o.display.Some? && DisplayIsTruthy(o.display.value) then o.display.value else o.text
  }

  function Record(o: OptionEntry, index: nat): ParsedOption {
    ParsedOption(Label(o), o.value, o.disabled, index)
  }

  /** `obj[k] = p`: a new key goes last, an existing key keeps its place. */
  function Put(s: Snapshot, k: string, p: ParsedOption): Snapshot {
    Snapshot(if k in s.entries then s.order else s.order + [k], s.entries[k := p])
  }

  /** The object `parse_options` builds: one assignment per entry, in order. */
  function Parsed(opts: seq<OptionEntry>): Snapshot
  {
    if |opts| == 0 then Empty
    else
      var n := |opts| - 1;
      Put(Parsed(opts[..n]), Key(opts[n]), Record(opts[n], n))
  }

  /** `k in selectable_options`: an own key, or a name the object inherits. */
  predicate Has(s: Snapshot, k: string) {
    k in s.entries || k in ObjectPrototypeNames
  }

  /** `selectable_options[k]['label']`: an own key's label; an inherited
      member has no `label` property, so it is `undefined`. */
  function LabelOf(s: Snapshot, k: string): Value {
    if k in s.entries then Str(s.entries[k].labelText) else Undefined
  }

  /** Keys listed once each, exactly the keys of the map, and every record
      points at one of the `n` entries. */
  ghost predicate WellFormed(s: Snapshot, n: nat) {
    && Consistent(s)
    && (forall k | k in s.entries :: s.entries[k].index < n)
  }

  /** Every key listed once, and the listed keys are those of the map. */
  ghost predicate Consistent(s: Snapshot) {
    && Distinct(s.order)
    && (forall k :: k in s.entries <==> k in s.order)
  }

  /** Position of the first occurrence of `k` in `ks` (|ks| when absent). */
  function FirstIndex(ks: seq<string>, k: string): nat
  {
    if |ks| == 0 then 0
    else if ks[0] == k then 0
    else 1 + FirstIndex(ks[1..], k)
  }

  lemma {:induction false} FirstIndexBound(ks: seq<string>, k: string)
    ensures FirstIndex(ks, k) <= |ks|
    ensures FirstIndex(ks, k) < |ks| <==> k in ks
    ensures k in ks ==> ks[FirstIndex(ks, k)] == k
  {
    if |ks| > 0 && ks[0] != k {
      FirstIndexBound(ks[1..], k);
      assert ks == [ks[0]] + ks[1..];
    }
  }

  /** Position of the last occurrence of `k` in `ks`. */
  function LastIndex(ks: seq<string>, k: string): (r: nat)
    requires k in ks
    ensures r < |ks| && ks[r] == k
    ensures forall j | r < j < |ks| :: ks[j] != k
  {
    var n := |ks| - 1;
    if ks[n] == k then n
    else
      assert k in ks[..n] by {
        var j :| 0 <= j < |ks| && ks[j] == k;
        assert j < n && ks[..n][j] == k;
      }
      var r := LastIndex(ks[..n], k);
      assert ks[r] == ks[..n][r];
      r
  }

  lemma KeysOfPrefix(opts: seq<OptionEntry>, n: nat)
    requires n <= |opts|
    ensures Keys(opts[..n]) == Keys(opts)[..n]
  {
  }

  /** The parsed object's keys are the entries' keys, each once, and every
      record points at an entry. */
  lemma {:induction false} ParsedWellFormed(opts: seq<OptionEntry>)
    ensures WellFormed(Parsed(opts), |opts|)
    ensures forall k :: k in Parsed(opts).entries <==> k in Keys(opts)
  {
    if |opts| > 0 {
      var n := |opts| - 1;
      ParsedWellFormed(opts[..n]);
      KeysOfPrefix(opts, n);
      assert Keys(opts) == Keys(opts[..n]) + [Key(opts[n])];
      var s := Parsed(opts[..n]);
      var k := Key(opts[n]);
      if k !in s.entries {
        forall i, j | 0 <= i < j < |s.order + [k]| ensures (s.order + [k])[i] != (s.order + [k])[j] {
          if j == |s.order| {
            assert (s.order + [k])[i] == s.order[i];
            assert s.order[i] in s.entries;
          }
        }
      }
    }
  }

  /** Last writer wins: the record of a key is the one parsed from the last
      entry carrying that key. */
  lemma {:induction false} ParsedAt(opts: seq<OptionEntry>, k: string)
    requires k in Keys(opts)
    ensures k in Parsed(opts).entries
    ensures var i := LastIndex(Keys(opts), k); Parsed(opts).entries[k] == Record(opts[i], i)
  {
    var n := |opts| - 1;
    var ks := Keys(opts);
    var prev := Parsed(opts[..n]);
    assert Parsed(opts) == Put(prev, ks[n], Record(opts[n], n));
    if ks[n] == k {
      assert LastIndex(ks, k) == n;
    } else {
      KeysOfPrefix(opts, n);
      assert k in ks[..n] by {
        var j :| 0 <= j < |ks| && ks[j] == k;
        assert j < n && ks[..n][j] == k;
      }
      ParsedAt(opts[..n], k);
      var i := LastIndex(ks[..n], k);
      assert LastIndex(ks, k) == i;
      assert opts[..n][i] == opts[i];
      assert Parsed(opts).entries[k] == prev.entries[k];
    }
  }

  lemma {:induction false} FirstIndexOfAppend(ks: seq<string>, x: string, k: string)
    ensures k in ks ==> FirstIndex(ks + [x], k) == FirstIndex(ks, k)
    ensures k !in ks && x == k ==> FirstIndex(ks + [x], k) == |ks|
  {
    if |ks| > 0 {
      assert (ks + [x])[1..] == ks[1..] + [x];
      assert ks == [ks[0]] + ks[1..];
      FirstIndexOfAppend(ks[1..], x, k);
    }
  }

  /** `order` lists keys by increasing position of their first occurrence in `ks`. */
  ghost predicate OrderedByFirstOccurrence(order: seq<string>, ks: seq<string>) {
    forall p, q | 0 <= p < q < |order| :: FirstIndex(ks, order[p]) < FirstIndex(ks, order[q])
  }

  /** A key keeps the position of the first entry that carried it: the
      parsed keys are ordered by their first occurrence among the entries. */
  lemma {:induction false} ParsedOrderIsFirstOccurrence(opts: seq<OptionEntry>)
    ensures OrderedByFirstOccurrence(Parsed(opts).order, Keys(opts))
  {
    if |opts| > 0 {
      var n := |opts| - 1;
      var prev := Parsed(opts[..n]).order;
      var k := Key(opts[n]);
      var ks := Keys(opts);
      var ks0 := Keys(opts[..n]);
      ParsedOrderIsFirstOccurrence(opts[..n]);
      ParsedWellFormed(opts[..n]);
      KeysOfPrefix(opts, n);
      assert ks == ks0 + [k];
      forall p | 0 <= p < |prev| ensures FirstIndex(ks, prev[p]) == FirstIndex(ks0, prev[p]) < n {
        assert prev[p] in Parsed(opts[..n]).entries;
        FirstIndexOfAppend(ks0, k, prev[p]);
        FirstIndexBound(ks0, prev[p]);
      }
      var order := Parsed(opts).order;
      if k !in Parsed(opts[..n]).entries {
        FirstIndexOfAppend(ks0, k, k);
      }
      forall p, q | 0 <= p < q < |order| ensures FirstIndex(ks, order[p]) < FirstIndex(ks, order[q]) {
        assert order[p] == prev[p];
        var fp := FirstIndex(ks, prev[p]);
        assert fp == FirstIndex(ks0, prev[p]) < n;
        if q < |prev| {
          assert order[q] == prev[q];
          assert FirstIndex(ks, prev[q]) == FirstIndex(ks0, prev[q]);
          assert FirstIndex(ks0, prev[p]) < FirstIndex(ks0, prev[q]);
        } else {
          assert order[q] == k && FirstIndex(ks, k) == n;
        }
      }
    }
  }

  /** The parsed keys and their order depend on the entries' keys alone. */
  lemma {:induction false} ParsedOrderByKeys(a: seq<OptionEntry>, b: seq<OptionEntry>)
    requires Keys(a) == Keys(b)
    ensures Parsed(a).order == Parsed(b).order
    ensures Parsed(a).entries.Keys == Parsed(b).entries.Keys
  {
    if |a| > 0 {
      var n := |a| - 1;
      KeysOfPrefix(a, n);
      KeysOfPrefix(b, n);
      ParsedOrderByKeys(a[..n], b[..n]);
      assert Key(a[n]) == Keys(a)[n] == Keys(b)[n] == Key(b[n]);
    }
  }

  /** Appending an entry (what `add` does) keeps every parsed key; the new
      entry's key gets the new entry's record and goes last when it is new. */
  lemma ParsedAppend(opts: seq<OptionEntry>, x: OptionEntry)
    ensures forall k | k in Parsed(opts).entries :: k in Parsed(opts + [x]).entries
    ensures Parsed(opts + [x]).entries[Key(x)] == Record(x, |opts|)
    ensures Parsed(opts + [x]).order ==
      if Key(x) in Parsed(opts).entries then Parsed(opts).order else Parsed(opts).order + [Key(x)]
  {
    assert (opts + [x])[..|opts|] == opts;
  }

  /** The entry indices the resolved keys point at, skipping unknown keys. A
      name inherited from `Object.prototype` passes the `in` test but has no
      `option_element`, and `$(undefined)` changes nothing, so it is skipped
      as well. */
  function Refs(s: Snapshot, targets: seq<string>): set<nat>
  {
    set t | t in targets && t in s.entries :: s.entries[t].index
  }

  /** The entries after the `disabled` attribute of every entry some target
      points at has been set (`flag`) or removed (`!flag`). */
  function Toggled(opts: seq<OptionEntry>, s: Snapshot, targets: seq<string>, flag: bool): (r: seq<OptionEntry>)
    ensures |r| == |opts|
    ensures forall i | 0 <= i < |opts| ::
      r[i] == if i in Refs(s, targets) then opts[i].(disabled := flag) else opts[i]
  {
    seq(|opts|, i requires 0 <= i < |opts| => if i in Refs(s, targets) then opts[i].(disabled := flag) else opts[i])
  }

  /** After toggling through a freshly parsed snapshot, a re-parse shows the
      same keys in the same order with the same labels; the `disabled` flag
      of exactly the targeted known keys is `flag`, every other flag is as
      before. */
  lemma ToggledReparsed(opts: seq<OptionEntry>, targets: seq<string>, flag: bool)
    ensures var s, s' := Parsed(opts), Parsed(Toggled(opts, Parsed(opts), targets, flag));
      && s'.order == s.order
      && s'.entries.Keys == s.entries.Keys
      && forall k | k in s.entries ::
           s'.entries[k] == s.entries[k].(disabled := if k in targets then flag else s.entries[k].disabled)
  {
    var s := Parsed(opts);
    var opts' := Toggled(opts, s, targets, flag);
    var ks := Keys(opts);
    assert Keys(opts') == ks;
    ParsedOrderByKeys(opts, opts');
    ParsedWellFormed(opts);
    forall k | k in s.entries
      ensures Parsed(opts').entries[k] == s.entries[k].(disabled := if k in targets then flag else s.entries[k].disabled)
    {
      var i := LastIndex(ks, k);
      ParsedAt(opts, k);
      ParsedAt(opts', k);
      assert s.entries[k].index == i;
      if k in targets {
        assert i in Refs(s, targets);
      } else {
        forall t | t in targets && t in s.entries ensures s.entries[t].index != i {
          ParsedAt(opts, t);
          assert ks[s.entries[t].index] == t != k;
        }
      }
    }
  }
}
