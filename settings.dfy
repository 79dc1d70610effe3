/** The widget's configuration: the defaults of the plugin, overridden by
    the options object a caller passes and by the element's `data-*` values. */
module Settings {

  /** An option value: a string, or a function (the `change` handler). */
  datatype Setting = Text(s: string) | Callback

  /** An options object: option name to value. */
  type Options = map<string, Setting>

  datatype Config = Config(
    tagName: string,
    className: string,
    childTagName: string,
    childClassName: string,
    optionValueDataKey: string,
    /** `$.isFunction(config.change)`: whether a change handler is called. */
    hasChange: bool)

  /** A string option, or its default when it is absent. */
  function TextOr(o: Options, name: string, default: string): (r: string)
    ensures name in o && o[name].Text? ==> r == o[name].s
    ensures name !in o ==> r == default
  {
    if name in o && o[name].Text? then o[name].s else default
  }

  /** `$.extend({defaults}, options)`: every option given overrides its default.
      The default `change` handler is `$.noop`, itself a function. */
  function MakeConfig(o: Options): (c: Config)
    ensures forall name | name in o && o[name].Text? ::
      && (name == "tagName" ==> c.tagName == o[name].s)
      && (name == "className" ==> c.className == o[name].s)
      && (name == "childTagName" ==> c.childTagName == o[name].s)
      && (name == "childClassName" ==> c.childClassName == o[name].s)
      && (name == "optionValueDataKey" ==> c.optionValueDataKey == o[name].s)
    ensures "tagName" !in o ==> c.tagName == "ul"
    ensures "className" !in o ==> c.className == "select2list"
    ensures "childTagName" !in o ==> c.childTagName == "li"
    ensures "childClassName" !in o ==> c.childClassName == "select2list-option"
    ensures "optionValueDataKey" !in o ==> c.optionValueDataKey == "select2list-value"
    ensures c.hasChange <==> "change" !in o || o["change"] == Callback
  {
    Config(
      TextOr(o, "tagName", "ul"),
      TextOr(o, "className", "select2list"),
      TextOr(o, "childTagName", "li"),
      TextOr(o, "childClassName", "select2list-option"),
      TextOr(o, "optionValueDataKey", "select2list-value"),
      "change" !in o || o["change"] == Callback)
  }
}
