/**
 * The payment type plugin manager's processing of a discovered definition:
 * the declared defaults are merged under the definition, the `id` key is
 * forced to the plugin id, and a definition whose required `label` is empty
 * (in PHP's sense) is rejected with a plugin exception.
 */
module PaymentType {
  import opened Wrappers

  /** The PHP values a definition key can hold (floats are not modelled). */
  datatype PhpValue =
    | Null
    | Bool(b: bool)
    | Int(i: int)
    | Str(s: string)
    | Arr(items: seq<PhpValue>)
    | Obj(className: string)

  /** A plugin definition: a PHP array with string keys. */
  type Definition = map<string, PhpValue>

  /** The exception raised for an invalid definition. */
  datatype PluginException = PluginException(message: string)

  /** PHP's empty() on a present value: NULL, FALSE, 0, "", "0" and the empty array; an object never is. */
  predicate IsEmpty(v: PhpValue)
    ensures IsEmpty(v) <==> v in {Null, Bool(false), Int(0), Str(""), Str("0"), Arr([])}
  {
    match v
    case Null => true
    case Bool(b) => !b
    case Int(i) => i == 0
    case Str(s) => s == "" || s == "0"
    case Arr(items) => items == []
    case Obj(_) => false
  }

  /** empty($definition[$key]): a missing key counts as empty too. */
  predicate EmptyAt(d: Definition, key: string)
  {
    key !in d || IsEmpty(d[key])
  }

  /** The `$defaults` of the manager: an empty id and an empty label. */
  const Defaults: Definition := map["id" := Str(""), "label" := Str("")]

  /** The properties every payment type must define, checked in this order. */
  const RequiredProperties: seq<string> := ["label"]

  /** The exception message for a plugin that leaves `property` empty. */
  function Message(pluginId: string, property: string): (m: string)
    ensures |m| == |pluginId| + |property| + 44
    ensures m[..17] == "The payment_type " && m[|m| - 10..] == " property."
  {
    "The payment_type " + pluginId + " must define the " + property + " property."
  }

  /**
   * The definition after processing: the defaults merged under it (its own
   * keys win), then `id` set to the plugin id. Every other key keeps the
   * definition's value, or the default's when the definition lacks it.
   */
  function Processed(definition: Definition, pluginId: string): (d: Definition)
    ensures d.Keys == definition.Keys + Defaults.Keys
    ensures d["id"] == Str(pluginId)
    ensures forall k :: k in definition && k != "id" ==> d[k] == definition[k]
    ensures forall k :: k in Defaults && k !in definition && k != "id" ==> d[k] == Defaults[k]
  {
    (Defaults + definition)["id" := Str(pluginId)]
  }

  /**
   * The first of `required` that is empty in `d`, if any: every property before
   * it is present and not empty.
   */
  function FirstEmpty(d: Definition, required: seq<string>): (r: Option<string>)
    ensures r.None? <==> forall j :: 0 <= j < |required| ==> !EmptyAt(d, required[j])
    ensures r.Some? ==> exists j :: 0 <= j < |required| && required[j] == r.value && EmptyAt(d, r.value) &&
                                    forall i :: 0 <= i < j ==> !EmptyAt(d, required[i])
  {
    if required == [] then None
    else if EmptyAt(d, required[0]) then Some(required[0])
    else
      var r := FirstEmpty(d, required[1..]);
      assert r.Some? ==> exists j :: 0 <= j < |required| && required[j] == r.value && EmptyAt(d, r.value) &&
                                     forall i :: 0 <= i < j ==> !EmptyAt(d, required[i]) by {
        if r.Some? {
          var j :| 0 <= j < |required[1..]| && required[1..][j] == r.value && EmptyAt(d, r.value) &&
                   forall i :: 0 <= i < j ==> !EmptyAt(d, required[1..][i]);
          assert required[j + 1] == r.value;
          assert forall i :: 0 <= i < j + 1 ==> !EmptyAt(d, required[i]) by {
            forall i | 0 <= i < j + 1 ensures !EmptyAt(d, required[i]) {
              if i > 0 { assert required[i] == required[1..][i - 1]; }
            }
          }
        }
      }
      r
  }

  /**
   * processDefinition: the by-reference definition is replaced by its processed
   * form in every case (so it is already changed when the exception is raised);
   * then the required properties are checked in order and the first empty one
   * raises an exception naming the plugin and the property.
   */
  method ProcessDefinition(definition: Definition, pluginId: string) returns (processed: Definition, error: Option<PluginException>)
    ensures processed == Processed(definition, pluginId)
    ensures error.None? <==> FirstEmpty(processed, RequiredProperties).None?
    ensures error.Some? ==> error.value == PluginException(Message(pluginId, FirstEmpty(processed, RequiredProperties).value))
  {
    processed := Defaults + definition;
    processed := processed["id" := Str(pluginId)];
    error := None;
    for k := 0 to |RequiredProperties|
      invariant forall j :: 0 <= j < k ==> !EmptyAt(processed, RequiredProperties[j])
    {
      var property := RequiredProperties[k];
      if property !in processed || IsEmpty(processed[property]) {
        error := Some(PluginException(Message(pluginId, property)));
        return;
      }
    }
  }

  /**
   * A payment type is rejected exactly when its own label is missing or empty
   * in PHP's sense; the supplied id plays no part, and the message names the
   * label property.
   */
  lemma RejectedIffLabelEmpty(definition: Definition, pluginId: string)
    ensures FirstEmpty(Processed(definition, pluginId), RequiredProperties).Some?
        <==> "label" !in definition || IsEmpty(definition["label"])
    ensures FirstEmpty(Processed(definition, pluginId), RequiredProperties).Some? ==>
        FirstEmpty(Processed(definition, pluginId), RequiredProperties).value == "label"
  {
    var d := Processed(definition, pluginId);
    assert RequiredProperties[0] == "label";
    if "label" !in definition {
      assert d["label"] == Str("");
    }
  }

  /** A definition that relies on the default label is rejected. */
  lemma DefaultLabelRejected(definition: Definition, pluginId: string)
    requires "label" !in definition
    ensures FirstEmpty(Processed(definition, pluginId), RequiredProperties) == Some("label")
  {
    RejectedIffLabelEmpty(definition, pluginId);
  }

  /** The exception message names the plugin id and then the property. */
  lemma MessageNamesPluginAndProperty(pluginId: string, property: string)
    ensures var m := Message(pluginId, property);
      && m[17..17 + |pluginId|] == pluginId
      && m[17 + |pluginId| + 17..17 + |pluginId| + 17 + |property|] == property
  {
  }
}
