/** The validation-rule catalog of a datastore (`configuration-parameters` in
    its `validation-rules.json`) and the JSON values of configuration requests,
    shared by the API-side validator, the restart classifier and the loader of
    stored configuration items. */
module ValidationRules {
  import opened Wrappers

  /** A JSON value of a configuration request, by the Python type it decodes to.
      `OtherValue` stands for floats, null, lists and objects, with their text. */
  datatype Value = BoolValue(b: bool) | IntValue(i: int) | StrValue(s: string) | OtherValue(text: string)

  /** A rule's `min` or `max` entry as `int(...)` sees it: an integer (or a
      string of one), something `int` rejects with ValueError, or something it
      rejects with TypeError (null, a list, an object). */
  datatype Bound = IntBound(n: int) | NotAnInteger | NotConvertible

  /** One rule. `min`/`max` are None where the entry is absent; `dynamic` is
      the truthiness of the rule's `dynamic` entry (false when absent). */
  datatype Rule = Rule(name: string, valueType: string, min: Option<Bound>, max: Option<Bound>, dynamic: bool)

  /** The position of the first rule named `key`: the early-return searches
      `for rule in rules: if rule['name'] == key: return rule`. */
  function FindRule(rules: seq<Rule>, key: string): (r: Option<nat>)
    ensures r.Some? ==> r.value < |rules| && rules[r.value].name == key
    ensures r.Some? ==> forall j :: 0 <= j < r.value ==> rules[j].name != key
    ensures r.None? <==> forall j :: 0 <= j < |rules| ==> rules[j].name != key
  {
    if |rules| == 0 then None
    else if rules[0].name == key then Some(0)
    else
      match FindRule(rules[1..], key)
      case None => None
      case Some(k) => Some(k + 1)
  }

  /** The rule `FindRule` selects, if any. */
  function RuleFor(rules: seq<Rule>, key: string): Option<Rule> {
    match FindRule(rules, key)
    case None => None
    case Some(k) => Some(rules[k])
  }
}
