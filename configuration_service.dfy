/** The configuration-group API of `trove/configuration/service.py`: the
    validator that checks request values against the datastore's rules, the
    item list built from a request, the parameter lookup, and the `delete` and
    `update` operations over the configuration store. */
module ConfigurationService {
  import opened Wrappers
  import opened Text
  import opened ValidationRules
  import opened ConfigurationModels

  /** The Python types `_find_type` names. */
  datatype PyType = BoolType | StringType | IntType

  datatype ServiceError =
      /** `_get_item`: no rule has that name (UnprocessableEntity). */
    | UnsupportedKey(key: string)
      /** `_find_type`: the rule's type is not boolean/string/integer (TroveError). */
    | UnsupportedRuleType(valueType: string)
      /** The value's type does not match the rule's (UnprocessableEntity). */
    | IncorrectType(key: string, valueType: string)
      /** `rule['min']` or `rule['max']` on a rule without that entry (KeyError). */
    | MissingBound(key: string, bound: string)
      /** `int(...)` of the bound raised ValueError, reported as TroveError. */
    | InvalidBound(bound: string)
      /** `int(...)` of a null or structured bound raised TypeError. */
    | BoundTypeError(bound: string)
    | LessThanMin(key: string)
    | GreaterThanMax(key: string)
    | ConfigKeyNotFound(key: string)
    | InstanceAssignedToConfiguration
    | Model(error: ModelError)

  /** `sys.maxint` of a 64-bit Python 2: larger JSON integers decode to `long`,
      which `isinstance(v, int)` rejects. */
  const MaxPyInt: int := 0x7FFF_FFFF_FFFF_FFFF

  /** `isinstance(v, int)`: booleans and machine-size integers. */
  predicate IsPyInt(v: Value) {
    v.BoolValue? || (v.IntValue? && -MaxPyInt - 1 <= v.i <= MaxPyInt)
  }

  /** The number a Python `int` value compares as; `True` is 1 and `False` 0. */
  function NumericValue(v: Value): int
    requires IsPyInt(v)
  {
    if v.BoolValue? then (if v.b then 1 else 0) else v.i
  }

  /** `_find_type(valueType)`. */
  function FindType(valueType: string): (r: Result<PyType, ServiceError>)
    ensures r.Success? <==> valueType == "boolean" || valueType == "string" || valueType == "integer"
    ensures r.Success? ==> (r.value == BoolType <==> valueType == "boolean")
    ensures r.Success? ==> (r.value == IntType <==> valueType == "integer")
    ensures r.Failure? ==> r.error == UnsupportedRuleType(valueType)
  {
    if valueType == "boolean" then Success(BoolType)
    else if valueType == "string" then Success(StringType)
    else if valueType == "integer" then Success(IntType)
    else Failure(UnsupportedRuleType(valueType))
  }

  /** `isinstance(v, t)`; strings decode to `unicode`, a `basestring`. */
  predicate IsInstance(v: Value, t: PyType) {
    match t
    case BoolType => v.BoolValue?
    case StringType => v.StrValue?
    case IntType => IsPyInt(v)
  }

  /** The errors the validator raises as UnprocessableEntity: the request,
      not the rule file, is at fault. */
  predicate IsValidationError(e: ServiceError) {
    e.UnsupportedKey? || e.IncorrectType? || e.LessThanMin? || e.GreaterThanMax?
  }

  /** `int(rule[bound])` inside the validator's `try`: a missing entry is the
      KeyError, a non-numeric one the TroveError, a null or structured one the
      TypeError; none of them blames the request. */
  function BoundValue(b: Option<Bound>, key: string, bound: string): (r: Result<int, ServiceError>)
    ensures r.Success? <==> b.Some? && b.value.IntBound?
    ensures r.Success? ==> r.value == b.value.n
    ensures b.None? ==> r == Failure(MissingBound(key, bound))
    ensures b == Some(NotAnInteger) ==> r == Failure(InvalidBound(bound))
    ensures b == Some(NotConvertible) ==> r == Failure(BoundTypeError(bound))
    ensures r.Failure? ==> !IsValidationError(r.error)
  {
    match b
    case None => Failure(MissingBound(key, bound))
    case Some(IntBound(n)) => Success(n)
    case Some(NotAnInteger) => Failure(InvalidBound(bound))
    case Some(NotConvertible) => Failure(BoundTypeError(bound))
  }

  /** One iteration of `_validate_configuration`: the rule lookup, the type
      check, then for every `int` (booleans included) the min check and then
      the max check. */
  function CheckEntry(key: string, v: Value, rules: seq<Rule>): Outcome<ServiceError> {
    match RuleFor(rules, key)
    case None => Fail(UnsupportedKey(key))
    case Some(rule) =>
      match FindType(rule.valueType)
      case Failure(e) => Fail(e)
      case Success(t) =>
        if !IsInstance(v, t) then Fail(IncorrectType(key, rule.valueType))
        else if !IsPyInt(v) then Pass
        else
          match BoundValue(rule.min, key, "min")
          case Failure(e) => Fail(e)
          case Success(lo) =>
            if NumericValue(v) < lo then Fail(LessThanMin(key))
            else
              match BoundValue(rule.max, key, "max")
              case Failure(e) => Fail(e)
              case Success(hi) =>
                if NumericValue(v) > hi then Fail(GreaterThanMax(key)) else Pass
  }

  /** What the validator accepts for one key, stated without its order of checks:
      a rule exists, its type is known and matches, and an `int` value lies
      within integer bounds. */
  predicate Acceptable(key: string, v: Value, rules: seq<Rule>) {
    RuleFor(rules, key).Some? &&
    var rule := RuleFor(rules, key).value;
    FindType(rule.valueType).Success? && IsInstance(v, FindType(rule.valueType).value) &&
    (IsPyInt(v) ==>
      rule.min.Some? && rule.min.value.IntBound? && rule.max.Some? && rule.max.value.IntBound? &&
      rule.min.value.n <= NumericValue(v) <= rule.max.value.n)
  }

  lemma CheckEntryPassIff(key: string, v: Value, rules: seq<Rule>)
    ensures CheckEntry(key, v, rules) == Pass <==> Acceptable(key, v, rules)
  {
  }

  /** Each way one pair fails, in the validator's order: an unknown key, a
      rule type `_find_type` does not know, a value of the wrong type, then
      for an `int` a bad `min` entry (passed on as is), a value below it, a
      bad `max` entry (passed on as is), a value above it. */
  lemma CheckEntryFailures(key: string, v: Value, rules: seq<Rule>)
    ensures RuleFor(rules, key).None? ==> CheckEntry(key, v, rules) == Fail(UnsupportedKey(key))
    ensures RuleFor(rules, key).Some? ==>
      var rule := RuleFor(rules, key).value;
      var t := FindType(rule.valueType);
      && (t.Failure? ==> CheckEntry(key, v, rules) == Fail(UnsupportedRuleType(rule.valueType)))
      && (t.Success? && !IsInstance(v, t.value) ==> CheckEntry(key, v, rules) == Fail(IncorrectType(key, rule.valueType)))
      && (t.Success? && IsInstance(v, t.value) && IsPyInt(v) ==>
            var lo := BoundValue(rule.min, key, "min");
            var hi := BoundValue(rule.max, key, "max");
            && (lo.Failure? ==> CheckEntry(key, v, rules) == Fail(lo.error))
            && (lo.Success? && NumericValue(v) < lo.value ==> CheckEntry(key, v, rules) == Fail(LessThanMin(key)))
            && (lo.Success? && NumericValue(v) >= lo.value && hi.Failure? ==> CheckEntry(key, v, rules) == Fail(hi.error))
            && (lo.Success? && NumericValue(v) >= lo.value && hi.Success? && NumericValue(v) > hi.value ==>
                  CheckEntry(key, v, rules) == Fail(GreaterThanMax(key))))
  {
  }

  /** The min check comes first: a value below an integer minimum is reported
      as such whatever the maximum entry holds. */
  lemma BelowMinReportedFirst(key: string, v: Value, rules: seq<Rule>)
    requires RuleFor(rules, key).Some?
    requires FindType(RuleFor(rules, key).value.valueType).Success?
    requires IsInstance(v, FindType(RuleFor(rules, key).value.valueType).value) && IsPyInt(v)
    requires RuleFor(rules, key).value.min == Some(IntBound(NumericValue(v) + 1))
    ensures CheckEntry(key, v, rules) == Fail(LessThanMin(key))
  {
  }

  /** Booleans are `int`s: under a boolean rule without a `min` entry every
      boolean value fails on the missing entry. */
  lemma BooleanValuesNeedBounds(key: string, b: bool, rules: seq<Rule>)
    requires RuleFor(rules, key).Some? && RuleFor(rules, key).value.valueType == "boolean"
    requires RuleFor(rules, key).value.min.None?
    ensures CheckEntry(key, BoolValue(b), rules) == Fail(MissingBound(key, "min"))
  {
  }

  /** An integer too large for a machine word is a `long`, never accepted. */
  lemma LongIntegersRejected(key: string, i: int, rules: seq<Rule>)
    requires i > MaxPyInt
    ensures CheckEntry(key, IntValue(i), rules).Fail?
  {
  }

  /** `_validate_configuration(values)` over the request's key/value pairs in
      iteration order: the first failing pair decides. */
  function ValidateConfiguration(values: seq<(string, Value)>, rules: seq<Rule>): Outcome<ServiceError> {
    if |values| == 0 then Pass
    else
      match CheckEntry(values[0].0, values[0].1, rules)
      case Fail(e) => Fail(e)
      case Pass => ValidateConfiguration(values[1..], rules)
  }

  /** Every pair before position `i` passes. */
  predicate PassesUpTo(values: seq<(string, Value)>, rules: seq<Rule>, i: nat)
    requires i <= |values|
  {
    forall j :: 0 <= j < i ==> CheckEntry(values[j].0, values[j].1, rules) == Pass
  }

  /** The request passes exactly when every pair is acceptable; a failure is
      the error of the first pair that is not. */
  lemma {:induction false} ValidateConfigurationCases(values: seq<(string, Value)>, rules: seq<Rule>)
    ensures ValidateConfiguration(values, rules) == Pass <==> PassesUpTo(values, rules, |values|)
    ensures ValidateConfiguration(values, rules).Fail? ==>
      exists i :: 0 <= i < |values| && PassesUpTo(values, rules, i) &&
                  CheckEntry(values[i].0, values[i].1, rules) == ValidateConfiguration(values, rules)
    decreases |values|
  {
    if |values| > 0 {
      var rest := values[1..];
      assert forall j :: 1 <= j < |values| ==> values[j] == rest[j - 1];
      if CheckEntry(values[0].0, values[0].1, rules) == Pass {
        ValidateConfigurationCases(rest, rules);
        assert forall i :: 0 <= i < |rest| ==> (PassesUpTo(rest, rules, i) <==> PassesUpTo(values, rules, i + 1));
        if ValidateConfiguration(values, rules).Fail? {
          var i :| 0 <= i < |rest| && PassesUpTo(rest, rules, i) &&
                   CheckEntry(rest[i].0, rest[i].1, rules) == ValidateConfiguration(rest, rules);
          assert PassesUpTo(values, rules, i + 1) && values[i + 1] == rest[i];
        }
      } else {
        assert PassesUpTo(values, rules, 0);
      }
    }
  }

  /** `ParametersController.show`: the first rule named `id`. */
  function ShowParameter(rules: seq<Rule>, id: string): (r: Result<Rule, ServiceError>)
    ensures r.Success? ==> r.value in rules && r.value.name == id
    ensures r.Failure? <==> forall i :: 0 <= i < |rules| ==> rules[i].name != id
    ensures r.Failure? ==> r.error == ConfigKeyNotFound(id)
  {
    match RuleFor(rules, id)
    case None => Failure(ConfigKeyNotFound(id))
    case Some(rule) => Success(rule)
  }

  /** The items `_configuration_items_list` builds for a validated request. */
  function ItemsFor(groupId: nat, values: seq<(string, Value)>): (items: seq<ConfigurationItem>)
    ensures |items| == |values|
    ensures forall i :: 0 <= i < |values| ==>
      items[i].configurationId == groupId && items[i].key == values[i].0 && items[i].value == values[i].1
  {
    seq(|values|, i requires 0 <= i < |values| => ConfigurationItem(groupId, values[i].0, values[i].1))
  }

  /** `_configuration_items_list(group, configuration)`: no items and no
      validation without `values`; otherwise the values are validated and one
      item per key is built, tagged with the group id. */
  method ConfigurationItemsList(groupId: nat, values: Option<seq<(string, Value)>>, rules: seq<Rule>)
    returns (r: Result<seq<ConfigurationItem>, ServiceError>)
    ensures values.None? ==> r == Success([])
    ensures values.Some? && ValidateConfiguration(values.value, rules).Fail? ==>
      r == Failure(ValidateConfiguration(values.value, rules).error)
    ensures values.Some? && ValidateConfiguration(values.value, rules).Pass? ==>
      r == Success(ItemsFor(groupId, values.value))
  {
    if values.None? {
      return Success([]);
    }
    var checked := ValidateConfiguration(values.value, rules);
    if checked.Fail? {
      return Failure(checked.error);
    }
    var pairs := values.value;
    var items: seq<ConfigurationItem> := [];
    for i := 0 to |pairs|
      invariant items == ItemsFor(groupId, pairs[..i])
    {
      items := items + [ConfigurationItem(groupId, pairs[i].0, pairs[i].1)];
    }
    assert pairs[..|pairs|] == pairs;
    r := Success(items);
  }

  /** The instances the API's guards look at: non-deleted instances of the
      caller's tenant that use group `id`. */
  function AttachedInstances(instances: seq<InstanceRow>, ctx: Context, id: nat): (r: seq<InstanceRow>)
    ensures forall x :: x in r <==>
      x in instances && x.tenantId == ctx.tenant && x.configurationId == Some(id) && !x.deleted
  {
    if |instances| == 0 then []
    else
      var last := instances[|instances| - 1];
      AttachedInstances(instances[..|instances| - 1], ctx, id) +
        (if last.tenantId == ctx.tenant && last.configurationId == Some(id) && !last.deleted then [last] else [])
  }

  /** The guard of `delete` filters by the caller's tenant, so an instance of
      another tenant never blocks the deletion, even for an admin. */
  lemma OtherTenantsInstancesDoNotBlock(instances: seq<InstanceRow>, ctx: Context, id: nat)
    requires forall i :: 0 <= i < |instances| ==> instances[i].tenantId != ctx.tenant
    ensures AttachedInstances(instances, ctx, id) == []
  {
  }

  /** `ConfigurationsController.delete`: the group must be visible to the
      caller; if any attached instance remains the request fails and nothing is
      deleted; otherwise the group and its items are deleted at `deletedAt`. */
  method Delete(store: ConfigurationStore, ctx: Context, id: nat, instances: seq<InstanceRow>, deletedAt: int)
    returns (r: Outcome<ServiceError>)
    requires store.Valid()
    modifies store
    ensures store.Valid()
    ensures FindGroup(old(store.groups), ctx, id).Failure? ==>
      r == Fail(Model(ModelNotFound(id))) && unchanged(store)
    ensures FindGroup(old(store.groups), ctx, id).Success? && |AttachedInstances(instances, ctx, id)| > 0 ==>
      r == Fail(InstanceAssignedToConfiguration) && unchanged(store)
    ensures FindGroup(old(store.groups), ctx, id).Success? && |AttachedInstances(instances, ctx, id)| == 0 ==>
      var k := FindGroup(old(store.groups), ctx, id).value;
      r == Pass &&
      store.groups == old(store.groups)[k := old(store.groups)[k].(deleted := true, deletedAt := Some(deletedAt))] &&
      store.params == MarkItemsDeleted(old(store.params), id, deletedAt) &&
      store.overrideUpdates == old(store.overrideUpdates)
  {
    var found := FindGroup(store.groups, ctx, id);
    if found.Failure? {
      return Fail(Model(found.error));
    }
    var attached := AttachedInstances(instances, ctx, id);
    if |attached| > 0 {
      return Fail(InstanceAssignedToConfiguration);
    }
    store.Delete(found.value, deletedAt);
    r := Pass;
  }

  /** The `configuration` object of an update request. */
  datatype UpdateBody = UpdateBody(name: Option<string>, description: Option<string>, values: Option<seq<(string, Value)>>)

  /** The group row as `update` rewrites it: name and description change only
      when the request carries them. */
  function UpdatedGroup(g: GroupRecord, body: UpdateBody): (u: GroupRecord)
    ensures u.name == (if body.name.Some? then body.name.value else g.name)
    ensures u.description == (if body.description.Some? then body.description.value else g.description)
    ensures u.id == g.id && u.tenantId == g.tenantId && u.deleted == g.deleted && u.deletedAt == g.deletedAt
    ensures u.datastoreVersionId == g.datastoreVersionId
  {
    var named := if body.name.Some? then g.(name := body.name.value) else g;
    if body.description.Some? then named.(description := body.description.value) else named
  }

  /** The pairs an update submits: none when the request has no `values`. */
  function Submitted(body: UpdateBody): seq<(string, Value)> {
    if body.values.Some? then body.values.value else []
  }

  /** Rewriting a visible group's row in place, keeping its id, lets the same
      lookup find it at the same position, ids being unique. */
  lemma FindGroupAfterRewrite(groups: seq<GroupRecord>, ctx: Context, id: nat, k: nat, g: GroupRecord)
    requires UniqueIds(groups) && FindGroup(groups, ctx, id) == Success(k)
    requires g.id == groups[k].id && VisibleTo(g, ctx)
    ensures FindGroup(groups[k := g], ctx, id) == Success(k)
  {
    var after := groups[k := g];
    assert after[k].id == id && VisibleTo(after[k], ctx);
    forall i | 0 <= i < |after| && i != k ensures after[i].id != id {
      assert after[i] == groups[i];
      if i < k {
        assert groups[i].id != groups[k].id;
      } else {
        assert groups[k].id != groups[i].id;
      }
    }
  }

  /** After the update's writes (the row rewritten with id, tenant and deletion
      kept, the old items removed, the accepted pairs saved) the group loads
      back exactly the submitted pairs, normalized; a text outside ASCII makes
      the load fail at the first such pair. */
  lemma ReplacedGroupLoads(
    groups: seq<GroupRecord>, ps: seq<ParamRecord>, ctx: Context, id: nat, k: nat, g: GroupRecord,
    at: int, values: seq<(string, Value)>, rules: seq<Rule>)
    requires UniqueIds(groups) && FindGroup(groups, ctx, id) == Success(k)
    requires g.id == groups[k].id && g.tenantId == groups[k].tenantId && g.deleted == groups[k].deleted
    requires ValidateConfiguration(values, rules) == Pass
    ensures AsciiValues(values) ==>
      LoadedItems(groups[k := g], MarkItemsDeleted(ps, id, at) + SavedParams(ItemsFor(id, values)), ctx, id, rules)
        == Success(NormalizedItems(values, rules))
    ensures !AsciiValues(values) ==>
      LoadedItems(groups[k := g], MarkItemsDeleted(ps, id, at) + SavedParams(ItemsFor(id, values)), ctx, id, rules)
        == Failure(StoredNotAscii(values[FirstNonAscii(values)].0))
  {
    FindGroupAfterRewrite(groups, ctx, id, k, g);
    UpdatedGroupLoadsSubmittedValues(ps, id, at, values, rules);
  }

  /** `ConfigurationsController.update`: load the group and its items, collect
      the attached instances, validate the request, then replace the group's
      items and save, pushing the new overrides to the attached instances.
      Every failure before the item replacement leaves the store unchanged; an
      accepted text outside ASCII fails in `save`'s reload, after the writes
      and before any override is pushed. */
  method Update(store: ConfigurationStore, ctx: Context, id: nat, body: UpdateBody,
                instances: seq<InstanceRow>, rules: seq<Rule>, deletedAt: int)
    returns (r: Outcome<ServiceError>)
    requires store.Valid()
    modifies store
    ensures store.Valid()
    ensures FindGroup(old(store.groups), ctx, id).Failure? ==>
      r == Fail(Model(ModelNotFound(id))) && unchanged(store)
    ensures LoadedItems(old(store.groups), old(store.params), ctx, id, rules).Failure? ==>
      r == Fail(Model(LoadedItems(old(store.groups), old(store.params), ctx, id, rules).error)) && unchanged(store)
    ensures LoadedItems(old(store.groups), old(store.params), ctx, id, rules).Success? &&
            ValidateConfiguration(Submitted(body), rules).Fail? ==>
      r == Fail(ValidateConfiguration(Submitted(body), rules).error) && unchanged(store)
    ensures LoadedItems(old(store.groups), old(store.params), ctx, id, rules).Success? &&
            ValidateConfiguration(Submitted(body), rules).Pass? && !AsciiValues(Submitted(body)) ==>
      var k := FindGroup(old(store.groups), ctx, id).value;
      var values := Submitted(body);
      && r == Fail(Model(StoredNotAscii(values[FirstNonAscii(values)].0)))
      && store.groups == old(store.groups)[k := UpdatedGroup(old(store.groups)[k], body)]
      && store.params == MarkItemsDeleted(old(store.params), id, deletedAt) + SavedParams(ItemsFor(id, values))
      && store.overrideUpdates == old(store.overrideUpdates)
    ensures LoadedItems(old(store.groups), old(store.params), ctx, id, rules).Success? &&
            ValidateConfiguration(Submitted(body), rules).Pass? && AsciiValues(Submitted(body)) ==>
      var k := FindGroup(old(store.groups), ctx, id).value;
      var loaded := NormalizedItems(Submitted(body), rules);
      && r == Pass
      && store.groups == old(store.groups)[k := UpdatedGroup(old(store.groups)[k], body)]
      && store.params == MarkItemsDeleted(old(store.params), id, deletedAt) + SavedParams(ItemsFor(id, Submitted(body)))
      && LoadedItems(store.groups, store.params, ctx, id, rules) == Success(loaded)
      && store.overrideUpdates ==
           old(store.overrideUpdates) + PushedOverrides(AttachedInstances(instances, ctx, id), OverridesOf(loaded))
  {
    var found := FindGroup(store.groups, ctx, id);
    if found.Failure? {
      return Fail(Model(found.error));
    }
    var k := found.value;
    var current := store.LoadItems(ctx, id, rules);
    if current.Failure? {
      return Fail(Model(current.error));
    }
    var attached := AttachedInstances(instances, ctx, id);
    var group := UpdatedGroup(store.groups[k], body);
    var items := ConfigurationItemsList(group.id, body.values, rules);
    if items.Failure? {
      return Fail(items.error);
    }
    assert items.value == ItemsFor(id, Submitted(body));
    ReplacedGroupLoads(store.groups, store.params, ctx, id, k, group, deletedAt, Submitted(body), rules);
    store.RemoveAllItems(group.id, deletedAt);
    var saved := store.Save(ctx, k, group, items.value, attached, rules);
    if saved.Fail? {
      return Fail(Model(saved.error));
    }
    r := Pass;
  }

  /** The value `load_items` gives back for a value the validator accepted:
      the value itself, except that a boolean under an integer rule comes back
      as the integer 1 or 0. */
  function Normalized(rules: seq<Rule>, key: string, v: Value): Value {
    if RuleFor(rules, key).Some? && RuleFor(rules, key).value.valueType == "integer" && v.BoolValue? then
      IntValue(if v.b then 1 else 0)
    else v
  }

  /** A value the validator accepts survives storage: once stored, `load_items`
      converts it to its normalized form. The one exception is text outside
      ASCII: `basestring` accepts it, and `str()` refuses it on the way back. */
  lemma AcceptedValueLoadsBack(key: string, v: Value, rules: seq<Rule>)
    requires CheckEntry(key, v, rules) == Pass
    ensures AsciiText(v) ==> ConvertValue(rules, key, Stored(v)) == Success(Normalized(rules, key, v))
    ensures !AsciiText(v) ==> ConvertValue(rules, key, Stored(v)) == Failure(StoredNotAscii(key))
  {
    if !AsciiText(v) {
      return;
    }
    var rule := RuleFor(rules, key).value;
    if rule.valueType == "integer" && v.BoolValue? {
      StoredValueRoundTrip(rules, key, IntValue(if v.b then 1 else 0));
    } else {
      StoredValueRoundTrip(rules, key, v);
    }
  }

  /** Rows saved for a group are all live rows of that group. */
  lemma SavedItemsAllLive(id: nat, values: seq<(string, Value)>)
    ensures LiveItems(SavedParams(ItemsFor(id, values)), id) == SavedParams(ItemsFor(id, values))
  {
    LiveItemsOfLiveRows(SavedParams(ItemsFor(id, values)), id);
  }

  /** After the old items are removed and the new ones saved, the live items
      of the group are exactly the new ones. */
  lemma LiveItemsAfterReplace(ps: seq<ParamRecord>, id: nat, at: int, values: seq<(string, Value)>)
    ensures LiveItems(MarkItemsDeleted(ps, id, at) + SavedParams(ItemsFor(id, values)), id) ==
      SavedParams(ItemsFor(id, values))
  {
    LiveItemsAppend(MarkItemsDeleted(ps, id, at), SavedParams(ItemsFor(id, values)), id);
    NoLiveItemsAfterRemove(ps, id, at);
    SavedItemsAllLive(id, values);
  }

  /** The items `load_items` should give back for accepted request pairs. */
  function NormalizedItems(values: seq<(string, Value)>, rules: seq<Rule>): (items: seq<LoadedItem>)
    ensures |items| == |values|
    ensures forall i :: 0 <= i < |values| ==>
      items[i] == LoadedItem(values[i].0, Normalized(rules, values[i].0, values[i].1))
  {
    seq(|values|, i requires 0 <= i < |values| => LoadedItem(values[i].0, Normalized(rules, values[i].0, values[i].1)))
  }

  /** Every pair's value is text `str()` can encode, or no text at all. */
  predicate AsciiValues(values: seq<(string, Value)>) {
    forall i :: 0 <= i < |values| ==> AsciiText(values[i].1)
  }

  /** The position of the first pair whose text is outside ASCII. */
  function FirstNonAscii(values: seq<(string, Value)>): (i: nat)
    requires !AsciiValues(values)
    ensures i < |values| && !AsciiText(values[i].1)
    ensures forall j :: 0 <= j < i ==> AsciiText(values[j].1)
    decreases |values|
  {
    if !AsciiText(values[0].1) then 0
    else
      var rest := values[1..];
      assert !AsciiValues(rest) by {
        var k :| 0 <= k < |values| && !AsciiText(values[k].1);
        assert rest[k - 1] == values[k];
      }
      1 + FirstNonAscii(rest)
  }

  /** Every row saved for accepted pairs converts to the pair's normalized
      value, except a text outside ASCII, which fails to convert. */
  lemma SavedRowsConvert(id: nat, values: seq<(string, Value)>, rules: seq<Rule>)
    requires ValidateConfiguration(values, rules) == Pass
    ensures var saved := SavedParams(ItemsFor(id, values));
      forall i :: 0 <= i < |saved| ==>
        && saved[i].key == values[i].0
        && (AsciiText(values[i].1) ==>
              ConvertValue(rules, saved[i].key, saved[i].value) == Success(Normalized(rules, values[i].0, values[i].1)))
        && (!AsciiText(values[i].1) ==>
              ConvertValue(rules, saved[i].key, saved[i].value) == Failure(StoredNotAscii(values[i].0)))
  {
    var saved := SavedParams(ItemsFor(id, values));
    ValidateConfigurationCases(values, rules);
    forall i | 0 <= i < |saved|
      ensures saved[i].key == values[i].0
      ensures AsciiText(values[i].1) ==>
        ConvertValue(rules, saved[i].key, saved[i].value) == Success(Normalized(rules, values[i].0, values[i].1))
      ensures !AsciiText(values[i].1) ==>
        ConvertValue(rules, saved[i].key, saved[i].value) == Failure(StoredNotAscii(values[i].0))
    {
      assert saved[i] == NewParam(id, values[i].0, values[i].1);
      AcceptedValueLoadsBack(values[i].0, values[i].1, rules);
    }
  }

  /** After an update whose values were all accepted, loading the group gives
      back exactly the submitted pairs, in order, with normalized values: the
      old items are gone and every new item converts. A text outside ASCII
      makes the load fail at the first such pair instead. */
  lemma UpdatedGroupLoadsSubmittedValues(ps: seq<ParamRecord>, id: nat, at: int, values: seq<(string, Value)>, rules: seq<Rule>)
    requires ValidateConfiguration(values, rules) == Pass
    ensures AsciiValues(values) ==>
      ConvertAll(rules, LiveItems(MarkItemsDeleted(ps, id, at) + SavedParams(ItemsFor(id, values)), id)) ==
        Success(NormalizedItems(values, rules))
    ensures !AsciiValues(values) ==>
      ConvertAll(rules, LiveItems(MarkItemsDeleted(ps, id, at) + SavedParams(ItemsFor(id, values)), id)) ==
        Failure(StoredNotAscii(values[FirstNonAscii(values)].0))
  {
    LiveItemsAfterReplace(ps, id, at, values);
    if AsciiValues(values) {
      SavedRowsLoad(id, values, rules);
    } else {
      SavedRowsFailAtFirstNonAscii(id, values, rules);
    }
  }

  /** Saved rows of accepted ASCII pairs load as the normalized pairs. */
  lemma SavedRowsLoad(id: nat, values: seq<(string, Value)>, rules: seq<Rule>)
    requires ValidateConfiguration(values, rules) == Pass && AsciiValues(values)
    ensures ConvertAll(rules, SavedParams(ItemsFor(id, values))) == Success(NormalizedItems(values, rules))
  {
    var saved := SavedParams(ItemsFor(id, values));
    SavedRowsConvert(id, values, rules);
    ConvertAllCases(rules, saved);
    var converted := ConvertAll(rules, saved);
    assert converted.Success?;
    assert converted.value == NormalizedItems(values, rules);
  }

  /** Saved rows of accepted pairs fail to load at the first text outside ASCII. */
  lemma SavedRowsFailAtFirstNonAscii(id: nat, values: seq<(string, Value)>, rules: seq<Rule>)
    requires ValidateConfiguration(values, rules) == Pass && !AsciiValues(values)
    ensures ConvertAll(rules, SavedParams(ItemsFor(id, values))) ==
      Failure(StoredNotAscii(values[FirstNonAscii(values)].0))
  {
    SavedRowsConvert(id, values, rules);
    ConvertAllFirstFailure(rules, SavedParams(ItemsFor(id, values)), FirstNonAscii(values));
  }
}
