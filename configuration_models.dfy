/** The configuration-group models of `trove/configuration/models.py`: tenant
    scoping and the page-limit clamp of group listings, the stored parameter
    rows, their soft deletion, the loader that turns stored strings back into
    typed values by rule type, the override mapping an instance receives, the
    restart check, and `save`, which writes a group with its items and pushes
    the overrides to every attached instance.

    The database tables are the fields of `ConfigurationStore`; the
    manager's `update_overrides` calls are appended to `overrideUpdates`. The
    validation rules and the clock are parameters. */
module ConfigurationModels {
  import opened Wrappers
  import opened Text
  import opened ValidationRules

  /** The request context: tenant, admin flag and the requested page size. */
  datatype Context = Context(tenant: string, isAdmin: bool, limit: Option<int>)

  datatype ModelError =
    | ModelNotFound(id: nat)
      /** `_get_rule` found no rule for the item's key; `.get` on None fails. */
    | NoRuleFor(key: string)
      /** `int(...)` on a stored value that is not an integer (ValueError). */
    | StoredNotInteger(key: string, stored: string)
      /** `str(...)` on a stored `unicode` value holding a character outside
          ASCII (UnicodeEncodeError under Python 2). */
    | StoredNotAscii(key: string)
      /** `load_parameter_by_name` found no datastore parameter of that name. */
    | ParameterNotFound(name: string)

  /** A row of the `configurations` table. */
  datatype GroupRecord = GroupRecord(
    id: nat, name: string, description: string, tenantId: string,
    datastoreVersionId: string, deleted: bool, deletedAt: Option<int>)

  /** A row of the `configuration_parameters` table; the value column holds text. */
  datatype ParamRecord = ParamRecord(
    configurationId: nat, key: string, value: string, deleted: bool, deletedAt: Option<int>)

  /** A row of the instances table, as far as configuration groups look at it. */
  datatype InstanceRow = InstanceRow(id: nat, tenantId: string, configurationId: Option<nat>, deleted: bool)

  /** An item as the API builds it before it is saved: group, key and typed value. */
  datatype ConfigurationItem = ConfigurationItem(configurationId: nat, key: string, value: Value)

  /** An item after `load_items`: its key and the value converted by rule type. */
  datatype LoadedItem = LoadedItem(key: string, value: Value)

  /** A row of `datastore_configuration_parameters`, as the restart check reads it. */
  datatype DatastoreParam = DatastoreParam(name: string, restartRequired: bool)

  /** The page size of a group listing: the context's limit, or the default when
      that is falsy (absent or 0), never more than the default. */
  function PageLimit(limit: Option<int>, defaultLimit: int): (r: int)
    ensures r <= defaultLimit
    ensures r == defaultLimit || (limit.Some? && r == limit.value)
    ensures limit.Some? && limit.value != 0 && limit.value <= defaultLimit ==> r == limit.value
    ensures (limit.None? || limit.value == 0) ==> r == defaultLimit
  {
    var requested := if limit.Some? && limit.value != 0 then limit.value else defaultLimit;
    if requested > defaultLimit then defaultLimit else requested
  }

  /** Admins see every non-deleted group, other users the non-deleted groups of
      their own tenant. */
  predicate VisibleTo(g: GroupRecord, ctx: Context) {
    !g.deleted && (ctx.isAdmin || g.tenantId == ctx.tenant)
  }

  /** The groups `Configurations.load` lists, in table order. */
  function VisibleGroups(groups: seq<GroupRecord>, ctx: Context): (r: seq<GroupRecord>)
    ensures |r| <= |groups|
    ensures forall g :: g in r <==> g in groups && VisibleTo(g, ctx)
  {
    if |groups| == 0 then []
    else
      var last := groups[|groups| - 1];
      VisibleGroups(groups[..|groups| - 1], ctx) + (if VisibleTo(last, ctx) then [last] else [])
  }

  /** `Configuration.load(context, id)`: the position of the group with that id
      the context may see, or ModelNotFound. */
  function FindGroup(groups: seq<GroupRecord>, ctx: Context, id: nat): (r: Result<nat, ModelError>)
    ensures r.Success? ==> r.value < |groups| && groups[r.value].id == id && VisibleTo(groups[r.value], ctx)
    ensures r.Failure? ==> r.error == ModelNotFound(id)
    ensures r.Failure? <==> forall i :: 0 <= i < |groups| ==> !(groups[i].id == id && VisibleTo(groups[i], ctx))
  {
    if |groups| == 0 then Failure(ModelNotFound(id))
    else if groups[0].id == id && VisibleTo(groups[0], ctx) then Success(0)
    else
      match FindGroup(groups[1..], ctx, id)
      case Failure(e) => Failure(e)
      case Success(k) => Success(k + 1)
  }

  /** Group ids are unique in the table. */
  predicate UniqueIds(groups: seq<GroupRecord>) {
    forall i, j :: 0 <= i < j < |groups| ==> groups[i].id != groups[j].id
  }

  /** The text the value column receives for a typed value: decimal integers,
      `1`/`0` for booleans, strings as they are, other JSON values as their text. */
  function Stored(v: Value): string {
    match v
    case BoolValue(b) => if b then "1" else "0"
    case IntValue(i) => IntToString(i)
    case StrValue(s) => s
    case OtherValue(t) => t
  }

  /** The row `ConfigurationParameter.create`/`save` writes for one item. */
  function NewParam(cfgId: nat, key: string, v: Value): ParamRecord {
    ParamRecord(cfgId, key, Stored(v), false, None)
  }

  /** One row after `remove_all_items(id, at)`. */
  function MarkDeleted(p: ParamRecord, id: nat, at: int): ParamRecord {
    if p.configurationId == id && !p.deleted then p.(deleted := true, deletedAt := Some(at)) else p
  }

  /** The parameter table after `remove_all_items(id, at)`: every live item of
      the group is deleted at `at`; every other row is untouched. */
  function MarkItemsDeleted(ps: seq<ParamRecord>, id: nat, at: int): (r: seq<ParamRecord>)
    ensures |r| == |ps|
    ensures forall i :: 0 <= i < |ps| && ps[i].configurationId == id && !ps[i].deleted ==>
      r[i] == ps[i].(deleted := true, deletedAt := Some(at))
    ensures forall i :: 0 <= i < |ps| && (ps[i].configurationId != id || ps[i].deleted) ==> r[i] == ps[i]
  {
    seq(|ps|, i requires 0 <= i < |ps| => MarkDeleted(ps[i], id, at))
  }

  /** Removing twice changes nothing the first removal did not: the second
      pass finds no live item, so the first deletion time stays. */
  lemma RemoveItemsIdempotent(ps: seq<ParamRecord>, id: nat, at: int, later: int)
    ensures MarkItemsDeleted(MarkItemsDeleted(ps, id, at), id, later) == MarkItemsDeleted(ps, id, at)
  {
    var once := MarkItemsDeleted(ps, id, at);
    assert forall i :: 0 <= i < |once| ==> MarkItemsDeleted(once, id, later)[i] == once[i];
  }

  /** The live items of group `id`, in table order (`find_all(configuration_id=id, deleted=False)`). */
  function LiveItems(ps: seq<ParamRecord>, id: nat): (r: seq<ParamRecord>)
    ensures |r| <= |ps|
    ensures forall i :: 0 <= i < |r| ==> r[i] in ps && r[i].configurationId == id && !r[i].deleted
  {
    if |ps| == 0 then []
    else
      var last := ps[|ps| - 1];
      LiveItems(ps[..|ps| - 1], id) + (if last.configurationId == id && !last.deleted then [last] else [])
  }

  /** A table whose rows are all live rows of the group is its own live part. */
  lemma {:induction false} LiveItemsOfLiveRows(ps: seq<ParamRecord>, id: nat)
    requires forall i :: 0 <= i < |ps| ==> ps[i].configurationId == id && !ps[i].deleted
    ensures LiveItems(ps, id) == ps
    decreases |ps|
  {
    if |ps| > 0 {
      var front := ps[..|ps| - 1];
      assert forall i :: 0 <= i < |front| ==> front[i] == ps[i];
      LiveItemsOfLiveRows(front, id);
      assert front + [ps[|ps| - 1]] == ps;
    }
  }

  /** After `remove_all_items(id, at)` the group has no live items. */
  lemma {:induction false} NoLiveItemsAfterRemove(ps: seq<ParamRecord>, id: nat, at: int)
    ensures LiveItems(MarkItemsDeleted(ps, id, at), id) == []
    decreases |ps|
  {
    if |ps| > 0 {
      var r := MarkItemsDeleted(ps, id, at);
      assert r[..|r| - 1] == MarkItemsDeleted(ps[..|ps| - 1], id, at);
      NoLiveItemsAfterRemove(ps[..|ps| - 1], id, at);
    }
  }

  /** Live items of the table with rows appended are those of the table
      followed by those among the new rows. */
  lemma {:induction false} LiveItemsAppend(ps: seq<ParamRecord>, qs: seq<ParamRecord>, id: nat)
    ensures LiveItems(ps + qs, id) == LiveItems(ps, id) + LiveItems(qs, id)
    decreases |qs|
  {
    if |qs| == 0 {
      assert ps + qs == ps;
    } else {
      var all := ps + qs;
      var front := qs[..|qs| - 1];
      var last := qs[|qs| - 1];
      assert all[..|all| - 1] == ps + front;
      assert all[|all| - 1] == last;
      var tail := if last.configurationId == id && !last.deleted then [last] else [];
      assert LiveItems(all, id) == LiveItems(ps + front, id) + tail;
      assert LiveItems(qs, id) == LiveItems(front, id) + tail;
      LiveItemsAppend(ps, front, id);
      assert LiveItems(ps, id) + LiveItems(front, id) + tail == LiveItems(ps, id) + (LiveItems(front, id) + tail);
    }
  }

  /** Every character is below 128: `str()` encodes it under Python 2's
      default ASCII codec. */
  predicate IsAscii(s: string) {
    forall i :: 0 <= i < |s| ==> s[i] as int < 128
  }

  /** A string value that `str()` can encode; other values pass trivially. */
  predicate AsciiText(v: Value) {
    v.StrValue? ==> IsAscii(v.s)
  }

  /** The value a stored string converts to under the rule for its key:
      `bool(int(v))` for boolean rules, `int(v)` for integer rules, `str(v)`
      otherwise. A key without a rule is an error, as is a non-integer under a
      boolean or integer rule, and text `str()` cannot encode in ASCII. The
      database layer hands the column back as `unicode`. */
  function ConvertValue(rules: seq<Rule>, key: string, stored: string): Result<Value, ModelError>
  {
    match RuleFor(rules, key)
    case None => Failure(NoRuleFor(key))
    case Some(rule) =>
      if rule.valueType == "boolean" then
        match ParseInt(stored)
        case None => Failure(StoredNotInteger(key, stored))
        case Some(n) => Success(BoolValue(n != 0))
      else if rule.valueType == "integer" then
        match ParseInt(stored)
        case None => Failure(StoredNotInteger(key, stored))
        case Some(n) => Success(IntValue(n))
      else if IsAscii(stored) then
        Success(StrValue(stored))
      else
        Failure(StoredNotAscii(key))
  }

  /** The value has the Python type the rule's type names. */
  predicate HasRuleType(valueType: string, v: Value) {
    if valueType == "boolean" then v.BoolValue?
    else if valueType == "integer" then v.IntValue?
    else v.StrValue?
  }

  /** Storing a value of the rule's type and loading it back gives the value,
      when the value is not text outside ASCII. */
  lemma StoredValueRoundTrip(rules: seq<Rule>, key: string, v: Value)
    requires RuleFor(rules, key).Some? && HasRuleType(RuleFor(rules, key).value.valueType, v)
    requires AsciiText(v)
    ensures ConvertValue(rules, key, Stored(v)) == Success(v)
  {
    var t := RuleFor(rules, key).value.valueType;
    if t == "boolean" {
      if v.b {
        ParseDigits("1", 1);
      } else {
        ParseDigits("0", 0);
      }
    } else if t == "integer" {
      ParseIntOfIntToString(v.i);
    }
  }

  /** Loading fails exactly when the key has no rule (NoRuleFor), a boolean
      or integer rule meets a non-integer string (StoredNotInteger), or any
      other rule meets text outside ASCII (StoredNotAscii). A loaded value has
      the type its rule names, and storing it again and reloading gives it
      back: loading normalizes once and for all. */
  lemma ConvertValueCases(rules: seq<Rule>, key: string, stored: string)
    ensures ConvertValue(rules, key, stored).Failure? <==>
      RuleFor(rules, key).None? ||
      ((RuleFor(rules, key).value.valueType == "boolean" || RuleFor(rules, key).value.valueType == "integer")
       && ParseInt(stored).None?) ||
      (RuleFor(rules, key).value.valueType != "boolean" && RuleFor(rules, key).value.valueType != "integer"
       && !IsAscii(stored))
    ensures ConvertValue(rules, key, stored).Failure? ==>
      ConvertValue(rules, key, stored).error ==
        if RuleFor(rules, key).None? then NoRuleFor(key)
        else if RuleFor(rules, key).value.valueType == "boolean" || RuleFor(rules, key).value.valueType == "integer"
        then StoredNotInteger(key, stored)
        else StoredNotAscii(key)
    ensures ConvertValue(rules, key, stored).Success? ==>
      var v := ConvertValue(rules, key, stored).value;
      && RuleFor(rules, key).Some? && HasRuleType(RuleFor(rules, key).value.valueType, v) && AsciiText(v)
      && ConvertValue(rules, key, Stored(v)) == Success(v)
  {
    var r := ConvertValue(rules, key, stored);
    if r.Success? {
      StoredValueRoundTrip(rules, key, r.value);
    }
  }

  /** The conversion loop of `load_items`: the converted items in row order, or
      the error of the first row that cannot be converted. */
  function ConvertAll(rules: seq<Rule>, ps: seq<ParamRecord>): (r: Result<seq<LoadedItem>, ModelError>)
    ensures r.Success? ==> |r.value| == |ps|
  {
    if |ps| == 0 then Success([])
    else
      var last := ps[|ps| - 1];
      match ConvertAll(rules, ps[..|ps| - 1])
      case Failure(e) => Failure(e)
      case Success(xs) =>
        match ConvertValue(rules, last.key, last.value)
        case Failure(e) => Failure(e)
        case Success(v) => Success(xs + [LoadedItem(last.key, v)])
  }

  /** The loader succeeds exactly when every row converts, and then gives one
      converted item per row, in row order. */
  lemma {:induction false} ConvertAllCases(rules: seq<Rule>, ps: seq<ParamRecord>)
    ensures ConvertAll(rules, ps).Success? <==>
      forall i :: 0 <= i < |ps| ==> ConvertValue(rules, ps[i].key, ps[i].value).Success?
    ensures ConvertAll(rules, ps).Success? ==> forall i :: 0 <= i < |ps| ==>
      ConvertAll(rules, ps).value[i] == LoadedItem(ps[i].key, ConvertValue(rules, ps[i].key, ps[i].value).value)
    decreases |ps|
  {
    if |ps| > 0 {
      var init := ps[..|ps| - 1];
      var last := ps[|ps| - 1];
      ConvertAllCases(rules, init);
      assert forall i :: 0 <= i < |init| ==> init[i] == ps[i];
      var r := ConvertAll(rules, ps);
      if ConvertAll(rules, init).Success? && ConvertValue(rules, last.key, last.value).Success? {
        var xs := ConvertAll(rules, init).value;
        assert r.value == xs + [LoadedItem(last.key, ConvertValue(rules, last.key, last.value).value)];
      }
    }
  }

  /** A failure in a prefix of the rows is the failure of all of them. */
  lemma {:induction false} ConvertAllFailurePersists(rules: seq<Rule>, ps: seq<ParamRecord>, j: nat)
    requires j <= |ps| && ConvertAll(rules, ps[..j]).Failure?
    ensures ConvertAll(rules, ps) == ConvertAll(rules, ps[..j])
    decreases |ps| - j
  {
    if j < |ps| {
      assert ps[..j + 1][..j] == ps[..j];
      ConvertAllFailurePersists(rules, ps, j + 1);
    } else {
      assert ps[..j] == ps;
    }
  }

  /** The first row that cannot be converted decides the loader's error. */
  lemma ConvertAllFirstFailure(rules: seq<Rule>, ps: seq<ParamRecord>, i: nat)
    requires i < |ps|
    requires forall j :: 0 <= j < i ==> ConvertValue(rules, ps[j].key, ps[j].value).Success?
    requires ConvertValue(rules, ps[i].key, ps[i].value).Failure?
    ensures ConvertAll(rules, ps) == Failure(ConvertValue(rules, ps[i].key, ps[i].value).error)
  {
    var init := ps[..i];
    ConvertAllCases(rules, init);
    assert forall j :: 0 <= j < i ==> init[j] == ps[j];
    assert ps[..i + 1][..i] == init && ps[..i + 1][i] == ps[i];
    ConvertAllFailurePersists(rules, ps, i + 1);
  }

  /** What `load_items(context, id)` returns on the given tables. */
  function LoadedItems(groups: seq<GroupRecord>, params: seq<ParamRecord>, ctx: Context, id: nat, rules: seq<Rule>)
    : Result<seq<LoadedItem>, ModelError>
  {
    match FindGroup(groups, ctx, id)
    case Failure(e) => Failure(e)
    case Success(_) => ConvertAll(rules, LiveItems(params, id))
  }

  /** The mapping built by `overrides[i.configuration_key] = i.configuration_value`
      over the items in order: its keys are exactly the items' keys. */
  function OverridesOf(items: seq<LoadedItem>): (m: map<string, Value>)
    ensures forall k :: k in m <==> exists i :: 0 <= i < |items| && items[i].key == k
  {
    if |items| == 0 then map[]
    else
      var front := items[..|items| - 1];
      var last := items[|items| - 1];
      var m := OverridesOf(front)[last.key := last.value];
      assert forall k :: k in m <==> exists i :: 0 <= i < |items| && items[i].key == k by {
        forall k | k in m ensures exists i :: 0 <= i < |items| && items[i].key == k {
          if k != last.key {
            var i :| 0 <= i < |front| && front[i].key == k;
            assert items[i].key == k;
          }
        }
        forall k | exists i :: 0 <= i < |items| && items[i].key == k ensures k in m {
          var i :| 0 <= i < |items| && items[i].key == k;
          if i < |front| {
            assert front[i].key == k;
          }
        }
      }
      m
  }

  /** When a key occurs several times, the mapping holds the value of its last
      occurrence. */
  lemma {:induction false} OverridesOfLastWins(items: seq<LoadedItem>, i: nat)
    requires i < |items| && forall j :: i < j < |items| ==> items[j].key != items[i].key
    ensures items[i].key in OverridesOf(items) && OverridesOf(items)[items[i].key] == items[i].value
    decreases |items|
  {
    if i < |items| - 1 {
      var front := items[..|items| - 1];
      assert front[i] == items[i];
      assert forall j :: i < j < |front| ==> front[j] == items[j];
      OverridesOfLastWins(front, i);
    }
  }

  /** `load_parameter_by_name`: the first datastore parameter of that name. */
  function FindParameter(catalog: seq<DatastoreParam>, name: string): (r: Option<DatastoreParam>)
    ensures r.Some? ==> r.value in catalog && r.value.name == name
    ensures r.None? <==> forall i :: 0 <= i < |catalog| ==> catalog[i].name != name
  {
    if |catalog| == 0 then None
    else if catalog[0].name == name then Some(catalog[0])
    else FindParameter(catalog[1..], name)
  }

  /** The item's datastore parameter exists and does not require a restart. */
  predicate FoundWithoutRestart(item: LoadedItem, catalog: seq<DatastoreParam>) {
    FindParameter(catalog, item.key).Some? && !FindParameter(catalog, item.key).value.restartRequired
  }

  /** The item's datastore parameter exists and requires a restart. */
  predicate FoundWithRestart(item: LoadedItem, catalog: seq<DatastoreParam>) {
    FindParameter(catalog, item.key).Some? && FindParameter(catalog, item.key).value.restartRequired
  }

  /** Every item before position `i` has a parameter that needs no restart. */
  predicate NoRestartUpTo(items: seq<LoadedItem>, catalog: seq<DatastoreParam>, i: nat)
    requires i <= |items|
  {
    forall j :: 0 <= j < i ==> FoundWithoutRestart(items[j], catalog)
  }

  /** The early-return loop of `does_configuration_need_restart`. */
  function ItemsNeedRestart(items: seq<LoadedItem>, catalog: seq<DatastoreParam>): Result<bool, ModelError> {
    if |items| == 0 then Success(false)
    else
      match FindParameter(catalog, items[0].key)
      case None => Failure(ParameterNotFound(items[0].key))
      case Some(p) => if p.restartRequired then Success(true) else ItemsNeedRestart(items[1..], catalog)
  }

  /** No restart exactly when every item's parameter exists and none requires
      a restart (so an empty group needs none); a restart exactly when some
      item's parameter requires one and every earlier parameter exists. */
  lemma {:induction false} ItemsNeedRestartIff(items: seq<LoadedItem>, catalog: seq<DatastoreParam>)
    ensures ItemsNeedRestart(items, catalog) == Success(false) <==> NoRestartUpTo(items, catalog, |items|)
    ensures ItemsNeedRestart(items, catalog) == Success(true) <==>
      exists i :: 0 <= i < |items| && NoRestartUpTo(items, catalog, i) && FoundWithRestart(items[i], catalog)
    decreases |items|
  {
    if |items| > 0 {
      var rest := items[1..];
      assert forall j :: 1 <= j < |items| ==> items[j] == rest[j - 1];
      match FindParameter(catalog, items[0].key)
      case None =>
        assert !FoundWithoutRestart(items[0], catalog) && !FoundWithRestart(items[0], catalog);
      case Some(p) =>
        if !p.restartRequired {
          ItemsNeedRestartIff(rest, catalog);
          assert forall i :: 0 <= i < |rest| ==>
            (NoRestartUpTo(rest, catalog, i) <==> NoRestartUpTo(items, catalog, i + 1));
          if exists i :: 0 <= i < |items| && NoRestartUpTo(items, catalog, i) && FoundWithRestart(items[i], catalog) {
            var i :| 0 <= i < |items| && NoRestartUpTo(items, catalog, i) && FoundWithRestart(items[i], catalog);
            assert i > 0 && NoRestartUpTo(rest, catalog, i - 1) && rest[i - 1] == items[i];
          }
        } else {
          assert NoRestartUpTo(items, catalog, 0) && FoundWithRestart(items[0], catalog);
        }
    }
  }

  /** The configuration-group tables and the overrides pushed to instances. */
  class ConfigurationStore {
    var groups: seq<GroupRecord>
    var params: seq<ParamRecord>
    /** `update_overrides(instance_id, overrides)` calls, in order. */
    var overrideUpdates: seq<(nat, map<string, Value>)>

    predicate Valid()
      reads this
    {
      UniqueIds(groups)
    }

    constructor (groups0: seq<GroupRecord>, params0: seq<ParamRecord>)
      requires UniqueIds(groups0)
      ensures Valid()
      ensures groups == groups0 && params == params0 && overrideUpdates == []
    {
      groups := groups0;
      params := params0;
      overrideUpdates := [];
    }

    /** `create_items(cfg_id, values)`: one new row per key/value pair, each
        tagged with `cfg_id`, in iteration order. */
    method CreateItems(cfgId: nat, values: seq<(string, Value)>) returns (created: seq<ParamRecord>)
      modifies this
      ensures |created| == |values|
      ensures forall i :: 0 <= i < |values| ==> created[i] == NewParam(cfgId, values[i].0, values[i].1)
      ensures params == old(params) + created
      ensures groups == old(groups) && overrideUpdates == old(overrideUpdates)
    {
      created := [];
      for i := 0 to |values|
        invariant |created| == i
        invariant forall j :: 0 <= j < i ==> created[j] == NewParam(cfgId, values[j].0, values[j].1)
        invariant params == old(params) + created
        invariant groups == old(groups) && overrideUpdates == old(overrideUpdates)
      {
        var item := NewParam(cfgId, values[i].0, values[i].1);
        params := params + [item];
        created := created + [item];
      }
    }

    /** `remove_all_items(context, id, deleted_at)`. */
    method RemoveAllItems(id: nat, deletedAt: int)
      modifies this
      ensures params == MarkItemsDeleted(old(params), id, deletedAt)
      ensures groups == old(groups) && overrideUpdates == old(overrideUpdates)
    {
      ghost var before := params;
      for i := 0 to |params|
        invariant |params| == |before|
        invariant forall j :: 0 <= j < i ==> params[j] == MarkDeleted(before[j], id, deletedAt)
        invariant forall j :: i <= j < |params| ==> params[j] == before[j]
        invariant groups == old(groups) && overrideUpdates == old(overrideUpdates)
      {
        var item := params[i];
        if item.configurationId == id && !item.deleted {
          params := params[i := item.(deleted := true, deletedAt := Some(deletedAt))];
        }
      }
    }

    /** `Configuration.delete(context, group)` for the group row at `groupIndex`:
        its items and then the group are deleted with the same time. */
    method Delete(groupIndex: nat, deletedAt: int)
      requires Valid() && groupIndex < |groups|
      modifies this
      ensures Valid()
      ensures params == MarkItemsDeleted(old(params), old(groups)[groupIndex].id, deletedAt)
      ensures groups == old(groups)[groupIndex := old(groups)[groupIndex].(deleted := true, deletedAt := Some(deletedAt))]
      ensures overrideUpdates == old(overrideUpdates)
    {
      var group := groups[groupIndex];
      RemoveAllItems(group.id, deletedAt);
      groups := groups[groupIndex := group.(deleted := true, deletedAt := Some(deletedAt))];
    }

    /** `Configuration.load_items(context, id)`: the live items of the group,
        converted by rule type. */
    method LoadItems(ctx: Context, id: nat, rules: seq<Rule>) returns (r: Result<seq<LoadedItem>, ModelError>)
      ensures r == LoadedItems(groups, params, ctx, id, rules)
    {
      var found := FindGroup(groups, ctx, id);
      if found.Failure? {
        return Failure(found.error);
      }
      var items := LiveItems(params, id);
      var converted: seq<LoadedItem> := [];
      for i := 0 to |items|
        invariant ConvertAll(rules, items[..i]) == Success(converted)
      {
        assert items[..i + 1][..i] == items[..i];
        var v := ConvertValue(rules, items[i].key, items[i].value);
        if v.Failure? {
          ConvertAllFailurePersists(rules, items, i + 1);
          return Failure(v.error);
        }
        converted := converted + [LoadedItem(items[i].key, v.value)];
      }
      assert items[..|items|] == items;
      r := Success(converted);
    }

    /** `get_configuration_overrides`: empty without a configuration id,
        otherwise each loaded key mapped to its last loaded value. */
    method GetConfigurationOverrides(ctx: Context, configurationId: Option<nat>, rules: seq<Rule>)
      returns (r: Result<map<string, Value>, ModelError>)
      ensures configurationId.None? ==> r == Success(map[])
      ensures configurationId.Some? && LoadedItems(groups, params, ctx, configurationId.value, rules).Failure? ==>
        r == Failure(LoadedItems(groups, params, ctx, configurationId.value, rules).error)
      ensures configurationId.Some? && LoadedItems(groups, params, ctx, configurationId.value, rules).Success? ==>
        r == Success(OverridesOf(LoadedItems(groups, params, ctx, configurationId.value, rules).value))
    {
      if configurationId.None? {
        return Success(map[]);
      }
      var loaded := LoadItems(ctx, configurationId.value, rules);
      if loaded.Failure? {
        return Failure(loaded.error);
      }
      var overrides := BuildOverrides(loaded.value);
      r := Success(overrides);
    }

    /** `does_configuration_need_restart`: whether some loaded item's datastore
        parameter requires a restart. */
    method DoesConfigurationNeedRestart(ctx: Context, id: nat, rules: seq<Rule>, catalog: seq<DatastoreParam>)
      returns (r: Result<bool, ModelError>)
      ensures LoadedItems(groups, params, ctx, id, rules).Failure? ==>
        r == Failure(LoadedItems(groups, params, ctx, id, rules).error)
      ensures LoadedItems(groups, params, ctx, id, rules).Success? ==>
        r == ItemsNeedRestart(LoadedItems(groups, params, ctx, id, rules).value, catalog)
    {
      var loaded := LoadItems(ctx, id, rules);
      if loaded.Failure? {
        return Failure(loaded.error);
      }
      var items := loaded.value;
      for i := 0 to |items|
        invariant ItemsNeedRestart(items, catalog) == ItemsNeedRestart(items[i..], catalog)
      {
        assert items[i..][1..] == items[i + 1..];
        var details := FindParameter(catalog, items[i].key);
        if details.None? {
          return Failure(ParameterNotFound(items[i].key));
        }
        if details.value.restartRequired {
          return Success(true);
        }
      }
      r := Success(false);
    }

    /** `Configuration.save(context, configuration, items, instances)`: the
        group row is written, each item is written as a live row, the group's
        items are loaded again, and every instance receives the same overrides
        mapping. A load failure is reported after the writes. */
    method Save(ctx: Context, groupIndex: nat, group: GroupRecord, items: seq<ConfigurationItem>,
                instances: seq<InstanceRow>, rules: seq<Rule>)
      returns (r: Outcome<ModelError>)
      requires Valid() && groupIndex < |groups| && group.id == groups[groupIndex].id
      modifies this
      ensures Valid()
      ensures groups == old(groups)[groupIndex := group]
      ensures params == old(params) + SavedParams(items)
      ensures LoadedItems(groups, params, ctx, group.id, rules).Failure? ==>
        r == Fail(LoadedItems(groups, params, ctx, group.id, rules).error) && overrideUpdates == old(overrideUpdates)
      ensures LoadedItems(groups, params, ctx, group.id, rules).Success? ==>
        r == Pass && overrideUpdates ==
          old(overrideUpdates) + PushedOverrides(instances, OverridesOf(LoadedItems(groups, params, ctx, group.id, rules).value))
    {
      groups := groups[groupIndex := group];
      assert UniqueIds(groups) by {
        forall i, j | 0 <= i < j < |groups| ensures groups[i].id != groups[j].id {
          assert groups[i].id == old(groups)[i].id && groups[j].id == old(groups)[j].id;
        }
      }
      SaveItems(items);
      var loaded := LoadItems(ctx, group.id, rules);
      if loaded.Failure? {
        return Fail(loaded.error);
      }
      PushOverrides(instances, loaded.value);
      r := Pass;
    }

    /** The item loop of `save`: each item is written with `deleted_at` cleared. */
    method SaveItems(items: seq<ConfigurationItem>)
      modifies this
      ensures params == old(params) + SavedParams(items)
      ensures groups == old(groups) && overrideUpdates == old(overrideUpdates)
    {
      for i := 0 to |items|
        invariant params == old(params) + SavedParams(items[..i])
        invariant groups == old(groups) && overrideUpdates == old(overrideUpdates)
      {
        assert SavedParams(items[..i + 1]) == SavedParams(items[..i]) +
          [NewParam(items[i].configurationId, items[i].key, items[i].value)];
        params := params + [NewParam(items[i].configurationId, items[i].key, items[i].value)];
      }
      assert items[..|items|] == items;
    }

    /** The instance loop of `save`: the overrides mapping is rebuilt from the
        loaded items and sent to each instance in turn. */
    method PushOverrides(instances: seq<InstanceRow>, loaded: seq<LoadedItem>)
      modifies this
      ensures overrideUpdates == old(overrideUpdates) + PushedOverrides(instances, OverridesOf(loaded))
      ensures groups == old(groups) && params == old(params)
    {
      for i := 0 to |instances|
        invariant overrideUpdates == old(overrideUpdates) + PushedOverrides(instances[..i], OverridesOf(loaded))
        invariant groups == old(groups) && params == old(params)
      {
        var overrides := BuildOverrides(loaded);
        assert PushedOverrides(instances[..i + 1], overrides) ==
          PushedOverrides(instances[..i], overrides) + [(instances[i].id, overrides)];
        overrideUpdates := overrideUpdates + [(instances[i].id, overrides)];
      }
      assert instances[..|instances|] == instances;
    }
  }

  /** The rows `save` writes for its items: live, in item order. */
  function SavedParams(items: seq<ConfigurationItem>): (ps: seq<ParamRecord>)
    ensures |ps| == |items|
    ensures forall i :: 0 <= i < |items| ==>
      ps[i].configurationId == items[i].configurationId && ps[i].key == items[i].key &&
      !ps[i].deleted && ps[i].deletedAt.None?
  {
    seq(|items|, i requires 0 <= i < |items| => NewParam(items[i].configurationId, items[i].key, items[i].value))
  }

  /** The `update_overrides` calls of `save`: every instance, in order, with the
      same mapping. */
  function PushedOverrides(instances: seq<InstanceRow>, overrides: map<string, Value>)
    : (calls: seq<(nat, map<string, Value>)>)
    ensures |calls| == |instances|
    ensures forall i :: 0 <= i < |instances| ==> calls[i].0 == instances[i].id && calls[i].1 == overrides
  {
    seq(|instances|, i requires 0 <= i < |instances| => (instances[i].id, overrides))
  }

  /** The mapping loop shared by `get_configuration_overrides` and `save`. */
  method BuildOverrides(items: seq<LoadedItem>) returns (overrides: map<string, Value>)
    ensures overrides == OverridesOf(items)
  {
    overrides := map[];
    for i := 0 to |items|
      invariant overrides == OverridesOf(items[..i])
    {
      assert items[..i + 1][..i] == items[..i];
      overrides := overrides[items[i].key := items[i].value];
    }
    assert items[..|items|] == items;
  }

  /** A deleted group can no longer be loaded, by anyone. */
  lemma DeletedGroupNotFound(groups: seq<GroupRecord>, i: nat, at: int, ctx: Context)
    requires UniqueIds(groups) && i < |groups|
    ensures FindGroup(groups[i := groups[i].(deleted := true, deletedAt := Some(at))], ctx, groups[i].id).Failure?
  {
    var after := groups[i := groups[i].(deleted := true, deletedAt := Some(at))];
    forall j | 0 <= j < |after|
      ensures !(after[j].id == groups[i].id && VisibleTo(after[j], ctx))
    {
      if j != i {
        assert after[j] == groups[j];
        if j < i {
          assert groups[j].id != groups[i].id;
        } else {
          assert groups[i].id != groups[j].id;
        }
      }
    }
  }
}
