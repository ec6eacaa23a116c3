# Trove configuration, cluster and parsing core in Dafny

This project models and proves properties of four connected parts of OpenStack Trove, the database-as-a-service:

- **Percona XtraDB Cluster provisioning** (`PxcCluster`). This covers the validation chain of a cluster-creation request:
  - minimum size;
  - a single flavor, which must exist;
  - volume or local-storage rules;
  - the quota check, which runs last.

  It also covers member naming (`<cluster>-member-<k>`) and the `create`, `grow` and grow-action operations. These update a catalog of cluster and instance rows and a log of task-manager commands.
- **Configuration groups**. Four modules cover this part:
  - `ValidationRules`: the datastore's validation rules.
  - `CommonConfigurations`: the restart classifier for a batch of overrides, and the comment filter applied to rendered my.cnf text.
  - `ConfigurationModels`: the models. This means listing and loading groups with tenant scoping, the page-limit clamp, soft deletion of groups and items, and the loader that turns stored strings back into typed values by rule type. It also covers the override mapping an instance receives, the restart check and `save`.
  - `ConfigurationService`: the API's checks of request values against the rules, the item list built from a request, parameter lookup, and the `delete` and `update` operations.
- **Redis guest-agent helpers** (`RedisService`):
  - the status probe;
  - joining multi-valued directives;
  - `CONFIG SET` of overrides through an admin client whose `CONFIG` command can be renamed;
  - lookup of the renamed command;
  - the calls the agent makes on its configuration manager.
- **Text and CLI helpers**. Three modules cover this part:
  - `ConfigTemplate`: the my.cnf reader `MyConfigParser._read`, the template file name and the server id.
  - `Utils`: `unpack_singleton`.
  - `Manage`: the argument plumbing of `trove-manage`.

`Wrappers` holds the `Option`, `Result` and `Outcome` types. `Text` models the Python string builtins the core relies on: strip, lower, join, `str(int)` and `int(str)`.

## How the model is built

- Operations that update rows or objects in place are methods of classes that hold the tables as sequence fields:
  - `PxcCluster.Catalog`;
  - `ConfigurationModels.ConfigurationStore`;
  - `RedisService.RedisAdmin` and `RedisService.RedisApp`;
  - `ConfigTemplate.IniParser`;
  - `Manage.Action`.
- Each such method is proved against functions that state the new state, and lemmas are proved about those functions.
- Loops in the source that build a result or update state are loops here, with their invariants. Early-return searches (`for x in xs: if ...: return ...`) are recursive functions; "## Left out" names them.
- Dictionaries the source iterates over are sequences of pairs in iteration order.
- Database row ids are positions in the tables.
- These collaborators are function parameters:
  - the Nova flavor lookup, the quota check, the volume-size check and the availability check;
  - `get_id_from_href`;
  - the Redis server's reply to a command;
  - `StringConverter.to_strings`;
  - Python's `hash`;
  - the clock (`deleted_at`).
- Python 2 behaviour is written out where it matters:
  - `bool` is a subclass of `int`;
  - integers beyond `sys.maxint` are `long`;
  - the truthiness of `0`, `None` and empty strings;
  - `str.splitlines`;
  - Python slicing past the end of a string.

## Model

| member | source | states |
|---|---|---|
| PxcCluster.FlavorIds | trove/common/strategies/cluster/experimental/pxc/api.py:87 | reference definition of the flavor list: one flavor id per member spec, in spec order; SingleValuedIff and DifferentFlavorsRejected state what the check on it decides |
| PxcCluster.VolumeSizes | trove/common/strategies/cluster/experimental/pxc/api.py:99-100 | only truthy volume sizes are collected (0 and absent count as missing); all members have one exactly when no size is dropped, and then the sizes are the members' own |
| PxcCluster.SingleValuedIff | trove/common/strategies/cluster/experimental/pxc/api.py:88 | `len(set(xs)) == 1` holds exactly when the list is non-empty and constant |
| PxcCluster.ValidateClusterInstances | trove/common/strategies/cluster/experimental/pxc/api.py:75-118 | fewer members than the minimum fails with ClusterNumInstancesNotLargeEnough before any other check; a success reports one instance per member and was allowed by the quota |
| PxcCluster.ValidateSucceedsIff | trove/common/strategies/cluster/experimental/pxc/api.py:79-118 | validation succeeds exactly when the member list meets the size, single-flavor, flavor-exists and volume or local-storage rules and the quota allows the deltas; the deltas are the member count and, with volume support, size × count |
| PxcCluster.UnknownFlavorRejected | trove/common/strategies/cluster/experimental/pxc/api.py:90-95 | past the size check, a common flavor the lookup does not know fails with FlavorNotFound naming that flavor |
| PxcCluster.MissingVolumeSizeRejected | trove/common/strategies/cluster/experimental/pxc/api.py:99-104 | with volume support, one member without a truthy volume size fails with ClusterVolumeSizeRequired |
| PxcCluster.DifferentVolumeSizesRejected | trove/common/strategies/cluster/experimental/pxc/api.py:99-106 | with volume support and a size on every member, two different sizes fail with ClusterVolumeSizesNotEqual |
| PxcCluster.RefusedVolumeSizeRejected | trove/common/strategies/cluster/experimental/pxc/api.py:103-108 | with volume support and one common size, a size the volume check refuses is reported with that size |
| PxcCluster.VolumeWithoutSupportRejected | trove/common/strategies/cluster/experimental/pxc/api.py:110-112 | without volume support, any member with a truthy volume size fails with VolumeNotSupported |
| PxcCluster.LocalStorageRequired | trove/common/strategies/cluster/experimental/pxc/api.py:110-115 | without volume support or sizes, a configured device path and a flavor without ephemeral disk fail with LocalStorageNotSpecified for that flavor |
| PxcCluster.QuotaRefusalRejected | trove/common/strategies/cluster/experimental/pxc/api.py:117-118 | an otherwise acceptable member list whose deltas the quota refuses fails with QuotaExceeded |
| PxcCluster.DifferentFlavorsRejected | trove/common/strategies/cluster/experimental/pxc/api.py:87-89 | two members of different flavors are rejected with ClusterFlavorsNotEqual once the size check passes |
| PxcCluster.QuotaCheckedLast | trove/common/strategies/cluster/experimental/pxc/api.py:117-118 | the quota is consulted only after every other check: a non-quota failure, and a success, do not depend on the quota function |
| PxcCluster.MemberNameInjective | trove/common/strategies/cluster/experimental/pxc/api.py:141-142 | `<cluster>-member-<k>` names are different for different ordinals |
| PxcCluster.VolumeColumn | trove/common/strategies/cluster/experimental/pxc/api.py:126-130 | with volume support the k-th member's size is the k-th truthy size, which can leave the column shorter than the specs; without, every member gets None |
| PxcCluster.NewMembers | trove/common/strategies/cluster/experimental/pxc/api.py:121-157 | one member row per creatable spec: row ids numbered on from the first free one, names `<cluster>-member-<existing+k+1>`, the cluster-id and `member` tag, and the spec's flavor, volume-column size, nics and zone |
| PxcCluster.NewMemberNamesFresh | trove/common/strategies/cluster/experimental/pxc/api.py:140-142 | new members get pairwise different names, none equal to the name of an existing member |
| PxcCluster.ValidatedSpecsAllCreated | trove/common/strategies/cluster/experimental/pxc/api.py:128-130 | after a successful validation every spec becomes a member, carrying its own volume size |
| PxcCluster.MissingVolumeStopsCreation | trove/common/strategies/cluster/experimental/pxc/api.py:128-151 | without validation, a spec lacking a volume size under volume support makes the volume column too short, so creation stops early |
| PxcCluster.CountMembers | trove/common/strategies/cluster/experimental/pxc/api.py:123-124 | the member count of a cluster is bounded by the table and is 0 when no row belongs to it |
| PxcCluster.NodeSpec | trove/common/strategies/cluster/experimental/pxc/api.py:52-59 | a node is read exactly when it has `flavorRef` and, with a `volume`, a `size` that is a number or integer text; otherwise KeyError naming the missing key, or ValueError naming the size text; a read node gives the flavor id from the reference, its name when given, and the size |
| PxcCluster.GrowSpecs | trove/common/strategies/cluster/experimental/pxc/api.py:52-60 | reference definition of the specs built from the nodes, or the first unreadable node's error; GrowSpecsAllRead and GrowSpecsFirstFailure state both outcomes |
| PxcCluster.GrowSpecsAllRead | trove/common/strategies/cluster/experimental/pxc/api.py:52-60 | when every node can be read, one spec per node, in node order |
| PxcCluster.GrowSpecsFirstFailure | trove/common/strategies/cluster/experimental/pxc/api.py:52-60 | the error of the first node that cannot be read is the error of the whole body, whatever follows |
| PxcCluster.GrowRequestSpecs | trove/common/strategies/cluster/experimental/pxc/api.py:49-60 | the loop over the nodes gives exactly `GrowSpecs`: the specs in order, or the first node's KeyError or ValueError |
| PxcCluster.Catalog.CreateInstances | trove/common/strategies/cluster/experimental/pxc/api.py:121-157 | appends exactly the planned member rows; succeeds, with the new row ids in creation order, exactly when every spec was creatable; rows created before an IndexError stay |
| PxcCluster.Catalog.Create | trove/common/strategies/cluster/experimental/pxc/api.py:160-178 | a failed validation changes nothing; otherwise the cluster row in BUILDING_INITIAL, one member per spec numbered from 1, then `create_cluster` |
| PxcCluster.Catalog.Grow | trove/common/strategies/cluster/experimental/pxc/api.py:180-199 | an unavailable cluster changes nothing; otherwise GROWING_CLUSTER, members numbered on from the current count, and `grow_cluster` with the new ids in creation order; no re-validation |
| PxcCluster.Catalog.ActionGrowCluster | trove/common/strategies/cluster/experimental/pxc/api.py:49-60 | a body with a node that cannot be read fails with that node's error and changes nothing, whether or not the cluster is available; otherwise exactly the effect of `grow` on the specs: refused when unavailable, else GROWING_CLUSTER, the new member rows, and `grow_cluster` with their ids unless a missing volume size stops creation |
| ValidationRules.FindRule | trove/configuration/service.py:222-229 | the position of the first rule with that name, or none exactly when no rule has it |
| CommonConfigurations.DoConfigsRequireRestart | trove/common/configurations.py:35-37 | with dynamic configuration disabled, every batch requires a restart |
| CommonConfigurations.KeysRequireRestart | trove/common/configurations.py:41-46 | the early-return loop over the keys; KeysRequireRestartCases, NoRestartIff, RestartIff and UnknownKeyFailsIff state its outcomes |
| CommonConfigurations.KeysRequireRestartCases | trove/common/configurations.py:29-46 | the early-return loop answers no restart exactly when every key has a dynamic rule, restart exactly at the first non-dynamic rule reached, and fails exactly at the first key without a rule reached |
| CommonConfigurations.NoRestartIff | trove/common/configurations.py:35-46 | no restart exactly when dynamic configuration is on and every key has a dynamic rule (an empty batch needs none) |
| CommonConfigurations.RestartIff | trove/common/configurations.py:41-45 | with dynamic configuration on, a restart exactly when some key has a non-dynamic rule and all keys before it have dynamic ones |
| CommonConfigurations.UnknownKeyFailsIff | trove/common/configurations.py:29-32 | with dynamic configuration on, the classifier fails exactly when a key without a rule is reached before any non-dynamic key |
| CommonConfigurations.SplitLines | trove/common/configurations.py:68 | no line of `splitlines()` contains a line break |
| CommonConfigurations.KeptLines | trove/common/configurations.py:69-76 | the kept lines are lines of the input, none starts with `#`, `!` or `:` |
| CommonConfigurations.KeptLinesAppend | trove/common/configurations.py:68-76 | the filter works line by line: filtering a concatenation concatenates the filtered parts, so kept lines keep their order |
| CommonConfigurations.RemoveCommentedLines | trove/common/configurations.py:66-78 | the output is the lines of the input without `#`, `!` and `:` lines, in order, joined with newlines (`_remove_commented_lines` in trove/common/template.py is the same code) |
| CommonConfigurations.SplitJoinedLines | trove/common/configurations.py:68-77 | splitting lines joined with newlines gives back only lines that were joined |
| CommonConfigurations.OutputHasNoCommentedLine | trove/common/configurations.py:69-77 | no line of the filter's output starts with `#`, `!` or `:` |
| ConfigurationModels.PageLimit | trove/configuration/models.py:57-59 | the page size never exceeds the default; a falsy limit gives the default; a truthy limit not above the default is used as it is |
| ConfigurationModels.VisibleGroups | trove/configuration/models.py:45-52 | admins list every non-deleted group, other users exactly the non-deleted groups of their tenant |
| ConfigurationModels.FindGroup | trove/configuration/models.py:135-147 | finds a visible group with that id, and fails with ModelNotFound exactly when there is none |
| ConfigurationModels.DeletedGroupNotFound | trove/configuration/models.py:108-113 | once a group is marked deleted, loading it fails for everyone |
| ConfigurationModels.MarkItemsDeleted | trove/configuration/models.py:116-125 | every live item of the group is marked deleted with the given time; deleted items and items of other groups are untouched |
| ConfigurationModels.RemoveItemsIdempotent | trove/configuration/models.py:116-125 | removing twice keeps the first removal's timestamps and changes nothing else |
| ConfigurationModels.LiveItems | trove/configuration/models.py:119-120 | the live items of a group are non-deleted rows of that group |
| ConfigurationModels.NoLiveItemsAfterRemove | trove/configuration/models.py:116-125 | after `remove_all_items` the group has no live item |
| ConfigurationModels.LiveItemsAppend | trove/configuration/models.py:119-120 | the live items of a table with rows appended are the old live items followed by the new ones |
| ConfigurationModels.ConvertValue | trove/configuration/models.py:158-171 | the conversion `load_items` applies to one stored value; its cases are stated by ConvertValueCases |
| ConfigurationModels.ConvertValueCases | trove/configuration/models.py:158-171 | loading fails exactly for a key without a rule (NoRuleFor), a non-integer under a boolean or integer rule (StoredNotInteger), or text outside ASCII under any other rule, which `str()` cannot encode (StoredNotAscii); a loaded value has its rule's type, is ASCII text when it is text, and storing and loading it again gives it back |
| ConfigurationModels.StoredValueRoundTrip | trove/configuration/models.py:164-171 | a value of its rule's type that is not text outside ASCII, once stored as text, loads back as itself |
| ConfigurationModels.ConvertAllCases | trove/configuration/models.py:164-171 | the loader succeeds exactly when every row converts, and then yields one converted item per row, in order |
| ConfigurationModels.ConvertAllFirstFailure | trove/configuration/models.py:164-172 | the first row that cannot be converted decides the loader's error, whatever follows |
| ConfigurationModels.ConvertAllFailurePersists | trove/configuration/models.py:164-170 | a conversion failure in a prefix of the rows is the failure of the whole load |
| ConfigurationModels.OverridesOf | trove/configuration/models.py:180-182 | the overrides mapping has exactly the items' keys |
| ConfigurationModels.OverridesOfLastWins | trove/configuration/models.py:180-182 | a key that occurs several times keeps the value of its last occurrence |
| ConfigurationModels.FindParameter | trove/configuration/models.py:188-189 | the first datastore parameter of that name, or none exactly when there is none |
| ConfigurationModels.ItemsNeedRestart | trove/configuration/models.py:187-193 | the early-return restart loop over the loaded items; ItemsNeedRestartIff states its outcomes |
| ConfigurationModels.ItemsNeedRestartIff | trove/configuration/models.py:185-193 | no restart exactly when every item's parameter exists and needs none (so an empty group needs none); a restart exactly when some item's parameter needs one and every earlier one exists and needs none |
| ConfigurationModels.SavedParams | trove/configuration/models.py:198-200 | `save` writes one live row per item, in item order, each with `deleted_at` cleared |
| ConfigurationModels.PushedOverrides | trove/configuration/models.py:204-210 | reference definition of the pushes `save` makes: one `update_overrides` call per attached instance, in order, all with the same mapping; ConfigurationStore.PushOverrides is proved to make exactly these |
| ConfigurationModels.BuildOverrides | trove/configuration/models.py:180-182 | the mapping loop builds exactly the overrides mapping of the items |
| ConfigurationModels.ConfigurationStore.constructor | trove/configuration/models.py:213-226 | the tables start as given, with no override pushed |
| ConfigurationModels.ConfigurationStore.CreateItems | trove/configuration/models.py:94-105 | exactly one new row per key/value pair, in order, each with the group's id |
| ConfigurationModels.ConfigurationStore.RemoveAllItems | trove/configuration/models.py:116-125 | the parameter table becomes its soft-deleted version for that group; nothing else changes |
| ConfigurationModels.ConfigurationStore.Delete | trove/configuration/models.py:108-113 | the group's live items and the group itself are marked deleted with the same time |
| ConfigurationModels.ConfigurationStore.LoadItems | trove/configuration/models.py:150-171 | the group must be visible to the caller; then its live items converted by rule type |
| ConfigurationModels.ConfigurationStore.GetConfigurationOverrides | trove/configuration/models.py:174-183 | empty without a configuration id; otherwise the overrides mapping of the loaded items |
| ConfigurationModels.ConfigurationStore.DoesConfigurationNeedRestart | trove/configuration/models.py:185-193 | the restart answer of the loaded items (see ItemsNeedRestartIff) |
| ConfigurationModels.ConfigurationStore.Save | trove/configuration/models.py:196-210 | the group row is rewritten, the items are appended live, and every instance receives the overrides mapping of the reloaded items |
| ConfigurationModels.ConfigurationStore.SaveItems | trove/configuration/models.py:198-200 | the item loop of `save` appends exactly the saved rows |
| ConfigurationModels.ConfigurationStore.PushOverrides | trove/configuration/models.py:204-210 | the instance loop of `save` sends the same mapping to every instance, in order |
| ConfigurationService.FindType | trove/configuration/service.py:209-220 | boolean, string and integer map to their Python types; any other type name is a TroveError |
| ConfigurationService.BoundValue | trove/configuration/service.py:186-203 | `int(rule[bound])` succeeds exactly for an integer bound; a missing entry is MissingBound, a non-numeric one InvalidBound, a null or structured one BoundTypeError, and none of these is a validation error |
| ConfigurationService.CheckEntryFailures | trove/configuration/service.py:168-229 | in the validator's order: an unknown key is UnsupportedKey, an unknown rule type UnsupportedRuleType, a wrong type IncorrectType with the rule's type, a bad min or max entry is passed on unchanged, and out-of-range values are LessThanMin or GreaterThanMax |
| ConfigurationService.CheckEntry | trove/configuration/service.py:168-206 | the checks the validator makes on one pair; CheckEntryPassIff and CheckEntryFailures state when it passes and each error |
| ConfigurationService.CheckEntryPassIff | trove/configuration/service.py:170-206 | a value passes exactly when its key has a rule of a supported type, it is an instance of that type, and, when it is a Python `int` (booleans included), it lies within the rule's integer min and max |
| ConfigurationService.BelowMinReportedFirst | trove/configuration/service.py:186-194 | a value below the minimum is reported as less than min, before the max is looked at |
| ConfigurationService.BooleanValuesNeedBounds | trove/configuration/service.py:184-188 | booleans go through the min/max checks, so a boolean rule without a min entry rejects every boolean |
| ConfigurationService.LongIntegersRejected | trove/configuration/service.py:178-182 | an integer beyond `sys.maxint` is a `long`, never an `int`, and is rejected |
| ConfigurationService.ValidateConfiguration | trove/configuration/service.py:168 | the early-return loop over the pairs; ValidateConfigurationCases states its outcomes |
| ConfigurationService.ValidateConfigurationCases | trove/configuration/service.py:164-206 | the request passes exactly when every pair passes; a failure is the failure of the first failing pair |
| ConfigurationService.ShowParameter | trove/configuration/service.py:238-244 | the first rule with that name, or ConfigKeyNotFound exactly when none has it |
| ConfigurationService.ItemsFor | trove/configuration/service.py:157-160 | reference definition of the item list: one item per key/value pair, in order, tagged with the group id; ConfigurationItemsList is proved to build it |
| ConfigurationService.ConfigurationItemsList | trove/configuration/service.py:150-161 | no values: no items and no validation; otherwise the validation failure, or one item per pair |
| ConfigurationService.AttachedInstances | trove/configuration/service.py:103-106 | exactly the non-deleted instances of the caller's tenant that reference the group |
| ConfigurationService.OtherTenantsInstancesDoNotBlock | trove/configuration/service.py:103-108 | instances of other tenants never block a delete |
| ConfigurationService.Delete | trove/configuration/service.py:100-110 | a group not visible to the caller fails with ModelNotFound; an attached instance fails with InstanceAssignedToConfiguration and nothing is deleted; otherwise the group and its items are soft-deleted |
| ConfigurationService.UpdatedGroup | trove/configuration/service.py:125-129 | name and description change only when the body has them; everything else is kept |
| ConfigurationService.FindGroupAfterRewrite | trove/configuration/service.py:115 | a visible group rewritten in place with its id kept is found at the same position, ids being unique |
| ConfigurationService.ReplacedGroupLoads | trove/configuration/service.py:131-134 | after the update's writes the group loads back exactly the submitted pairs, normalized, when none is text outside ASCII; otherwise the load fails with StoredNotAscii for the first such pair |
| ConfigurationService.Update | trove/configuration/service.py:112-135 | a group that cannot be loaded fails with the load error, and a rejected value with the validator's error, both changing nothing; accepted values with a text outside ASCII fail in `save`'s reload with StoredNotAscii for the first such key, after the group and its items are written and before any override is pushed; otherwise the update passes: the group is renamed as the body says, old items are soft-deleted, the new ones saved, the group loads back the submitted pairs, and the attached instances receive their overrides |
| ConfigurationService.AcceptedValueLoadsBack | trove/configuration/service.py:164-206 | a value the validator accepts, once stored, loads back as itself (a boolean under an integer rule as 1 or 0), except text outside ASCII: `basestring` accepts it and `str()` refuses it on load with StoredNotAscii |
| ConfigurationModels.LiveItemsOfLiveRows | trove/configuration/models.py:119-120 | a table whose rows are all live rows of the group is its own live part |
| ConfigurationService.SavedItemsAllLive | trove/configuration/models.py:196-200 | the rows saved for a group are all live rows of that group |
| ConfigurationService.LiveItemsAfterReplace | trove/configuration/service.py:131-133 | after the old items are removed and the new ones saved, the live items are exactly the new ones |
| ConfigurationService.NormalizedItems | trove/configuration/service.py:157-160 | reference definition of what a saved group loads: one loaded item per submitted pair, with its normalized value; UpdatedGroupLoadsSubmittedValues proves the group loads it |
| ConfigurationService.SavedRowsConvert | trove/configuration/service.py:164-206 | every row saved for accepted pairs converts to the pair's normalized value, or fails with StoredNotAscii when the value is text outside ASCII |
| ConfigurationService.SavedRowsLoad | trove/configuration/models.py:196-202 | the saved rows of accepted pairs with no text outside ASCII load as the normalized pairs, in order |
| ConfigurationService.SavedRowsFailAtFirstNonAscii | trove/configuration/models.py:196-202 | the saved rows of accepted pairs fail to load with StoredNotAscii for the first pair whose text is outside ASCII |
| ConfigurationService.UpdatedGroupLoadsSubmittedValues | trove/configuration/service.py:112-135 | after an update whose values were accepted, the group loads back exactly the submitted pairs, in order, with normalized values, when none is text outside ASCII; otherwise loading fails at the first such pair |
| RedisService.ActualDbStatusAsWritten | trove/guestagent/datastore/experimental/redis/service.py:55-66 | the status probe with its except clauses in source order; BusyLoadingShadowed states what that order gives |
| RedisService.BusyLoadingShadowed | trove/guestagent/datastore/experimental/redis/service.py:55-66 | as written, a server still loading is reported SHUTDOWN and BLOCKED is never reported |
| RedisService.ActualDbStatus | trove/guestagent/datastore/experimental/redis/service.py:55-66 | a truthy ping is RUNNING, a connection error SHUTDOWN, a busy-loading error BLOCKED, a falsy ping or any other error CRASHED, each in both directions |
| RedisService.ElemStrings | trove/guestagent/datastore/experimental/redis/service.py:227-228 | reference definition of the comprehension in `_join_lists`: sub-lists joined, strings kept, one entry per element; JoinListsFlattens states what joining it gives |
| RedisService.JoinLists | trove/guestagent/datastore/experimental/redis/service.py:218-229 | a non-list is returned as it is, and a list is joined after its sub-lists; JoinListsFlattens and JoinListsExamples state what that join amounts to |
| RedisService.JoinListsFlattens | trove/guestagent/datastore/experimental/redis/service.py:218-229 | joining with sub-lists joined first is joining the flattened list, provided no sub-list is empty |
| RedisService.JoinListsExamples | trove/guestagent/datastore/experimental/redis/service.py:222-225 | the three documented examples of `_join_lists` |
| RedisService.ConfigSetResult | trove/guestagent/datastore/experimental/redis/service.py:407-418 | only an OK reply succeeds; any other reply fails naming the property and value; an exception from the client becomes an execution error |
| RedisService.RedisAdmin.constructor | trove/guestagent/datastore/experimental/redis/service.py:392-395 | the command name starts as `CONFIG` |
| RedisService.RedisAdmin.SetConfigCommandName | trove/guestagent/datastore/experimental/redis/service.py:397-400 | a falsy name restores `CONFIG`, any other name is used |
| RedisService.RedisAdmin.ConfigSet | trove/guestagent/datastore/experimental/redis/service.py:407-413 | sends `<command name> SET name value` and reports the reply's result |
| RedisService.SetCommands | trove/guestagent/datastore/experimental/redis/service.py:213-216 | reference definition of the commands `apply_overrides` sends: one `CONFIG SET` per override, in order, with its arguments converted and joined; ApplyOverrides is proved to send them up to the first rejection |
| RedisService.FirstRejected | trove/guestagent/datastore/experimental/redis/service.py:213-216 | the first command the server does not accept: every earlier one was accepted |
| RedisService.ApplyOverrides | trove/guestagent/datastore/experimental/redis/service.py:196-216 | sends the commands in order and stops at the first rejection, with no rollback; it succeeds exactly when every command was accepted |
| RedisService.GetConfigCommandName | trove/guestagent/datastore/experimental/redis/service.py:285-293 | a missing `rename-command` value fails |
| RedisService.FindRenamedConfig | trove/guestagent/datastore/experimental/redis/service.py:289-293 | the early-return search for the `CONFIG` rename; FindRenamedConfigCases states its outcomes |
| RedisService.FindRenamedConfigCases | trove/guestagent/datastore/experimental/redis/service.py:288-293 | None exactly when every pair renames another command; the new name exactly when it is the second element of the first `CONFIG` pair |
| RedisService.RedisApp.constructor | trove/guestagent/datastore/experimental/redis/service.py:91-113 | no configuration call made yet |
| RedisService.RedisApp.UpdateOverrides | trove/guestagent/datastore/experimental/redis/service.py:192-194 | a user override is applied only for a non-empty mapping |
| RedisService.RedisApp.RemoveOverrides | trove/guestagent/datastore/experimental/redis/service.py:231-232 | removes the user override |
| RedisService.RedisApp.ResetConfiguration | trove/guestagent/datastore/experimental/redis/service.py:247-250 | the contents under `config_contents` are saved as the configuration; without that key it fails with KeyError and saves nothing |
| RedisService.RedisApp.RenameCommand | trove/guestagent/datastore/experimental/redis/service.py:304-309 | a `rename-command` system override in the default layer |
| RedisService.RedisApp.ApplyInitialGuestagentConfiguration | trove/guestagent/datastore/experimental/redis/service.py:272-283 | renames `CONFIG`, switches the admin client to the new name, then pins daemonize, pid file, log file and data dir in the default layer |
| RedisService.RedisApp.StartDbWithConfChanges | trove/guestagent/datastore/experimental/redis/service.py:234-245 | refused while running, before touching the configuration; otherwise saves the contents and re-applies the agent's settings |
| RedisService.RedisApp.EnableCluster | trove/guestagent/datastore/experimental/redis/service.py:352-357 | `cluster-enabled yes` in the `clustering` layer |
| RedisService.RedisApp.SetClusterConfigFilename | trove/guestagent/datastore/experimental/redis/service.py:364-369 | the cluster config file name in the `clustering` layer |
| ConfigTemplate.FirstWord | trove/common/template.py:52 | the leading run of non-space characters (`line.split(None, 1)[0]` of an unindented line) |
| ConfigTemplate.SectionHeader | trove/common/template.py:61-64 | a line is a header exactly when it starts with `[`, a character other than `]`, and has a later `]`; the name is the text before the first `]` |
| ConfigTemplate.HeaderLineRecognized | trove/common/template.py:61-64 | every line `[h]…` with a non-empty `h` free of `]` is the header `h` |
| ConfigTemplate.CutComment | trove/common/template.py:84-89 | only the first `;` can cut: the value is cut there exactly when the character before it (the last one for a leading `;`) is whitespace, and is kept whole otherwise |
| ConfigTemplate.OptionLine | trove/common/template.py:80-95 | a line is an option line exactly when it starts with a character other than `:`, `=` or whitespace and has a later `:` or `=`; the name is non-empty |
| ConfigTemplate.OptionLineParts | trove/common/template.py:81-95 | for a name free of separators, a separator and any rest, the option is the right-stripped, lower-cased name and the value the rest left-stripped, comment cut, stripped and `""` read as empty |
| ConfigTemplate.Step | trove/common/template.py:48-111 | one line keeps the reader's state well formed, never drops a section, never makes `DEFAULT` a section, and raises only MissingSectionHeaderError for that line |
| ConfigTemplate.Run | trove/common/template.py:44-47 | the reader's state stays well formed over all lines |
| ConfigTemplate.SkippedLinesChangeNothing | trove/common/template.py:50-54 | blank lines, `#`/`;` comments and unindented `rem` lines leave the state unchanged |
| ConfigTemplate.ContinuationAppends | trove/common/template.py:56-59 | an indented line after an option appends a newline and its stripped text to that option's value |
| ConfigTemplate.HeaderSelectsSection | trove/common/template.py:61-75 | an existing section is re-opened untouched, `DEFAULT` selects the defaults, any other name creates a section holding `__name__`; no option is current afterwards |
| ConfigTemplate.IndentedLineWithoutOption | trove/common/template.py:56-103 | with no current option (right after a header) an indented line is not a continuation but a value-less option |
| ConfigTemplate.MissingHeaderRaises | trove/common/template.py:77-78 | a non-header line before any section raises MissingSectionHeaderError with its line number |
| ConfigTemplate.OptionLinesStored | trove/common/template.py:80-103 | an option line stores its processed value under the lower-cased name; any other line is stored stripped with no value; either becomes the current option |
| ConfigTemplate.CommentAfterSpaceCut | trove/common/template.py:84-93 | for any text without `;` that ends in whitespace and anything after the `;`, the value is cut before the `;` and stored as the stripped text |
| ConfigTemplate.CommentGluedKept | trove/common/template.py:84-89 | for any non-empty text without `;` that ends in a non-space character, the `;` and everything after it stay in the value |
| ConfigTemplate.QuotedEmptyValue | trove/common/template.py:90-93 | a value of `""` is the empty string |
| ConfigTemplate.HeaderOpens | trove/common/template.py:63-75 | a header line for a section other than `DEFAULT` makes that section current, creating it when new |
| ConfigTemplate.OptionStoredIn | trove/common/template.py:80-95 | an option line inside a section stores its option and value in that section |
| ConfigTemplate.RunTwoLines | trove/common/template.py:48-111 | a two-line file read without error ends in the state after its second line |
| ConfigTemplate.HeaderThenOption | trove/common/template.py:48-111 | over a whole file: a header for a new or existing section followed by an option line leaves that option, with its processed value, in that section |
| ConfigTemplate.RunErrorLocatesLine | trove/common/template.py:48-78 | the only error is MissingSectionHeaderError for one of the lines read, carrying that line and its number counted from 1 |
| ConfigTemplate.SectionsOnlyGrow | trove/common/template.py:63-73 | sections are never dropped, and `DEFAULT` never becomes a section |
| ConfigTemplate.IniParser.constructor | trove/common/template.py:27 | no sections and no defaults |
| ConfigTemplate.IniParser.Read | trove/common/template.py:28-114 | the sections and defaults end as the line-by-line reader leaves them, also when it raises, and the outcome is its error if any |
| ConfigTemplate.TemplateFilename | trove/common/template.py:133-136 | `<type>.override.config.template` with overrides, else `<type>.config.template` |
| ConfigTemplate.OverrideTemplateDiffers | trove/common/template.py:133-136 | the two template names of one datastore type differ |
| ConfigTemplate.UniqueId | trove/common/template.py:175-181 | the server id always lies in [0, 2^31) |
| Utils.UnpackSingleton | trove/tests/unittests/common/test_utils.py:65-77 | the result is never a one-element list, and anything that is not one is returned as it is |
| Utils.UnpackUndoesWrap | trove/tests/unittests/common/test_utils.py:67-75 | any number of one-element wrappings around a non-singleton is removed |
| Utils.UnpackPeelsSingletons | trove/tests/unittests/common/test_utils.py:65-77 | the input is the result wrapped in some number of one-element lists: nothing else is removed |
| Utils.UnpackIdempotent | trove/tests/unittests/common/test_utils.py:65-77 | applying it twice is applying it once |
| Utils.UnpackSingletonExamples | trove/tests/unittests/common/test_utils.py:65-77 | the twelve assertions of `test_unpack_singleton` |
| Manage.GetArgString | trove/cmd/manage.py:211-225 | fails exactly on `""` and `"-"`; a string without a leading `-` is unchanged, `--x` loses two characters, any other `-x` three |
| Manage.LongOptionRoundTrip | trove/cmd/manage.py:217-219 | `--name` gives back `name` |
| Manage.ShortOptionRoundTrip | trove/cmd/manage.py:220-221 | `-n name` gives back `name` |
| Manage.Action.constructor | trove/cmd/manage.py:42-43 | a function starts without an `args` attribute |
| Manage.Action.Decorate | trove/cmd/manage.py:41-45 | one decorator inserts its record at position 0, creating the list when absent |
| Manage.ApplyStacked | trove/cmd/manage.py:41-45 | stacked decorators, applied bottom first, leave their records in top-to-bottom source order |
| Manage.PublicMethods | trove/cmd/manage.py:175-183 | never longer than `dir`'s list, and no attribute is listed more often than `dir` lists it |
| Manage.PublicMethodsIff | trove/cmd/manage.py:175-183 | exactly the callable attributes whose names do not start with `_` are listed |
| Manage.MethodsOf | trove/cmd/manage.py:175-183 | the loop lists the public callable attributes in `dir` order |
| Manage.FetchAll | trove/cmd/manage.py:228-234 | the argument values of the recorded specs, stopping at the first failure; FetchAllCases states its outcomes |
| Manage.FetchAllCases | trove/cmd/manage.py:228-234 | one value per recorded argument, in record order, or else the error of the first argument that cannot be fetched |
| Manage.FetchFuncArgs | trove/cmd/manage.py:228-234 | the loop fetches the values of the recorded arguments in order, stopping at the first error |

## Left out

- HTTP routing, WSGI result wrapping, views, the scheduled-task and management APIs, schema migrations, Jinja rendering and JSON loading of the validation rules are not modelled. The rules are passed in as a list of records.
- Nova, the quota engine, Trove's taskmanager and the database layer are parameters or sequence fields. Concurrency is left out: member counting takes no lock, so grow and create are modelled one at a time, and nothing is claimed about concurrent calls.
- ConfigurationModels.Stored: how the database layer renders a typed value into the text column (`1`/`0` for booleans, decimal for integers) is an assumption. The ORM is not part of this model.
- ConfigurationModels.ConfigurationStore.LoadItems: the loader overwrites the items' values in place; the model builds a new list of converted items instead.
- ConfigurationModels.ConfigurationStore.LoadItems: `load_configuration_datastore_version` and the datastore version lookup are left out. The rules are a parameter. The source passes `datastore_manager=` to `get_validation_rules`, which takes `datastore_type` (trove/common/configurations.py:49); this mismatch is not modelled.
- `Configurations.load` pagination (`find_by_pagination`, markers) is foreign code. Only the page-limit clamp and the tenant scoping are modelled.
- configuration/service.py calls `Configuration.create` with 3 arguments and `remove_all_items` with 2 (trove/configuration/service.py:92, 132), while models.py takes 5 and 3 (trove/configuration/models.py:85, 116). The model follows the models.py signatures, with the clock passed in as `deletedAt`. `ConfigurationsController.create`, `index`, `show`, `instances` and `edit` are CRUD glue and are not modelled.
- configuration/service.py imports `ConfigurationItem` from the models module, which does not define it. The model gives it its own datatype.
- `do_configs_require_restart` with an unknown key: the code calls `.get` on None, so the model reports an error outcome rather than "requires restart".
- RedisService: the configuration manager and its override strategy are not part of this model. Its calls are recorded in order, and nothing is claimed about how layers merge. Process control (`start_redis`, install, stop, `pkill`), status waiting and the random password of `_mangle_config_command_name` are left out; the mangled name is a parameter.
- `_read` works on the input lines with the `\n` ending each line removed (a blank line is an empty element). Each branch gives the same result with or without that `\n`, except that the line carried by MissingSectionHeaderError lacks it.
- ConfigTemplate.IniParser.Read: option names and sections are maps, so the insertion order kept by the reader's ordered dictionaries is not modelled. The ParsingError branch is unreachable (a line read before end of file is never empty) and is not modelled.
- `SECTCRE`, `OPTCRE` and `optionxform` are modelled by SectionHeader, OptionLine and ASCII lower-casing. `re`'s `\s` is taken as space, tab, newline, carriage return, form feed and vertical tab.
- ConfigTemplate.UniqueId: Python's `hash` is an uninterpreted parameter.
- Utils.UnpackSingleton: `utils.py` is not part of this model. The function is defined from its unit test, and only the value kinds the test uses are modelled.
- `trove-manage` command bodies, `main`, `add_command_parsers` and reflection (`getattr`, `inspect`) are foreign. `dir(obj)` with callability, and the parsed options of the chosen category, are parameters.
- Early-return searches are recursive functions over the list, not loops: KeysRequireRestart (trove/common/configurations.py:41), FindRule (trove/common/configurations.py:30 and trove/configuration/service.py:223), ValidateConfiguration (trove/configuration/service.py:168), ShowParameter (trove/configuration/service.py:240) and FindRenamedConfig (trove/guestagent/datastore/experimental/redis/service.py:289). Each returns what its loop returns, with the same order of checks. Only the loop variable changes in those loops, so no state is lost.
- PxcCluster.NodeSpec: a volume size is a number or a text. A JSON float, which `int()` truncates, and `null` or a boolean, which raise TypeError or read as 0/1, are not modelled.
- Other request bodies and the validation rules are typed records. In the source, an update body without `configuration` raises KeyError. The validator reads a rule with subscripts (trove/configuration/service.py:176 and 224), so there a rule without `type` or `name` raises KeyError. `load_items` reads rules with `.get` (trove/configuration/models.py:161 and 166): there a nameless rule matches the key `None`, and a rule without a type falls through to `str()`. `do_configs_require_restart` also uses `.get` (trove/common/configurations.py:30 and 44): a nameless rule matches no key, and a missing `dynamic` reads as false. The model gives every rule a name and a type, so none of these paths is modelled. The grow nodes and the `config_contents` argument of `reset_configuration` do model their missing keys.
- ConfigurationModels.ConvertValue: the database layer is taken to hand the value column back as `unicode`, so `str()` fails on text outside ASCII; a driver that returned byte strings would not fail there. Under a boolean or integer rule, `int()` of `unicode` also accepts non-ASCII decimal digits, which the integer parser does not.

## Findings

| source | as written | input that shows it | evidently intended | confidence | as-written member | corrected member |
|---|---|---|---|---|---|---|
| trove/guestagent/datastore/experimental/redis/service.py:55-66 | `except ConnectionError` comes before `except BusyLoadingError`, and in the Redis client library BusyLoadingError is a subclass of ConnectionError | a ping that raises BusyLoadingError while the server loads its data set: reported SHUTDOWN | BusyLoadingError reported as BLOCKED | high, assuming the Redis client's exception hierarchy; not executed | RedisService.BusyLoadingShadowed | RedisService.ActualDbStatus |
