# Zikula glue logic in Dafny

This project models the small pieces of sequential logic inside the
request handlers and listeners of the Zikula application framework:

- the form list-selector plugin's state (`BaseListSelector`);
- the blocks module's admin handlers: list-filter normalisation, the
  `mid:bkey` block id split, the position-name check, the
  assigned/unassigned partition of blocks, the collapse configuration and
  the delete confirmations;
- the categories module's Ajax handlers: mode to access-level and label
  mapping, the edit dialog, the save defaults, the path-rebuild rule, the
  leaf/non-leaf split, resequencing, activation and deactivation;
- the extensions module's hook UI listener: the guard, the filtering of
  subscriber and provider candidates with their area totals, the grouping
  of areas by category and the grouping of bindings by category and
  subscriber area;
- the theme module's theme chooser: excluding the current theme, preview
  image fallback, the page slice and the pager count;
- the blocks module's user handlers: the display guard and the collapse
  toggle;
- the Users module's session-clear listener.

Framework services are abstracted away and become inputs:

- permission checks are predicates;
- ORM lookups, the hook registry, `file_exists` and `DataUtil::formatForOS` are functions;
- request query and post data are maps.

PHP values are modelled by `Php.Value`, with PHP 7.0's loose comparison
(`==`), truthiness, `empty`, `isset`, `(int)` casts and array-key
conversion written out. Entities and PHP arrays that are read by key are
`map<string, Value>`; the lists the code builds by appending are `seq`s.
The theme chooser's preview array, whose order the page shows, is an
ordered sequence of key/value entries.

Where the source updates a value step by step in place, a method performs
the steps and a function states the result, and the method's `ensures`
equates the two: `ApplySort` and `Sorted`, `FillDefaults` and `Defaulted`,
`SaveDefaults` and `SaveDefaulted`, `IndexThemes` and the theme
functions, and the grouping and filtering loops of the hook UI.

Modules:

- `Php`: PHP values and operators.
- `Framework`: access levels, the failure kinds (the exceptions and the
  bad-data response) and `Result`.
- `FormListSelector`: `BaseListSelector.php`.
- `BlocksAdmin`: the blocks admin controller.
- `BlocksUser`: the blocks user controller.
- `CategoriesAjax`: the categories Ajax controller.
- `HookUi`: `HookUiListener.php`.
- `ThemeUser`: the theme user controller.
- `UsersListener`: `ClearUsersNamespaceListener.php`.

## Model

| member | source | states |
|---|---|---|
| FormListSelector.BaseListSelector.constructor | src/lib/Form/Plugin/BaseListSelector.php:82-125 | a fresh plugin is valid, has no items, and every other property is null |
| FormListSelector.BaseListSelector.Create | src/lib/Form/Plugin/BaseListSelector.php:146-158 | `inputName` is the id; `readOnly` and `mandatory` default to false and `dataBased` to true; `dataField` defaults to the id only when the key is absent, so an explicit null is kept; `itemsDataField` defaults to id + "Items" when unset or null; `isValid` becomes true; group, error message and items are untouched |
| FormListSelector.BaseListSelector.SetError | src/lib/Form/Plugin/BaseListSelector.php:195-199 | the plugin becomes invalid and the error message is the given one |
| FormListSelector.BaseListSelector.ClearValidation | src/lib/Form/Plugin/BaseListSelector.php:208-212 | the plugin is valid again and has no error message, whatever came before |
| FormListSelector.BaseListSelector.GetSelectedValue | src/lib/Form/Plugin/BaseListSelector.php:301-304 | the base class has no selected value (null) |
| FormListSelector.BaseListSelector.SetSelectedValue | src/lib/Form/Plugin/BaseListSelector.php:289-292 | the base class accepts any value and changes nothing |
| FormListSelector.StoreSelected | src/lib/Form/Plugin/BaseListSelector.php:225-236 | a save that is not data-based leaves the data unchanged; otherwise only the written key (the data field, or the group) may change or appear, and every other key keeps its value; with no group the data field holds the value; with a group the group entry after the write is `GroupEntryAfterWrite` of the old entry (a missing entry counts as an empty table): a table gets the key, and null, false or '' become a one-key table |
| FormListSelector.GroupWriteKeepsOtherKeys | src/lib/Form/Plugin/BaseListSelector.php:231-233 | writing the data field into an existing group table keeps the group's other keys |
| FormListSelector.BaseListSelector.SaveValue | src/lib/Form/Plugin/BaseListSelector.php:225-236 | the data after the save is `StoreSelected` of the base selected value (null); not data-based leaves the data as it was; keys other than the written one are kept |
| FormListSelector.FoundSelected | src/lib/Form/Plugin/BaseListSelector.php:255-270 | in the scope (the data, or the group's table), a value is found iff the data field is set there, and is then that entry; without a group a null-like data field finds nothing; a missing group finds nothing |
| FormListSelector.FoundItems | src/lib/Form/Plugin/BaseListSelector.php:255-270 | items are found iff the items field is not null-like and is set in the scope, and are then that entry |
| FormListSelector.BaseListSelector.LoadValue | src/lib/Form/Plugin/BaseListSelector.php:249-278 | a data-based load selects the found value (null when the key or group is missing) and replaces the items only when the items key is set in the scope; a load that is not data-based changes nothing |
| FormListSelector.LoadAfterSave | src/lib/Form/Plugin/BaseListSelector.php:225-270 | loading after a data-based save of value v, with the same group and data field, finds v again |
| FormListSelector.BaseListSelector.AddItem | src/lib/Form/Plugin/BaseListSelector.php:314-321 | exactly one item {text, value} is appended; the earlier items are unchanged |
| FormListSelector.BaseListSelector.SetItems | src/lib/Form/Plugin/BaseListSelector.php:333-336 | the item list becomes the given list |
| BlocksAdmin.DefaultSort | src/system/Zikula/Module/BlocksModule/Controller/AdminController.php:79 | the sort key is `bid` unless the filter has a non-empty one, which is lowercased |
| BlocksAdmin.DefaultSortDir | src/system/Zikula/Module/BlocksModule/Controller/AdminController.php:80 | the direction is `ASC` unless the filter has a non-empty one; a non-empty string is uppercased |
| BlocksAdmin.ClampSortDir | src/system/Zikula/Module/BlocksModule/Controller/AdminController.php:84-86 | the direction ends as `ASC` or `DESC`; a string is kept only when it is exactly `DESC`, anything else becomes `ASC` |
| BlocksAdmin.SortDirIsAscOrDesc | src/system/Zikula/Module/BlocksModule/Controller/AdminController.php:84-86 | a string direction always clamps to `ASC` or `DESC`, and to `DESC` iff it was exactly `DESC`, so a lowercase `desc` becomes `ASC` |
| BlocksAdmin.Sorted | src/system/Zikula/Module/BlocksModule/Controller/AdminController.php:79-86 | the filter gains `sort` and `sortdir`: the query's values override the defaults, the direction is clamped, and every other entry is kept |
| BlocksAdmin.ApplySort | src/system/Zikula/Module/BlocksModule/Controller/AdminController.php:79-86 | the in-place assignments give exactly `Sorted` |
| BlocksAdmin.Defaulted | src/system/Zikula/Module/BlocksModule/Controller/AdminController.php:87-90 | `blockposition_id`, `module_id` and `active_status` default to 0 and `language` to '' only when unset; set values and all other entries are kept |
| BlocksAdmin.FillDefaults | src/system/Zikula/Module/BlocksModule/Controller/AdminController.php:87-90 | the in-place assignments give exactly `Defaulted` |
| BlocksAdmin.NormaliseFilter | src/system/Zikula/Module/BlocksModule/Controller/AdminController.php:62-90 | access is denied iff edit permission is missing; otherwise the filter is the posted one (the session's when none is posted, empty when `clear` is set), then sorted, then defaulted, and the session is cleared iff `clear` is truthy |
| BlocksAdmin.Explode | src/system/Zikula/Module/BlocksModule/Controller/AdminController.php:511 | `explode(':')` gives at least one field and no field contains `:` |
| BlocksAdmin.ImplodeExplode | src/system/Zikula/Module/BlocksModule/Controller/AdminController.php:511 | joining the fields with `:` gives the block id back |
| BlocksAdmin.ExplodeField | src/system/Zikula/Module/BlocksModule/Controller/AdminController.php:511 | a field without `:` splits off as the first field |
| BlocksAdmin.ExplodeImplode | src/system/Zikula/Module/BlocksModule/Controller/AdminController.php:511 | splitting a join of colon-free fields gives the fields back |
| BlocksAdmin.BlockIdSplit | src/system/Zikula/Module/BlocksModule/Controller/AdminController.php:511-513 | `mid:bkey` yields `mid` as the module id and `bkey` as the block key |
| BlocksAdmin.PrepareBlock | src/system/Zikula/Module/BlocksModule/Controller/AdminController.php:505-522 | an empty block id is an invalid argument and nothing else is; otherwise `mid`/`bkey` are the fields of the id, `language` defaults to '', `collapsable` to 0 and `defaultstate` to 1, and every other posted field is kept |
| BlocksAdmin.CheckPositionAsWritten | src/system/Zikula/Module/BlocksModule/Controller/AdminController.php:632-642 | the check as written: access is denied without admin permission; otherwise a position is accepted iff its name is set, non-empty and PCRE's `^[a-z0-9_-]*$` (case-insensitive, no D modifier) matches it, and its description is set |
| BlocksAdmin.CheckPosition | src/system/Zikula/Module/BlocksModule/Controller/AdminController.php:632-642 | corrected check, anchored at the very end of the name: access is denied without admin permission; otherwise a position is accepted iff its name is set, non-empty and made only of ASCII letters, digits, `_` and `-`, and its description is set; the accepted position carries that name and description |
| BlocksAdmin.PositionCheckDifference | src/system/Zikula/Module/BlocksModule/Controller/AdminController.php:640-642 | the check as written accepts exactly what `CheckPosition` accepts plus valid names followed by one newline |
| BlocksAdmin.TrailingNewlineAccepted | src/system/Zikula/Module/BlocksModule/Controller/AdminController.php:640 | the name "main\n" passes the pattern as written and fails the anchored check |
| BlocksAdmin.Unplaced | src/system/Zikula/Module/BlocksModule/Controller/AdminController.php:695-705 | the blocks left over are no more than all blocks (their membership is stated by `UnplacedMembers`) |
| BlocksAdmin.UnplacedNothing | src/system/Zikula/Module/BlocksModule/Controller/AdminController.php:695-705 | with no placements every block is unassigned, in order |
| BlocksAdmin.UnplacedStep | src/system/Zikula/Module/BlocksModule/Controller/AdminController.php:695-705 | removing one more placement's blocks from the leftovers is the same as removing all placements at once |
| BlocksAdmin.UnplacedMembers | src/system/Zikula/Module/BlocksModule/Controller/AdminController.php:695-705 | a block is unassigned iff it is among all blocks and its bid is not a placement bid |
| BlocksAdmin.FirstPlacementSeesAll | src/system/Zikula/Module/BlocksModule/Controller/AdminController.php:696-703 | the module name found for a placement's first occurrence is the one from the full block list |
| BlocksAdmin.TakePlacement | src/system/Zikula/Module/BlocksModule/Controller/AdminController.php:696-704 | one pass of the inner loop yields the placement's block with its module name and removes exactly the blocks with that bid |
| BlocksAdmin.PartitionBlocks | src/system/Zikula/Module/BlocksModule/Controller/AdminController.php:695-705 | assigned has one entry per placement in placement order; unassigned is exactly the blocks whose bid is not a placement bid, in original order |
| BlocksAdmin.CollapseableSetting | src/system/Zikula/Module/BlocksModule/Controller/AdminController.php:836-851 | access is denied iff admin permission is missing; the stored value is always numeric, and is the posted value iff that is numeric (0 otherwise) |
| BlocksAdmin.DeleteBid | src/system/Zikula/Module/BlocksModule/Controller/AdminController.php:549-552 | the block id is the query's `bid` cast to int, or the posted `bid` when that is 0 |
| BlocksAdmin.DeleteBlock | src/system/Zikula/Module/BlocksModule/Controller/AdminController.php:546-584 | access is checked first; then a missing or empty block record is not found; a found block is removed with a non-empty posted confirmation, and confirmation is asked otherwise |
| BlocksAdmin.ReadId | src/system/Zikula/Module/BlocksModule/Controller/AdminController.php:762-771 | a GET reads the id from the query, a POST from the post data falling back to the arguments, each cast to int; any other method reads null |
| BlocksAdmin.DeletePid | src/system/Zikula/Module/BlocksModule/Controller/AdminController.php:762-775 | a truthy `objectid` overrides `pid` |
| BlocksAdmin.DeletePosition | src/system/Zikula/Module/BlocksModule/Controller/AdminController.php:759-796 | existence is checked first (a missing or empty record is not found), then permission on the found position; a found, permitted position is removed with a non-empty posted confirmation, and confirmation is asked otherwise |
| BlocksUser.MainAction | src/system/Zikula/Module/BlocksModule/Controller/UserController.php:36-39 | always not found |
| BlocksUser.RequestFallback | src/system/Zikula/Module/BlocksModule/Controller/UserController.php:57-64 | a request integer is the query's when non-zero, else the posted one, else the argument, else 0 |
| BlocksUser.DisplayAction | src/system/Zikula/Module/BlocksModule/Controller/UserController.php:53-83 | access is denied iff `showinactive` is non-zero without edit permission; the block is shown iff `bid > 0` and the block is active or `showinactive` is set, with the arguments and the bid; otherwise the result is blank |
| BlocksUser.InactiveNeedsEditor | src/system/Zikula/Module/BlocksModule/Controller/UserController.php:67-79 | an inactive block is shown only to an editor who asked for inactive blocks |
| BlocksUser.Toggled | src/system/Zikula/Module/BlocksModule/Controller/UserController.php:100-104 | the new state is 0 or 1, and 0 iff the old state loosely equals 1 |
| BlocksUser.ToggleTwice | src/system/Zikula/Module/BlocksModule/Controller/UserController.php:100-104 | toggling twice restores the state exactly when it was 0 or 1; after one toggle the state alternates |
| BlocksUser.UserBlockEntity.ChangeStatus | src/system/Zikula/Module/BlocksModule/Controller/UserController.php:100-104 | the record's `active` becomes `Toggled` of its old value |
| BlocksUser.ChangeStatusAction | src/system/Zikula/Module/BlocksModule/Controller/UserController.php:92-110 | the found record is toggled; without a record nothing is stored |
| CategoriesAjax.AccessLevelFor | src/system/Zikula/Module/CategoriesModule/Controller/AjaxController.php:86 | the level is EDIT iff the mode loosely equals `edit`, ADD otherwise |
| CategoriesAjax.ModeLevel | src/system/Zikula/Module/CategoriesModule/Controller/AjaxController.php:366 | for a string mode, EDIT iff the mode is exactly `edit` |
| CategoriesAjax.SaveActionLabel | src/system/Zikula/Module/CategoriesModule/Controller/AjaxController.php:451 | `saveAction` reports `edit` iff the mode is `edit`, else `add` |
| CategoriesAjax.EditActionLabel | src/system/Zikula/Module/CategoriesModule/Controller/AjaxController.php:124 | `editAction` reports `add` iff the mode is `new`, else `edit` |
| CategoriesAjax.LabelsAgree | src/system/Zikula/Module/CategoriesModule/Controller/AjaxController.php:124-451 | the two labels (lines 124 and 451) agree iff the mode is `new` or `edit`; for any other mode save says `add` and edit says `edit` |
| CategoriesAjax.ArgOrPost | src/system/Zikula/Module/CategoriesModule/Controller/AjaxController.php:85-92 | a set argument wins, then a posted value, then the default |
| CategoriesAjax.EditCategory | src/system/Zikula/Module/CategoriesModule/Controller/AjaxController.php:81-133 | access is denied without the mode's level; in edit mode a falsy cid is bad data, and a truthy cid is not found iff the lookup gives nothing or an empty record, with no other error; an edit shows the stored category; any other mode always shows a new one with `sort_value` '0' under `parent` (default 1); the label is `EditActionLabel`; validation errors give the bad-data variant of the dialog |
| CategoriesAjax.SaveDefaulted | src/system/Zikula/Module/CategoriesModule/Controller/AjaxController.php:374-382 | unset `is_locked` and `is_leaf` become 0 and an unset `status` becomes `I`; set values and all other fields are kept |
| CategoriesAjax.SaveDefaults | src/system/Zikula/Module/CategoriesModule/Controller/AjaxController.php:374-382 | the in-place writes give exactly `SaveDefaulted` |
| CategoriesAjax.NameChangedAsWritten | src/system/Zikula/Module/CategoriesModule/Controller/AjaxController.php:427 | the rebuild rule as written: identical names never rebuild, a null previous name rebuilds iff the new one is non-empty, and for names that are not both numeric it rebuilds iff the names differ |
| CategoriesAjax.NameChanged | src/system/Zikula/Module/CategoriesModule/Controller/AjaxController.php:410-429 | the corrected rebuild rule: a string previous name rebuilds iff it differs from the new name, and a previous name that is not a string always rebuilds |
| CategoriesAjax.ScanTen | src/system/Zikula/Module/CategoriesModule/Controller/AjaxController.php:427 | "10" is a numeric string denoting 10 |
| CategoriesAjax.ScanOneEOne | src/system/Zikula/Module/CategoriesModule/Controller/AjaxController.php:427 | "1e1" is a numeric string denoting 10 |
| CategoriesAjax.RenameToEqualNumber | src/system/Zikula/Module/CategoriesModule/Controller/AjaxController.php:427 | renaming "10" to "1e1" is not a change under the loose comparison as written, but is a change of name |
| CategoriesAjax.RebuildRulesAgree | src/system/Zikula/Module/CategoriesModule/Controller/AjaxController.php:427-429 | the two rebuild rules agree whenever one of the names is not numeric |
| CategoriesAjax.Ids | src/system/Zikula/Module/CategoriesModule/Controller/AjaxController.php:442-447 | the ids of the categories, one per category, in order |
| CategoriesAjax.LeafStatus | src/system/Zikula/Module/CategoriesModule/Controller/AjaxController.php:438-448 | the loop builds the leaf and non-leaf id lists, each in category order |
| CategoriesAjax.LeafPartition | src/system/Zikula/Module/CategoriesModule/Controller/AjaxController.php:438-448 | the two lists' lengths sum to the category count and together hold exactly the categories' ids |
| CategoriesAjax.LeafPlacement | src/system/Zikula/Module/CategoriesModule/Controller/AjaxController.php:443-447 | each category's id lands in the list its `is_leaf` flag selects |
| CategoriesAjax.Moved | src/system/Zikula/Module/CategoriesModule/Controller/AjaxController.php:53-55 | a moved category takes the posted `lineno` as `sort_value` and a reference to the posted parent; every other field is kept |
| CategoriesAjax.MovedIdempotent | src/system/Zikula/Module/CategoriesModule/Controller/AjaxController.php:53-55 | moving a category twice with the same posted data is the same as moving it once |
| CategoriesAjax.Resequenced | src/system/Zikula/Module/CategoriesModule/Controller/AjaxController.php:50-57 | the store keeps its ids; a visited category whose id is a key of the posted data is moved, and all other categories are unchanged |
| CategoriesAjax.CategoryStore.Resequence | src/system/Zikula/Module/CategoriesModule/Controller/AjaxController.php:40-65 | without edit permission access is denied and nothing changes; otherwise the store becomes `Resequenced`, and no response is returned, since the handler ends without a `return` (`Ok(None)`) |
| CategoriesAjax.WithStatus | src/system/Zikula/Module/CategoriesModule/Controller/AjaxController.php:316 | the status is set and every other field of the entity is kept |
| CategoriesAjax.CategoryStore.SetStatus | src/system/Zikula/Module/CategoriesModule/Controller/AjaxController.php:307-317 | access is denied without edit permission; otherwise a found registry entry gets the status and nothing else changes |
| CategoriesAjax.CategoryStore.Activate | src/system/Zikula/Module/CategoriesModule/Controller/AjaxController.php:307-325 | the found registry entry's status becomes `A` and nothing else changes |
| CategoriesAjax.CategoryStore.Deactivate | src/system/Zikula/Module/CategoriesModule/Controller/AjaxController.php:334-352 | the found registry entry's status becomes `I` and nothing else changes |
| CategoriesAjax.SaveAction | src/system/Zikula/Module/CategoriesModule/Controller/AjaxController.php:361-460 | uses the corrected rebuild rule `NameChanged`; access is checked with the mode's level; data that do not validate (after the defaults) redisplay the edit dialog; in edit mode an id that `find` does not resolve is a fatal error (`merge` on null); otherwise the save reports the save label, whether the path is rebuilt (iff the stored or fresh entity's name differs from the new one) and the leaf split of the subtree |
| HookUi.LastIndexFrom | src/system/Zikula/Module/ExtensionsModule/Listener/HookUiListener.php:43-44 | the last occurrence of the needle at or before an index, or none when there is none |
| HookUi.LastIndexOf | src/system/Zikula/Module/ExtensionsModule/Listener/HookUiListener.php:43-44 | `strrpos`: the last occurrence, or none when the needle does not occur |
| HookUi.FoundPastStartIff | src/system/Zikula/Module/ExtensionsModule/Listener/HookUiListener.php:43-44 | a `strrpos` result is truthy iff the needle occurs at some index above 0 |
| HookUi.HandlesIff | src/system/Zikula/Module/ExtensionsModule/Listener/HookUiListener.php:43-46 | the listener handles the event iff the method loosely equals `hooks` and `_Controller_Admin` or `\AdminController` occurs at an index above 0 |
| HookUi.ByCategoryContents | src/system/Zikula/Module/ExtensionsModule/Listener/HookUiListener.php:103-107 | a category is present iff it has an area, and it lists exactly its own areas in area order |
| HookUi.GroupAreas | src/system/Zikula/Module/ExtensionsModule/Listener/HookUiListener.php:103-107 | the grouping loop builds exactly `ByCategory` |
| HookUi.KeptCandidates | src/system/Zikula/Module/ExtensionsModule/Listener/HookUiListener.php:116-151 | no more kept candidates than registry entries, each with an index into the registry (what is kept is stated by `KeptSound` and `KeptComplete`) |
| HookUi.AreaTotalAppend | src/system/Zikula/Module/ExtensionsModule/Listener/HookUiListener.php:135 | appending a candidate adds its area count to the total |
| HookUi.KeptSound | src/system/Zikula/Module/ExtensionsModule/Listener/HookUiListener.php:116-151 | every kept candidate is its registry entry, is not dropped (self or unpermitted) and carries that entry's areas; the kept candidates are in registry order |
| HookUi.KeptComplete | src/system/Zikula/Module/ExtensionsModule/Listener/HookUiListener.php:116-151 | every registry entry that is not dropped is kept |
| HookUi.FilterCandidates | src/system/Zikula/Module/ExtensionsModule/Listener/HookUiListener.php:116-151 | the filtering loop keeps exactly `KeptCandidates`, and its area counter is the sum of the kept candidates' area counts |
| HookUi.SelfExclusion | src/system/Zikula/Module/ExtensionsModule/Listener/HookUiListener.php:119-212 | the current module is never a kept subscriber (lines 119-122), and is a kept provider only when it is subscriber-self-capable (lines 203-206) |
| HookUi.AttachmentsOf | src/system/Zikula/Module/ExtensionsModule/Listener/HookUiListener.php:166-169 | each binding of a subscriber area becomes one attachment of its provider area under its category and that subscriber area, in order |
| HookUi.SortingContents | src/system/Zikula/Module/ExtensionsModule/Listener/HookUiListener.php:165-181 | `currentSorting[category][area]` exists iff some binding attaches a provider area there, and lists exactly those provider areas in binding order; no category is empty |
| HookUi.PushBindings | src/system/Zikula/Module/ExtensionsModule/Listener/HookUiListener.php:167-180 | the inner loop adds one subscriber area's bindings to the sorting in order |
| HookUi.GroupBindings | src/system/Zikula/Module/ExtensionsModule/Listener/HookUiListener.php:160-194 | the loops build `SortingOf` of all attachments, and the counter is the number of attachments |
| HookUi.AttachedTotal | src/system/Zikula/Module/ExtensionsModule/Listener/HookUiListener.php:164-180 | the attached-area total is the number of bindings over all subscriber areas |
| HookUi.Hooks | src/system/Zikula/Module/ExtensionsModule/Listener/HookUiListener.php:39-252 | not handled unless the guard holds; access denied without admin permission on the module; otherwise the view's area groupings, kept candidates, totals and sorting are the functions above, the subscriber part exists iff the module is a provider with areas (total 0 otherwise), and the provider list is empty unless the module is a subscriber with areas |
| ThemeUser.PreviewFallback | src/system/Zikula/Module/ThemeModule/Controller/UserController.php:68-74 | the preview and large images come from the theme's directory when its medium preview exists, and are the theme module's defaults otherwise; every other field is kept |
| ThemeUser.Keys | src/system/Zikula/Module/ThemeModule/Controller/UserController.php:79 | the keys of the preview entries, in order |
| ThemeUser.Put | src/system/Zikula/Module/ThemeModule/Controller/UserController.php:79 | writing under a key keeps the array's length when the key is there, and adds one entry otherwise |
| ThemeUser.PutSpec | src/system/Zikula/Module/ThemeModule/Controller/UserController.php:79 | a new key is appended with its value; an existing key keeps its position and gets the value |
| ThemeUser.PutKeys | src/system/Zikula/Module/ThemeModule/Controller/UserController.php:79 | the keys stay the same or gain the new key at the end, and stay distinct |
| ThemeUser.PreviewKeepsName | src/system/Zikula/Module/ThemeModule/Controller/UserController.php:67-75 | adding the preview images changes neither the name nor whether the theme is the current one |
| ThemeUser.Remaining | src/system/Zikula/Module/ThemeModule/Controller/UserController.php:75-77 | the themes left are among the themes, none of them current, and no more than the themes |
| ThemeUser.IndexThemes | src/system/Zikula/Module/ThemeModule/Controller/UserController.php:64-81 | the loop yields the previews, the current theme's picture and the themes left after removing the current one, as the specification functions define them |
| ThemeUser.PreviewsExcludeCurrent | src/system/Zikula/Module/ThemeModule/Controller/UserController.php:75-80 | preview keys are distinct, and every preview is a non-current theme, keyed by its name, with its preview images |
| ThemeUser.PreviewsComplete | src/system/Zikula/Module/ThemeModule/Controller/UserController.php:75-80 | every non-current theme with a usable name appears among the previews |
| ThemeUser.NumItems | src/system/Zikula/Module/ThemeModule/Controller/UserController.php:77-94 | the pager count is the number of themes minus the current ones, and equals the number of themes iff no theme is current |
| ThemeUser.CurrentPicFound | src/system/Zikula/Module/ThemeModule/Controller/UserController.php:65-76 | the current picture is set iff some theme is current, and is then the medium preview path of a current theme's directory |
| ThemeUser.Index | src/system/Zikula/Module/ThemeModule/Controller/UserController.php:41-98 | switching disabled is a runtime error before anything else; without comment permission access is denied; otherwise the page is the slice of the previews from `startnum-1` with at most `itemsperpage` entries, with the pager count, the current picture and the current theme |
| ThemeUser.FirstPage | src/system/Zikula/Module/ThemeModule/Controller/UserController.php:53-83 | with the default `startnum` the page is the first `itemsperpage` previews |
| UsersListener.DoClearAsWritten | src/system/Zikula/Module/UsersModule/Listener/ClearUsersNamespaceListener.php:48-49 | the guard as written; for a non-empty module name it holds iff the event is the logout, so the exception branch never fires |
| UsersListener.AsWrittenMissesUsersException | src/system/Zikula/Module/UsersModule/Listener/ClearUsersNamespaceListener.php:49 | an exception whose `modinfo` names the Users module is not cleared as written, but is cleared by the intended guard |
| UsersListener.LogoutClears | src/system/Zikula/Module/UsersModule/Listener/ClearUsersNamespaceListener.php:48 | the logout event always clears |
| UsersListener.DoClear | src/system/Zikula/Module/UsersModule/Listener/ClearUsersNamespaceListener.php:46-49 | the corrected guard: it holds iff the event is the logout, or it is the exception with a non-empty array `modinfo` whose `name` is set and loosely equals the module name; other events, and a missing or empty `modinfo`, never clear |
| UsersListener.ClearUsersNamespace | src/system/Zikula/Module/UsersModule/Listener/ClearUsersNamespaceListener.php:51-56 | corrected listener: under the intended guard `DoClear`, only the Users namespace is removed from the session; otherwise the session is unchanged |

## Left out

- PHP versions: the model follows PHP 7.0. Hex strings are not numeric, `(int)` of a string reads its integer prefix only, and loose comparison of two numeric strings compares their numbers.
- Floating point: numeric strings are compared through their exact rational value. IEEE rounding, `INF` and `NAN` are not modelled.
- Integer width: 64-bit overflow of integers and of `(int)` casts is not modelled; integers are unbounded.
- Loose comparison of two arrays is taken as identity. PHP compares them element by element.
- Reading by key: only PHP arrays with string keys are tables in this model. A PHP list (keys 0..n-1) and every non-array value (a string's characters, object properties) read as an empty table, so `$list[0]` reads as null where PHP returns the element. This holds for every operation: the list selector's data and group scope, `StoreSelected`'s group entry, and `resequenceAction`'s decoded `data` when the posted JSON is an array.
- FormListSelector.BaseListSelector.LoadValue: found items that are not a list are not adopted. PHP would assign them as they are.
- FormListSelector.StoreSelected: a group entry that is a PHP list keeps its old value. PHP would add the key to that array; lists read by key are empty in this model.
- FormListSelector.StoreSelected: a group entry that is a non-empty string keeps its old value. PHP would write one character at a string offset.
- FormListSelector.StoreSelected: a group entry that is an integer or `true` keeps its old value, as in PHP, which refuses to index a scalar; PHP's warning is not modelled.
- ThemeUser.Index: `array_slice` renumbers integer-like keys. This renumbering of numeric theme names is not modelled; keys are kept as strings.
- ORM finds, references, persistence and flush: entities are maps in memory, and lookups are given functions.
- Registry and hook framework: theme lists, block info, hook bundles, areas, categories, bindings and version metadata are given functions or inputs.
- The category helpers (validation, name/parent/display-name processing, path and ipath construction, attributes, tree-to-JS) are not shown; they are given functions or left out.
- Permission checks are given predicates.
- HookUi: the groupings `subscriberAreasAndCategories`, each provider's `areasAndCategories` and `areasSorting` are Dafny maps. PHP's insertion order of their keys (the categories, and the subscriber areas inside a category of `areasSorting`), in which the page lists them, is not captured. The lists of areas they hold keep their order.
- HookUi: the view's `subscriberAreasToCategories` and each candidate's `areasToCategories` are left out. They are area-to-category lookups, assigned as they come from the hook bundles.
- Template rendering, view assignment and translation are left out. The `areasToTitles` and `areasSortingTitles` maps are title lookups only, so they are left out too.
- ThemeUser.Index: `defaulttheme` is a registry lookup, so it is left out.
- HookUi: `moduleservices` is registry and template glue, so it is left out.
- The theme controller's `resettodefault` and its mobile cookie actions are left out: they are cookies and redirects.
- Categories Ajax: `copy`, `delete` and `deletedialog` are tree operations behind the category helpers, so they are left out.
- Blocks admin: `newposition`, `modify`, `update`, `newblock` and the rest of `modifyposition` are ORM and template glue, so they are left out.
- Redirects, CSRF and Ajax token checks, sessions and cookies are left out; their results are plain inputs.
- `src/lib/Form/Plugin/FloatInput.php` is left out: it is floating-point parsing and locale number formatting.
- The Users module's `Constant.php` is not part of this model. The module name and the session namespace are parameters.

## Findings

| source | as written | input that shows it | evidently intended | confidence | as-written member | corrected member |
|---|---|---|---|---|---|---|
| src/system/Zikula/Module/UsersModule/Listener/ClearUsersNamespaceListener.php:49 | the exception branch demands that `modinfo['name']` is NOT set and also equals the module name; an unset name reads as null and equals only '' | event `frontcontroller.exception` with `modinfo = ['name' => <Users module name>]` does not clear | clear when `modinfo['name']` is set and equals the module name | not executed | UsersListener.AsWrittenMissesUsersException | UsersListener.ClearUsersNamespace |
| src/system/Zikula/Module/BlocksModule/Controller/AdminController.php:640 | `/^[a-z0-9_-]*$/i` without the D modifier lets `$` match before a final newline | position name "main\n" is accepted | only letters, digits, `_` and `-` up to the very end | not executed | BlocksAdmin.TrailingNewlineAccepted | BlocksAdmin.CheckPosition |
| src/system/Zikula/Module/CategoriesModule/Controller/AjaxController.php:427 | `$prevCategoryName != $category['name']` compares two numeric strings by number | renaming category "10" to "1e1" rebuilds no path although the name changed | rebuild whenever the stored name differs from the new one | not executed | CategoriesAjax.RenameToEqualNumber | CategoriesAjax.SaveAction |
